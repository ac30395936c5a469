/**
  The application state of script.js (`inventory`, `sha`, `lastUpdated`) and the five
  operations that change it: loading and saving the database file, and the three
  user operations on the list.
 */
module Store {
  import opened Wrappers
  import opened Text
  import opened IntParsing
  import opened Items
  import opened Edits

  /** The database document `{items, lastUpdated}` as it is written. */
  datatype Snapshot = Snapshot(items: seq<Item>, lastUpdated: string)

  /** The database document as read back and decoded: `content.items` and
      `content.lastUpdated`, each of which may be absent (or `null`). */
  datatype Content = Content(items: Option<seq<Item>>, lastUpdated: Option<string>)

  /** What reading the database file produced. `FetchFailed`: the request threw.
      `Fetched`: the request returned the file's `sha`; `decoded` is the parsed
      document, or `None` when base64 decoding, `JSON.parse` or the access to
      `content.items` threw. */
  datatype Fetch =
    | FetchFailed
    | Fetched(sha: string, decoded: Option<Content>)

  /** What `saveDatabase` submits: the document and the token of the version it
      replaces (the `sha` last read, `null` before any successful read). */
  datatype WriteRequest = WriteRequest(content: Snapshot, baseSha: Option<string>)

  /** `btoa` accepts only code points up to U+00FF. `JSON.stringify` leaves every other
      character of a name as it is, and the ids, quantities and the ISO timestamp are
      ASCII, so the document can be encoded exactly when every name is Latin-1. */
  predicate Encodable(items: seq<Item>) {
    forall j :: 0 <= j < |items| ==> Latin1(items[j].name)
  }

  predicate Latin1(s: string) {
    forall i :: 0 <= i < |s| ==> s[i] as int <= 0xFF
  }

  /** A name spelt with a typographic apostrophe (U+2019), such as "Dell’Acqua", cannot
      be encoded, so no save of a list holding it is ever sent. */
  lemma TypographicApostropheNotEncodable()
    ensures !Encodable([Item(1, "Dell\U{2019}Acqua", 1)])
  {
    var items := [Item(1, "Dell\U{2019}Acqua", 1)];
    assert items[0].name[4] as int == 0x2019;
  }

  /** `content.lastUpdated || now`: a missing or empty timestamp is replaced by the
      current time. */
  function StoredTimestamp(stored: Option<string>, now: string): (t: string)
    ensures stored.Some? && stored.value != [] ==> t == stored.value
    ensures stored.None? || stored.value == [] ==> t == now
  {
    if stored.Some? && stored.value != [] then stored.value else now
  }

  class Inventory {
    /** `inventory`: the records, in display order. */
    var items: seq<Item>
    /** `sha`: the version token of the file as last read; `None` is `null`. */
    var sha: Option<string>
    /** `lastUpdated`: the ISO timestamp shown to the user. */
    var lastUpdated: string

    /** The state at page load: an empty list, no token, the current time. */
    constructor (now: string)
      ensures items == [] && sha == None && lastUpdated == now
    {
      items := [];
      sha := None;
      lastUpdated := now;
    }

    /** The request `saveDatabase` builds at time `now`: the list and the timestamp under
        the token last read. There is none when `btoa` throws on the serialised list;
        then nothing is sent. */
    function Outgoing(now: string): (r: Option<WriteRequest>)
      reads this
      ensures r.Some? <==> Encodable(items)
      ensures r.Some? ==> r.value.content == Snapshot(items, now) && r.value.baseSha == sha
    {
      if Encodable(items) then Some(WriteRequest(Snapshot(items, now), sha)) else None
    }

    /** `loadDatabase`. A failed request changes nothing. Otherwise the token is stored
        first; a document that cannot be decoded then leaves the list and timestamp as
        they were, and a decoded one replaces the list (`[]` when it has none) and the
        timestamp. */
    method LoadDatabase(fetch: Fetch, now: string) returns (ok: bool)
      modifies this
      ensures ok <==> fetch.Fetched? && fetch.decoded.Some?
      ensures sha == if fetch.Fetched? then Some(fetch.sha) else old(sha)
      ensures items == if ok then fetch.decoded.value.items.GetOr([]) else old(items)
      ensures lastUpdated == if ok then StoredTimestamp(fetch.decoded.value.lastUpdated, now)
                             else old(lastUpdated)
    {
      if fetch.FetchFailed? {
        return false;
      }
      sha := Some(fetch.sha);
      if fetch.decoded.None? {
        return false;
      }
      var content := fetch.decoded.value;
      items := content.items.GetOr([]);
      lastUpdated := StoredTimestamp(content.lastUpdated, now);
      return true;
    }

    /** `saveDatabase`, given whether the hosting service accepts the write it is sent.
        A list that cannot be encoded makes `btoa` throw before any request, and the
        save fails. Only the timestamp can change, and only on success; the token is
        never refreshed here. */
    method SaveDatabase(accepted: bool, now: string) returns (ok: bool)
      modifies this`lastUpdated
      ensures ok == (Encodable(items) && accepted)
      ensures lastUpdated == if ok then now else old(lastUpdated)
    {
      var request := Outgoing(now);
      if request.None? {
        return false;
      }
      if !accepted {
        return false;
      }
      lastUpdated := now;
      return true;
    }

    /** `updateQuantity(itemId, change)`. The list changes as `UpdateEdit` says, before
        the save and whatever the save's outcome; the timestamp changes only when a save
        was attempted, could be encoded and was accepted. The token is out of reach. */
    method UpdateQuantity(itemId: int, change: int, saveAccepted: bool, now: string)
      modifies this`items, this`lastUpdated
      ensures items == UpdateEdit(old(items), itemId, change).After(old(items))
      ensures lastUpdated == if UpdateEdit(old(items), itemId, change).Applied?
                                && saveAccepted && Encodable(items)
                             then now else old(lastUpdated)
      ensures DistinctIds(old(items)) ==> DistinctIds(items)
      ensures DistinctNames(old(items)) ==> DistinctNames(items)
      ensures NonNegative(old(items)) ==> NonNegative(items)
    {
      UpdatePreservesInvariants(items, itemId, change);
      var found := IndexOfId(items, itemId);
      if found.None? {
        return;
      }
      var k := found.value;
      var newQuantity := items[k].quantity + change;
      if newQuantity < 0 {
        return;
      }
      items := items[k := items[k].(quantity := newQuantity)];
      var saved := SaveDatabase(saveAccepted, now);
    }

    /** `removeItem(itemId)`, with the user's answer to the confirmation dialog. The
        list changes as `RemoveEdit` says, and stays changed when the save fails. */
    method RemoveItem(itemId: int, confirmed: bool, saveAccepted: bool, now: string)
      modifies this`items, this`lastUpdated
      ensures items == RemoveEdit(old(items), itemId, confirmed).After(old(items))
      ensures lastUpdated == if RemoveEdit(old(items), itemId, confirmed).Applied?
                                && saveAccepted && Encodable(items)
                             then now else old(lastUpdated)
      ensures DistinctIds(old(items)) ==> DistinctIds(items)
      ensures DistinctNames(old(items)) ==> DistinctNames(items)
      ensures NonNegative(old(items)) ==> NonNegative(items)
    {
      RemovePreservesInvariants(items, itemId, confirmed);
      var found := IndexOfId(items, itemId);
      if found.None? {
        return;
      }
      if confirmed {
        items := WithoutId(items, itemId);
        var saved := SaveDatabase(saveAccepted, now);
      }
    }

    /** `addNewItem` on the form's two fields, with the user's answer to the merge
        dialog (asked only when a name matches). The name is trimmed and the quantity
        read as `parseInt(...) || 0`; the list then changes as `AddEdit` says, and stays
        changed when the save fails. */
    method AddNewItem(nameInput: string, quantityInput: string, confirmMerge: bool,
                      saveAccepted: bool, now: string)
      modifies this`items, this`lastUpdated
      ensures items == AddEdit(old(items), nameInput, quantityInput, confirmMerge).After(old(items))
      ensures lastUpdated == if AddEdit(old(items), nameInput, quantityInput, confirmMerge).Applied?
                                && saveAccepted && Encodable(items)
                             then now else old(lastUpdated)
      ensures DistinctIds(old(items)) ==> DistinctIds(items)
      ensures NonNegative(old(items)) ==> NonNegative(items)
    {
      var name := Trim(nameInput);
      var quantity := QuantityOf(quantityInput);
      AddEntry(name, quantity, confirmMerge, saveAccepted, now);
    }

    /** The rest of `addNewItem`, once the name and quantity have been read: validation,
        then either the merge into the first matching record or the append of a new
        record, then the save. */
    method AddEntry(name: string, quantity: int, confirmMerge: bool,
                    saveAccepted: bool, now: string)
      modifies this`items, this`lastUpdated
      ensures items == AddValidated(old(items), name, quantity, confirmMerge).After(old(items))
      ensures lastUpdated == if AddValidated(old(items), name, quantity, confirmMerge).Applied?
                                && saveAccepted && Encodable(items)
                             then now else old(lastUpdated)
      ensures DistinctIds(old(items)) ==> DistinctIds(items)
      ensures NonNegative(old(items)) ==> NonNegative(items)
    {
      AddPreservesInvariants(items, name, quantity, confirmMerge);
      if name == [] {
        return;
      }
      if quantity < 0 {
        return;
      }
      var existing := IndexOfName(items, name);
      if existing.Some? {
        if confirmMerge {
          var k := existing.value;
          items := WithQuantity(items, k, items[k].quantity + quantity);
          var saved := SaveDatabase(saveAccepted, now);
          return;
        }
      }
      var newId := NextId(items);
      items := items + [Item(newId, name, quantity)];
      var saved := SaveDatabase(saveAccepted, now);
    }
  }
}
