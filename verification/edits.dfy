/**
  What each of the three user operations of script.js does to the inventory list,
  stated as a value, with the properties the operations promise. The class in
  store.dfy performs these edits in place and is proved to match them.
 */
module Edits {
  import opened Wrappers
  import opened Text
  import opened IntParsing
  import opened Items

  /** The outcome of an operation on the list: it either returned early without touching
      the list or calling `saveDatabase` (invalid input, unknown id, removal declined), or
      it changed the list to `items` and then called `saveDatabase`. */
  datatype Edit = Abandoned | Applied(items: seq<Item>) {

    /** The list after the operation, given the list before it. */
    function After(before: seq<Item>): seq<Item> {
      if Applied? then items else before
    }
  }

  /** `addNewItem` on the current form contents. The name is trimmed and the quantity is
      `parseInt(...) || 0`; an empty name or a negative quantity stops the operation.
      A case-insensitive name match whose merge is confirmed adds the quantity to the
      first matching record; otherwise, also when the merge is declined, a new record
      with a new id is appended. */
  function AddEdit(items: seq<Item>, nameInput: string, quantityInput: string,
                   confirmMerge: bool): Edit
  {
    AddValidated(items, Trim(nameInput), QuantityOf(quantityInput), confirmMerge)
  }

  /** `addNewItem` once the trimmed name and the coerced quantity are known. It stops
      exactly on an empty name or a negative quantity; otherwise the list grows by at
      most one record and no existing record changes its id or name. */
  function AddValidated(items: seq<Item>, name: string, quantity: int, confirmMerge: bool)
    : (r: Edit)
    ensures r.Abandoned? <==> name == [] || quantity < 0
    ensures r.Applied? ==> |items| <= |r.items| <= |items| + 1
    ensures r.Applied? ==> forall j :: 0 <= j < |items| ==>
              r.items[j].id == items[j].id && r.items[j].name == items[j].name
  {
    if name == [] || quantity < 0 then Abandoned
    else match IndexOfName(items, name)
      case Some(k) =>
        if confirmMerge then Applied(WithQuantity(items, k, items[k].quantity + quantity))
        else Applied(items + [Item(NextId(items), name, quantity)])
      case None => Applied(items + [Item(NextId(items), name, quantity)])
  }

  /** `updateQuantity(itemId, change)`: the first record with the id gets
      `quantity + change`, unless there is no such record or the sum is negative. The
      length, every id and every name stay. */
  function UpdateEdit(items: seq<Item>, itemId: int, change: int): (r: Edit)
    ensures r.Applied? ==> |r.items| == |items|
    ensures r.Applied? ==> forall j :: 0 <= j < |items| ==>
              r.items[j].id == items[j].id && r.items[j].name == items[j].name
  {
    match IndexOfId(items, itemId)
    case None => Abandoned
    case Some(k) =>
      if items[k].quantity + change < 0 then Abandoned
      else Applied(WithQuantity(items, k, items[k].quantity + change))
  }

  /** `removeItem(itemId)`: when some record has the id and the user confirms, every
      record with that id is filtered out, and every other record is kept. */
  function RemoveEdit(items: seq<Item>, itemId: int, confirmed: bool): (r: Edit)
    ensures r.Applied? ==> confirmed
    ensures r.Applied? ==> forall x :: x in r.items <==> x in items && x.id != itemId
  {
    if IndexOfId(items, itemId).None? || !confirmed then Abandoned
    else Applied(WithoutId(items, itemId))
  }

  // ---------------------------------------------------------------- addNewItem

  /** The add form is rejected, with nothing changed, exactly when the name holds only
      whitespace or the quantity reads as a negative number. */
  lemma AddRejectsInvalidInput(items: seq<Item>, nameInput: string, quantityInput: string,
                               confirmMerge: bool)
    ensures AddEdit(items, nameInput, quantityInput, confirmMerge).Abandoned?
            <==> (forall i :: 0 <= i < |nameInput| ==> IsWhitespace(nameInput[i]))
                 || QuantityOf(quantityInput) < 0
  {
    TrimEmptyIff(nameInput);
  }

  /** A quantity field that `parseInt` cannot read (no digit at all, text before the
      first digit, a bare `0x`) is not an error: the form behaves exactly as if "0" had
      been typed. */
  lemma AddNonNumericQuantityAsZero(items: seq<Item>, nameInput: string, quantityInput: string,
                                    confirmMerge: bool)
    requires ParseInt(quantityInput) == None
    ensures AddEdit(items, nameInput, quantityInput, confirmMerge)
            == AddEdit(items, nameInput, "0", confirmMerge)
  {
    ParseIntRoundTrip(0);
    assert DecimalString(0) == "0";
  }

  /** With no name match, or with the merge declined, one record is appended at the end
      holding the trimmed name and the quantity, under an id larger than every existing
      id (1 for an empty list, otherwise one past the largest); the earlier records stay
      as they were, in the same order. */
  lemma AddAppendsFreshItem(items: seq<Item>, name: string, quantity: int, confirmMerge: bool)
    requires name != [] && quantity >= 0
    requires !confirmMerge || forall j :: 0 <= j < |items| ==> !SameName(items[j].name, name)
    ensures var e := AddValidated(items, name, quantity, confirmMerge);
            && e.Applied?
            && |e.items| == |items| + 1
            && e.items[..|items|] == items
            && e.items[|items|].name == name
            && e.items[|items|].quantity == quantity
            && (forall j :: 0 <= j < |items| ==> items[j].id < e.items[|items|].id)
            && (items == [] ==> e.items[|items|].id == 1)
            && (items != [] ==> exists j :: 0 <= j < |items| && items[j].id == e.items[|items|].id - 1)
  {
    var e := AddValidated(items, name, quantity, confirmMerge);
    var added := Item(NextId(items), name, quantity);
    assert e.items == items + [added];
    assert e.items[..|items|] == items;
  }

  /** With a confirmed merge, only the first record whose name matches changes: its
      quantity grows by the typed quantity, its id and name stay, and the list keeps
      its length and every other record. */
  lemma AddMergesIntoFirstMatch(items: seq<Item>, name: string, quantity: int, k: nat)
    requires name != [] && quantity >= 0
    requires k < |items| && SameName(items[k].name, name)
    requires forall j :: 0 <= j < k ==> !SameName(items[j].name, name)
    ensures var e := AddValidated(items, name, quantity, true);
            && e.Applied?
            && |e.items| == |items|
            && e.items[k].id == items[k].id
            && e.items[k].name == items[k].name
            && e.items[k].quantity == items[k].quantity + quantity
            && forall j :: 0 <= j < |items| && j != k ==> e.items[j] == items[j]
  {
    assert IndexOfName(items, name) == Some(k);
  }

  /** A declined merge does not stop the operation: a second record with the same
      case-insensitive name is appended, so names are no longer distinct. */
  lemma AddDeclinedMergeDuplicates(items: seq<Item>, name: string, quantity: int, k: nat)
    requires name != [] && quantity >= 0
    requires k < |items| && SameName(items[k].name, name)
    ensures var e := AddValidated(items, name, quantity, false);
            && e.Applied?
            && |e.items| == |items| + 1
            && e.items[..|items|] == items
            && SameName(e.items[k].name, e.items[|items|].name)
            && !DistinctNames(e.items)
  {
    var e := AddValidated(items, name, quantity, false);
    var added := Item(NextId(items), name, quantity);
    assert e.items == items + [added];
    assert e.items[..|items|] == items;
    assert e.items[k] == items[k] && e.items[|items|] == added;
  }

  /** Adding keeps ids distinct and quantities non-negative; it keeps names distinct
      unless a match exists and the merge is declined. */
  lemma AddPreservesInvariants(items: seq<Item>, name: string, quantity: int, confirmMerge: bool)
    ensures var after := AddValidated(items, name, quantity, confirmMerge).After(items);
            && (DistinctIds(items) ==> DistinctIds(after))
            && (NonNegative(items) ==> NonNegative(after))
            && (DistinctNames(items)
                && (confirmMerge || forall j :: 0 <= j < |items| ==> !SameName(items[j].name, name))
                ==> DistinctNames(after))
  {
    if name != [] && quantity >= 0 {
      var m := IndexOfName(items, name);
      if m.Some? && confirmMerge {
        WithQuantityPreserves(items, m.value, items[m.value].quantity + quantity);
      } else {
        AppendPreserves(items, Item(NextId(items), name, quantity));
      }
    }
  }

  // ------------------------------------------------------------ updateQuantity

  /** With no record holding the id, nothing changes. */
  lemma UpdateUnknownIdAbandons(items: seq<Item>, itemId: int, change: int)
    requires forall j :: 0 <= j < |items| ==> items[j].id != itemId
    ensures UpdateEdit(items, itemId, change).Abandoned?
  {
  }

  /** For the first record `k` holding the id: the change is refused exactly when
      `quantity + change` would be negative; otherwise that record alone changes, to
      `quantity + change`, which is non-negative. */
  lemma UpdateChangesOnlyFirstMatch(items: seq<Item>, itemId: int, change: int, k: nat)
    requires k < |items| && items[k].id == itemId
    requires forall j :: 0 <= j < k ==> items[j].id != itemId
    ensures var e := UpdateEdit(items, itemId, change);
            && (e.Abandoned? <==> items[k].quantity + change < 0)
            && (e.Applied? ==>
                  && |e.items| == |items|
                  && e.items[k].id == items[k].id
                  && e.items[k].name == items[k].name
                  && e.items[k].quantity == items[k].quantity + change
                  && e.items[k].quantity >= 0
                  && forall j :: 0 <= j < |items| && j != k ==> e.items[j] == items[j])
  {
    assert IndexOfId(items, itemId) == Some(k);
  }

  /** Updating a quantity keeps all three invariants. */
  lemma UpdatePreservesInvariants(items: seq<Item>, itemId: int, change: int)
    ensures var after := UpdateEdit(items, itemId, change).After(items);
            && (DistinctIds(items) ==> DistinctIds(after))
            && (DistinctNames(items) ==> DistinctNames(after))
            && (NonNegative(items) ==> NonNegative(after))
  {
    var m := IndexOfId(items, itemId);
    if m.Some? {
      WithQuantityPreserves(items, m.value, items[m.value].quantity + change);
    }
  }

  // ---------------------------------------------------------------- removeItem

  /** Removal happens exactly when some record has the id and the user confirms; it then
      drops every record with that id, keeps every other record, and keeps their
      relative order. */
  lemma RemoveDropsEveryMatch(items: seq<Item>, itemId: int, confirmed: bool)
    ensures var e := RemoveEdit(items, itemId, confirmed);
            && (e.Applied? <==> confirmed && exists j :: 0 <= j < |items| && items[j].id == itemId)
            && (e.Applied? ==>
                  && (forall x :: x in e.items <==> x in items && x.id != itemId)
                  && SubsequenceOf(e.items, items)
                  && |e.items| < |items|)
  {
    var e := RemoveEdit(items, itemId, confirmed);
    if e.Applied? {
      WithoutIdKeepsOrder(items, itemId);
      WithoutIdShrinks(items, itemId);
    }
  }

  /** Removing the same id a second time finds nothing, so it changes nothing. */
  lemma RemoveTwiceAbandons(items: seq<Item>, itemId: int, confirmed: bool)
    ensures var once := RemoveEdit(items, itemId, true).After(items);
            RemoveEdit(once, itemId, confirmed).Abandoned?
  {
    var once := RemoveEdit(items, itemId, true).After(items);
    forall j | 0 <= j < |once| ensures once[j].id != itemId {
      assert once[j] in once;
    }
  }

  /** Removing keeps all three invariants. */
  lemma RemovePreservesInvariants(items: seq<Item>, itemId: int, confirmed: bool)
    ensures var after := RemoveEdit(items, itemId, confirmed).After(items);
            && (DistinctIds(items) ==> DistinctIds(after))
            && (DistinctNames(items) ==> DistinctNames(after))
            && (NonNegative(items) ==> NonNegative(after))
  {
    WithoutIdPreserves(items, itemId);
  }

  // ------------------------------------------------------------------ scenario

  /** A session on a one-record inventory, step one: a decrement below zero is refused. */
  lemma ZainoDecrementRefused()
    ensures UpdateEdit([Item(1, "Zaino", 10)], 1, -15) == Abandoned
  {
  }

  /** Step two: the same name typed in lower case, with the merge confirmed, adds to the
      existing record instead of creating a second one. */
  lemma ZainoMergeAdds()
    ensures AddEdit([Item(1, "Zaino", 10)], "zaino", "5", true) == Applied([Item(1, "Zaino", 15)])
  {
    ZainoFormReads();
    ZainoMergeValidated();
  }

  /** Step two once the form is read: the name "zaino" and the quantity 5. */
  lemma ZainoMergeValidated()
    ensures AddValidated([Item(1, "Zaino", 10)], "zaino", 5, true) == Applied([Item(1, "Zaino", 15)])
  {
    ZainoNamesMatch();
    var items := [Item(1, "Zaino", 10)];
    assert IndexOfName(items, "zaino") == Some(0);
    assert AddValidated(items, "zaino", 5, true) == Applied(WithQuantity(items, 0, 15));
    assert WithQuantity(items, 0, 15) == [Item(1, "Zaino", 15)];
  }

  /** The form of step two reads as the name "zaino" and the quantity 5. */
  lemma ZainoFormReads()
    ensures Trim("zaino") == "zaino" && QuantityOf("5") == 5
  {
    ParseIntRoundTrip(5);
    assert DecimalString(5) == "5";
    TrimOfTrimmed("zaino");
  }

  /** "Zaino" and "zaino" are the same name once lower-cased. */
  lemma ZainoNamesMatch()
    ensures SameName("Zaino", "zaino")
  {
    var upper, lower := ToLower("Zaino"), ToLower("zaino");
    assert upper[0] == LowerChar('Z') == 'z' == lower[0];
    assert upper[1..] == lower[1..];
  }

  /** Step three: removing the record's id empties the list. */
  lemma ZainoRemoveEmpties()
    ensures RemoveEdit([Item(1, "Zaino", 15)], 1, true) == Applied([])
  {
  }

  /** A negative quantity is refused outright, whatever the name. */
  lemma NegativeQuantityRefused(items: seq<Item>, nameInput: string, confirmMerge: bool)
    ensures AddEdit(items, nameInput, "-1", confirmMerge) == Abandoned
  {
    ParseIntRoundTrip(-1);
    assert DecimalString(-1) == "-1";
  }
}
