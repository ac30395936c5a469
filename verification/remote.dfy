/**
  The database file on the hosting service, as `saveDatabase` and `loadDatabase` see
  it through their two REST calls: a document with a version token, replaced only by a
  write that names the current token. With it, what the source's handling of `sha`
  means for a sequence of saves and loads can be stated and proved.
 */
module Remote {
  import opened Wrappers
  import opened Items
  import opened Edits
  import opened Store

  /** The stored file: its current token and its document. */
  datatype RemoteFile = RemoteFile(sha: string, content: Snapshot)

  /** The token a client holds when it is in step with `file` (none when there is no
      file yet). */
  function TokenOf(file: Option<RemoteFile>): Option<string> {
    if file.Some? then Some(file.value.sha) else None
  }

  /** What a write does to the file: the file afterwards, and whether the write was
      accepted. */
  datatype Outcome = Outcome(file: Option<RemoteFile>, accepted: bool)

  /** The service's create-or-update: a write naming the current token (or naming none
      when the file does not exist) is accepted, stores the document and gives the file
      the token `newSha`; any other write is refused and leaves the file as it was. */
  function Commit(file: Option<RemoteFile>, req: WriteRequest, newSha: string): Outcome {
    if req.baseSha == TokenOf(file) then Outcome(Some(RemoteFile(newSha, req.content)), true)
    else Outcome(file, false)
  }

  /** The effect on the file of what `saveDatabase` sends: nothing at all when no request
      could be built. */
  function Send(file: Option<RemoteFile>, req: Option<WriteRequest>, newSha: string): Outcome {
    if req.Some? then Commit(file, req.value, newSha) else Outcome(file, false)
  }

  /** What `getContent` returns for the file, decoded: a missing file is a failed
      request; otherwise the token and the stored document, whose base64 and JSON
      encodings are taken to round-trip. */
  function FetchOf(file: Option<RemoteFile>): (r: Fetch)
    ensures r.FetchFailed? <==> file.None?
    ensures r.Fetched? ==> r.sha == file.value.sha && r.decoded.Some?
                           && r.decoded.value.items == Some(file.value.content.items)
  {
    if file.None? then FetchFailed
    else Fetched(file.value.sha,
                 Some(Content(Some(file.value.content.items), Some(file.value.content.lastUpdated))))
  }

  /** Save then reload, for a client in step with the file. When the list can be
      encoded, loading afterwards gives back the same list, the file's new token and the
      save's timestamp. When it cannot, nothing is written and the reload brings back
      the list stored before: the records typed since are lost. */
  method SaveThenLoad(inv: Inventory, file: Option<RemoteFile>, newSha: string,
                      now: string, later: string)
    returns (remote: Option<RemoteFile>)
    requires inv.sha == TokenOf(file) && now != []
    modifies inv
    ensures Encodable(old(inv.items)) ==>
              && remote == Some(RemoteFile(newSha, Snapshot(old(inv.items), now)))
              && inv.items == old(inv.items)
              && inv.sha == Some(newSha) && inv.lastUpdated == now
    ensures !Encodable(old(inv.items)) ==> remote == file
    ensures !Encodable(old(inv.items)) && file.Some? ==>
              && inv.items == file.value.content.items
              && inv.sha == Some(file.value.sha)
              && inv.lastUpdated == StoredTimestamp(Some(file.value.content.lastUpdated), later)
    ensures !Encodable(old(inv.items)) && file.None? ==>
              inv.items == old(inv.items) && inv.lastUpdated == old(inv.lastUpdated)
  {
    var outcome := Send(file, inv.Outgoing(now), newSha);
    var saved := inv.SaveDatabase(outcome.accepted, now);
    remote := outcome.file;
    var loaded := inv.LoadDatabase(FetchOf(remote), later);
  }

  /** Because a successful save does not refresh `sha`, the client's token is stale as
      soon as its first save lands. The save inside the next `updateQuantity`, made
      before any load, names the old token and is refused: the file stays as the first
      save left it, the quantity change stays in memory and the timestamp stays at the
      first save's. The refused write is exactly the request the client builds from
      the updated list. When the update is refused, no second write is sent at all. */
  method SecondSaveRefused(inv: Inventory, file: RemoteFile, newSha: string, otherSha: string,
                           itemId: int, change: int, now: string, later: string)
    returns (first: Outcome, second: Option<Outcome>)
    requires inv.sha == Some(file.sha) && newSha != file.sha && Encodable(inv.items)
    modifies inv
    ensures first == Outcome(Some(RemoteFile(newSha, Snapshot(old(inv.items), now))), true)
    ensures second == if UpdateEdit(old(inv.items), itemId, change).Applied?
                      then Some(Outcome(first.file, false)) else None
    ensures inv.sha == Some(file.sha) && inv.lastUpdated == now
    ensures inv.items == UpdateEdit(old(inv.items), itemId, change).After(old(inv.items))
    ensures UpdateEdit(old(inv.items), itemId, change).Applied? ==>
              inv.Outgoing(later) == Some(WriteRequest(Snapshot(inv.items, later), Some(file.sha)))
  {
    first := Send(Some(file), inv.Outgoing(now), newSha);
    var saved := inv.SaveDatabase(first.accepted, now);
    var edit := UpdateEdit(inv.items, itemId, change);
    var pending: WriteRequest;
    if edit.Applied? {
      // The update keeps every name, so the request `updateQuantity`'s save builds exists.
      UpdateKeepsNames(inv.items, itemId, change);
      pending := WriteRequest(Snapshot(edit.items, later), inv.sha);
      second := Some(Send(first.file, Some(pending), otherSha));
    } else {
      second := None;
    }
    inv.UpdateQuantity(itemId, change, second.Some? && second.value.accepted, later);
    if edit.Applied? {
      // `pending` is exactly the request the save inside `updateQuantity` sends.
      assert inv.Outgoing(later) == Some(pending);
    }
  }

  /** An accepted update changes quantities only, so a list that could be encoded still
      can. */
  lemma UpdateKeepsNames(items: seq<Item>, itemId: int, change: int)
    requires Encodable(items)
    ensures Encodable(UpdateEdit(items, itemId, change).After(items))
  {
  }
}
