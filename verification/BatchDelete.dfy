/**
 The background worker that deletes every mail decided TO_DELETE: server/adapters.py lines 300-468.
 The fallback's second connection is the same server, so one client stands for both.
 */
module BatchDelete {
  import opened Outcome
  import opened Mailboxes
  import opened ChunkedMoves
  import opened ImapClient
  import opened MailDatabase
  import opened Resolve
  import opened BatchRecords

  // ---------- what the worker relies on and keeps ----------

  /** Within a folder no two messages share a Message-ID. */
  ghost predicate UniqueIds(boxes: Boxes) {
    forall f <- boxes :: UniqueIn(boxes[f])
  }

  ghost predicate UniqueIn(box: Mailbox) {
    forall u, v :: u in box.slots && v in box.slots && box.slots[u].mail.messageId == box.slots[v].mail.messageId ==> u == v
  }

  /** If there is a message under the identifier at all, it is the one meant. */
  ghost predicate PointsRight(boxes: Boxes, folder: string, uid: Option<nat>, id: string) {
    folder in boxes && uid.Some? && uid.value in boxes[folder].slots ==> boxes[folder].slots[uid.value].mail.messageId == id
  }

  ghost predicate Truthful(rows: Rows, boxes: Boxes) {
    forall id <- rows :: PointsRight(boxes, rows[id].folder, rows[id].uid, id)
  }

  /** The only message of the folder with this Message-ID, if any, is `u`. As identifiers start at 1,
      `u` of 0 says that there is none. */
  ghost predicate OnlyAt(boxes: Boxes, folder: string, id: string, u: nat) {
    folder in boxes ==> forall v <- boxes[folder].slots :: boxes[folder].slots[v].mail.messageId == id ==> v == u
  }

  ghost predicate Gone(boxes: Boxes, folder: string, id: string) {
    folder in boxes ==> forall v <- boxes[folder].slots :: boxes[folder].slots[v].mail.messageId != id
  }

  /** Messages were only taken away, and no unflagged one of another Message-ID than `ids`. */
  ghost predicate Shrunk(before: Boxes, now: Boxes, ids: set<string>) {
    && now.Keys == before.Keys && AllValid(now)
    && forall f <- now :: Fewer(before[f], now[f]) && OthersHeld(before[f], now[f], ids)
  }

  ghost predicate OthersHeld(before: Mailbox, now: Mailbox, ids: set<string>) {
    forall u <- before.slots :: before.slots[u].mail.messageId !in ids && !before.slots[u].deleted ==> Holds(now, u, before.slots[u])
  }

  ghost predicate Fewer(before: Mailbox, now: Mailbox) {
    forall u <- now.slots :: u in before.slots && now.slots[u].mail == before.slots[u].mail
  }

  lemma ShrunkTwice(a: Boxes, b: Boxes, c: Boxes, some: set<string>, ids: set<string>)
    requires Shrunk(a, b, ids) && Shrunk(b, c, some) && some <= ids
    ensures Shrunk(a, c, ids)
  {
    forall f <- c ensures Fewer(a[f], c[f]) && OthersHeld(a[f], c[f], ids) {
      assert Fewer(a[f], b[f]) && Fewer(b[f], c[f]);
      assert OthersHeld(a[f], b[f], ids) && OthersHeld(b[f], c[f], some);
    }
  }

  lemma DeletedOnlyShrinks(before: Boxes, now: Boxes, folder: string, uids: set<nat>, ids: set<string>)
    requires folder in before && AllValid(now) && DeletedOnly(before, now, folder, uids)
    requires forall u <- uids :: u in before[folder].slots ==> before[folder].slots[u].mail.messageId in ids
    ensures Shrunk(before, now, ids)
  {
  }

  lemma ShrunkKeeps(before: Boxes, now: Boxes, folder: string, id: string, u: nat, ids: set<string>)
    requires Shrunk(before, now, ids)
    ensures UniqueIds(before) ==> UniqueIds(now)
    ensures OnlyAt(before, folder, id, u) ==> OnlyAt(now, folder, id, u)
    ensures Gone(before, folder, id) ==> Gone(now, folder, id)
    ensures PointsRight(before, folder, Some(u), id) ==> PointsRight(now, folder, Some(u), id)
  {
    if folder in now { assert Fewer(before[folder], now[folder]); }
    if UniqueIds(before) {
      forall f <- now ensures UniqueIn(now[f]) {
        assert UniqueIn(before[f]) && Fewer(before[f], now[f]);
      }
    }
  }

  lemma ShrunkStaysTruthful(rows: Rows, before: Boxes, now: Boxes, ids: set<string>)
    requires Shrunk(before, now, ids) && Truthful(rows, before)
    ensures Truthful(rows, now)
  {
    forall id <- rows ensures PointsRight(now, rows[id].folder, rows[id].uid, id) {
      assert PointsRight(before, rows[id].folder, rows[id].uid, id);
      if rows[id].folder in now { assert Fewer(before[rows[id].folder], now[rows[id].folder]); }
    }
  }

  lemma RightIsOnly(boxes: Boxes, folder: string, id: string, u: nat)
    requires UniqueIds(boxes) && folder in boxes && u in boxes[folder].slots && boxes[folder].slots[u].mail.messageId == id
    ensures OnlyAt(boxes, folder, id, u)
  {
    assert UniqueIn(boxes[folder]);
  }

  lemma NotAtZero(boxes: Boxes, folder: string, id: string)
    requires AllValid(boxes)
    ensures OnlyAt(boxes, folder, id, 0) <==> Gone(boxes, folder, id)
  {
    if folder in boxes { assert boxes[folder].Valid(); }
  }

  /** Why rows must be truthful: deleting by a live identifier takes the row's own message away exactly
      when that identifier points right, or the message was not there to begin with. */
  lemma DeletesItsOwnIff(box: Mailbox, id: string, uid: nat)
    requires uid in box.slots && UniqueIn(box) && Flagged(box) == {}
    ensures (forall v <- box.slots :: v in DeleteAll(box, [uid]).slots ==> box.slots[v].mail.messageId != id) <==>
            box.slots[uid].mail.messageId == id || forall v <- box.slots :: box.slots[v].mail.messageId != id
  {
    DeleteRefines(box, [uid]);
    assert uid in Live(box, Seen([uid]));
    var left := DeleteAll(box, [uid]).slots;
    forall v <- box.slots ensures v in left <==> v != uid {
      assert v !in Flagged(box);
    }
  }

  /** No folder that is searched holds the message. */
  ghost predicate Nowhere(boxes: Boxes, noselect: set<string>, waste: set<string>, id: string) {
    forall f <- boxes :: f !in waste && f !in noselect ==> Gone(boxes, f, id)
  }

  /** The message was in some folder and has left it. */
  ghost predicate Left(was: Boxes, now: Boxes, id: string) {
    exists f <- was :: !Gone(was, f, id) && Gone(now, f, id)
  }

  /** What it takes for a tracked row to go: its message is not in its folder any more, and it was deleted from there
      or from where else it was found, unless it was in none of the folders searched. */
  ghost predicate Cleared(was: Boxes, now: Boxes, noselect: set<string>, waste: set<string>, folder: string, id: string) {
    Gone(now, folder, id) && (Left(was, now, id) || Nowhere(now, noselect, waste, id))
  }

  lemma ClearedStill(a: Boxes, b: Boxes, c: Boxes, noselect: set<string>, waste: set<string>, folder: string, id: string, ids: set<string>)
    requires Cleared(a, b, noselect, waste, folder, id) && Shrunk(b, c, ids)
    ensures Cleared(a, c, noselect, waste, folder, id)
  {
    hide Shrunk, Gone;
    forall f | Gone(b, f, id) ensures Gone(c, f, id) { ShrunkKeeps(b, c, f, id, 0, ids); }
    KeysStay(b, c, ids);
    if Left(a, b, id) {
      var f :| f in a && !Gone(a, f, id) && Gone(b, f, id);
      assert !Gone(a, f, id) && Gone(c, f, id);
    }
  }

  lemma ClearedSince(a: Boxes, b: Boxes, c: Boxes, noselect: set<string>, waste: set<string>, folder: string, id: string, ids: set<string>)
    requires Shrunk(a, b, ids) && Cleared(b, c, noselect, waste, folder, id)
    ensures Cleared(a, c, noselect, waste, folder, id)
  {
    hide Shrunk, Gone;
    KeysStay(a, b, ids);
    if Left(b, c, id) {
      var f :| f in b && !Gone(b, f, id) && Gone(c, f, id);
      if Gone(a, f, id) { ShrunkKeeps(a, b, f, id, 0, ids); }
      assert !Gone(a, f, id);
    }
  }

  // ---------- what becomes of the rows ----------

  ghost predicate FoundAt(boxes: Boxes, folder: string, u: nat, id: string) {
    folder in boxes && u in boxes[folder].slots && boxes[folder].slots[u].mail.messageId == id
  }

  /** How a row may change: not at all, or a tracked row now names the place its message was found at, which
      is the only one in its folder, and the message has left the folder the row named before. */
  ghost predicate RowMoves(was: Boxes, boxes: Boxes, noselect: set<string>, before: Row, now: Row, id: string) {
    now == before ||
    (&& before.uid.Some? && now.uid.Some? && now.mail == before.mail && now.folder !in noselect
     && FoundAt(was, now.folder, now.uid.value, id) && OnlyAt(boxes, now.folder, id, now.uid.value)
     && Gone(boxes, before.folder, id))
  }

  ghost predicate MovedOn(was: Boxes, boxes: Boxes, noselect: set<string>, before: Rows, now: Rows) {
    forall id <- now :: id in before && RowMoves(was, boxes, noselect, before[id], now[id], id)
  }

  lemma NothingMovedOn(boxes: Boxes, noselect: set<string>, rows: Rows)
    ensures MovedOn(boxes, boxes, noselect, rows, rows)
  {
  }

  lemma RowMovesTwice(a: Boxes, b: Boxes, c: Boxes, noselect: set<string>, first: Row, second: Row, third: Row, id: string, some: set<string>,
                      ids: set<string>)
    requires Shrunk(a, b, some) && Shrunk(b, c, ids)
    requires RowMoves(a, b, noselect, first, second, id) && RowMoves(b, c, noselect, second, third, id)
    ensures RowMoves(a, c, noselect, first, third, id)
  {
    if second != first {
      ShrunkKeeps(b, c, first.folder, id, 0, ids);
      ShrunkKeeps(b, c, second.folder, id, second.uid.value, ids);
    }
    if third != second { assert Fewer(a[third.folder], b[third.folder]); }
  }

  lemma MovedTwice(a: Boxes, b: Boxes, c: Boxes, noselect: set<string>, first: Rows, second: Rows, third: Rows, some: set<string>, ids: set<string>)
    requires Shrunk(a, b, some) && Shrunk(b, c, ids)
    requires MovedOn(a, b, noselect, first, second) && MovedOn(b, c, noselect, second, third)
    ensures MovedOn(a, c, noselect, first, third)
  {
    hide RowMoves, Shrunk;
    forall id <- third ensures id in first && RowMoves(a, c, noselect, first[id], third[id], id) {
      RowMovesTwice(a, b, c, noselect, first[id], second[id], third[id], id, some, ids);
    }
  }

  /** Dropping rows and deleting more mail leaves the others as they are. */
  lemma FewerMoved(a: Boxes, b: Boxes, c: Boxes, noselect: set<string>, before: Rows, now: Rows, gone: set<string>, some: set<string>,
                   ids: set<string>)
    requires Shrunk(a, b, some) && Shrunk(b, c, ids) && MovedOn(a, b, noselect, before, now)
    ensures MovedOn(a, c, noselect, before, now - gone)
  {
    hide RowMoves, Shrunk;
    forall id <- now - gone ensures id in before && RowMoves(a, c, noselect, before[id], now[id], id) {
      assert RowMoves(b, c, noselect, now[id], now[id], id) by { SameRow(b, c, noselect, now[id], id); }
      RowMovesTwice(a, b, c, noselect, before[id], now[id], now[id], id, some, ids);
    }
  }

  lemma SameRow(was: Boxes, boxes: Boxes, noselect: set<string>, row: Row, id: string)
    ensures RowMoves(was, boxes, noselect, row, row, id)
  {
  }

  // ---------- one record ----------

  /** Look for the record's message in every folder, and point its row to where it is. */
  method CrossFolderFallback(client: Client, db: Database, r: Record, waste: set<string>) returns (res: Result<Option<(string, nat)>, ImapError>)
    requires client.Valid() && db.Valid()
    modifies client, db`rows, db`writes
    ensures client.Valid() && db.Valid() && client.boxes == old(client.boxes) && client.hollow == old(client.hollow)
    ensures old(client.tick) <= client.tick && old(db.writes) <= db.writes
    ensures if res.Ok? && res.value.Some? then
              var (f, u) := res.value.value;
              && f in client.boxes && f !in client.noselect && f !in waste && FirstWith(client.boxes[f], r.id) == Some(u)
              && db.rows == Relocated(old(db.rows), r.id, f, Some(u))
            else db.rows == old(db.rows)
    ensures res == Ok(None) ==> forall f <- client.boxes :: f !in waste && f !in client.noselect ==> FirstWith(client.boxes[f], r.id).None?
    ensures Smooth(client.answers, old(client.tick), client.tick) && NoFault(db.goes, old(db.writes), db.writes) ==> res.Ok?
  {
    hide FirstWith, Smooth, NoFault;
    NoneYet(db.goes, db.writes);
    res := CrossFolderResolve(client, r.id, None, waste);
    if res.Ok? && res.value.Some? {
      OneMore(db.goes, db.writes, db.writes);
      var goes := db.Attempt();
      if !goes { return Err(ImapError.Refused); }
      var _ := db.UpdateRecordSource(r.id, res.value.value.0, Some(res.value.value.1));
    }
  }

  /** Delete a message found outside its folder. */
  method DeleteElsewhere(client: Client, folder: string, uid: nat, ghost id: string) returns (r: Result<(), ImapError>)
    requires client.Valid() && FoundAt(client.boxes, folder, uid, id) && folder !in client.noselect
    modifies client
    ensures client.Valid() && Shrunk(old(client.boxes), client.boxes, {id}) && old(client.tick) <= client.tick
    ensures r.Ok? ==> folder in client.boxes && uid !in client.boxes[folder].slots
    ensures Smooth(client.answers, old(client.tick), client.tick) ==> r.Ok?
  {
    hide DeleteAll, AllDeletedOnly, Shrunk, Smooth, DeleteChunk;
    ghost var before, start := client.boxes, client.tick;
    Same(before, {id});
    var selected := client.SelectFolder(folder);
    SmoothOnce(client.answers, start);
    ghost var mark := client.tick;
    SmoothSplits(client.answers, start, mark, mark);
    if selected.Err? { return Err(selected.error); }
    r := client.DeleteMessage(uid);
    SmoothSplits(client.answers, start, mark, client.tick);
    OneDeleted(before[folder], uid);
    DeletedOnlyShrinks(before, client.boxes, folder, {uid}, {id});
  }

  lemma OneDeleted(box: Mailbox, uid: nat)
    ensures uid !in DeleteChunk(box, [uid]).slots
  {
    DeleteChunkIsWithout(box, [uid]);
    assert uid in Seen([uid]);
    if Live(box, Seen([uid])) == {} { NoneLive(box, Seen([uid])); }
  }

  /** Deleting the one message found leaves none. */
  lemma LeftThere(before: Boxes, now: Boxes, folder: string, uid: nat, id: string, ids: set<string>)
    requires UniqueIds(before) && FoundAt(before, folder, uid, id) && Shrunk(before, now, ids)
    requires folder in now && uid !in now[folder].slots
    ensures Left(before, now, id)
  {
    RightIsOnly(before, folder, id, uid);
    ShrunkKeeps(before, now, folder, id, uid, ids);
    assert !Gone(before, folder, id) && Gone(now, folder, id);
  }

  lemma FoundNowhere(boxes: Boxes, noselect: set<string>, waste: set<string>, id: string)
    requires AllValid(boxes) && forall f <- boxes :: f !in waste && f !in noselect ==> FirstWith(boxes[f], id).None?
    ensures Nowhere(boxes, noselect, waste, id)
  {
    forall f <- boxes | f !in waste && f !in noselect ensures Gone(boxes, f, id) {
      assert boxes[f].Valid() && FirstWith(boxes[f], id).None?;
    }
  }

  /** What has been done about a record: its message is at the identifier, or is off the server as far as anyone looked. */
  ghost predicate Traced(was: Boxes, now: Boxes, noselect: set<string>, waste: set<string>, r: Record, u: nat) {
    r.uid.Some? ==> if u == 0 then Cleared(was, now, noselect, waste, r.folder, r.id) else !Gone(was, r.folder, r.id)
  }

  /** Which message to delete in the record's folder: 0 when there is none left to delete there. A
      message found in another folder is deleted on the spot. */
  method ResolveForDelete(client: Client, db: Database, r: Record, waste: set<string>) returns (res: Result<nat, ImapError>)
    requires client.Valid() && db.Valid() && UniqueIds(client.boxes) && Truthful(db.rows, client.boxes)
    requires PointsRight(client.boxes, r.folder, r.uid, r.id) && (r.id in db.rows ==> FromRow(db.rows, r))
    modifies client, db`rows, db`writes
    ensures client.Valid() && db.Valid() && Shrunk(old(client.boxes), client.boxes, {r.id}) && Truthful(db.rows, client.boxes)
    ensures old(client.tick) <= client.tick && old(db.writes) <= db.writes
    ensures db.rows == old(db.rows) || exists f, u :: db.rows == Relocated(old(db.rows), r.id, f, u)
    ensures r.id in db.rows ==>
              RowMoves(old(client.boxes), client.boxes, client.noselect, old(db.rows)[r.id], db.rows[r.id], r.id)
    ensures res.Ok? && r.uid.Some? ==> OnlyAt(client.boxes, r.folder, r.id, res.value)
    ensures res.Ok? ==> PointsRight(client.boxes, r.folder, Some(res.value), r.id)
    ensures res.Ok? ==> Traced(old(client.boxes), client.boxes, client.noselect, waste, r, res.value)
    ensures (&& Smooth(client.answers, old(client.tick), client.tick) && NoFault(db.goes, old(db.writes), db.writes)
             && r.folder in client.boxes && r.folder !in client.noselect) ==> res.Ok?
  {
    hide FirstWith, DeleteChunk, AllDeletedOnly, Truthful, Shrunk, OnlyAt, PointsRight, UniqueIds, Gone, Relocated, NoFault, RowMoves, Nowhere, Left;
    ghost var before, start, rows := client.boxes, client.tick, db.rows;
    Same(before, {r.id});
    if r.id in rows { SameRow(before, before, client.noselect, rows[r.id], r.id); }
    ZeroPoints(before, r.folder, r.id);
    if r.uid.None? { return Ok(0); }
    var here := ResolveUidWithFallback(client, r.folder, r.uid.value, r.id);
    if here.Ok? {
      FoundHere(before, r, here.value);
      return here;
    }
    if here.error != MessageNotFound { return here; }
    NotFoundHere(before, r);
    ghost var mark := client.tick;
    var elsewhere := CrossFolderFallback(client, db, r, waste);
    SmoothSplits(client.answers, start, mark, client.tick);
    if elsewhere.Err? { return Err(elsewhere.error); }
    NotAtZero(before, r.folder, r.id);
    if elsewhere.value.None? {
      FoundNowhere(before, client.noselect, waste, r.id);
      return Ok(0);
    }
    var folder, uid := elsewhere.value.value.0, elsewhere.value.value.1;
    RelocatedTruly(rows, before, r.id, folder, uid);
    RelocatedMoves(rows, db.rows, before, client.noselect, r, folder, uid);
    mark := client.tick;
    var deleted := DeleteElsewhere(client, folder, uid, r.id);
    SmoothSplits(client.answers, start, mark, client.tick);
    ShrunkKeeps(before, client.boxes, r.folder, r.id, 0, {r.id});
    ShrunkStaysTruthful(db.rows, before, client.boxes, {r.id});
    RowStillMoves(rows, db.rows, before, client.boxes, client.noselect, r.id, {r.id});
    if deleted.Err? { return Err(deleted.error); }
    LeftThere(before, client.boxes, folder, uid, r.id, {r.id});
    NotAtZero(client.boxes, r.folder, r.id);
    return Ok(0);
  }

  lemma RelocatedMoves(was: Rows, rows: Rows, boxes: Boxes, noselect: set<string>, r: Record, folder: string, uid: nat)
    requires AllValid(boxes) && UniqueIds(boxes) && r.uid.Some? && (r.id in was ==> FromRow(was, r))
    requires rows == Relocated(was, r.id, folder, Some(uid)) && OnlyAt(boxes, r.folder, r.id, 0)
    requires folder in boxes && folder !in noselect && FirstWith(boxes[folder], r.id) == Some(uid)
    ensures r.id in rows ==> r.id in was && RowMoves(boxes, boxes, noselect, was[r.id], rows[r.id], r.id)
  {
    NotAtZero(boxes, r.folder, r.id);
    RightIsOnly(boxes, folder, r.id, uid);
  }

  lemma RowStillMoves(was: Rows, rows: Rows, before: Boxes, now: Boxes, noselect: set<string>, id: string, ids: set<string>)
    requires AllValid(before) && Shrunk(before, now, ids)
    requires id in rows ==> id in was && RowMoves(before, before, noselect, was[id], rows[id], id)
    ensures id in rows ==> RowMoves(before, now, noselect, was[id], rows[id], id)
  {
    if id in rows {
      Same(before, ids);
      SameRow(before, now, noselect, rows[id], id);
      RowMovesTwice(before, before, now, noselect, was[id], rows[id], rows[id], id, ids, ids);
    }
  }

  lemma Same(boxes: Boxes, ids: set<string>)
    requires AllValid(boxes)
    ensures Shrunk(boxes, boxes, ids)
  {
  }

  lemma ZeroPoints(boxes: Boxes, folder: string, id: string)
    requires AllValid(boxes)
    ensures PointsRight(boxes, folder, Some(0), id)
  {
    if folder in boxes { assert boxes[folder].Valid(); }
  }

  lemma FoundHere(boxes: Boxes, r: Record, u: nat)
    requires AllValid(boxes) && UniqueIds(boxes) && PointsRight(boxes, r.folder, r.uid, r.id) && r.uid.Some?
    requires r.folder in boxes && u in boxes[r.folder].slots
    requires u == r.uid.value || FirstWith(boxes[r.folder], r.id) == Some(u)
    ensures OnlyAt(boxes, r.folder, r.id, u) && PointsRight(boxes, r.folder, Some(u), r.id)
    ensures u != 0 && !Gone(boxes, r.folder, r.id)
  {
    assert boxes[r.folder].Valid();
    RightIsOnly(boxes, r.folder, r.id, u);
  }

  lemma NotFoundHere(boxes: Boxes, r: Record)
    requires AllValid(boxes) && r.folder in boxes && FirstWith(boxes[r.folder], r.id).None?
    ensures OnlyAt(boxes, r.folder, r.id, 0)
  {
    assert boxes[r.folder].Valid();
  }

  lemma RelocatedTruly(rows: Rows, boxes: Boxes, id: string, folder: string, uid: nat)
    requires Truthful(rows, boxes) && folder in boxes && FirstWith(boxes[folder], id) == Some(uid)
    ensures Truthful(Relocated(rows, id, folder, Some(uid)), boxes)
  {
  }

  // ---------- one group ----------

  ghost predicate InFolder(records: seq<Record>, folder: string) {
    forall r <- records :: r.folder == folder
  }

  ghost predicate AllPointRight(boxes: Boxes, records: seq<Record>) {
    forall r <- records :: PointsRight(boxes, r.folder, r.uid, r.id)
  }

  /** Only rows of these Message-IDs were moved or deleted. */
  ghost predicate OnlyTouched(before: Rows, now: Rows, ids: set<string>) {
    && now.Keys <= before.Keys
    && forall id <- before :: id !in ids ==> id in now && now[id] == before[id]
  }

  lemma TouchedTwice(a: Rows, b: Rows, c: Rows, ids: set<string>)
    requires OnlyTouched(a, b, ids) && OnlyTouched(b, c, ids)
    ensures OnlyTouched(a, c, ids)
  {
  }

  lemma RelocatedTouches(rows: Rows, now: Rows, id: string, ids: set<string>)
    requires id in ids && (now == rows || exists f, u :: now == Relocated(rows, id, f, u))
    ensures OnlyTouched(rows, now, ids)
  {
  }

  /** Where each record's message stands. */
  ghost predicate Located(boxes: Boxes, records: seq<Record>, resolved: seq<(string, nat)>) {
    && |resolved| <= |records|
    && forall k :: 0 <= k < |resolved| ==> LocatedAt(boxes, records[k], resolved[k])
  }

  ghost predicate LocatedAt(boxes: Boxes, r: Record, at: (string, nat)) {
    at.0 == r.id && (r.uid.Some? ==> OnlyAt(boxes, r.folder, r.id, at.1)) && PointsRight(boxes, r.folder, Some(at.1), r.id)
  }

  lemma LocatedStill(before: Boxes, now: Boxes, records: seq<Record>, resolved: seq<(string, nat)>, ids: set<string>)
    requires Shrunk(before, now, ids) && Located(before, records, resolved)
    ensures Located(now, records, resolved)
  {
    forall k | 0 <= k < |resolved| ensures LocatedAt(now, records[k], resolved[k]) {
      assert LocatedAt(before, records[k], resolved[k]);
      ShrunkKeeps(before, now, records[k].folder, records[k].id, resolved[k].1, ids);
    }
  }

  ghost predicate AllTraced(was: Boxes, now: Boxes, noselect: set<string>, waste: set<string>, records: seq<Record>, resolved: seq<(string, nat)>) {
    && |resolved| <= |records|
    && forall k :: 0 <= k < |resolved| ==> Traced(was, now, noselect, waste, records[k], resolved[k].1)
  }

  lemma TracedStill(a: Boxes, b: Boxes, c: Boxes, noselect: set<string>, waste: set<string>, records: seq<Record>, resolved: seq<(string, nat)>,
                    ids: set<string>)
    requires AllTraced(a, b, noselect, waste, records, resolved) && Shrunk(b, c, ids)
    ensures AllTraced(a, c, noselect, waste, records, resolved)
  {
    hide Shrunk, Cleared, Gone;
    forall k | 0 <= k < |resolved| ensures Traced(a, c, noselect, waste, records[k], resolved[k].1) {
      var r := records[k];
      assert Traced(a, b, noselect, waste, r, resolved[k].1);
      if r.uid.Some? && resolved[k].1 == 0 { ClearedStill(a, b, c, noselect, waste, r.folder, r.id, ids); }
    }
  }

  lemma TracedMore(a: Boxes, b: Boxes, c: Boxes, noselect: set<string>, waste: set<string>, records: seq<Record>, resolved: seq<(string, nat)>,
                   at: (string, nat), some: set<string>, ids: set<string>)
    requires AllTraced(a, b, noselect, waste, records, resolved) && |resolved| < |records| && Shrunk(a, b, ids) && Shrunk(b, c, some)
    requires Traced(b, c, noselect, waste, records[|resolved|], at.1)
    ensures AllTraced(a, c, noselect, waste, records, resolved + [at])
  {
    hide Shrunk, Cleared, Gone;
    TracedStill(a, b, c, noselect, waste, records, resolved, some);
    var r := records[|resolved|];
    if r.uid.Some? {
      if at.1 == 0 {
        ClearedSince(a, b, c, noselect, waste, r.folder, r.id, ids);
      } else if Gone(a, r.folder, r.id) {
        ShrunkKeeps(a, b, r.folder, r.id, 0, ids);
      }
    }
  }

  lemma NothingTraced(boxes: Boxes, noselect: set<string>, waste: set<string>, records: seq<Record>)
    ensures AllTraced(boxes, boxes, noselect, waste, records, [])
  {
  }

  lemma PointRightStill(before: Boxes, now: Boxes, records: seq<Record>, ids: set<string>)
    requires Shrunk(before, now, ids) && AllPointRight(before, records)
    ensures AllPointRight(now, records)
  {
    forall r <- records ensures PointsRight(now, r.folder, r.uid, r.id) {
      assert PointsRight(before, r.folder, r.uid, r.id);
      if r.uid.Some? { ShrunkKeeps(before, now, r.folder, r.id, r.uid.value, ids); }
    }
  }

  lemma UniqueStill(before: Boxes, now: Boxes, ids: set<string>)
    requires Shrunk(before, now, ids) && UniqueIds(before)
    ensures UniqueIds(now)
  {
    ShrunkKeeps(before, now, "", "", 0, ids);
  }

  method ResolveGroup(client: Client, db: Database, folder: string, records: seq<Record>, waste: set<string>)
    returns (res: Result<seq<(string, nat)>, ImapError>)
    requires client.Valid() && db.Valid() && UniqueIds(client.boxes) && Truthful(db.rows, client.boxes)
    requires InFolder(records, folder) && AllPointRight(client.boxes, records) && DistinctIds(records) && AllFromRows(db.rows, records)
    modifies client, db`rows, db`writes
    ensures client.Valid() && db.Valid() && Shrunk(old(client.boxes), client.boxes, Ids(records)) && Truthful(db.rows, client.boxes)
    ensures old(client.tick) <= client.tick && old(db.writes) <= db.writes
    ensures OnlyTouched(old(db.rows), db.rows, Ids(records)) && db.rows.Keys == old(db.rows.Keys)
    ensures MovedOn(old(client.boxes), client.boxes, client.noselect, old(db.rows), db.rows)
    ensures res.Ok? ==> |res.value| == |records| && Located(client.boxes, records, res.value)
    ensures res.Ok? ==> AllTraced(old(client.boxes), client.boxes, client.noselect, waste, records, res.value)
    ensures (&& Smooth(client.answers, old(client.tick), client.tick) && NoFault(db.goes, old(db.writes), db.writes)
             && folder in client.boxes && folder !in client.noselect) ==> res.Ok?
  {
    hide Shrunk, UniqueIds, Truthful, Located, AllPointRight, OnlyTouched, PointsRight, OnlyAt, Smooth, NoFault, MovedOn, RowMoves, DistinctIds,
         AllFromRows, FromRow, FromRowsOn, AllTraced, Traced;
    ghost var before, start, rows, first := client.boxes, client.tick, db.rows, db.writes;
    NothingMovedOn(before, client.noselect, rows);
    AllFromRowsOn(rows, records);
    NoneYet(db.goes, first);
    Same(before, Ids(records));
    Untouched(rows, Ids(records));
    NothingLocated(before, records);
    NothingTraced(before, client.noselect, waste, records);
    var resolved: seq<(string, nat)> := [];
    while |resolved| < |records|
      invariant client.Valid() && db.Valid() && Shrunk(before, client.boxes, Ids(records)) && Truthful(db.rows, client.boxes)
      invariant start <= client.tick && |resolved| <= |records|
      invariant OnlyTouched(rows, db.rows, Ids(records)) && db.rows.Keys == rows.Keys && first <= db.writes
      invariant MovedOn(before, client.boxes, client.noselect, rows, db.rows) && FromRowsOn(db.rows, records, |resolved|)
      invariant Located(client.boxes, records, resolved) && AllTraced(before, client.boxes, client.noselect, waste, records, resolved)
    {
      var r := records[|resolved|];
      ghost var current, mark, tracked, writes := client.boxes, client.tick, db.rows, db.writes;
      NextFromRow(tracked, records, |resolved|);
      PointRightStill(before, current, records, Ids(records));
      PointsRightAt(current, records, |resolved|);
      UniqueStill(before, current, Ids(records));
      var u := ResolveForDelete(client, db, r, waste);
      SmoothSplits(client.answers, start, mark, client.tick);
      FaultsSplit(db.goes, first, writes, db.writes);
      ShrunkTwice(before, current, client.boxes, {r.id}, Ids(records));
      KeysStay(current, client.boxes, {r.id});
      OneMoves(current, client.boxes, client.noselect, tracked, db.rows, r.id);
      MovedTwice(before, current, client.boxes, client.noselect, rows, tracked, db.rows, Ids(records), {r.id});
      FromRowsStep(tracked, db.rows, records, |resolved|);
      RelocatedTouches(tracked, db.rows, r.id, Ids(records));
      TouchedTwice(rows, tracked, db.rows, Ids(records));
      if u.Err? { return Err(u.error); }
      LocatedStill(current, client.boxes, records, resolved, {r.id});
      LocatedMore(client.boxes, records, resolved, (r.id, u.value));
      TracedMore(before, current, client.boxes, client.noselect, waste, records, resolved, (r.id, u.value), {r.id}, Ids(records));
      resolved := resolved + [(r.id, u.value)];
    }
    return Ok(resolved);
  }

  /** The records from `n` on are still what the rows say. */
  ghost predicate FromRowsOn(rows: Rows, records: seq<Record>, n: nat) {
    forall k :: n <= k < |records| ==> FromRow(rows, records[k])
  }

  lemma AllFromRowsOn(rows: Rows, records: seq<Record>)
    requires AllFromRows(rows, records)
    ensures FromRowsOn(rows, records, 0)
  {
  }

  lemma NextFromRow(rows: Rows, records: seq<Record>, n: nat)
    requires FromRowsOn(rows, records, n) && n < |records|
    ensures FromRow(rows, records[n]) && records[n].id in rows
  {
  }

  lemma FromRowsStep(was: Rows, rows: Rows, records: seq<Record>, n: nat)
    requires FromRowsOn(was, records, n) && n < |records| && DistinctIds(records)
    requires rows == was || exists f, u :: rows == Relocated(was, records[n].id, f, u)
    ensures FromRowsOn(rows, records, n + 1)
  {
    forall k | n < k < |records| ensures FromRow(rows, records[k]) {
      assert FromRow(was, records[k]) && records[k].id != records[n].id;
    }
  }

  lemma OneMoves(was: Boxes, boxes: Boxes, noselect: set<string>, before: Rows, now: Rows, id: string)
    requires now == before || exists f, u :: now == Relocated(before, id, f, u)
    requires id in now ==> id in before && RowMoves(was, boxes, noselect, before[id], now[id], id)
    ensures MovedOn(was, boxes, noselect, before, now)
  {
    hide OnlyAt, Gone, FoundAt;
  }

  lemma Untouched(rows: Rows, ids: set<string>)
    ensures OnlyTouched(rows, rows, ids)
  {
  }

  lemma NothingLocated(boxes: Boxes, records: seq<Record>)
    ensures Located(boxes, records, [])
  {
  }

  lemma PointsRightAt(boxes: Boxes, records: seq<Record>, k: nat)
    requires AllPointRight(boxes, records) && k < |records|
    ensures PointsRight(boxes, records[k].folder, records[k].uid, records[k].id)
    ensures records[k].id in Ids(records) && records[k] in records
  {
  }

  lemma KeysStay(before: Boxes, now: Boxes, ids: set<string>)
    requires Shrunk(before, now, ids)
    ensures now.Keys == before.Keys
  {
  }

  lemma LocatedMore(boxes: Boxes, records: seq<Record>, resolved: seq<(string, nat)>, at: (string, nat))
    requires Located(boxes, records, resolved) && |resolved| < |records| && LocatedAt(boxes, records[|resolved|], at)
    ensures Located(boxes, records, resolved + [at])
  {
  }

  /** The messages of the first records have been deleted, as far as they could be found. */
  ghost predicate AllCleared(was: Boxes, now: Boxes, noselect: set<string>, waste: set<string>, records: seq<Record>, n: nat) {
    forall k :: 0 <= k < n <= |records| && records[k].uid.Some? ==> Cleared(was, now, noselect, waste, records[k].folder, records[k].id)
  }

  lemma FinishedCleared(was: Boxes, now: Boxes, noselect: set<string>, waste: set<string>, records: seq<Record>, resolved: seq<(string, nat)>, n: nat,
                        ids: set<string>)
    requires AllTraced(was, now, noselect, waste, records, resolved) && Finished(now, records, n) && n <= |resolved| && Shrunk(was, now, ids)
    ensures AllCleared(was, now, noselect, waste, records, n)
  {
    hide Shrunk, Gone;
    KeysStay(was, now, ids);
    forall k | 0 <= k < n <= |records| && records[k].uid.Some? ensures Cleared(was, now, noselect, waste, records[k].folder, records[k].id) {
      var r := records[k];
      assert Traced(was, now, noselect, waste, r, resolved[k].1);
      if resolved[k].1 != 0 {
        GoneIn(was, r.folder, r.id);
        assert !Gone(was, r.folder, r.id) && Gone(now, r.folder, r.id);
      }
    }
  }

  lemma GoneIn(boxes: Boxes, folder: string, id: string)
    ensures folder !in boxes ==> Gone(boxes, folder, id)
  {
  }

  lemma NoneCleared(was: Boxes, now: Boxes, noselect: set<string>, waste: set<string>, records: seq<Record>)
    ensures AllCleared(was, now, noselect, waste, records, 0)
  {
  }

  /** The records already finished have left their folder. */
  ghost predicate Finished(boxes: Boxes, records: seq<Record>, n: nat) {
    forall k :: 0 <= k < n <= |records| && records[k].uid.Some? ==> Gone(boxes, records[k].folder, records[k].id)
  }

  lemma FinishedStill(before: Boxes, now: Boxes, records: seq<Record>, n: nat, ids: set<string>)
    requires Shrunk(before, now, ids) && Finished(before, records, n)
    ensures Finished(now, records, n)
  {
    forall k | 0 <= k < n <= |records| && records[k].uid.Some? ensures Gone(now, records[k].folder, records[k].id) {
      ShrunkKeeps(before, now, records[k].folder, records[k].id, 0, ids);
    }
  }

  function Nonzero(resolved: seq<(string, nat)>): (uids: seq<nat>)
    ensures forall u :: u in uids <==> u != 0 && exists k :: 0 <= k < |resolved| && resolved[k].1 == u
  {
    if resolved == [] then []
    else
      var rest := Nonzero(resolved[1..]);
      assert resolved == [resolved[0]] + resolved[1..];
      if resolved[0].1 != 0 then [resolved[0].1] + rest else rest
  }

  /** With a chunk's messages deleted, its records are finished too. */
  lemma ChunkFinished(boxes: Boxes, records: seq<Record>, resolved: seq<(string, nat)>, from: nat, to: nat, folder: string)
    requires AllValid(boxes) && Located(boxes, records, resolved) && from <= to <= |resolved| && InFolder(records, folder)
    requires Finished(boxes, records, from) && folder in boxes
    requires forall u <- Nonzero(resolved[from..to]) :: u !in boxes[folder].slots
    ensures Finished(boxes, records, to)
  {
    forall k | 0 <= k < to && records[k].uid.Some? ensures Gone(boxes, records[k].folder, records[k].id) {
      assert records[k] in records && LocatedAt(boxes, records[k], resolved[k]);
      if k >= from {
        assert resolved[from..to][k - from] == resolved[k];
        if resolved[k].1 == 0 { NotAtZero(boxes, folder, records[k].id); }
      }
    }
  }

  /** Without messages to delete every record of the chunk is finished already. */
  lemma EmptyChunkFinished(boxes: Boxes, records: seq<Record>, resolved: seq<(string, nat)>, from: nat, to: nat, folder: string)
    requires AllValid(boxes) && Located(boxes, records, resolved) && from <= to <= |resolved| && InFolder(records, folder)
    requires Finished(boxes, records, from) && Nonzero(resolved[from..to]) == []
    ensures Finished(boxes, records, to)
  {
    forall k | 0 <= k < to && records[k].uid.Some? ensures Gone(boxes, records[k].folder, records[k].id) {
      assert records[k] in records && LocatedAt(boxes, records[k], resolved[k]);
      if k >= from {
        assert resolved[from..to][k - from] == resolved[k];
        assert resolved[k].1 in Nonzero(resolved[from..to]) || resolved[k].1 == 0;
        NotAtZero(boxes, folder, records[k].id);
      }
    }
  }

  lemma AllDeleted(box: Mailbox, uids: seq<nat>)
    ensures forall u <- uids :: u !in DeleteAll(box, uids).slots
  {
    DeleteRefines(box, uids);
    forall u <- uids ensures u !in DeleteAll(box, uids).slots {
      assert u in box.slots ==> u in Live(box, Seen(uids));
    }
  }

  /** Delete the rows of a chunk, one by one, up to record `n`: all of them, unless the database raises. */
  method DeleteRows(db: Database, resolved: seq<(string, nat)>, ghost records: seq<Record>, ghost from: nat, ghost to: nat)
    returns (ok: bool, ghost n: nat)
    requires db.Valid() && from <= to <= |records| && |resolved| == to - from
    requires forall k :: 0 <= k < |resolved| ==> resolved[k].0 == records[from + k].id
    modifies db`rows, db`decisions, db`writes
    ensures db.Valid() && from <= n <= to && old(db.writes) <= db.writes
    ensures db.rows == old(db.rows) - Ids(records[from..n]) && db.decisions == old(db.decisions) - Ids(records[from..n])
    ensures ok ==> n == to
    ensures ok <==> NoFault(db.goes, old(db.writes), db.writes)
  {
    hide NoFault, Ids;
    n := from;
    ghost var mine := records[from..];
    NoneYet(db.goes, db.writes);
    NoneLess(db.rows, mine);
    NoneLess(db.decisions, mine);
    for k := 0 to |resolved|
      invariant db.Valid() && n == from + k && old(db.writes) <= db.writes && NoFault(db.goes, old(db.writes), db.writes)
      invariant db.rows == old(db.rows) - Ids(mine[..k]) && db.decisions == old(db.decisions) - Ids(mine[..k])
      invariant records[from..n] == mine[..k]
    {
      OneMore(db.goes, old(db.writes), db.writes);
      ok := db.Attempt();
      if !ok { return; }
      OneLess(old(db.rows), mine, k);
      OneLess(old(db.decisions), mine, k);
      var _ := db.DeleteRecord(resolved[k].0);
      n := n + 1;
    }
    ok := true;
  }

  lemma IdsJoin(records: seq<Record>, from: nat, to: nat)
    requires from <= to <= |records|
    ensures Ids(records[..to]) == Ids(records[..from]) + Ids(records[from..to])
    ensures Ids(records[..to]) <= Ids(records)
  {
    assert records[..to] == records[..from] + records[from..to];
    assert records == records[..to] + records[to..];
  }

  /** Select the folder and delete the chunk's messages from it. */
  method DeleteFrom(client: Client, folder: string, uids: seq<nat>, ghost ids: set<string>) returns (ok: bool)
    requires client.Valid() && uids != [] && AllOwn(client.boxes, folder, uids, ids)
    modifies client
    ensures client.Valid() && Shrunk(old(client.boxes), client.boxes, ids) && old(client.tick) <= client.tick
    ensures ok ==> folder in client.boxes && forall u <- uids :: u !in client.boxes[folder].slots
    ensures Smooth(client.answers, old(client.tick), client.tick) && folder in client.boxes && folder !in client.noselect ==> ok
  {
    hide DeleteAll, Live, Shrunk, AllDeletedOnly, Smooth;
    ghost var before, start := client.boxes, client.tick;
    Same(before, ids);
    var selected := client.SelectFolder(folder);
    SmoothOnce(client.answers, start);
    ghost var mark := client.tick;
    SmoothSplits(client.answers, start, mark, mark);
    if selected.Err? { return false; }
    var deleted := client.DeleteMessages(uids);
    SmoothSplits(client.answers, start, mark, client.tick);
    DeletedOnlyShrinks(before, client.boxes, folder, Seen(uids), ids);
    AllDeleted(before[folder], uids);
    return deleted.Ok?;
  }

  /** The identifiers name no message of another Message-ID than `ids`. */
  ghost predicate AllOwn(boxes: Boxes, folder: string, uids: seq<nat>, ids: set<string>) {
    forall u <- uids :: folder in boxes && u in boxes[folder].slots ==> boxes[folder].slots[u].mail.messageId in ids
  }

  lemma LocatedOwn(boxes: Boxes, records: seq<Record>, resolved: seq<(string, nat)>, from: nat, to: nat, folder: string)
    requires Located(boxes, records, resolved) && from <= to <= |resolved| && InFolder(records, folder)
    ensures AllOwn(boxes, folder, Nonzero(resolved[from..to]), Ids(records))
  {
    forall u <- Nonzero(resolved[from..to]) | folder in boxes && u in boxes[folder].slots
      ensures boxes[folder].slots[u].mail.messageId in Ids(records)
    {
      var k :| 0 <= k < to - from && resolved[from..to][k].1 == u;
      assert records[from + k] in records && LocatedAt(boxes, records[from + k], resolved[from + k]);
    }
  }

  /** Delete a folder's group chunk by chunk; `n` records are finished when it ends or fails. */
  method ProcessDeleteGroup(client: Client, db: Database, folder: string, records: seq<Record>, waste: set<string>)
    returns (res: Result<nat, ImapError>, ghost n: nat)
    requires client.Valid() && db.Valid() && UniqueIds(client.boxes) && Truthful(db.rows, client.boxes)
    requires InFolder(records, folder) && AllPointRight(client.boxes, records) && DistinctIds(records) && AllFromRows(db.rows, records)
    modifies client, db`rows, db`decisions, db`writes
    ensures client.Valid() && db.Valid() && Shrunk(old(client.boxes), client.boxes, Ids(records)) && Truthful(db.rows, client.boxes)
    ensures old(client.tick) <= client.tick && old(db.writes) <= db.writes
    ensures OnlyTouched(old(db.rows), db.rows, Ids(records)) && n <= |records|
    ensures MovedOn(old(client.boxes), client.boxes, client.noselect, old(db.rows), db.rows)
    ensures db.rows.Keys == old(db.rows.Keys) - Ids(records[..n])
    ensures AllCleared(old(client.boxes), client.boxes, client.noselect, waste, records, n)
    ensures DecisionsGo(old(db.decisions), db.decisions, old(db.rows), db.rows)
    ensures res.Ok? ==> res.value == n == |records|
    ensures (&& Smooth(client.answers, old(client.tick), client.tick) && NoFault(db.goes, old(db.writes), db.writes)
             && folder in client.boxes && folder !in client.noselect) ==> res.Ok?
  {
    hide Shrunk, UniqueIds, Truthful, Located, AllPointRight, OnlyTouched, InFolder, Finished, Smooth, Ids, AllOwn, NoFault, MovedOn, DistinctIds,
         AllFromRows, DecisionsGo, AllTraced, AllCleared, Nonzero;
    ghost var before, start, rows, decisions, first := client.boxes, client.tick, db.rows, db.decisions, db.writes;
    n := 0;
    var resolved := ResolveGroup(client, db, folder, records, waste);
    KeysStay(before, client.boxes, Ids(records));
    NoneFinished(client.boxes, records);
    NoneCleared(before, client.boxes, client.noselect, waste, records);
    NoIds(records);
    DecisionsStay(decisions, rows, db.rows);
    if resolved.Err? { return Err(resolved.error), n; }
    var done := 0;
    while done < |records|
      invariant client.Valid() && db.Valid() && Shrunk(before, client.boxes, Ids(records)) && Truthful(db.rows, client.boxes)
      invariant start <= client.tick && client.boxes.Keys == before.Keys && n == done <= |records|
      invariant OnlyTouched(rows, db.rows, Ids(records)) && db.rows.Keys == rows.Keys - Ids(records[..n])
      invariant MovedOn(before, client.boxes, client.noselect, rows, db.rows) && DecisionsGo(decisions, db.decisions, rows, db.rows)
      invariant first <= db.writes
      invariant Located(client.boxes, records, resolved.value) && Finished(client.boxes, records, n)
      invariant AllTraced(before, client.boxes, client.noselect, waste, records, resolved.value)
    {
      var stop := if done + CHUNK <= |records| then done + CHUNK else |records|;
      var chunk := resolved.value[done..stop];
      var uids := Nonzero(chunk);
      if uids == [] {
        EmptyChunkFinished(client.boxes, records, resolved.value, done, stop, folder);
      } else {
        ghost var current, mark := client.boxes, client.tick;
        LocatedOwn(current, records, resolved.value, done, stop, folder);
        var ok := DeleteFrom(client, folder, uids, Ids(records));
        SmoothSplits(client.answers, start, mark, client.tick);
        ShrunkTwice(before, current, client.boxes, Ids(records), Ids(records));
        KeysStay(current, client.boxes, Ids(records));
        ShrunkStaysTruthful(db.rows, current, client.boxes, Ids(records));
        MovedStill(before, current, client.boxes, client.noselect, rows, db.rows, Ids(records));
        LocatedStill(current, client.boxes, records, resolved.value, Ids(records));
        FinishedStill(current, client.boxes, records, n, Ids(records));
        TracedStill(before, current, client.boxes, client.noselect, waste, records, resolved.value, Ids(records));
        FinishedCleared(before, client.boxes, client.noselect, waste, records, resolved.value, n, Ids(records));
        if !ok { return Err(ImapError.Refused), n; }
        ChunkFinished(client.boxes, records, resolved.value, done, stop, folder);
      }
      ghost var held, decided, writes := db.rows, db.decisions, db.writes;
      Matching(client.boxes, records, resolved.value, done, stop);
      var goes;
      goes, n := DeleteRows(db, chunk, records, done, stop);
      FaultsSplit(db.goes, first, writes, db.writes);
      RowsDropped(before, client.boxes, client.noselect, rows, held, records, done, n);
      DecisionsDropped(decided, held, Ids(records[done..n]));
      DecisionsTwice(decisions, decided, db.decisions, rows, held, db.rows);
      FinishedLess(client.boxes, records, n, stop);
      FinishedCleared(before, client.boxes, client.noselect, waste, records, resolved.value, n, Ids(records));
      if !goes { return Err(ImapError.Refused), n; }
      done := stop;
    }
    FinishedCleared(before, client.boxes, client.noselect, waste, records, resolved.value, n, Ids(records));
    AllOf(records);
    return Ok(done), n;
  }

  lemma LessOn(keys: set<string>, held: Rows, records: seq<Record>, from: nat, to: nat)
    requires from <= to <= |records| && held.Keys == keys - Ids(records[..from])
    ensures (held - Ids(records[from..to])).Keys == keys - Ids(records[..to])
  {
    IdsJoin(records, from, to);
  }

  lemma MovedStill(a: Boxes, b: Boxes, c: Boxes, noselect: set<string>, before: Rows, now: Rows, ids: set<string>)
    requires Shrunk(a, b, ids) && Shrunk(b, c, ids) && MovedOn(a, b, noselect, before, now)
    ensures MovedOn(a, c, noselect, before, now)
  {
    hide Shrunk, MovedOn;
    FewerMoved(a, b, c, noselect, before, now, {}, ids, ids);
    assert now - {} == now;
  }

  /** The rows after some of a chunk's have been deleted. */
  lemma RowsDropped(was: Boxes, boxes: Boxes, noselect: set<string>, rows: Rows, held: Rows, records: seq<Record>, from: nat, to: nat)
    requires from <= to <= |records| && held.Keys == rows.Keys - Ids(records[..from]) && AllValid(boxes) && Shrunk(was, boxes, Ids(records))
    requires OnlyTouched(rows, held, Ids(records)) && Truthful(held, boxes) && MovedOn(was, boxes, noselect, rows, held)
    ensures var left := held - Ids(records[from..to]);
            && left.Keys == rows.Keys - Ids(records[..to])
            && OnlyTouched(rows, left, Ids(records)) && Truthful(left, boxes) && MovedOn(was, boxes, noselect, rows, left)
  {
    hide Shrunk, OnlyTouched, Truthful, MovedOn, Ids;
    IdsJoin(records, from, to);
    LessOn(rows.Keys, held, records, from, to);
    RowsLess(rows, held, boxes, Ids(records[from..to]), Ids(records));
    Same(boxes, Ids(records));
    FewerMoved(was, boxes, boxes, noselect, rows, held, Ids(records[from..to]), Ids(records), Ids(records));
  }

  lemma FinishedLess(boxes: Boxes, records: seq<Record>, n: nat, m: nat)
    requires Finished(boxes, records, m) && n <= m <= |records|
    ensures Finished(boxes, records, n)
  {
  }

  lemma NoneFinished(boxes: Boxes, records: seq<Record>)
    ensures Finished(boxes, records, 0)
  {
  }

  lemma NoIds(records: seq<Record>)
    ensures Ids(records[..0]) == {}
  {
  }

  lemma Matching(boxes: Boxes, records: seq<Record>, resolved: seq<(string, nat)>, from: nat, to: nat)
    requires Located(boxes, records, resolved) && from <= to <= |resolved|
    ensures to <= |records|
    ensures forall k :: 0 <= k < to - from ==> resolved[from..to][k].0 == records[from + k].id
  {
    forall k | 0 <= k < to - from ensures resolved[from..to][k].0 == records[from + k].id {
      assert LocatedAt(boxes, records[from + k], resolved[from + k]);
    }
  }

  lemma RowsLess(rows: Rows, held: Rows, boxes: Boxes, some: set<string>, ids: set<string>)
    requires OnlyTouched(rows, held, ids) && some <= ids && Truthful(held, boxes)
    ensures OnlyTouched(rows, held - some, ids) && Truthful(held - some, boxes)
  {
    hide PointsRight;
  }

  // ---------- the worker ----------

  const TO_DELETE := "TO_DELETE"

  /** What a run of the worker may do whatever fails. */
  ghost predicate RowsGoLast(before: Rows, now: Rows, was: Boxes, boxes: Boxes, noselect: set<string>, waste: set<string>, targets: set<string>,
                             configured: bool) {
    && OnlyTouched(before, now, targets)
    && (configured ==> forall id <- before.Keys - now.Keys :: before[id].uid.Some? ==> Cleared(was, boxes, noselect, waste, before[id].folder, id))
  }

  lemma GroupFollows(before: Rows, held: Rows, now: Rows, was: Boxes, mid: Boxes, boxes: Boxes, noselect: set<string>, waste: set<string>,
                     targets: set<string>, records: seq<Record>, n: nat)
    requires RowsGoLast(before, held, was, mid, noselect, waste, targets, true)
    requires Shrunk(was, mid, targets) && Shrunk(mid, boxes, Ids(records)) && n <= |records|
    requires AllFromRows(before, records) && Ids(records) <= targets
    requires OnlyTouched(held, now, Ids(records)) && now.Keys == held.Keys - Ids(records[..n])
    requires AllCleared(mid, boxes, noselect, waste, records, n)
    ensures RowsGoLast(before, now, was, boxes, noselect, waste, targets, true)
  {
    hide Shrunk, Cleared;
    forall id <- before.Keys - now.Keys | before[id].uid.Some? ensures Cleared(was, boxes, noselect, waste, before[id].folder, id) {
      if id in held {
        assert id in Ids(records[..n]);
        var r :| r in records[..n] && r.id == id;
        assert r in records && FromRow(before, r);
        ClearedSince(was, mid, boxes, noselect, waste, r.folder, id, targets);
      } else {
        ClearedStill(was, mid, boxes, noselect, waste, before[id].folder, id, Ids(records));
      }
    }
  }

  lemma WholeGroup(records: seq<Record>, all: seq<Record>, rows: Rows, boxes: Boxes, key: string, keyOf: map<Record, string>, groups: seq<Group<string>>)
    requires Sorted(groups, keyOf) && Group(key, records) in groups && Members(groups) == set r | r in all
    requires (forall r <- all :: r in keyOf && keyOf[r] == r.folder) && AllFromRows(rows, all)
    requires Truthful(rows, boxes)
    ensures InFolder(records, key) && AllFromRows(rows, records) && Ids(records) <= Ids(all)
    ensures AllPointRight(boxes, records)
  {
    hide PointsRight;
    forall r <- records ensures r in all {
      assert r in Members(groups);
    }
    forall r <- records ensures r.folder == key && FromRow(rows, r) && PointsRight(boxes, r.folder, r.uid, r.id) {
      assert r in all;
    }
  }

  method RunGroups(client: Client, db: Database, groups: seq<Group<string>>, keyOf: map<Record, string>, waste: set<string>, total: nat,
                   ghost all: seq<Record>)
    returns (ok: bool, ghost shown: seq<nat>, ghost last: nat)
    requires client.Valid() && db.Valid() && UniqueIds(client.boxes) && Truthful(db.rows, client.boxes)
    requires Sorted(groups, keyOf) && Size(groups) == total && Members(groups) == set r | r in all
    requires (forall r <- all :: r in keyOf && keyOf[r] == r.folder) && AllFromRows(db.rows, all) && Separate(groups)
    modifies client, db`rows, db`decisions, db`marks, db`written, db`writes
    ensures client.Valid() && db.Valid() && Shrunk(old(client.boxes), client.boxes, Ids(all)) && Truthful(db.rows, client.boxes)
    ensures old(client.tick) <= client.tick && old(db.writes) <= db.writes
    ensures Counted(old(db.written), db.written, "delete", shown, last, total)
    ensures RowsGoLast(old(db.rows), db.rows, old(client.boxes), client.boxes, client.noselect, waste, Ids(all), true)
    ensures MovedOn(old(client.boxes), client.boxes, client.noselect, old(db.rows), db.rows)
    ensures DecisionsGo(old(db.decisions), db.decisions, old(db.rows), db.rows)
    ensures ok ==> db.rows.Keys == old(db.rows.Keys) - Ids(all) && EndsAt(shown, total)
    ensures (&& Smooth(client.answers, old(client.tick), client.tick) && NoFault(db.goes, old(db.writes), db.writes)
             && (forall r <- all :: r.folder in client.boxes && r.folder !in client.noselect)) ==> ok
  {
    hide Shrunk, UniqueIds, Truthful, AllPointRight, OnlyTouched, InFolder, Finished, Smooth, Ids, RowsGoLast, Members, AllFromRows, Size, Gone, Counted,
         ProgressText, NoFault, MovedOn, DecisionsGo, DistinctIds, Separate, Sorted, GroupIds, AllCleared;
    ghost var before, start, rows, decisions, first := client.boxes, client.tick, db.rows, db.decisions, db.writes;
    NothingMovedOn(before, client.noselect, rows);
    DecisionsStay(decisions, rows, rows);
    NoneYet(db.goes, first);
    Untouched(rows, {});
    Same(before, Ids(all));
    FollowsAtFirst(rows, before, client.noselect, waste, Ids(all));
    var done, i := 0, 0;
    shown := [];
    NoGroups(groups);
    NothingCounted(db.written, "delete", total);
    while i < |groups|
      invariant client.Valid() && db.Valid() && Shrunk(before, client.boxes, Ids(all)) && Truthful(db.rows, client.boxes)
      invariant start <= client.tick && 0 <= i <= |groups| && client.boxes.Keys == before.Keys
      invariant done == Size(groups[..i]) && Counted(old(db.written), db.written, "delete", shown, done, total)
      invariant RowsGoLast(rows, db.rows, before, client.boxes, client.noselect, waste, Ids(all), true)
      invariant db.rows.Keys == rows.Keys - GroupIds(groups, i) && EndsAt(shown, done)
      invariant OnlyTouched(rows, db.rows, GroupIds(groups, i)) && first <= db.writes
      invariant MovedOn(before, client.boxes, client.noselect, rows, db.rows) && DecisionsGo(decisions, db.decisions, rows, db.rows)
    {
      var g := groups[i];
      ghost var current, mark, held, decided, writes := client.boxes, client.tick, db.rows, db.decisions, db.writes;
      TurnFromRows(rows, held, groups, i, all);
      UniqueStill(before, current, Ids(all));
      WholeGroup(g.members, all, rows, before, g.key, keyOf, groups);
      PointRightStill(before, current, g.members, Ids(all));
      var res, n := ProcessDeleteGroup(client, db, g.key, g.members, waste);
      SmoothSplits(client.answers, start, mark, client.tick);
      ShrunkTwice(before, current, client.boxes, Ids(g.members), Ids(all));
      KeysStay(current, client.boxes, Ids(g.members));
      FaultsSplit(db.goes, first, writes, db.writes);
      GroupFollows(rows, held, db.rows, before, current, client.boxes, client.noselect, waste, Ids(all), g.members, n);
      MovedTwice(before, current, client.boxes, client.noselect, rows, held, db.rows, Ids(all), Ids(g.members));
      DecisionsTwice(decisions, decided, db.decisions, rows, held, db.rows);
      TouchedThen(rows, held, db.rows, GroupIds(groups, i), Ids(g.members));
      if res.Err? {
        SomeMember(groups, i, all, keyOf);
        return false, shown, done;
      }
      OneMore(db.goes, first, db.writes);
      var goes := db.Attempt();
      if !goes { return false, shown, done; }
      SizeSplit(groups, i);
      WholeSize(groups);
      AllOf(g.members);
      GroupIdsStep(groups, i);
      CountedMore(old(db.written), db.written, "delete", shown, done, done + res.value, total);
      i := i + 1;
      done := done + res.value;
      db.SetWatermark(STATE_KEY, ProgressText("delete", done, total));
      shown := shown + [done];
    }
    EveryId(groups, all);
    WholeSize(groups);
    return true, shown, done;
  }

  lemma TurnFromRows(was: Rows, rows: Rows, groups: seq<Group<string>>, n: nat, all: seq<Record>)
    requires n < |groups| && Separate(groups) && Members(groups) == (set r | r in all) && AllFromRows(was, all)
    requires OnlyTouched(was, rows, GroupIds(groups, n)) && rows.Keys == was.Keys - GroupIds(groups, n)
    ensures AllFromRows(rows, groups[n].members) && DistinctIds(groups[n].members)
  {
    var g := groups[n];
    assert g in groups;
    GroupIdsAre(groups, n);
    forall r <- g.members ensures FromRow(rows, r) {
      assert r in Members(groups) && r.id in Ids(g.members);
      assert FromRow(was, r) && r.id !in GroupIds(groups, n);
    }
  }

  lemma TouchedThen(a: Rows, b: Rows, c: Rows, first: set<string>, second: set<string>)
    requires OnlyTouched(a, b, first) && OnlyTouched(b, c, second)
    ensures OnlyTouched(a, c, first + second)
  {
  }

  lemma SomeMember(groups: seq<Group<string>>, i: nat, all: seq<Record>, keyOf: map<Record, string>)
    requires i < |groups| && Sorted(groups, keyOf) && Members(groups) == set r | r in all
    requires forall r <- all :: r in keyOf && keyOf[r] == r.folder
    ensures exists r <- all :: r.folder == groups[i].key
  {
    var g := groups[i];
    assert g in groups && g.members[0] in g.members;
    assert g.members[0] in Members(groups);
  }

  lemma FollowsAtFirst(rows: Rows, boxes: Boxes, noselect: set<string>, waste: set<string>, targets: set<string>)
    ensures RowsGoLast(rows, rows, boxes, boxes, noselect, waste, targets, true)
  {
  }

  lemma AllGone(before: Rows, now: Rows, boxes: Boxes, noselect: set<string>, waste: set<string>, records: seq<Record>, gone: set<string>)
    requires AllFromRows(before, records) && now == before - gone && gone <= Ids(records)
    requires forall r <- records :: r.uid.None?
    ensures RowsGoLast(before, now, boxes, boxes, noselect, waste, Ids(records), true)
  {
    forall id <- before.Keys - now.Keys ensures before[id].uid.None? {
      var r :| r in records && r.id == id;
      assert FromRow(before, r);
    }
  }

  /** Whether the worker could do all it was asked to: it connected, no command and no write failed, and the
      folders concerned can be selected. */
  ghost predicate Undisturbed(client: Client, db: Database, from: nat, writes: nat, before: Rows, targets: set<string>, connects: bool)
    reads client, db`writes
  {
    && connects && from <= client.tick && Smooth(client.answers, from, client.tick)
    && writes <= db.writes && NoFault(db.goes, writes, db.writes)
    && forall id <- targets :: id in before ==> before[id].folder in client.boxes && before[id].folder !in client.noselect
  }

  /** The part of the worker that talks to the server. */
  method DeleteOnServer(client: Client, db: Database, records: seq<Record>, waste: set<string>)
    returns (ok: bool, ghost shown: seq<nat>, ghost last: nat)
    requires client.Valid() && db.Valid() && UniqueIds(client.boxes) && Truthful(db.rows, client.boxes)
    requires AllFromRows(db.rows, records) && DistinctIds(records)
    modifies client, db`rows, db`decisions, db`marks, db`written, db`writes
    ensures client.Valid() && db.Valid() && UniqueIds(client.boxes) && Truthful(db.rows, client.boxes)
    ensures Shrunk(old(client.boxes), client.boxes, Ids(records)) && old(client.tick) <= client.tick && old(db.writes) <= db.writes
    ensures MovedOn(old(client.boxes), client.boxes, client.noselect, old(db.rows), db.rows)
    ensures DecisionsGo(old(db.decisions), db.decisions, old(db.rows), db.rows)
    ensures RowsGoLast(old(db.rows), db.rows, old(client.boxes), client.boxes, client.noselect, waste, Ids(records), true)
    ensures Counted(old(db.written), db.written, "delete", shown, last, |records|)
    ensures ok ==> db.rows.Keys == old(db.rows.Keys) - Ids(records) && EndsAt(shown, |records|)
    ensures Undisturbed(client, db, old(client.tick), old(db.writes), old(db.rows), Ids(records), true) ==> ok
  {
    hide UniqueIds, Truthful, Shrunk, RowsGoLast, AllFromRows, Ids, Smooth, FromRow, DistinctIds, Sorted, Members, Size, Counted, NoFault, MovedOn,
         DecisionsGo, Separate, EndsAt;
    ghost var before, rows := client.boxes, db.rows;
    var keyOf := map r | r in records :: r.folder;
    var groups := GroupBy(records, keyOf);
    ok, shown, last := RunGroups(client, db, groups, keyOf, waste, |records|, records);
    UniqueStill(before, client.boxes, Ids(records));
    FoldersOf(rows, records);
  }

  /** The other part, for when there is nothing to ask the server. */
  method DeleteLocally(client: Client, db: Database, records: seq<Record>, configured: bool, ghost waste: set<string>)
    returns (ok: bool, ghost shown: seq<nat>, ghost last: nat)
    requires client.Valid() && db.Valid() && Truthful(db.rows, client.boxes) && AllFromRows(db.rows, records)
    requires configured ==> forall r <- records :: r.uid.None?
    modifies db`rows, db`decisions, db`marks, db`written, db`writes
    ensures db.Valid() && Truthful(db.rows, client.boxes) && old(db.writes) <= db.writes
    ensures MovedOn(client.boxes, client.boxes, client.noselect, old(db.rows), db.rows)
    ensures DecisionsGo(old(db.decisions), db.decisions, old(db.rows), db.rows)
    ensures RowsGoLast(old(db.rows), db.rows, client.boxes, client.boxes, client.noselect, waste, Ids(records), configured)
    ensures Counted(old(db.written), db.written, "delete", shown, last, |records|)
    ensures ok ==> db.rows.Keys == old(db.rows.Keys) - Ids(records) && EndsAt(shown, |records|)
    ensures ok <==> NoFault(db.goes, old(db.writes), db.writes)
  {
    hide Truthful, Shrunk, RowsGoLast, AllFromRows, Ids, Counted, NoFault, MovedOn, DecisionsGo, EndsAt;
    ghost var boxes, rows, decisions := client.boxes, db.rows, db.decisions;
    var n;
    ok, n, shown := DeleteAllRows(db, records, "delete", |records|);
    last := n;
    ghost var gone := Ids(records[..n]);
    SomeIds(records, n);
    Dropped(rows, db.rows, boxes, client.noselect, waste, gone, Ids(records));
    Same(boxes, Ids(records));
    NothingMovedOn(boxes, client.noselect, rows);
    FewerMoved(boxes, boxes, boxes, client.noselect, rows, rows, gone, Ids(records), Ids(records));
    DecisionsDropped(decisions, rows, gone);
    if configured { AllGone(rows, db.rows, boxes, client.noselect, waste, records, gone); }
  }

  /** The background delete. Whatever fails: the state ends idle after progress that rises within the total,
      no unflagged mail of another Message-ID is touched, a tracked row disappears only once its message has
      left its folder and was deleted from where it was found, decisions go with their rows, and a row that is left names the folder it did or one
      its message was found in. What the worker relied on holds again afterwards; undisturbed, it leaves no
      such row. */
  method RunBatchDelete(client: Client, db: Database, configured: bool, connects: bool, waste: set<string>) returns (ghost shown: seq<nat>)
    requires client.Valid() && db.Valid() && UniqueIds(client.boxes) && Truthful(db.rows, client.boxes)
    modifies client, db`rows, db`decisions, db`marks, db`written, db`writes
    ensures client.Valid() && db.Valid() && UniqueIds(client.boxes) && Truthful(db.rows, client.boxes)
    ensures Shrunk(old(client.boxes), client.boxes, Decided(old(db.decisions), TO_DELETE))
    ensures old(client.tick) <= client.tick && old(db.writes) <= db.writes
    ensures MovedOn(old(client.boxes), client.boxes, client.noselect, old(db.rows), db.rows)
    ensures DecisionsGo(old(db.decisions), db.decisions, old(db.rows), db.rows)
    ensures !BatchRunning(db.GetWatermark(STATE_KEY))
    ensures Reported(old(db.written), db.written, "delete", shown, |Decided(old(db.decisions), TO_DELETE)|)
    ensures RowsGoLast(old(db.rows), db.rows, old(client.boxes), client.boxes, client.noselect, waste, Decided(old(db.decisions), TO_DELETE), configured)
    ensures !(configured && Tracked(old(db.rows), Decided(old(db.decisions), TO_DELETE)) && connects) ==> client.boxes == old(client.boxes)
    ensures configured && Tracked(old(db.rows), Decided(old(db.decisions), TO_DELETE)) && !connects ==> db.rows == old(db.rows)
    ensures (if configured then
               Undisturbed(client, db, old(client.tick), old(db.writes), old(db.rows), Decided(old(db.decisions), TO_DELETE), connects)
             else NoFault(db.goes, old(db.writes), db.writes)) ==>
              && db.rows.Keys == old(db.rows.Keys) - Decided(old(db.decisions), TO_DELETE)
              && EndsAt(shown, |Decided(old(db.decisions), TO_DELETE)|)
  {
    hide UniqueIds, Truthful, Shrunk, RowsGoLast, AllFromRows, Ids, DistinctIds, Counted, ProgressText, NoFault, MovedOn, DecisionsGo, Undisturbed,
         Tracked;
    ghost var before, rows, written := client.boxes, db.rows, db.written;
    NothingMovedOn(before, client.noselect, rows);
    DecisionsStay(db.decisions, rows, rows);
    var records := CollectRecords(db, TO_DELETE);
    TrackedIff(rows, records);
    ghost var total := |records|;
    DistinctSize(records);
    StartCounting(written, "delete", total);
    db.SetWatermark(STATE_KEY, ProgressText("delete", 0, |records|));
    shown := [0];
    ghost var mark: seq<(string, string)>, more: seq<nat>, last: nat := db.written, [], 0;
    NothingCounted(mark, "delete", total);
    Same(before, Ids(records));
    FollowsAtFirst(rows, before, client.noselect, waste, Ids(records));
    var ok := false;
    UndisturbedMeans(client, db, old(client.tick), old(db.writes), rows, Ids(records), connects);
    if configured && exists r <- records :: r.uid.Some? {
      if connects {
        ok, more, last := DeleteOnServer(client, db, records, waste);
      }
    } else {
      ok, more, last := DeleteLocally(client, db, records, configured, waste);
      UndisturbedMeans(client, db, old(client.tick), old(db.writes), rows, Ids(records), connects);
    }
    CountedOn(written, mark, db.written, "delete", shown, more, last, total);
    assert more != [] ==> (shown + more)[|more|] == more[|more| - 1];
    shown := shown + more;
    FinishCounting(written, db.written, "delete", shown, last, total);
    db.SetWatermark(STATE_KEY, IDLE);
  }

  lemma UndisturbedMeans(client: Client, db: Database, from: nat, writes: nat, before: Rows, targets: set<string>, connects: bool)
    ensures Undisturbed(client, db, from, writes, before, targets, connects) ==> connects && NoFault(db.goes, writes, db.writes)
    ensures connects ==>
              (Undisturbed(client, db, from, writes, before, targets, connects) <==> Undisturbed(client, db, from, writes, before, targets, true))
  {
  }

  lemma FoldersOf(rows: Rows, records: seq<Record>)
    requires AllFromRows(rows, records)
    ensures forall r <- records :: r.id in rows && r.id in Ids(records) && r.folder == rows[r.id].folder
  {
    forall r <- records ensures r.id in rows && r.id in Ids(records) && r.folder == rows[r.id].folder {
      assert FromRow(rows, r);
    }
  }

  lemma SomeIds(records: seq<Record>, n: nat)
    requires n <= |records|
    ensures Ids(records[..n]) <= Ids(records) && (n == |records| ==> Ids(records[..n]) == Ids(records))
  {
    IdsJoin(records, 0, n);
    AllOf(records);
  }

  lemma Dropped(before: Rows, now: Rows, boxes: Boxes, noselect: set<string>, waste: set<string>, gone: set<string>, targets: set<string>)
    requires now == before - gone && gone <= targets
    ensures RowsGoLast(before, now, boxes, boxes, noselect, waste, targets, false)
    ensures Truthful(before, boxes) ==> Truthful(now, boxes)
  {
  }

  // ---------- an interrupted run, and another ----------

  /** What is still to be deleted after a run was all to be deleted before it. */
  lemma DecidedAgain(before: map<string, string>, now: map<string, string>, was: Rows, rows: Rows)
    requires DecisionsGo(before, now, was, rows) && before.Keys <= was.Keys
    ensures Decided(now, TO_DELETE) == Decided(before, TO_DELETE) * rows.Keys
  {
  }

  /** The folders the rows name after a run can be selected if those before could. */
  lemma FoldersStill(was: Boxes, boxes: Boxes, noselect: set<string>, before: Rows, rows: Rows, targets: set<string>)
    requires MovedOn(was, boxes, noselect, before, rows) && was.Keys == boxes.Keys
    requires forall id <- targets :: id in before ==> before[id].folder in boxes && before[id].folder !in noselect
    ensures forall id <- targets :: id in rows ==> rows[id].folder in boxes && rows[id].folder !in noselect
  {
    hide OnlyAt, Gone;
    forall id <- targets | id in rows ensures rows[id].folder in boxes && rows[id].folder !in noselect {
      assert RowMoves(was, boxes, noselect, before[id], rows[id], id);
    }
  }

  /** Over two runs too, a tracked row is gone only if its message was deleted as far as it could be found, and
      has left the folder the row named before the first. */
  lemma BothGoLast(was: Boxes, mid: Boxes, boxes: Boxes, noselect: set<string>, waste: set<string>, before: Rows, held: Rows, rows: Rows,
                   targets: set<string>, some: set<string>)
    requires RowsGoLast(before, held, was, mid, noselect, waste, targets, true) && MovedOn(was, mid, noselect, before, held)
    requires Shrunk(was, mid, targets) && Shrunk(mid, boxes, some) && some <= targets
    requires RowsGoLast(held, rows, mid, boxes, noselect, waste, some, true)
    ensures RowsGoLast(before, rows, was, boxes, noselect, waste, targets, true)
  {
    hide Gone, OnlyAt, Shrunk, Left, Nowhere;
    forall id <- before.Keys - rows.Keys | before[id].uid.Some? ensures Cleared(was, boxes, noselect, waste, before[id].folder, id) {
      if id in held {
        assert RowMoves(was, mid, noselect, before[id], held[id], id);
        ClearedSince(was, mid, boxes, noselect, waste, held[id].folder, id, targets);
        if held[id] != before[id] { ShrunkKeeps(mid, boxes, before[id].folder, id, 0, some); }
      } else {
        ClearedStill(was, mid, boxes, noselect, waste, before[id].folder, id, some);
      }
    }
  }

  /** A run interrupted anywhere, and then another: no unflagged mail of another Message-ID is touched. If the
      second is undisturbed, nothing that was to be deleted has a row left, and every tracked message has been
      deleted as far as it could be found and has left the folder its row named before the first run. */
  method DeleteAgain(client: Client, db: Database, connects: bool, reconnects: bool, waste: set<string>)
    returns (ghost tick: nat, ghost writes: nat)
    requires client.Valid() && db.Valid() && UniqueIds(client.boxes) && Truthful(db.rows, client.boxes)
    modifies client, db`rows, db`decisions, db`marks, db`written, db`writes
    ensures old(client.tick) <= tick <= client.tick && old(db.writes) <= writes <= db.writes
    ensures Shrunk(old(client.boxes), client.boxes, Decided(old(db.decisions), TO_DELETE))
    ensures Undisturbed(client, db, tick, writes, old(db.rows), Decided(old(db.decisions), TO_DELETE), reconnects) ==>
              && db.rows.Keys == old(db.rows.Keys) - Decided(old(db.decisions), TO_DELETE)
              && RowsGoLast(old(db.rows), db.rows, old(client.boxes), client.boxes, client.noselect, waste, Decided(old(db.decisions), TO_DELETE), true)
  {
    hide UniqueIds, Truthful, Shrunk, RowsGoLast, Smooth, NoFault, MovedOn, DecisionsGo, Reported, Decided, Tracked;
    ghost var was, before, decisions := client.boxes, db.rows, db.decisions;
    ghost var targets := Decided(decisions, TO_DELETE);
    var _ := RunBatchDelete(client, db, true, connects, waste);
    tick, writes := client.tick, db.writes;
    ghost var mid, held, left := client.boxes, db.rows, Decided(db.decisions, TO_DELETE);
    DecidedAgain(decisions, db.decisions, before, held);
    KeysStay(was, mid, targets);
    var _ := RunBatchDelete(client, db, true, reconnects, waste);
    KeysStay(mid, client.boxes, left);
    ShrunkTwice(was, mid, client.boxes, left, targets);
    if Undisturbed(client, db, tick, writes, before, targets, reconnects) {
      FoldersStill(was, mid, client.noselect, before, held, targets);
      LessInTwo(before, held, was, mid, client.noselect, waste, targets, left);
      BothGoLast(was, mid, client.boxes, client.noselect, waste, before, held, db.rows, targets, left);
    }
  }

  lemma LessInTwo(before: Rows, held: Rows, was: Boxes, boxes: Boxes, noselect: set<string>, waste: set<string>, targets: set<string>, left: set<string>)
    requires RowsGoLast(before, held, was, boxes, noselect, waste, targets, true) && left == targets * held.Keys
    ensures held.Keys - left == before.Keys - targets
  {
  }
}
