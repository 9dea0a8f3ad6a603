/**
 The background worker that archives every mail decided TO_ARCHIVE: server/adapters.py lines 319-391
 and 480-637. The proposed subfolder of each mail is given.
 */
module BatchArchive {
  import opened Outcome
  import opened Mailboxes
  import opened ChunkedMoves
  import opened ImapClient
  import opened MailDatabase
  import opened Resolve
  import opened ArchivePaths
  import opened BatchRecords
  import opened BatchDelete
  import opened Custody

  // ---------- what the worker relies on and keeps ----------

  /** The identifier is one the folder has assigned, and if a message still has it, it is the one meant. */
  ghost predicate Anchored(boxes: Boxes, r: Record) {
    r.uid.Some? ==> r.folder in boxes && r.uid.value < boxes[r.folder].next && IsOwn(boxes[r.folder], r.uid.value, r.id)
  }

  ghost predicate IsOwn(box: Mailbox, u: nat, id: string) {
    u in box.slots ==> box.slots[u].mail.messageId == id
  }

  /** The same for a folder no mail is archived to, where the identifier may be stale and which may even be
      gone: it means nothing now, and will mean nothing later. */
  ghost predicate Sure(boxes: Boxes, r: Record, dests: set<string>) {
    Anchored(boxes, r) || (r.uid.Some? && r.folder !in dests && IsOwn(BoxOf(boxes, r.folder), r.uid.value, r.id))
  }

  /** What the worker needs to know about a tracked record. */
  ghost predicate Ready(boxes: Boxes, r: Record, dest: string) {
    r.uid.Some? ==> Sure(boxes, r, {dest}) && Tidy(boxes, r.id, dest)
  }

  ghost predicate AllReady(boxes: Boxes, records: seq<Record>, dest: string) {
    forall r <- records :: Ready(boxes, r, dest)
  }

  lemma StillAnchored(before: Boxes, now: Boxes, r: Record, ids: set<string>)
    requires OnlyMail(before, now, ids) && Anchored(before, r)
    ensures Anchored(now, r)
  {
    if r.uid.Some? && r.uid.value in now[r.folder].slots {
      assert NewBelongs(BoxOf(before, r.folder), now[r.folder], ids);
      assert FromBefore(before[r.folder], now[r.folder], r.uid.value);
    }
  }

  /** No mail of these Message-IDs has arrived in the folder. */
  ghost predicate NoneArrives(before: Boxes, now: Boxes, ids: set<string>, folder: string) {
    forall id <- ids :: OwnComes(BoxOf(before, folder), BoxOf(now, folder), id)
  }

  lemma StillSure(before: Boxes, now: Boxes, r: Record, dests: set<string>, ids: set<string>)
    requires AllValid(before) && OnlyMail(before, now, ids) && Sure(before, r, dests)
    requires r.folder !in dests ==> NoneArrives(before, now, ids, r.folder)
    ensures Sure(now, r, dests)
  {
    if Anchored(before, r) {
      StillAnchored(before, now, r, ids);
    } else if r.folder in now && r.uid.value in now[r.folder].slots {
      var box := BoxOf(before, r.folder);
      assert NewBelongs(box, now[r.folder], ids);
    }
  }

  lemma SureLess(boxes: Boxes, r: Record, some: set<string>, dests: set<string>)
    requires Sure(boxes, r, dests) && some <= dests
    ensures Sure(boxes, r, some)
  {
  }

  /** What is archived to a folder arrives in no other. */
  lemma ArrivesThere(before: Boxes, now: Boxes, ids: set<string>, dest: string, folder: string)
    requires AllCarried(before, now, ids, dest) && folder != dest
    ensures NoneArrives(before, now, ids, folder)
  {
    hide Survives, MailSurvives, Tidy;
    forall id <- ids ensures OwnComes(BoxOf(before, folder), BoxOf(now, folder), id) {
      assert Carried(before, now, id, dest);
    }
  }

  lemma StillReady(before: Boxes, now: Boxes, r: Record, dest: string, ids: set<string>)
    requires AllValid(before) && OnlyMail(before, now, ids) && AllCarried(before, now, ids, dest) && Ready(before, r, dest) && r.id !in ids
    ensures Ready(now, r, dest)
  {
    hide Tidy, OnlyMail, Sure, AllCarried, NoneArrives;
    if r.uid.Some? {
      if r.folder != dest { ArrivesThere(before, now, ids, dest, r.folder); }
      StillSure(before, now, r, {dest}, ids);
      CarriedByOthers(before, now, r.id, dest, ids);
    }
  }

  /** How a row may change: not at all, or a tracked row now names a place the message was found at. */
  ghost predicate RowTrails(boxes: Boxes, noselect: set<string>, before: Row, now: Row, id: string, dest: string) {
    now == before ||
    (&& before.uid.Some? && now.uid.Some? && now.mail == before.mail && now.folder !in noselect && Anchored(boxes, Record(id, now.folder, now.uid))
     && (before.folder != dest ==> Gone(boxes, before.folder, id)))
  }

  ghost predicate Trails(boxes: Boxes, noselect: set<string>, before: Rows, now: Rows, ids: set<string>, dest: string) {
    forall id <- now :: id in before && id in ids ==> RowTrails(boxes, noselect, before[id], now[id], id, dest)
  }

  lemma RowStillTrails(before: Boxes, now: Boxes, noselect: set<string>, was: Row, row: Row, id: string, dest: string, ids: set<string>)
    requires OnlyMail(before, now, ids) && ArrivesOnly(before, now, id, dest) && RowTrails(before, noselect, was, row, id, dest)
    ensures RowTrails(now, noselect, was, row, id, dest)
  {
    hide OnlyMail, Gone;
    if row != was {
      StillAnchored(before, now, Record(id, row.folder, row.uid), ids);
      if was.folder != dest { GoneStays(before, now, was.folder, id, dest); }
    }
  }

  lemma StillTrails(before: Boxes, now: Boxes, noselect: set<string>, was: Rows, rows: Rows, ids: set<string>, dest: string, touched: set<string>)
    requires OnlyMail(before, now, touched) && Trails(before, noselect, was, rows, ids, dest)
    requires forall id <- ids :: Carried(before, now, id, dest)
    ensures Trails(now, noselect, was, rows, ids, dest)
  {
    hide OnlyMail, RowTrails, Survives, MailSurvives, ArrivesOnly, Tidy;
    forall id <- rows | id in was && id in ids ensures RowTrails(now, noselect, was[id], rows[id], id, dest) {
      assert Carried(before, now, id, dest);
      RowStillTrails(before, now, noselect, was[id], rows[id], id, dest, touched);
    }
  }

  lemma NothingTrails(boxes: Boxes, noselect: set<string>, rows: Rows, ids: set<string>, dest: string)
    ensures Trails(boxes, noselect, rows, rows, ids, dest)
  {
  }

  /** Dropping rows leaves the others trailing. */
  lemma FewerTrail(boxes: Boxes, noselect: set<string>, was: Rows, rows: Rows, ids: set<string>, dest: string, gone: set<string>)
    requires Trails(boxes, noselect, was, rows, ids, dest)
    ensures Trails(boxes, noselect, was, rows - gone, ids, dest)
  {
    hide RowTrails;
  }

  // ---------- one record ----------

  /** Found at `at` in its folder: the record's own message, still there unflagged or already copied. */
  ghost predicate InSource(before: Boxes, now: Boxes, r: Record, dest: string, at: nat) {
    && r.folder in before && at in before[r.folder].slots && before[r.folder].slots[at].mail.messageId == r.id
    && r.folder in now && at < now[r.folder].next && IsOwn(now[r.folder], at, r.id)
    && (StandsAt(now[r.folder], at) || Has(now, dest, r.id))
    && (OwnUnflagged(before[r.folder], r.id) ==> StandsAt(now[r.folder], at))
  }

  ghost predicate StandsAt(box: Mailbox, at: nat) {
    at in box.slots && !box.slots[at].deleted
  }

  /** After looking for a tracked record's message: it is in its folder at `at`, or (with 0) settled; and
      unless the destination is the folder itself, it is nowhere else in the folder. */
  ghost predicate Placed(before: Boxes, now: Boxes, noselect: set<string>, waste: set<string>, r: Record, dest: string, at: nat) {
    r.uid.Some? ==>
      && (if at != 0 then InSource(before, now, r, dest, at) else Settled(before, now, noselect, waste, r, dest))
      && (r.folder != dest ==> OnlyAt(now, r.folder, r.id, at))
  }

  lemma StillInSource(before: Boxes, mid: Boxes, now: Boxes, r: Record, dest: string, at: nat, ids: set<string>)
    requires OnlyMail(mid, now, ids) && r.id !in ids && InSource(before, mid, r, dest, at)
    ensures InSource(before, now, r, dest, at)
  {
    CarriedByOthers(mid, now, r.id, dest, ids);
    assert OthersHeld(mid[r.folder], now[r.folder], ids);
    assert StandsAt(mid[r.folder], at) ==> Holds(now[r.folder], at, mid[r.folder].slots[at]);
    if at in now[r.folder].slots {
      assert NewBelongs(BoxOf(mid, r.folder), now[r.folder], ids);
      assert FromBefore(mid[r.folder], now[r.folder], at);
    }
    assert dest in mid ==> (Has(mid, dest, r.id) ==> Has(now, dest, r.id));
  }

  lemma StillPlaced(before: Boxes, mid: Boxes, now: Boxes, noselect: set<string>, waste: set<string>, r: Record, dest: string, at: nat,
                    ids: set<string>)
    requires OnlyMail(mid, now, ids) && r.id !in ids && Placed(before, mid, noselect, waste, r, dest, at)
    ensures Placed(before, now, noselect, waste, r, dest, at)
  {
    hide OnlyMail, InSource, Settled, Tidy;
    if r.uid.Some? {
      CarriedByOthers(mid, now, r.id, dest, ids);
      if at != 0 {
        StillInSource(before, mid, now, r, dest, at, ids);
      } else {
        SettledStays(before, mid, now, noselect, waste, r, dest);
      }
      if r.folder != dest && r.folder in now { assert OwnComes(BoxOf(mid, r.folder), now[r.folder], r.id); }
    }
  }

  /** What was found out about a record after work on other records holds from the start of that work. */
  lemma PlacedSince(before: Boxes, mid: Boxes, now: Boxes, noselect: set<string>, waste: set<string>, r: Record, dest: string, at: nat,
                    ids: set<string>)
    requires OnlyMail(before, mid, ids) && r.id !in ids && (r.uid.Some? ==> Tidy(before, r.id, dest))
    requires Carried(mid, now, r.id, dest) && Placed(mid, now, noselect, waste, r, dest, at)
    ensures Placed(before, now, noselect, waste, r, dest, at)
  {
    hide Settled, Tidy, Carried;
    if r.uid.Some? {
      if at != 0 {
        CarriedByOthers(before, mid, r.id, dest, ids);
        assert Tidy(before, r.id, dest);
        assert NewBelongs(BoxOf(before, r.folder), mid[r.folder], ids);
        assert FromBefore(BoxOf(before, r.folder), mid[r.folder], at);
      } else {
        SettledSince(before, mid, now, noselect, waste, r, dest, ids);
      }
    }
  }

  /** Archive a message found outside its folder. */
  method ArchiveElsewhere(client: Client, folder: string, uid: nat, dest: string, d: char, ghost id: string) returns (ok: bool)
    requires client.Valid() && folder in client.boxes && folder !in client.noselect && Tidy(client.boxes, id, dest)
    requires FirstWith(client.boxes[folder], id) == Some(uid)
    modifies client
    ensures client.Valid() && old(client.tick) <= client.tick && old(client.hollow) <= client.hollow
    ensures OnlyMail(old(client.boxes), client.boxes, {id}) && Carried(old(client.boxes), client.boxes, id, dest)
    ensures ok ==> Has(client.boxes, dest, id) && client.hollow == old(client.hollow)
    ensures forall f <- old(client.boxes) :: f != folder ==> f in client.boxes && KeptWhole(old(client.boxes)[f], client.boxes[f])
    ensures Smooth(client.answers, old(client.tick), client.tick) && client.hollow == old(client.hollow) ==> ok
  {
    hide OnlyMail, OnlyAdded, Contained, Backed, Smooth, AllHollow, AllOnlyAdded, FirstWith, Carried, Tidy, SameMail, KeptWhole;
    ghost var before, start := client.boxes, client.tick;
    ok := EnsureHierarchy(client, dest, d);
    ghost var made, mark := client.boxes, client.tick;
    Created(before, made, dest, d, id, {id});
    CreationWhole(before, made, dest, d);
    if !ok { return; }
    FirstStays(before, made, dest, d, folder, id, uid);
    var selected := client.SelectFolder(folder);
    SmoothSplits(client.answers, start, mark, client.tick);
    SmoothOnce(client.answers, mark);
    if selected.Err? { return false; }
    mark := client.tick;
    var moved := client.MoveMessage(uid, dest);
    SmoothSplits(client.answers, start, mark, client.tick);
    MoveTouchesOwn(made, client.boxes, folder, dest, {uid}, {id});
    OthersWhole(before, made, client.boxes, folder, dest, d, {uid});
    OnlyMailOn(before, made, client.boxes, {id}, {id});
    CarriedByMove(made, client.boxes, folder, dest, {uid}, id);
    CarriedTwice(before, made, client.boxes, id, dest);
    if moved.Err? { return false; }
    MovedHas(made, client.boxes, folder, dest, uid, id);
  }

  lemma Created(before: Boxes, made: Boxes, dest: string, d: char, id: string, ids: set<string>)
    requires AllValid(before) && AllValid(made) && OnlyAdded(before, made, dest, d)
    ensures OnlyMail(before, made, ids) && Carried(before, made, id, dest)
    ensures Tidy(before, id, dest) ==> Tidy(made, id, dest)
  {
    hide OnlyMail, OnlyAdded, Survives, MailSurvives, ArrivesOnly, Tidy;
    CreationTouchesNone(before, made, dest, d);
    CarriedByOthers(before, made, id, dest, {});
    OnlyMailMore(before, made, {}, ids);
  }

  lemma FirstStays(before: Boxes, made: Boxes, dest: string, d: char, folder: string, id: string, uid: nat)
    requires OnlyAdded(before, made, dest, d) && folder in before && FirstWith(before[folder], id) == Some(uid)
    ensures folder in made && made[folder] == before[folder] && uid in made[folder].slots && made[folder].slots[uid].mail.messageId == id
  {
  }

  lemma MovedHas(made: Boxes, now: Boxes, folder: string, dest: string, uid: nat, id: string)
    requires Carried(made, now, id, dest) && Tidy(made, id, dest) && dest in made
    requires folder in made && uid in made[folder].slots && made[folder].slots[uid].mail.messageId == id
    requires folder in now && uid !in now[folder].slots
    ensures Has(now, dest, id)
  {
    if !Has(made, dest, id) {
      assert OwnUnflagged(made[folder], id);
      assert Has(made, folder, id);
      if folder != dest {
        assert OwnComes(BoxOf(made, folder), now[folder], id) && OwnOnce(made[folder], id);
        assert !Has(now, folder, id);
      }
    }
  }

  /** The stored identifier still names a message. */
  ghost predicate LiveAt(boxes: Boxes, r: Record) {
    r.uid.Some? ==> r.folder in boxes && r.uid.value in boxes[r.folder].slots
  }

  method ResolveForArchive(client: Client, db: Database, r: Record, dest: string, d: char, waste: set<string>) returns (res: Result<nat, ImapError>)
    requires client.Valid() && db.Valid() && Ready(client.boxes, r, dest) && (r.id in db.rows ==> FromRow(db.rows, r))
    modifies client, db`rows, db`writes
    ensures client.Valid() && db.Valid() && old(client.tick) <= client.tick && old(client.hollow) <= client.hollow && old(db.writes) <= db.writes
    ensures OnlyMail(old(client.boxes), client.boxes, {r.id}) && Carried(old(client.boxes), client.boxes, r.id, dest)
    ensures db.rows == old(db.rows) || exists f, u :: db.rows == Relocated(old(db.rows), r.id, f, u)
    ensures r.id in db.rows ==> RowTrails(client.boxes, client.noselect, old(db.rows)[r.id], db.rows[r.id], r.id, dest)
    ensures res.Ok? ==> Placed(old(client.boxes), client.boxes, client.noselect, waste, r, dest, res.value) && client.hollow == old(client.hollow)
    ensures res.Ok? && res.value != 0 ==> r.uid.Some?
    ensures r.folder in old(client.boxes) ==> r.folder in client.boxes && KeptWhole(old(client.boxes)[r.folder], client.boxes[r.folder])
    ensures LiveAt(old(client.boxes), r) ==> client.boxes == old(client.boxes) && client.hollow == old(client.hollow)
    ensures (&& Smooth(client.answers, old(client.tick), client.tick) && NoFault(db.goes, old(db.writes), db.writes)
             && client.hollow == old(client.hollow) && Selectable([r], old(client.boxes), client.noselect)) ==> res.Ok?
  {
    hide FirstWith, OnlyMail, Smooth, Settled, OnlyAt, Tidy, InSource, Carried, Gone, KeptWhole, Sure, Relocated, RowTrails, NoFault;
    ghost var before, start := client.boxes, client.tick;
    if r.id in db.rows { SameTrails(before, client.noselect, db.rows[r.id], r.id, dest); }
    assert r in [r];
    if r.folder in before { WholeAtFirst(before[r.folder]); }
    OnlyMailAtFirst(before, {r.id});
    CarriedAtFirst(before, r.id, dest);
    if r.uid.None? { return Ok(0); }
    var here := ResolveUidWithFallback(client, r.folder, r.uid.value, r.id);
    if here.Ok? {
      PlacedHere(before, client.noselect, waste, r, dest, here.value);
      return here;
    }
    if here.error != MessageNotFound { return here; }
    ghost var mark := client.tick;
    var elsewhere := CrossFolderFallback(client, db, r, waste);
    SmoothSplits(client.answers, start, mark, client.tick);
    if elsewhere.Err? { return Err(elsewhere.error); }
    if elsewhere.value.None? {
      PlacedNowhere(before, client.noselect, waste, r, dest);
      return Ok(0);
    }
    var folder, uid := elsewhere.value.value.0, elsewhere.value.value.1;
    FoundTrails(before, client.noselect, old(db.rows), db.rows, r, dest, folder, uid);
    mark := client.tick;
    var ok := ArchiveElsewhere(client, folder, uid, dest, d, r.id);
    SmoothSplits(client.answers, start, mark, client.tick);
    TrailsOn(before, client.boxes, client.noselect, old(db.rows), db.rows, r.id, dest);
    if !ok { return Err(ImapError.Refused); }
    PlacedThere(before, client.boxes, client.noselect, waste, r, dest);
    return Ok(0);
  }

  /** The tracked records' folders exist and can be selected. */
  ghost predicate Selectable(records: seq<Record>, boxes: Boxes, noselect: set<string>) {
    forall r <- records :: r.uid.Some? ==> r.folder in boxes && r.folder !in noselect
  }

  lemma SameTrails(boxes: Boxes, noselect: set<string>, row: Row, id: string, dest: string)
    ensures RowTrails(boxes, noselect, row, row, id, dest)
  {
  }

  lemma FoundTrails(boxes: Boxes, noselect: set<string>, was: Rows, rows: Rows, r: Record, dest: string, folder: string, uid: nat)
    requires AllValid(boxes) && r.uid.Some? && r.folder in boxes && FirstWith(boxes[r.folder], r.id).None?
    requires folder in boxes && folder !in noselect && FirstWith(boxes[folder], r.id) == Some(uid)
    requires rows == Relocated(was, r.id, folder, Some(uid)) && (r.id in was ==> FromRow(was, r))
    ensures r.id in rows ==> r.id in was && RowTrails(boxes, noselect, was[r.id], rows[r.id], r.id, dest)
  {
    assert boxes[folder].Valid() && boxes[r.folder].Valid();
  }

  lemma TrailsOn(before: Boxes, now: Boxes, noselect: set<string>, was: Rows, rows: Rows, id: string, dest: string)
    requires OnlyMail(before, now, {id}) && Carried(before, now, id, dest)
    requires id in rows ==> id in was && RowTrails(before, noselect, was[id], rows[id], id, dest)
    ensures id in rows ==> RowTrails(now, noselect, was[id], rows[id], id, dest)
  {
    hide OnlyMail, RowTrails, Survives, MailSurvives, ArrivesOnly, Tidy;
    if id in rows { RowStillTrails(before, now, noselect, was[id], rows[id], id, dest, {id}); }
  }

  lemma PlacedHere(boxes: Boxes, noselect: set<string>, waste: set<string>, r: Record, dest: string, u: nat)
    requires AllValid(boxes) && Ready(boxes, r, dest) && r.uid.Some? && r.folder in boxes && u in boxes[r.folder].slots
    requires u == r.uid.value || FirstWith(boxes[r.folder], r.id) == Some(u)
    ensures Placed(boxes, boxes, noselect, waste, r, dest, u)
  {
    assert boxes[r.folder].Valid();
    assert boxes[r.folder].slots[u].mail.messageId == r.id;
    assert StandsAt(boxes[r.folder], u) || Has(boxes, dest, r.id) by {
      if !Has(boxes, dest, r.id) { assert OwnUnflagged(boxes[r.folder], r.id); }
    }
    if r.folder != dest { assert OwnOnce(boxes[r.folder], r.id); }
  }

  lemma PlacedNowhere(boxes: Boxes, noselect: set<string>, waste: set<string>, r: Record, dest: string)
    requires AllValid(boxes) && r.folder in boxes && FirstWith(boxes[r.folder], r.id).None?
    requires forall f <- boxes :: f !in waste && f !in noselect ==> FirstWith(boxes[f], r.id).None?
    ensures Placed(boxes, boxes, noselect, waste, r, dest, 0)
  {
    forall f <- boxes | f == r.folder || (f !in waste && f !in noselect) ensures Lacks(boxes[f], r.id) {
      assert FirstWith(boxes[f], r.id).None? && boxes[f].Valid();
    }
  }

  lemma PlacedThere(before: Boxes, now: Boxes, noselect: set<string>, waste: set<string>, r: Record, dest: string)
    requires AllValid(before) && r.folder in before && FirstWith(before[r.folder], r.id).None?
    requires Has(now, dest, r.id) && Carried(before, now, r.id, dest)
    ensures Placed(before, now, noselect, waste, r, dest, 0)
  {
    assert before[r.folder].Valid();
    if r.folder != dest { GoneStays(before, now, r.folder, r.id, dest); }
  }

  // ---------- one group ----------

  ghost predicate AllPlaced(before: Boxes, now: Boxes, noselect: set<string>, waste: set<string>, records: seq<Record>, dest: string, ats: seq<nat>) {
    && |ats| <= |records|
    && forall k :: 0 <= k < |ats| ==> Placed(before, now, noselect, waste, records[k], dest, ats[k]) && (ats[k] != 0 ==> records[k].uid.Some?)
  }

  lemma OnePlacedMore(before: Boxes, mid: Boxes, now: Boxes, noselect: set<string>, waste: set<string>, records: seq<Record>, dest: string,
                      ats: seq<nat>, at: nat)
    requires |ats| < |records| && AllPlaced(before, mid, noselect, waste, records, dest, ats) && DistinctIds(records)
    requires OnlyMail(before, mid, Ids(records[..|ats|])) && AllReady(before, records, dest)
    requires OnlyMail(mid, now, {records[|ats|].id}) && Carried(mid, now, records[|ats|].id, dest)
    requires Placed(mid, now, noselect, waste, records[|ats|], dest, at) && (at != 0 ==> records[|ats|].uid.Some?)
    ensures AllPlaced(before, now, noselect, waste, records, dest, ats + [at])
  {
    hide Placed, OnlyMail, Carried, Sure, Tidy;
    var n := |ats|;
    forall k | 0 <= k < n ensures Placed(before, now, noselect, waste, records[k], dest, ats[k]) {
      assert records[k].id != records[n].id;
      StillPlaced(before, mid, now, noselect, waste, records[k], dest, ats[k], {records[n].id});
    }
    NotSofar(records, n);
    assert records[n] in records && Ready(before, records[n], dest);
    PlacedSince(before, mid, now, noselect, waste, records[n], dest, at, Ids(records[..n]));
  }

  lemma NotSofar(records: seq<Record>, n: nat)
    requires n < |records| && DistinctIds(records)
    ensures records[n].id !in Ids(records[..n]) && records[n] in records && records[n].id in Ids(records)
  {
    forall r <- records[..n] ensures r.id != records[n].id {
      var k :| 0 <= k < n && records[..n][k] == r;
      assert records[k] == r;
    }
  }

  ghost predicate AllCarried(before: Boxes, now: Boxes, ids: set<string>, dest: string) {
    forall id <- ids :: Carried(before, now, id, dest)
  }

  lemma AllCarriedAtFirst(boxes: Boxes, ids: set<string>, dest: string)
    ensures AllCarried(boxes, boxes, ids, dest)
  {
    hide Carried;
    forall id <- ids ensures Carried(boxes, boxes, id, dest) {
      CarriedAtFirst(boxes, id, dest);
    }
  }

  lemma OneCarriedMore(before: Boxes, mid: Boxes, now: Boxes, ids: set<string>, dest: string, id: string)
    requires AllCarried(before, mid, ids, dest) && OnlyMail(mid, now, {id}) && Carried(mid, now, id, dest)
    ensures AllCarried(before, now, ids, dest) && AllCarried(mid, now, ids, dest)
  {
    hide Carried, OnlyMail;
    forall other <- ids ensures Carried(before, now, other, dest) && Carried(mid, now, other, dest) {
      if other != id { CarriedByOthers(mid, now, other, dest, {id}); }
      CarriedTwice(before, mid, now, other, dest);
    }
  }

  lemma AllCarriedTwice(a: Boxes, b: Boxes, c: Boxes, ids: set<string>, dest: string)
    requires AllCarried(a, b, ids, dest) && AllCarried(b, c, ids, dest)
    ensures AllCarried(a, c, ids, dest)
  {
    hide Carried;
    forall id <- ids ensures Carried(a, c, id, dest) {
      CarriedTwice(a, b, c, id, dest);
    }
  }

  method ResolveArchiveGroup(client: Client, db: Database, records: seq<Record>, dest: string, d: char, waste: set<string>, ghost source: string)
    returns (res: Result<seq<nat>, ImapError>)
    requires InFolder(records, source)
    requires client.Valid() && db.Valid() && AllReady(client.boxes, records, dest) && DistinctIds(records) && AllFromRows(db.rows, records)
    modifies client, db`rows, db`writes
    ensures client.Valid() && db.Valid() && old(client.tick) <= client.tick && old(client.hollow) <= client.hollow && old(db.writes) <= db.writes
    ensures OnlyMail(old(client.boxes), client.boxes, Ids(records)) && AllCarried(old(client.boxes), client.boxes, Ids(records), dest)
    ensures OnlyTouched(old(db.rows), db.rows, Ids(records)) && db.rows.Keys == old(db.rows.Keys)
    ensures Trails(client.boxes, client.noselect, old(db.rows), db.rows, Ids(records), dest)
    ensures res.Ok? ==> |res.value| == |records| && AllPlaced(old(client.boxes), client.boxes, client.noselect, waste, records, dest, res.value)
    ensures res.Ok? ==> client.hollow == old(client.hollow)
    ensures source in old(client.boxes) ==> source in client.boxes && KeptWhole(old(client.boxes)[source], client.boxes[source])
    ensures (forall r <- records :: LiveAt(old(client.boxes), r)) ==> client.boxes == old(client.boxes) && client.hollow == old(client.hollow)
    ensures (&& Smooth(client.answers, old(client.tick), client.tick) && NoFault(db.goes, old(db.writes), db.writes)
             && client.hollow == old(client.hollow) && Selectable(records, old(client.boxes), client.noselect)) ==> res.Ok?
  {
    hide OnlyMail, OnlyTouched, AllPlaced, Smooth, Ids, Ready, AllReady, Placed, DistinctIds, AllCarried, Carried, Trails, AllFromRows, FromRow, LiveAt,
         KeptWhole, InFolder, NoFault, Selectable;
    ghost var before, start, rows, ids, first := client.boxes, client.tick, db.rows, Ids(records), db.writes;
    NoneYet(db.goes, first);
    NothingPlaced(before, client.noselect, waste, records, dest);
    OnlyMailAtFirst(before, Ids(records[..0]));
    OnlyMailAtFirst(before, ids);
    AllCarriedAtFirst(before, ids, dest);
    Untouched(rows, Ids(records[..0]));
    Untouched(rows, ids);
    NothingTrails(before, client.noselect, rows, ids, dest);
    NothingSent(client.answers, start);
    if source in before { WholeAtFirst(before[source]); }
    var ats: seq<nat> := [];
    while |ats| < |records|
      invariant client.Valid() && db.Valid() && start <= client.tick && |ats| <= |records| && client.hollow == old(client.hollow)
      invariant OnlyMail(before, client.boxes, Ids(records[..|ats|])) && OnlyMail(before, client.boxes, ids) && first <= db.writes
      invariant AllCarried(before, client.boxes, ids, dest) && Trails(client.boxes, client.noselect, rows, db.rows, ids, dest)
      invariant OnlyTouched(rows, db.rows, Ids(records[..|ats|])) && OnlyTouched(rows, db.rows, ids) && db.rows.Keys == rows.Keys
      invariant AllPlaced(before, client.boxes, client.noselect, waste, records, dest, ats)
      invariant (forall r <- records :: LiveAt(before, r)) ==> client.boxes == before
      invariant source in before ==> source in client.boxes && KeptWhole(before[source], client.boxes[source])
    {
      var r := records[|ats|];
      ghost var current, mark, tracked, n, writes := client.boxes, client.tick, db.rows, |ats|, db.writes;
      NextReady(before, current, rows, tracked, records, dest, n);
      NextSelectable(records, n, before, current, client.noselect, ids);
      var at := ResolveForArchive(client, db, r, dest, d, waste);
      SmoothSplits(client.answers, start, mark, client.tick);
      FaultsSplit(db.goes, first, writes, db.writes);
      FolderOf(records, n, source);
      if source in before { WholeTwice(before[source], current[source], client.boxes[source]); }
      OneIdMore(records, n);
      OnlyMailTwice(before, current, client.boxes, Ids(records[..n]), {r.id});
      OnlyMailMore(before, client.boxes, Ids(records[..n + 1]), ids);
      OneCarriedMore(before, current, client.boxes, ids, dest, r.id);
      OneTrailsMore(current, client.boxes, client.noselect, rows, tracked, db.rows, records, dest, n);
      if at.Err? { return Err(at.error); }
      OnePlacedMore(before, current, client.boxes, client.noselect, waste, records, dest, ats, at.value);
      ats := ats + [at.value];
    }
    AllOf(records);
    return Ok(ats);
  }

  lemma FolderOf(records: seq<Record>, n: nat, source: string)
    requires n < |records| && InFolder(records, source)
    ensures records[n].folder == source
  {
    assert records[n] in records;
  }

  lemma NothingPlaced(boxes: Boxes, noselect: set<string>, waste: set<string>, records: seq<Record>, dest: string)
    ensures AllPlaced(boxes, boxes, noselect, waste, records, dest, [])
  {
  }

  lemma NextSelectable(records: seq<Record>, n: nat, before: Boxes, now: Boxes, noselect: set<string>, ids: set<string>)
    requires n < |records| && OnlyMail(before, now, ids)
    ensures Selectable(records, before, noselect) ==> Selectable([records[n]], now, noselect)
  {
    assert records[n] in records;
  }

  lemma NextReady(before: Boxes, now: Boxes, was: Rows, rows: Rows, records: seq<Record>, dest: string, n: nat)
    requires n < |records| && AllReady(before, records, dest) && DistinctIds(records) && OnlyMail(before, now, Ids(records[..n]))
    requires AllValid(before) && AllCarried(before, now, Ids(records), dest)
    requires AllFromRows(was, records) && OnlyTouched(was, rows, Ids(records[..n])) && rows.Keys == was.Keys
    ensures Ready(now, records[n], dest) && records[n] in records && records[n].id in Ids(records)
    ensures FromRow(rows, records[n]) && records[n].id in rows && rows[records[n].id] == was[records[n].id]
  {
    hide Ready, Carried;
    NotSofar(records, n);
    assert Ready(before, records[n], dest) && FromRow(was, records[n]);
    IdsJoin(records, 0, n);
    StillReady(before, now, records[n], dest, Ids(records[..n]));
  }

  lemma OneTrailsMore(before: Boxes, now: Boxes, noselect: set<string>, was: Rows, tracked: Rows, rows: Rows, records: seq<Record>, dest: string, n: nat)
    requires n < |records| && OnlyMail(before, now, {records[n].id}) && AllCarried(before, now, Ids(records), dest)
    requires Trails(before, noselect, was, tracked, Ids(records), dest) && OnlyTouched(was, tracked, Ids(records[..n])) && tracked.Keys == was.Keys
    requires records[n].id in tracked && tracked[records[n].id] == was[records[n].id]
    requires rows == tracked || exists f, u :: rows == Relocated(tracked, records[n].id, f, u)
    requires records[n].id in rows ==> RowTrails(now, noselect, tracked[records[n].id], rows[records[n].id], records[n].id, dest)
    ensures Trails(now, noselect, was, rows, Ids(records), dest)
    ensures OnlyTouched(was, rows, Ids(records[..n + 1])) && OnlyTouched(was, rows, Ids(records)) && rows.Keys == was.Keys
  {
    hide OnlyMail, RowTrails, Carried;
    OneIdMore(records, n);
    StillTrails(before, now, noselect, was, tracked, Ids(records), dest, {records[n].id});
  }

  lemma OneIdMore(records: seq<Record>, n: nat)
    requires n < |records|
    ensures Ids(records[..n]) + {records[n].id} == Ids(records[..n + 1]) <= Ids(records)
  {
    assert records[..n + 1] == records[..n] + [records[n]];
    IdsSnoc(records[..n], records[n]);
    IdsJoin(records, 0, n + 1);
  }

  function Found(ats: seq<nat>): (uids: seq<nat>)
    ensures forall u :: u in uids <==> u != 0 && u in ats
  {
    if ats == [] then []
    else (if ats[0] != 0 then [ats[0]] else []) + Found(ats[1..])
  }

  lemma {:induction false} FoundDistinct(ats: seq<nat>)
    requires forall i, j :: 0 <= i < j < |ats| && ats[i] != 0 ==> ats[i] != ats[j]
    ensures Distinct(Found(ats))
  {
    if ats != [] {
      var rest := ats[1..];
      forall i, j | 0 <= i < j < |rest| && rest[i] != 0 ensures rest[i] != rest[j] {
        assert ats[i + 1] == rest[i] && ats[j + 1] == rest[j];
      }
      FoundDistinct(rest);
      if ats[0] != 0 {
        forall j | 0 <= j < |Found(rest)| ensures Found(rest)[j] != ats[0] {
          assert Found(rest)[j] in rest;
          var i :| 0 <= i < |rest| && rest[i] == Found(rest)[j];
          assert ats[i + 1] == rest[i];
        }
        assert Found(ats) == [ats[0]] + Found(rest);
      } else {
        assert Found(ats) == Found(rest);
      }
    }
  }

  lemma PlacedApart(before: Boxes, now: Boxes, noselect: set<string>, waste: set<string>, records: seq<Record>, source: string, dest: string, ats: seq<nat>)
    requires AllPlaced(before, now, noselect, waste, records, dest, ats) && InFolder(records, source) && DistinctIds(records)
    ensures Distinct(Found(ats))
  {
    hide Settled, IsOwn, StandsAt, Has, OnlyAt, OwnUnflagged;
    forall i, j | 0 <= i < j < |ats| && ats[i] != 0 ensures ats[i] != ats[j] {
      assert records[i] in records && records[j] in records;
      assert Placed(before, now, noselect, waste, records[i], dest, ats[i]) && Placed(before, now, noselect, waste, records[j], dest, ats[j]);
      assert records[i].id != records[j].id;
    }
    FoundDistinct(ats);
  }

  /** The record's message is in the destination or was nowhere to be found, and has left its folder. */
  ghost predicate Done(before: Boxes, now: Boxes, noselect: set<string>, waste: set<string>, r: Record, dest: string) {
    r.uid.Some? ==> Settled(before, now, noselect, waste, r, dest) && (r.folder != dest ==> Gone(now, r.folder, r.id))
  }

  ghost predicate AllDone(before: Boxes, now: Boxes, noselect: set<string>, waste: set<string>, records: seq<Record>, dest: string) {
    forall r <- records :: Done(before, now, noselect, waste, r, dest)
  }

  lemma StillDone(before: Boxes, mid: Boxes, now: Boxes, noselect: set<string>, waste: set<string>, r: Record, dest: string)
    requires Done(before, mid, noselect, waste, r, dest) && Carried(mid, now, r.id, dest)
    ensures Done(before, now, noselect, waste, r, dest)
  {
    hide Settled, Tidy, Survives, MailSurvives, ArrivesOnly, Gone;
    if r.uid.Some? {
      SettledStays(before, mid, now, noselect, waste, r, dest);
      if r.folder != dest { GoneStays(mid, now, r.folder, r.id, dest); }
    }
  }

  lemma DoneSince(before: Boxes, mid: Boxes, now: Boxes, noselect: set<string>, waste: set<string>, r: Record, dest: string, ids: set<string>)
    requires OnlyMail(before, mid, ids) && r.id !in ids && (r.uid.Some? ==> Tidy(before, r.id, dest))
    requires Done(mid, now, noselect, waste, r, dest) && Carried(mid, now, r.id, dest)
    ensures Done(before, now, noselect, waste, r, dest)
  {
    hide Settled, Tidy, Carried, OnlyMail, Gone;
    if r.uid.Some? { SettledSince(before, mid, now, noselect, waste, r, dest, ids); }
  }

  /** With the group's messages moved, a record found in the source folder is done. */
  lemma MovedOneDone(before: Boxes, mid: Boxes, now: Boxes, noselect: set<string>, waste: set<string>, r: Record, dest: string, at: nat)
    requires Placed(before, mid, noselect, waste, r, dest, at) && Carried(mid, now, r.id, dest)
    requires r.uid.Some? ==> r.folder in now && at !in now[r.folder].slots
    ensures Done(before, now, noselect, waste, r, dest)
  {
    hide Tidy;
    if r.uid.Some? {
      if r.folder != dest {
        assert OwnComes(BoxOf(mid, r.folder), now[r.folder], r.id);
        assert Gone(now, r.folder, r.id);
      }
      if at != 0 {
        assert Has(mid, r.folder, r.id) || Has(mid, dest, r.id);
        assert Has(mid, dest, r.id) ==> dest in mid;
        assert r.folder != dest ==> !Has(now, r.folder, r.id);
      } else {
        SettledStays(before, mid, now, noselect, waste, r, dest);
      }
    }
  }

  /** Within the destination folder itself nothing can be lost or left behind. */
  lemma MovedInPlace(before: Boxes, mid: Boxes, now: Boxes, noselect: set<string>, waste: set<string>, r: Record, dest: string, at: nat)
    requires Placed(before, mid, noselect, waste, r, dest, at) && Carried(mid, now, r.id, dest) && r.folder == dest
    ensures Done(before, now, noselect, waste, r, dest)
  {
    hide Tidy, ArrivesOnly;
    if r.uid.Some? {
      if at != 0 {
        assert Has(mid, dest, r.id);
        assert dest in mid;
      } else {
        SettledStays(before, mid, now, noselect, waste, r, dest);
      }
    }
  }

  /** Whether a move of `found` empties its folder of them although the server claimed to have copied none of
      `left`: those were flagged before, and a COPY that worked let an expunge sweep them. */
  predicate Drained(box: Mailbox, found: set<nat>, left: set<nat>) {
    left == {} || (left != found && forall u <- left :: u in box.slots && box.slots[u].deleted)
  }

  /** The group is done exactly if its folder was drained or is the destination itself. */
  lemma MovedDone(before: Boxes, mid: Boxes, now: Boxes, noselect: set<string>, waste: set<string>, records: seq<Record>, source: string, dest: string,
                  ats: seq<nat>, left: set<nat>)
    requires AllValid(mid) && |ats| == |records| && InFolder(records, source) && AllPlaced(before, mid, noselect, waste, records, dest, ats)
    requires AllCarried(mid, now, Ids(records), dest) && source in mid && source in now
    requires source in before && KeptWhole(before[source], mid[source])
    requires source != dest ==> left <= Live(mid[source], Seen(Found(ats))) && now[source] == Stripped(mid[source], Seen(Found(ats)), left)
    ensures AllDone(before, now, noselect, waste, records, dest) <==> source == dest || Drained(before[source], Seen(Found(ats)), left)
  {
    hide Placed, Carried, Settled, Live, Stripped, Drained, KeptWhole, Done;
    FoundLive(before, mid, noselect, waste, records, source, dest, ats);
    if source == dest || Drained(before[source], Seen(Found(ats)), left) {
      forall k | 0 <= k < |records| ensures Done(before, now, noselect, waste, records[k], dest) {
        var r := records[k];
        assert r in records && r.id in Ids(records) && Placed(before, mid, noselect, waste, r, dest, ats[k]);
        assert Carried(mid, now, r.id, dest);
        if source == dest {
          MovedInPlace(before, mid, now, noselect, waste, r, dest, ats[k]);
        } else {
          DrainedLacks(before[source], mid[source], Seen(Found(ats)), left, ats[k]);
          MovedOneDone(before, mid, now, noselect, waste, r, dest, ats[k]);
        }
      }
    } else {
      var u := NotDrained(before[source], mid[source], Seen(Found(ats)), left);
      LeftBehind(before, mid, now, noselect, waste, records, source, dest, ats, u);
    }
  }

  lemma FoundLive(before: Boxes, mid: Boxes, noselect: set<string>, waste: set<string>, records: seq<Record>, source: string, dest: string, ats: seq<nat>)
    requires |ats| == |records| && InFolder(records, source) && AllPlaced(before, mid, noselect, waste, records, dest, ats)
    requires source in before
    ensures forall u <- Found(ats) :: u in before[source].slots
    ensures forall u <- Found(ats) :: before[source].slots[u].mail.messageId in Ids(records)
  {
    forall u <- Found(ats) ensures u in before[source].slots && before[source].slots[u].mail.messageId in Ids(records) {
      var k :| 0 <= k < |ats| && ats[k] == u;
      assert records[k] in records && Placed(before, mid, noselect, waste, records[k], dest, ats[k]);
    }
  }

  lemma DrainedLacks(before: Mailbox, box: Mailbox, found: set<nat>, left: set<nat>, at: nat)
    requires box.Valid() && KeptWhole(before, box) && (at != 0 ==> at in found) && forall u <- found :: u in before.slots
    requires left <= Live(box, found) && Drained(before, found, left)
    ensures at !in Stripped(box, found, left).slots
  {
    assert forall u <- found :: Holds(box, u, before.slots[u]);
    assert Live(box, found) == found;
    if at in left { assert before.slots[at].deleted && Holds(box, at, before.slots[at]); }
  }

  lemma NotDrained(before: Mailbox, box: Mailbox, found: set<nat>, left: set<nat>) returns (u: nat)
    requires KeptWhole(before, box) && forall x <- found :: x in before.slots
    requires left <= Live(box, found) && !Drained(before, found, left)
    ensures u in left && u in found && u in box.slots && u in Stripped(box, found, left).slots && Stripped(box, found, left).slots[u] == box.slots[u]
  {
    assert forall x <- found :: Holds(box, x, before.slots[x]);
    assert Live(box, found) == found;
    if left == found {
      u :| u in left;
    } else {
      u :| u in left && !before.slots[u].deleted;
    }
    assert Holds(box, u, before.slots[u]);
  }

  lemma LeftBehind(before: Boxes, mid: Boxes, now: Boxes, noselect: set<string>, waste: set<string>, records: seq<Record>, source: string,
                   dest: string, ats: seq<nat>, u: nat)
    requires |ats| == |records| && InFolder(records, source) && AllPlaced(before, mid, noselect, waste, records, dest, ats)
    requires source in mid && source in now && source != dest
    requires u in Found(ats) && u in mid[source].slots && u in now[source].slots && now[source].slots[u] == mid[source].slots[u]
    ensures !AllDone(before, now, noselect, waste, records, dest)
  {
    hide Settled;
    var k :| 0 <= k < |ats| && ats[k] == u;
    var r := records[k];
    assert r in records && Placed(before, mid, noselect, waste, r, dest, u);
    assert now[source].slots[u].mail.messageId == r.id;
    assert !Done(before, now, noselect, waste, r, dest);
  }

  lemma NothingToMove(before: Boxes, now: Boxes, noselect: set<string>, waste: set<string>, records: seq<Record>, source: string, dest: string,
                      ats: seq<nat>)
    requires AllValid(now) && |ats| == |records| && AllPlaced(before, now, noselect, waste, records, dest, ats) && Found(ats) == []
    requires InFolder(records, source)
    ensures AllDone(before, now, noselect, waste, records, dest)
  {
    forall k | 0 <= k < |records| ensures Done(before, now, noselect, waste, records[k], dest) {
      assert ats[k] in Found(ats) || ats[k] == 0;
      assert records[k] in records && Placed(before, now, noselect, waste, records[k], dest, 0);
      NotAtZero(now, source, records[k].id);
    }
  }

  /** Create the destination and move what was found in the source folder there. `left` is what the server
      claimed not to have copied. */
  method MoveFound(client: Client, source: string, dest: string, d: char, uids: seq<nat>, ghost ids: set<string>)
    returns (ok: bool, ghost left: set<nat>)
    requires client.Valid() && source in client.boxes && Distinct(uids) && forall u <- uids :: u < client.boxes[source].next
    requires forall u <- Seen(uids) :: u in client.boxes[source].slots ==> client.boxes[source].slots[u].mail.messageId in ids
    modifies client
    ensures client.Valid() && old(client.tick) <= client.tick && old(client.hollow) <= client.hollow
    ensures OnlyMail(old(client.boxes), client.boxes, ids) && AllCarried(old(client.boxes), client.boxes, ids, dest)
    ensures ok ==> dest in client.boxes && source in client.boxes
    ensures left == {} <==> client.hollow == old(client.hollow)
    ensures ok && source != dest ==>
              && left <= Live(old(client.boxes)[source], Seen(uids))
              && client.boxes[source] == Stripped(old(client.boxes)[source], Seen(uids), left)
    ensures Smooth(client.answers, old(client.tick), client.tick) && source !in client.noselect ==> ok
    ensures AllHollow(client.answers, old(client.tick), client.tick) ==> Unmoved(old(client.boxes), client.boxes)
  {
    hide OnlyMail, OnlyAdded, Contained, Backed, Smooth, AllHollow, AllOnlyAdded, AllCarried, Carried, MoveAll, SameMail, Stripped, Live, Distinct, Unmoved;
    ghost var before, start := client.boxes, client.tick;
    left := {};
    OnlyMailAtFirst(before, ids);
    AllCarriedAtFirst(before, ids, dest);
    UnmovedAtFirst(before);
    var selected := client.SelectFolder(source);
    SmoothOnce(client.answers, start);
    ghost var mark := client.tick;
    SmoothSplits(client.answers, start, mark, mark);
    if selected.Err? { return false, left; }
    ok := EnsureHierarchy(client, dest, d);
    ghost var made := client.boxes;
    AllCreated(before, made, dest, d, ids);
    SmoothSplits(client.answers, start, mark, client.tick);
    HereStill(before, made, dest, d, source);
    UnmovedOn(before, made, made, dest, d);
    if !ok { return; }
    mark := client.tick;
    var moved;
    moved, left := client.MoveMessages(uids, dest);
    UnmovedOn(before, made, client.boxes, dest, d);
    SmoothSplits(client.answers, start, mark, client.tick);
    HollowSplits(client.answers, start, mark, client.tick);
    MoveTouchesOwn(made, client.boxes, source, dest, Seen(uids), ids);
    OnlyMailOn(before, made, client.boxes, ids, ids);
    AllCarriedByMove(made, client.boxes, source, dest, Seen(uids), ids);
    AllCarriedTwice(before, made, client.boxes, ids, dest);
    ok := moved.Ok?;
  }

  lemma AllCreated(before: Boxes, made: Boxes, dest: string, d: char, ids: set<string>)
    requires AllValid(before) && AllValid(made) && OnlyAdded(before, made, dest, d)
    ensures OnlyMail(before, made, ids) && AllCarried(before, made, ids, dest)
  {
    hide OnlyMail, OnlyAdded, Carried;
    CreationTouchesNone(before, made, dest, d);
    OnlyMailMore(before, made, {}, ids);
    forall id <- ids ensures Carried(before, made, id, dest) {
      CarriedByOthers(before, made, id, dest, {});
    }
  }

  lemma AllCarriedByMove(before: Boxes, now: Boxes, source: string, dest: string, uids: set<nat>, ids: set<string>)
    requires AllValid(before) && source in before && Contained(before, now, source, dest, uids) && Backed(before, now, source, dest)
    ensures AllCarried(before, now, ids, dest)
  {
    hide Contained, Backed, Carried;
    forall id <- ids ensures Carried(before, now, id, dest) {
      CarriedByMove(before, now, source, dest, uids, id);
    }
  }

  lemma HereStill(before: Boxes, made: Boxes, dest: string, d: char, source: string)
    requires OnlyAdded(before, made, dest, d) && source in before
    ensures source in made && made[source] == before[source]
  {
  }

  /** Delete the group's rows, one by one: all of them, unless something raises after `n`. */
  method DeleteGroupRows(db: Database, records: seq<Record>) returns (ok: bool, ghost n: nat)
    requires db.Valid()
    modifies db`rows, db`decisions, db`writes
    ensures db.Valid() && n <= |records| && old(db.writes) <= db.writes
    ensures db.rows == old(db.rows) - Ids(records[..n]) && db.decisions == old(db.decisions) - Ids(records[..n])
    ensures ok ==> n == |records|
    ensures ok <==> NoFault(db.goes, old(db.writes), db.writes)
  {
    hide NoFault, Ids;
    n := 0;
    NoneYet(db.goes, db.writes);
    NoneLess(db.rows, records);
    NoneLess(db.decisions, records);
    for k := 0 to |records|
      invariant db.Valid() && n == k && old(db.writes) <= db.writes && NoFault(db.goes, old(db.writes), db.writes)
      invariant db.rows == old(db.rows) - Ids(records[..k]) && db.decisions == old(db.decisions) - Ids(records[..k])
    {
      OneMore(db.goes, old(db.writes), db.writes);
      ok := db.Attempt();
      if !ok { return; }
      OneLess(old(db.rows), records, k);
      OneLess(old(db.decisions), records, k);
      var _ := db.DeleteRecord(records[k].id);
      n := n + 1;
    }
    ok := true;
  }

  /** Archive one group; its rows go only after all of its mail has been dealt with, `n` of them before
      something raises. `found` are the identifiers of what was found in the folder and `left` those of them
      that a COPY claimed not to have copied. Once a row goes, the group is done exactly if there are none, or
      if they were flagged already and others were copied, or if it is in its destination folder anyway. */
  method ProcessArchiveGroup(client: Client, db: Database, source: string, dest: string, records: seq<Record>, d: char, waste: set<string>)
    returns (res: Result<nat, ImapError>, ghost found: set<nat>, ghost left: set<nat>, ghost n: nat)
    requires client.Valid() && db.Valid() && InFolder(records, source) && AllReady(client.boxes, records, dest) && DistinctIds(records)
    requires AllFromRows(db.rows, records)
    modifies client, db`rows, db`decisions, db`writes
    ensures client.Valid() && db.Valid() && old(client.tick) <= client.tick && old(client.hollow) <= client.hollow && old(db.writes) <= db.writes
    ensures OnlyMail(old(client.boxes), client.boxes, Ids(records)) && AllCarried(old(client.boxes), client.boxes, Ids(records), dest)
    ensures OnlyTouched(old(db.rows), db.rows, Ids(records)) && Trails(client.boxes, client.noselect, old(db.rows), db.rows, Ids(records), dest)
    ensures n <= |records| && (res.Ok? ==> res.value == n == |records|)
    ensures db.rows.Keys == old(db.rows.Keys) - Ids(records[..n]) && db.decisions == old(db.decisions) - Ids(records[..n])
    ensures forall u <- found ::
              source in old(client.boxes) && u in old(client.boxes)[source].slots && old(client.boxes)[source].slots[u].mail.messageId in Ids(records)
    ensures res.Ok? || n > 0 ==> (left == {} <==> client.hollow == old(client.hollow)) && (source != dest ==> left <= found)
    ensures res.Ok? || n > 0 ==>
              (AllDone(old(client.boxes), client.boxes, client.noselect, waste, records, dest) <==>
               source == dest || Drained(BoxOf(old(client.boxes), source), found, left))
    ensures (&& Smooth(client.answers, old(client.tick), client.tick) && NoFault(db.goes, old(db.writes), db.writes)
             && Selectable(records, old(client.boxes), client.noselect)
             && (client.hollow == old(client.hollow) || forall r <- records :: LiveAt(old(client.boxes), r))) ==> res.Ok?
    ensures AllHollow(client.answers, old(client.tick), client.tick) && (forall r <- records :: LiveAt(old(client.boxes), r)) ==>
              Unmoved(old(client.boxes), client.boxes)
  {
    hide OnlyMail, OnlyTouched, AllPlaced, Smooth, AllHollow, Ids, AllReady, AllDone, DistinctIds, Found, InFolder, AllCarried, Trails, AllFromRows, LiveAt,
         Stripped, Live, Distinct, Unmoved, KeptWhole, Drained, NoFault, Selectable;
    ghost var before, start, rows, first := client.boxes, client.tick, db.rows, db.writes;
    found, left, n := {}, {}, 0;
    NothingLeft(BoxOf(before, source), {});
    UnmovedAtFirst(before);
    NoneLess(db.decisions, records);
    assert db.rows.Keys - Ids(records[..0]) == db.rows.Keys by { NoneLess(db.rows, records); }
    var ats := ResolveArchiveGroup(client, db, records, dest, d, waste, source);
    if ats.Err? { return Err(ats.error), found, left, n; }
    var uids := Found(ats.value);
    ghost var current, mark := client.boxes, client.tick;
    if uids == [] {
      NothingToMove(before, current, client.noselect, waste, records, source, dest, ats.value);
    } else {
      FoundInSource(before, current, client.noselect, waste, records, source, dest, ats.value);
      PlacedApart(before, current, client.noselect, waste, records, source, dest, ats.value);
      found := Seen(uids);
      FoundLive(before, current, client.noselect, waste, records, source, dest, ats.value);
      FoundSelectable(before, current, client.noselect, waste, records, source, dest, ats.value);
      var ok;
      ok, left := MoveFound(client, source, dest, d, uids, Ids(records));
      SmoothSplits(client.answers, start, mark, client.tick);
      HollowSplits(client.answers, start, mark, client.tick);
      OnlyMailOn(before, current, client.boxes, Ids(records), Ids(records));
      AllCarriedTwice(before, current, client.boxes, Ids(records), dest);
      TrailOn(current, client.boxes, client.noselect, rows, db.rows, Ids(records), dest);
      if !ok { return Err(ImapError.Refused), found, left, n; }
      LiveFound(current[source], uids, left);
      MovedDone(before, current, client.boxes, client.noselect, waste, records, source, dest, ats.value, left);
    }
    ghost var held, writes := db.rows, db.writes;
    var goes;
    goes, n := DeleteGroupRows(db, records);
    FaultsSplit(db.goes, first, writes, db.writes);
    SomeIds(records, n);
    DroppedTouches(rows, held, Ids(records[..n]), Ids(records));
    FewerTrail(client.boxes, client.noselect, rows, held, Ids(records), dest, Ids(records[..n]));
    if !goes { return Err(ImapError.Refused), found, left, n; }
    return Ok(|records|), found, left, n;
  }

  lemma NothingLeft(box: Mailbox, found: set<nat>)
    ensures Drained(box, found, {})
  {
  }

  lemma LiveFound(box: Mailbox, uids: seq<nat>, left: set<nat>)
    ensures left <= Live(box, Seen(uids)) ==> left <= Seen(uids)
  {
  }

  lemma TrailOn(before: Boxes, now: Boxes, noselect: set<string>, was: Rows, rows: Rows, ids: set<string>, dest: string)
    requires OnlyMail(before, now, ids) && AllCarried(before, now, ids, dest) && Trails(before, noselect, was, rows, ids, dest)
    ensures Trails(now, noselect, was, rows, ids, dest)
  {
    hide OnlyMail, Trails, Carried;
    StillTrails(before, now, noselect, was, rows, ids, dest, ids);
  }

  lemma DroppedTouches(rows: Rows, held: Rows, gone: set<string>, ids: set<string>)
    requires OnlyTouched(rows, held, ids) && gone <= ids
    ensures OnlyTouched(rows, held - gone, ids)
  {
  }

  lemma FoundSelectable(before: Boxes, now: Boxes, noselect: set<string>, waste: set<string>, records: seq<Record>, source: string, dest: string,
                        ats: seq<nat>)
    requires AllPlaced(before, now, noselect, waste, records, dest, ats) && InFolder(records, source) && Found(ats) != []
    ensures Selectable(records, before, noselect) ==> source !in noselect
  {
    hide Placed;
    assert Found(ats)[0] in Found(ats);
    var k :| 0 <= k < |ats| && ats[k] == Found(ats)[0];
    assert records[k] in records;
  }

  lemma FoundInSource(before: Boxes, now: Boxes, noselect: set<string>, waste: set<string>, records: seq<Record>, source: string, dest: string,
                      ats: seq<nat>)
    requires AllPlaced(before, now, noselect, waste, records, dest, ats) && |ats| == |records| && InFolder(records, source) && Found(ats) != []
    ensures source in before && source in now && forall u <- Found(ats) :: u < now[source].next
    ensures forall u <- Seen(Found(ats)) :: u in now[source].slots ==> now[source].slots[u].mail.messageId in Ids(records)
  {
    hide Settled, Has, OnlyAt, OwnUnflagged, StandsAt;
    forall u <- Found(ats) ensures source in before && source in now && u < now[source].next && (u in now[source].slots ==> now[source].slots[u].mail.messageId in Ids(records)) {
      var k :| 0 <= k < |ats| && ats[k] == u;
      assert records[k] in records && Placed(before, now, noselect, waste, records[k], dest, ats[k]);
    }
    assert Found(ats)[0] in Found(ats);
  }

  /** The failing input: the only message of `source` is to be archived, and the server answers the COPY with
      a COPYUID that names nothing. The message stays where it is, there is no copy, and yet the row goes. */
  method MailLeftBehind(client: Client, db: Database, mail: Mail, source: string, dest: string, d: char)
    requires client.Valid() && db.Valid() && source != dest && source !in client.noselect
    requires client.boxes.Keys == {source} && client.boxes[source].slots == map[1 := Slot(mail, false)]
    requires db.rows == map[mail.messageId := Row(source, Some(1), mail)]
    requires (forall t: nat :: AnswerTo(client.answers, t) == Works(Some({}))) && forall t: nat :: GoesThrough(db.goes, t)
    modifies client, db`rows, db`decisions, db`writes
    ensures db.rows == map[] && source in client.boxes && Gone(client.boxes, dest, mail.messageId)
    ensures client.boxes[source].slots == old(client.boxes[source].slots)
  {
    hide OnlyMail, AllReady, AllFromRows, OnlyTouched, Trails, AllDone, Drained, Smooth, AllHollow, DistinctIds, InFolder, AllCarried, Gone, Ids, LiveAt,
         NoFault, Selectable;
    var r := Record(mail.messageId, source, Some(1));
    ghost var before, start, first := client.boxes, client.tick, db.writes;
    OneReady(before, db.rows, client.noselect, r, mail, source, dest);
    var _, _, _, n := ProcessArchiveGroup(client, db, source, dest, [r], d, {});
    AlwaysHollow(client.answers, start, client.tick);
    NeverFaults(db.goes, first, db.writes);
    assert [r][..1] == [r];
    GoneUnmoved(before, client.boxes, dest, r.id);
  }

  lemma OneReady(boxes: Boxes, rows: Rows, noselect: set<string>, r: Record, mail: Mail, source: string, dest: string)
    requires r == Record(mail.messageId, source, Some(1)) && source != dest && boxes.Keys == {source} && boxes[source].Valid()
    requires boxes[source].slots == map[1 := Slot(mail, false)] && rows == map[r.id := Row(source, Some(1), mail)] && source !in noselect
    ensures InFolder([r], source) && AllReady(boxes, [r], dest) && DistinctIds([r]) && AllFromRows(rows, [r]) && Selectable([r], boxes, noselect)
    ensures Ids([r]) == {r.id} && LiveAt(boxes, r) && Gone(boxes, dest, r.id)
  {
    assert 1 in boxes[source].slots;
    assert Ready(boxes, r, dest);
  }

  lemma AlwaysHollow(script: Script, from: nat, to: nat)
    requires forall t: nat :: AnswerTo(script, t) == Works(Some({}))
    ensures AllHollow(script, from, to) && Smooth(script, from, to)
  {
  }

  lemma NeverFaults(goes: nat -> bool, from: nat, to: nat)
    requires forall t: nat :: GoesThrough(goes, t)
    ensures NoFault(goes, from, to)
  {
  }

  lemma GoneUnmoved(before: Boxes, now: Boxes, dest: string, id: string)
    requires Unmoved(before, now) && Gone(before, dest, id)
    ensures Gone(now, dest, id)
  {
  }

  // ---------- the worker ----------

  const TO_ARCHIVE := "TO_ARCHIVE"

  type Key = (string, string)

  /** The rows a run is about: all decided this way, or those proposed for one subfolder. */
  function Chosen(decisions: map<string, string>, subfolders: map<string, string>, only: Option<string>): set<string> {
    set id | id in Decided(decisions, TO_ARCHIVE) && id in subfolders && (only.None? || subfolders[id] == only.value)
  }

  /** Where each of them is to go; those whose destination escapes the root are not part of it. */
  function Plan(ids: set<string>, subfolders: map<string, string>, root: string, d: char): map<string, string> {
    map id | id in ids && id in subfolders && Destination(root, subfolders[id], d).Some? :: Destination(root, subfolders[id], d).value
  }

  /** What the plan says: each message goes to the folder of its subfolder's segments, and is passed over exactly
      if one of them, or of the root's, is "..". */
  ghost predicate PlansFor(plan: map<string, string>, ids: set<string>, subfolders: map<string, string>, root: string, d: char) {
    && plan.Keys <= ids && ids <= subfolders.Keys
    && (forall id <- ids :: id !in plan <==> ".." in Split(root, d) || (subfolders[id] != "" && ".." in Cut(subfolders[id], d)))
    && forall id <- plan :: FiledUnder(plan[id], root, subfolders[id], d)
  }

  lemma PlanFiles(ids: set<string>, subfolders: map<string, string>, root: string, d: char)
    requires ids <= subfolders.Keys
    ensures PlansFor(Plan(ids, subfolders, root, d), ids, subfolders, root, d)
  {
    hide Destination, FiledUnder;
    forall id <- ids
      ensures var dest := Destination(root, subfolders[id], d);
              && (dest.Some? ==> FiledUnder(dest.value, root, subfolders[id], d))
              && (dest.None? <==> ".." in Split(root, d) || (subfolders[id] != "" && ".." in Cut(subfolders[id], d)))
    {
      DestinationFiles(root, subfolders[id], d);
    }
  }

  /** The worker may rely on this for the rows it is about: where mail is archived to, identifiers are
      assigned ones, and no mail is flagged without a copy in its destination. */
  ghost predicate Prepared(boxes: Boxes, rows: Rows, plan: map<string, string>) {
    forall id <- plan :: id in rows && rows[id].uid.Some? ==>
      Sure(boxes, Record(id, rows[id].folder, rows[id].uid), plan.Values) && Tidy(boxes, id, plan[id])
  }

  ghost predicate AllGo(before: Boxes, now: Boxes, plan: map<string, string>) {
    forall id <- plan :: Carried(before, now, id, plan[id])
  }

  lemma AllGoAtFirst(boxes: Boxes, plan: map<string, string>)
    ensures AllGo(boxes, boxes, plan)
  {
    hide Carried;
    forall id <- plan ensures Carried(boxes, boxes, id, plan[id]) {
      CarriedAtFirst(boxes, id, plan[id]);
    }
  }

  lemma AllGoTwice(a: Boxes, b: Boxes, c: Boxes, plan: map<string, string>)
    requires AllGo(a, b, plan) && AllGo(b, c, plan)
    ensures AllGo(a, c, plan)
  {
    hide Carried;
    forall id <- plan ensures Carried(a, c, id, plan[id]) {
      CarriedTwice(a, b, c, id, plan[id]);
    }
  }

  /** Work on one group carries all of the planned mail. */
  lemma GroupGoes(before: Boxes, now: Boxes, plan: map<string, string>, ids: set<string>, dest: string)
    requires OnlyMail(before, now, ids) && AllCarried(before, now, ids, dest)
    requires forall id <- ids :: id in plan && plan[id] == dest
    ensures AllGo(before, now, plan)
  {
    hide Carried, OnlyMail;
    forall id <- plan ensures Carried(before, now, id, plan[id]) {
      if id !in ids { CarriedByOthers(before, now, id, plan[id], ids); }
    }
  }

  ghost predicate PlanTrails(boxes: Boxes, noselect: set<string>, was: Rows, rows: Rows, plan: map<string, string>) {
    forall id <- rows :: id in was && if id in plan then RowTrails(boxes, noselect, was[id], rows[id], id, plan[id]) else rows[id] == was[id]
  }

  lemma TrailsWithin(boxes: Boxes, noselect: set<string>, was: Rows, rows: Rows, plan: map<string, string>)
    requires PlanTrails(boxes, noselect, was, rows, plan)
    ensures rows.Keys <= was.Keys
  {
  }

  lemma PlanTrailsAtFirst(boxes: Boxes, noselect: set<string>, rows: Rows, plan: map<string, string>)
    ensures PlanTrails(boxes, noselect, rows, rows, plan)
  {
  }

  lemma GroupTrails(before: Boxes, now: Boxes, noselect: set<string>, was: Rows, held: Rows, rows: Rows, plan: map<string, string>, ids: set<string>,
                    dest: string, done: set<string>)
    requires PlanTrails(before, noselect, was, held, plan) && OnlyMail(before, now, ids) && AllGo(before, now, plan)
    requires OnlyTouched(held, rows, ids) && Trails(now, noselect, held, rows, ids, dest)
    requires OnlyTouched(was, held, done) && ids !! done && forall id <- ids :: id in plan && plan[id] == dest
    ensures PlanTrails(now, noselect, was, rows, plan)
  {
    hide OnlyMail, RowTrails, Survives, MailSurvives, ArrivesOnly, Tidy;
    forall id <- rows ensures id in was && if id in plan then RowTrails(now, noselect, was[id], rows[id], id, plan[id]) else rows[id] == was[id] {
      assert id in held;
      if id in ids {
        assert was[id] == held[id];
      } else if id in plan {
        assert Carried(before, now, id, plan[id]);
        RowStillTrails(before, now, noselect, was[id], held[id], id, plan[id], ids);
      }
    }
  }

  /** The records of these Message-IDs are done. */
  ghost predicate DoneFor(before: Boxes, now: Boxes, noselect: set<string>, waste: set<string>, all: seq<Record>, plan: map<string, string>,
                          ids: set<string>) {
    forall r <- all :: r.id in ids && r.id in plan ==> Done(before, now, noselect, waste, r, plan[r.id])
  }

  lemma NoneDone(boxes: Boxes, noselect: set<string>, waste: set<string>, all: seq<Record>, plan: map<string, string>)
    ensures DoneFor(boxes, boxes, noselect, waste, all, plan, {})
  {
  }

  ghost predicate PlanReady(boxes: Boxes, all: seq<Record>, plan: map<string, string>) {
    forall r <- all :: r.id in plan && (r.uid.Some? ==> Sure(boxes, r, plan.Values) && Tidy(boxes, r.id, plan[r.id]))
  }

  /** Planned mail arrives nowhere but in the plan's folders. */
  lemma ArrivesPlanned(before: Boxes, now: Boxes, plan: map<string, string>, ids: set<string>, folder: string)
    requires AllGo(before, now, plan) && ids <= plan.Keys && folder !in plan.Values
    ensures NoneArrives(before, now, ids, folder)
  {
    hide Survives, MailSurvives, Tidy;
    forall id <- ids ensures OwnComes(BoxOf(before, folder), BoxOf(now, folder), id) {
      assert id in plan && plan[id] in plan.Values && Carried(before, now, id, plan[id]);
    }
  }

  lemma StillPlanned(before: Boxes, now: Boxes, r: Record, plan: map<string, string>, ids: set<string>)
    requires AllValid(before) && OnlyMail(before, now, ids) && AllGo(before, now, plan) && ids <= plan.Keys
    requires Sure(before, r, plan.Values)
    ensures Sure(now, r, plan.Values)
  {
    hide OnlyMail, AllGo, NoneArrives, Sure;
    if r.folder !in plan.Values { ArrivesPlanned(before, now, plan, ids, r.folder); }
    StillSure(before, now, r, plan.Values, ids);
  }

  lemma PlannedIsReady(boxes: Boxes, r: Record, plan: map<string, string>)
    requires r.id in plan && r.uid.Some? && Sure(boxes, r, plan.Values) && Tidy(boxes, r.id, plan[r.id])
    ensures Ready(boxes, r, plan[r.id])
  {
    hide Tidy, Sure;
    assert plan[r.id] in plan.Values;
    SureLess(boxes, r, {plan[r.id]}, plan.Values);
  }

  lemma GroupDone(before: Boxes, mid: Boxes, now: Boxes, noselect: set<string>, waste: set<string>, all: seq<Record>, plan: map<string, string>,
                  done: set<string>, members: seq<Record>, dest: string)
    requires PlanReady(before, all, plan) && DoneFor(before, mid, noselect, waste, all, plan, done)
    requires OnlyMail(before, mid, done) && Ids(members) !! done && AllGo(mid, now, plan)
    requires DistinctIds(all) && (forall r <- members :: r in all && plan[r.id] == dest) && AllDone(mid, now, noselect, waste, members, dest)
    ensures DoneFor(before, now, noselect, waste, all, plan, done + Ids(members))
  {
    hide OnlyMail, Done, Carried, Sure, Tidy;
    forall r <- all | r.id in done + Ids(members) ensures Done(before, now, noselect, waste, r, plan[r.id]) {
      assert Carried(mid, now, r.id, plan[r.id]);
      if r.id in done {
        StillDone(before, mid, now, noselect, waste, r, plan[r.id]);
      } else {
        var m :| m in members && m.id == r.id;
        SameRecord(all, r, m);
        DoneSince(before, mid, now, noselect, waste, r, dest, done);
      }
    }
  }

  lemma SameRecord(all: seq<Record>, r: Record, m: Record)
    requires DistinctIds(all) && r in all && m in all && r.id == m.id
    ensures r == m
  {
    var i :| 0 <= i < |all| && all[i] == r;
    var j :| 0 <= j < |all| && all[j] == m;
  }

  /** A group whose turn it is finds what it relies on. */
  lemma GroupReady(before: Boxes, now: Boxes, was: Rows, rows: Rows, groups: seq<Group<Key>>, n: nat, all: seq<Record>, keyOf: map<Record, Key>,
                   plan: map<string, string>)
    requires n < |groups| && Separate(groups) && PlanReady(before, all, plan) && OnlyMail(before, now, GroupIds(groups, n))
    requires AllValid(before) && AllGo(before, now, plan)
    requires Sorted(groups, keyOf) && Members(groups) == (set r | r in all)
    requires forall r <- all :: r in keyOf && r.id in plan && keyOf[r] == (r.folder, plan[r.id])
    requires AllFromRows(was, all) && OnlyTouched(was, rows, GroupIds(groups, n)) && rows.Keys == was.Keys - GroupIds(groups, n)
    ensures AllReady(now, groups[n].members, groups[n].key.1) && InFolder(groups[n].members, groups[n].key.0) && DistinctIds(groups[n].members)
    ensures AllFromRows(rows, groups[n].members) && Ids(groups[n].members) !! GroupIds(groups, n)
    ensures forall r <- groups[n].members :: r in all && plan[r.id] == groups[n].key.1
    ensures forall id <- Ids(groups[n].members) :: id in plan && plan[id] == groups[n].key.1
  {
    hide OnlyMail, Ready, Sure, Tidy, AllGo;
    var g := groups[n];
    assert g in groups;
    GroupIdsAre(groups, n);
    assert GroupIds(groups, n) <= plan.Keys by { PlannedGroups(groups, n, all, plan); }
    forall r <- g.members
      ensures r in all && r.id !in GroupIds(groups, n) && r.folder == g.key.0 && plan[r.id] == g.key.1
      ensures Ready(now, r, g.key.1) && FromRow(rows, r)
    {
      assert r in Members(groups) && r.id in Ids(g.members);
      assert FromRow(was, r);
      if r.uid.Some? {
        StillPlanned(before, now, r, plan, GroupIds(groups, n));
        CarriedByOthers(before, now, r.id, plan[r.id], GroupIds(groups, n));
        PlannedIsReady(now, r, plan);
      } else {
        NotTracked(now, r, g.key.1);
      }
    }
  }

  lemma NotTracked(boxes: Boxes, r: Record, dest: string)
    requires r.uid.None?
    ensures Ready(boxes, r, dest)
  {
  }

  lemma PlannedGroups(groups: seq<Group<Key>>, n: nat, all: seq<Record>, plan: map<string, string>)
    requires n <= |groups| && Members(groups) == (set r | r in all) && forall r <- all :: r.id in plan
    ensures GroupIds(groups, n) <= plan.Keys
  {
    GroupIdsAre(groups, n);
    forall id <- GroupIds(groups, n) ensures id in plan {
      var k :| 0 <= k < n && id in Ids(groups[k].members);
      var r :| r in groups[k].members && r.id == id;
      assert groups[k] in groups && r in Members(groups);
    }
  }

  lemma TouchedMore(before: Rows, now: Rows, some: set<string>, ids: set<string>)
    requires OnlyTouched(before, now, some) && some <= ids
    ensures OnlyTouched(before, now, ids)
  {
  }

  lemma GroupIdsGrow<K(!new)>(groups: seq<Group<K>>, n: nat)
    requires n <= |groups|
    ensures GroupIds(groups, n) <= GroupIds(groups, |groups|)
  {
    GroupIdsAre(groups, n);
    GroupIdsAre(groups, |groups|);
  }

  /** How a run stands after some groups: `done` are the Message-IDs whose rows are gone. */
  ghost predicate Advanced(before: Boxes, now: Boxes, noselect: set<string>, was: Rows, rows: Rows, plan: map<string, string>, done: set<string>,
                           all: set<string>) {
    && OnlyMail(before, now, all) && AllGo(before, now, plan)
    && OnlyTouched(was, rows, all) && PlanTrails(now, noselect, was, rows, plan)
    && rows.Keys == was.Keys - done && done <= all
  }

  lemma AdvancedAtFirst(boxes: Boxes, noselect: set<string>, rows: Rows, plan: map<string, string>, all: set<string>)
    requires AllValid(boxes)
    ensures Advanced(boxes, boxes, noselect, rows, rows, plan, {}, all) && Advanced(boxes, boxes, noselect, rows, rows, plan, {}, {})
  {
    OnlyMailAtFirst(boxes, {});
    OnlyMailAtFirst(boxes, all);
    AllGoAtFirst(boxes, plan);
    PlanTrailsAtFirst(boxes, noselect, rows, plan);
    hide OnlyMail, AllGo, PlanTrails;
  }

  /** One group later, when the rows of `some` of it are gone. */
  lemma GroupAdvances(before: Boxes, mid: Boxes, now: Boxes, noselect: set<string>, was: Rows, held: Rows, rows: Rows, plan: map<string, string>,
                      done: set<string>, ids: set<string>, dest: string, some: set<string>)
    requires Advanced(before, mid, noselect, was, held, plan, done, done)
    requires OnlyMail(mid, now, ids) && AllCarried(mid, now, ids, dest) && ids !! done
    requires OnlyTouched(held, rows, ids) && Trails(now, noselect, held, rows, ids, dest)
    requires rows.Keys == held.Keys - some && some <= ids
    requires forall id <- ids :: id in plan && plan[id] == dest
    ensures Advanced(before, now, noselect, was, rows, plan, done + some, done + ids)
    ensures AllGo(mid, now, plan)
  {
    hide OnlyMail, AllGo, PlanTrails, OnlyTouched, AllCarried, Trails;
    GroupGoes(mid, now, plan, ids, dest);
    AllGoTwice(before, mid, now, plan);
    OnlyMailTwice(before, mid, now, done, ids);
    GroupTrails(mid, now, noselect, was, held, rows, plan, ids, dest, done);
    TouchedThen(was, held, rows, done, ids);
  }

  lemma AdvancedMore(before: Boxes, now: Boxes, noselect: set<string>, was: Rows, rows: Rows, plan: map<string, string>, done: set<string>,
                     some: set<string>, all: set<string>)
    requires Advanced(before, now, noselect, was, rows, plan, done, some) && some <= all
    ensures Advanced(before, now, noselect, was, rows, plan, done, all)
  {
    hide OnlyMail, AllGo, PlanTrails, OnlyTouched;
    OnlyMailMore(before, now, some, all);
    TouchedMore(was, rows, some, all);
  }

  method RunArchiveGroups(client: Client, db: Database, groups: seq<Group<Key>>, keyOf: map<Record, Key>, d: char, waste: set<string>, total: nat,
                          ghost all: seq<Record>, ghost plan: map<string, string>)
    returns (ok: bool, ghost shown: seq<nat>, ghost last: nat, ghost gone: set<string>)
    requires client.Valid() && db.Valid() && PlanReady(client.boxes, all, plan) && DistinctIds(all) && AllFromRows(db.rows, all)
    requires Sorted(groups, keyOf) && Separate(groups) && Size(groups) <= total && Members(groups) == set r | r in all
    requires forall r <- all :: r in keyOf && r.id in plan && keyOf[r] == (r.folder, plan[r.id])
    modifies client, db`rows, db`decisions, db`marks, db`written, db`writes
    ensures client.Valid() && db.Valid() && old(client.tick) <= client.tick && old(client.hollow) <= client.hollow && old(db.writes) <= db.writes
    ensures Advanced(old(client.boxes), client.boxes, client.noselect, old(db.rows), db.rows, plan, gone, Ids(all))
    ensures db.decisions == old(db.decisions) - gone
    ensures Counted(old(db.written), db.written, "archive", shown, last, total)
    ensures client.hollow == old(client.hollow) ==> DoneFor(old(client.boxes), client.boxes, client.noselect, waste, all, plan, gone)
    ensures ok ==> gone == Ids(all)
    ensures (&& Smooth(client.answers, old(client.tick), client.tick) && NoFault(db.goes, old(db.writes), db.writes)
             && client.hollow == old(client.hollow) && Selectable(all, old(client.boxes), client.noselect)) ==> ok
  {
    hide OnlyMail, PlanReady, OnlyTouched, InFolder, Smooth, Ids, Members, Size, Sorted, Separate, DoneFor, AllDone, DistinctIds, GroupIds, Advanced,
         AllFromRows, Counted, ProgressText, AllReady, AllGo, AllCarried, Trails, LiveAt, Drained, NoFault, Selectable;
    ghost var before, start, rows, first := client.boxes, client.tick, db.rows, db.writes;
    NoneYet(db.goes, first);
    AdvancedAtFirst(before, client.noselect, rows, plan, {});
    NoGroups(groups);
    NothingSent(client.answers, start);
    NoneDone(before, client.noselect, waste, all, plan);
    EveryId(groups, all);
    NothingCounted(db.written, "archive", total);
    var done, i := 0, 0;
    shown, last, gone := [], 0, {};
    while i < |groups|
      invariant client.Valid() && db.Valid() && start <= client.tick && 0 <= i <= |groups| && old(client.hollow) <= client.hollow
      invariant first <= db.writes
      invariant gone == GroupIds(groups, i) && last == done == Size(groups[..i])
      invariant Advanced(before, client.boxes, client.noselect, rows, db.rows, plan, gone, gone)
      invariant db.decisions == old(db.decisions) - gone
      invariant Counted(old(db.written), db.written, "archive", shown, done, total)
      invariant client.hollow == old(client.hollow) ==> DoneFor(before, client.boxes, client.noselect, waste, all, plan, gone)
    {
      var g := groups[i];
      ghost var current, mark, held, ids, writes := client.boxes, client.tick, db.rows, Ids(g.members), db.writes;
      AdvancedFacts(before, current, client.noselect, rows, held, plan, gone);
      GroupReady(before, current, rows, held, groups, i, all, keyOf, plan);
      GroupSelectable(before, current, client.noselect, all, g.members, gone);
      var res, found, left, n := ProcessArchiveGroup(client, db, g.key.0, g.key.1, g.members, d, waste);
      SmoothSplits(client.answers, start, mark, client.tick);
      FaultsSplit(db.goes, first, writes, db.writes);
      GroupIdsStep(groups, i);
      GroupIdsGrow(groups, i + 1);
      ghost var some := Ids(g.members[..n]);
      SomeIds(g.members, n);
      GroupAdvances(before, current, client.boxes, client.noselect, rows, held, db.rows, plan, gone, ids, g.key.1, some);
      LessTwice(old(db.decisions), gone, some);
      if client.hollow == old(client.hollow) {
        NothingLeft(BoxOf(current, g.key.0), found);
        GroupDoneSofar(before, current, client.boxes, client.noselect, waste, all, plan, gone, g.members, g.key.1, n, res.Ok? || n > 0);
      }
      gone := gone + some;
      if res.Err? {
        AdvancedMore(before, client.boxes, client.noselect, rows, db.rows, plan, gone, GroupIds(groups, i + 1), Ids(all));
        return false, shown, done, gone;
      }
      OneMore(db.goes, first, db.writes);
      var goes := db.Attempt();
      if !goes {
        AdvancedMore(before, client.boxes, client.noselect, rows, db.rows, plan, gone, gone, Ids(all));
        return false, shown, done, gone;
      }
      SizeSplit(groups, i);
      CountedMore(old(db.written), db.written, "archive", shown, done, done + res.value, total);
      i := i + 1;
      done := done + res.value;
      last := done;
      db.SetWatermark(STATE_KEY, ProgressText("archive", done, total));
      shown := shown + [done];
    }
    AdvancedMore(before, client.boxes, client.noselect, rows, db.rows, plan, gone, gone, Ids(all));
    return true, shown, last, gone;
  }

  lemma LessTwice(decisions: map<string, string>, first: set<string>, second: set<string>)
    ensures decisions - first - second == decisions - (first + second)
  {
  }

  lemma AdvancedFacts(before: Boxes, now: Boxes, noselect: set<string>, was: Rows, rows: Rows, plan: map<string, string>, done: set<string>)
    requires Advanced(before, now, noselect, was, rows, plan, done, done)
    ensures OnlyMail(before, now, done) && OnlyTouched(was, rows, done) && rows.Keys == was.Keys - done && AllGo(before, now, plan)
  {
  }

  lemma GroupSelectable(before: Boxes, now: Boxes, noselect: set<string>, all: seq<Record>, members: seq<Record>, ids: set<string>)
    requires OnlyMail(before, now, ids) && forall r <- members :: r in all
    ensures Selectable(all, before, noselect) ==> Selectable(members, now, noselect)
  {
  }

  /** The records whose rows are gone are done, if the group got as far as deleting rows. */
  lemma GroupDoneSofar(before: Boxes, mid: Boxes, now: Boxes, noselect: set<string>, waste: set<string>, all: seq<Record>, plan: map<string, string>,
                       done: set<string>, members: seq<Record>, dest: string, n: nat, dealt: bool)
    requires PlanReady(before, all, plan) && DoneFor(before, mid, noselect, waste, all, plan, done)
    requires OnlyMail(before, mid, done) && Ids(members) !! done && AllGo(mid, now, plan) && n <= |members|
    requires DistinctIds(all) && forall r <- members :: r in all && r.id in plan && plan[r.id] == dest
    requires if dealt then AllDone(mid, now, noselect, waste, members, dest) else n == 0
    ensures DoneFor(before, now, noselect, waste, all, plan, done + Ids(members[..n]))
  {
    hide PlanReady, OnlyMail, AllGo, AllDone, Done, DistinctIds;
    SomeIds(members, n);
    if dealt {
      GroupDone(before, mid, now, noselect, waste, all, plan, done, members, dest);
    } else {
      StillDoneFor(before, mid, now, noselect, waste, all, plan, done);
    }
  }

  lemma StillDoneFor(before: Boxes, mid: Boxes, now: Boxes, noselect: set<string>, waste: set<string>, all: seq<Record>, plan: map<string, string>,
                     ids: set<string>)
    requires DoneFor(before, mid, noselect, waste, all, plan, ids) && AllGo(mid, now, plan)
    ensures DoneFor(before, now, noselect, waste, all, plan, ids)
  {
    hide Done, Carried;
    forall r <- all | r.id in ids && r.id in plan ensures Done(before, now, noselect, waste, r, plan[r.id]) {
      assert Carried(mid, now, r.id, plan[r.id]);
      StillDone(before, mid, now, noselect, waste, r, plan[r.id]);
    }
  }

  /** Where each record is to go; those whose destination escapes the root are passed over. */
  method Destinations(records: seq<Record>, root: string, subfolders: map<string, string>, d: char)
    returns (wanted: seq<Record>, keyOf: map<Record, Key>)
    requires forall r <- records :: r.id in subfolders
    ensures forall r :: r in wanted <==> r in records && Destination(root, subfolders[r.id], d).Some?
    ensures forall r <- wanted :: r in keyOf && keyOf[r] == (r.folder, Destination(root, subfolders[r.id], d).value)
    ensures |wanted| <= |records| && (DistinctIds(records) ==> DistinctIds(wanted))
  {
    wanted, keyOf := [], map[];
    for k := 0 to |records|
      invariant forall r :: r in wanted <==> r in records[..k] && Destination(root, subfolders[r.id], d).Some?
      invariant forall r <- wanted :: r in keyOf && keyOf[r] == (r.folder, Destination(root, subfolders[r.id], d).value)
      invariant |wanted| <= k && (DistinctIds(records) ==> DistinctIds(wanted))
    {
      var r := records[k];
      assert records[..k + 1] == records[..k] + [r];
      var dest := Destination(root, subfolders[r.id], d);
      if dest.Some? {
        forall j | DistinctIds(records) && 0 <= j < |wanted| ensures wanted[j].id != r.id {
          assert wanted[j] in records[..k];
          var i :| 0 <= i < k && records[..k][i] == wanted[j];
          assert records[i].id != records[k].id;
        }
        wanted, keyOf := wanted + [r], keyOf[r := (r.folder, dest.value)];
      }
    }
    assert records[..|records|] == records;
  }

  method PreFilter(records: seq<Record>, subfolders: map<string, string>, only: Option<string>) returns (kept: seq<Record>)
    requires forall r <- records :: r.id in subfolders
    ensures forall r :: r in kept <==> r in records && (only.None? || subfolders[r.id] == only.value)
    ensures DistinctIds(records) ==> DistinctIds(kept)
  {
    if only.None? { return records; }
    kept := [];
    for k := 0 to |records|
      invariant forall r :: r in kept <==> r in records[..k] && subfolders[r.id] == only.value
      invariant DistinctIds(records) ==> DistinctIds(kept)
    {
      var r := records[k];
      assert records[..k + 1] == records[..k] + [r];
      if subfolders[r.id] == only.value {
        forall j | DistinctIds(records) && 0 <= j < |kept| ensures kept[j].id != r.id {
          assert kept[j] in records[..k];
          var i :| 0 <= i < k && records[..k][i] == kept[j];
          assert records[i].id != records[k].id;
        }
        kept := kept + [r];
      }
    }
    assert records[..|records|] == records;
  }

  /** A tracked row disappears only if its destination lies within the archive, its message is there or was
      nowhere to be found when the run began, and has left its folder. */
  ghost predicate RowsFollowMail(before: Boxes, now: Boxes, noselect: set<string>, waste: set<string>, was: Rows, rows: Rows, plan: map<string, string>) {
    forall id <- was.Keys - rows.Keys :: was[id].uid.Some? ==>
      id in plan && Done(before, now, noselect, waste, Record(id, was[id].folder, was[id].uid), plan[id])
  }

  lemma RemovedFollow(before: Boxes, now: Boxes, noselect: set<string>, waste: set<string>, was: Rows, rows: Rows, plan: map<string, string>,
                      wanted: seq<Record>, gone: set<string>)
    requires DoneFor(before, now, noselect, waste, wanted, plan, gone) && rows.Keys == was.Keys - gone && gone <= Ids(wanted) <= plan.Keys
    requires AllFromRows(was, wanted)
    ensures RowsFollowMail(before, now, noselect, waste, was, rows, plan)
  {
    hide Done;
    forall id <- was.Keys - rows.Keys ensures id in plan && Done(before, now, noselect, waste, Record(id, was[id].folder, was[id].uid), plan[id]) {
      var r :| r in wanted && r.id == id;
      assert FromRow(was, r);
      assert r == Record(id, was[id].folder, was[id].uid);
    }
  }

  lemma NothingTrackedGone(boxes: Boxes, noselect: set<string>, waste: set<string>, was: Rows, rows: Rows, plan: map<string, string>, records: seq<Record>)
    requires was.Keys - Ids(records) <= rows.Keys <= was.Keys
    requires rows == was || (AllFromRows(was, records) && forall r <- records :: r.uid.None?)
    ensures RowsFollowMail(boxes, boxes, noselect, waste, was, rows, plan)
  {
    forall id <- was.Keys - rows.Keys ensures was[id].uid.None? {
      var r :| r in records && r.id == id;
      assert FromRow(was, r);
    }
  }

  lemma ChosenAre(rows: Rows, decisions: map<string, string>, subfolders: map<string, string>, only: Option<string>, records: seq<Record>,
                  kept: seq<Record>)
    requires AllFromRows(rows, records) && Ids(records) == Decided(decisions, TO_ARCHIVE) <= subfolders.Keys
    requires forall r <- records :: r.id in subfolders
    requires forall r :: r in kept <==> r in records && (only.None? || subfolders[r.id] == only.value)
    ensures AllFromRows(rows, kept) && Ids(kept) == Chosen(decisions, subfolders, only)
  {
    forall id ensures id in Ids(kept) <==> id in Chosen(decisions, subfolders, only) {
      if id in Chosen(decisions, subfolders, only) {
        var r :| r in records && r.id == id;
        assert r in kept;
      }
      if id in Ids(kept) {
        var r :| r in kept && r.id == id;
        assert r.id in Ids(records);
      }
    }
  }

  lemma WantedReady(boxes: Boxes, rows: Rows, records: seq<Record>, wanted: seq<Record>, keyOf: map<Record, Key>, root: string,
                    subfolders: map<string, string>, d: char, plan: map<string, string>)
    requires plan == Plan(Ids(records), subfolders, root, d) && AllFromRows(rows, records) && Prepared(boxes, rows, plan)
    requires forall r <- records :: r.id in subfolders
    requires forall r :: r in wanted <==> r in records && Destination(root, subfolders[r.id], d).Some?
    requires forall r <- wanted :: r in keyOf && keyOf[r] == (r.folder, Destination(root, subfolders[r.id], d).value)
    ensures PlanReady(boxes, wanted, plan) && AllFromRows(rows, wanted) && Ids(wanted) == plan.Keys <= Ids(records)
    ensures forall r <- wanted :: r in keyOf && r.id in plan && keyOf[r] == (r.folder, plan[r.id])
  {
    hide Destination, Tidy, Sure;
    forall r <- wanted
      ensures r.id in plan && (r.uid.Some? ==> Sure(boxes, r, plan.Values) && Tidy(boxes, r.id, plan[r.id]))
      ensures FromRow(rows, r) && r.id in Ids(records)
    {
      assert r in records && FromRow(rows, r) && r.id in Ids(records);
      assert r == Record(r.id, rows[r.id].folder, rows[r.id].uid);
    }
    forall id <- plan ensures id in Ids(wanted) {
      var r :| r in records && r.id == id;
      assert r in wanted;
    }
  }

  /** The part of the worker that talks to the server. */
  method ArchiveOnServer(client: Client, db: Database, records: seq<Record>, root: string, subfolders: map<string, string>, waste: set<string>,
                         ghost plan: map<string, string>)
    returns (ghost shown: seq<nat>, ghost last: nat, ghost gone: set<string>)
    requires client.Valid() && db.Valid() && AllFromRows(db.rows, records) && DistinctIds(records)
    requires plan == Plan(Ids(records), subfolders, root, client.Separator()) && Prepared(client.boxes, db.rows, plan)
    requires (forall r <- records :: r.id in subfolders) && client.boxes != map[]
    modifies client, db`rows, db`decisions, db`marks, db`written, db`writes
    ensures client.Valid() && db.Valid() && old(client.tick) <= client.tick && old(client.hollow) <= client.hollow && old(db.writes) <= db.writes
    ensures Advanced(old(client.boxes), client.boxes, client.noselect, old(db.rows), db.rows, plan, gone, plan.Keys)
    ensures db.decisions == old(db.decisions) - gone
    ensures Counted(old(db.written), db.written, "archive", shown, last, |records|)
    ensures client.hollow == old(client.hollow) ==>
              RowsFollowMail(old(client.boxes), client.boxes, client.noselect, waste, old(db.rows), db.rows, plan)
    ensures Unhindered(client, db, old(client.tick), old(client.hollow), old(db.writes), old(client.boxes), old(db.rows), plan, true) ==>
              gone == plan.Keys
  {
    hide OnlyMail, OnlyTouched, Smooth, Ids, Members, Size, Sorted, Separate, DoneFor, DistinctIds, Destination, RowsFollowMail, AllFromRows,
         DelimiterOf, Names, Plan, Prepared, PlanReady, Advanced, Counted, ProgressText, NoFault, Selectable;
    ghost var before, start, rows := client.boxes, client.tick, db.rows;
    AdvancedAtFirst(before, client.noselect, rows, plan, plan.Keys);
    NothingTrackedGone(before, client.noselect, waste, rows, rows, plan, records);
    NothingCounted(db.written, "archive", |records|);
    shown, last, gone := [], 0, {};
    var listed := client.ListFolders();
    SmoothOnce(client.answers, start);
    if listed.Err? { return; }
    var d := DelimiterOf(listed.value);
    var wanted, keyOf := Destinations(records, root, subfolders, d);
    var groups := GroupBy(wanted, keyOf);
    WantedReady(before, rows, records, wanted, keyOf, root, subfolders, d, plan);
    WantedSelectable(before, client.noselect, rows, wanted, plan);
    ghost var mark := client.tick;
    var ok;
    ok, shown, last, gone := RunArchiveGroups(client, db, groups, keyOf, d, waste, |records|, wanted, plan);
    SmoothSplits(client.answers, start, mark, client.tick);
    AdvancedGone(before, client.boxes, client.noselect, rows, db.rows, plan, gone, Ids(wanted));
    if client.hollow == old(client.hollow) {
      RemovedFollow(before, client.boxes, client.noselect, waste, rows, db.rows, plan, wanted, gone);
    }
  }

  lemma AdvancedGone(before: Boxes, now: Boxes, noselect: set<string>, was: Rows, rows: Rows, plan: map<string, string>, done: set<string>,
                     all: set<string>)
    requires Advanced(before, now, noselect, was, rows, plan, done, all)
    ensures rows.Keys == was.Keys - done && done <= all
    ensures OnlyMail(before, now, all) && AllGo(before, now, plan) && OnlyTouched(was, rows, all) && PlanTrails(now, noselect, was, rows, plan)
  {
  }

  /** What the worker relied on holds again for the rows that are left. */
  lemma PreparedAgain(before: Boxes, now: Boxes, noselect: set<string>, was: Rows, rows: Rows, plan: map<string, string>)
    requires AllValid(before) && Prepared(before, was, plan) && OnlyMail(before, now, plan.Keys) && AllGo(before, now, plan)
    requires PlanTrails(now, noselect, was, rows, plan)
    ensures Prepared(now, rows, plan)
  {
    hide OnlyMail, Tidy, Survives, MailSurvives, ArrivesOnly, Sure;
    forall id <- plan | id in rows && rows[id].uid.Some?
      ensures Sure(now, Record(id, rows[id].folder, rows[id].uid), plan.Values) && Tidy(now, id, plan[id])
    {
      assert Carried(before, now, id, plan[id]) && RowTrails(now, noselect, was[id], rows[id], id, plan[id]);
      if rows[id] == was[id] {
        StillPlanned(before, now, Record(id, was[id].folder, was[id].uid), plan, plan.Keys);
      } else {
        AnchoredIsSure(now, Record(id, rows[id].folder, rows[id].uid), plan.Values);
      }
    }
  }

  lemma AnchoredIsSure(boxes: Boxes, r: Record, dests: set<string>)
    requires Anchored(boxes, r)
    ensures Sure(boxes, r, dests)
  {
  }

  lemma WantedSelectable(boxes: Boxes, noselect: set<string>, rows: Rows, wanted: seq<Record>, plan: map<string, string>)
    requires AllFromRows(rows, wanted) && Ids(wanted) == plan.Keys
    ensures RowsSelectable(boxes, noselect, rows, plan) ==> Selectable(wanted, boxes, noselect)
  {
    forall r <- wanted ensures r.id in plan && r.id in rows && r == Record(r.id, rows[r.id].folder, rows[r.id].uid) {
      assert r.id in Ids(wanted) && FromRow(rows, r);
    }
  }

  /** The folders of the tracked rows that are planned for exist and can be selected. */
  ghost predicate RowsSelectable(boxes: Boxes, noselect: set<string>, rows: Rows, plan: map<string, string>) {
    forall id <- plan :: id in rows && rows[id].uid.Some? ==> rows[id].folder in boxes && rows[id].folder !in noselect
  }

  /** Whether a run from `boxes` and `rows` on could do all it was asked to: it connected, no command and no
      write failed, no COPY claimed to have copied nothing, and the folders concerned can be selected. */
  ghost predicate Unhindered(client: Client, db: Database, from: nat, hollow: nat, writes: nat, boxes: Boxes, rows: Rows, plan: map<string, string>,
                             connects: bool)
    reads client, db`writes
  {
    && connects && from <= client.tick && Smooth(client.answers, from, client.tick) && client.hollow == hollow
    && writes <= db.writes && NoFault(db.goes, writes, db.writes)
    && RowsSelectable(boxes, client.noselect, rows, plan)
  }

  lemma UnhinderedMeans(client: Client, db: Database, from: nat, hollow: nat, writes: nat, boxes: Boxes, rows: Rows, plan: map<string, string>,
                        connects: bool)
    ensures Unhindered(client, db, from, hollow, writes, boxes, rows, plan, connects) ==> connects && NoFault(db.goes, writes, db.writes)
    ensures connects ==>
              (Unhindered(client, db, from, hollow, writes, boxes, rows, plan, connects) <==>
               Unhindered(client, db, from, hollow, writes, boxes, rows, plan, true))
  {
  }

  /** The other part, for when there is nothing to ask the server. */
  method ArchiveLocally(client: Client, db: Database, records: seq<Record>, configured: bool, waste: set<string>, ghost plan: map<string, string>)
    returns (ok: bool, ghost shown: seq<nat>, ghost last: nat)
    requires client.Valid() && db.Valid() && AllFromRows(db.rows, records) && Prepared(client.boxes, db.rows, plan)
    requires configured ==> forall r <- records :: r.uid.None?
    modifies db`rows, db`decisions, db`marks, db`written, db`writes
    ensures db.Valid() && old(db.writes) <= db.writes && DecisionsGo(old(db.decisions), db.decisions, old(db.rows), db.rows)
    ensures OnlyTouched(old(db.rows), db.rows, Ids(records)) && Prepared(client.boxes, db.rows, plan)
    ensures PlanTrails(client.boxes, client.noselect, old(db.rows), db.rows, plan)
    ensures Counted(old(db.written), db.written, "archive", shown, last, |records|)
    ensures configured ==> RowsFollowMail(client.boxes, client.boxes, client.noselect, waste, old(db.rows), db.rows, plan)
    ensures ok ==> db.rows.Keys !! Ids(records)
    ensures ok <==> NoFault(db.goes, old(db.writes), db.writes)
  {
    hide Ids, RowsFollowMail, AllFromRows, Prepared, Counted, PlanTrails, OnlyTouched, DecisionsGo, NoFault, EndsAt;
    ghost var boxes, rows, decisions := client.boxes, db.rows, db.decisions;
    var n;
    ok, n, shown := DeleteAllRows(db, records, "archive", |records|);
    last := n;
    ghost var gone := Ids(records[..n]);
    SomeIds(records, n);
    DroppedSome(boxes, client.noselect, rows, gone, Ids(records), plan);
    GoneDecisions(decisions, rows, db.rows, gone);
    if configured { NothingTrackedGone(boxes, client.noselect, waste, rows, db.rows, plan, records); }
  }

  /** What is done with the collected records: on the server if some are tracked and it can be reached, otherwise in the
      database alone. */
  method ArchiveCollected(client: Client, db: Database, configured: bool, connects: bool, records: seq<Record>, root: string,
                          subfolders: map<string, string>, waste: set<string>, ghost plan: map<string, string>)
    returns (ghost shown: seq<nat>, ghost last: nat)
    requires client.Valid() && db.Valid() && AllFromRows(db.rows, records) && DistinctIds(records)
    requires plan == Plan(Ids(records), subfolders, root, client.Separator()) && Prepared(client.boxes, db.rows, plan)
    requires (forall r <- records :: r.id in subfolders) && client.boxes != map[]
    modifies client, db`rows, db`decisions, db`marks, db`written, db`writes
    ensures client.Valid() && db.Valid() && old(client.tick) <= client.tick && old(client.hollow) <= client.hollow && old(db.writes) <= db.writes
    ensures OnlyMail(old(client.boxes), client.boxes, plan.Keys) && AllGo(old(client.boxes), client.boxes, plan)
    ensures OnlyTouched(old(db.rows), db.rows, Ids(records)) && PlanTrails(client.boxes, client.noselect, old(db.rows), db.rows, plan)
    ensures DecisionsGo(old(db.decisions), db.decisions, old(db.rows), db.rows) && Prepared(client.boxes, db.rows, plan)
    ensures Counted(old(db.written), db.written, "archive", shown, last, |records|)
    ensures configured && client.hollow == old(client.hollow) ==>
              RowsFollowMail(old(client.boxes), client.boxes, client.noselect, waste, old(db.rows), db.rows, plan)
    ensures (configured
             && Unhindered(client, db, old(client.tick), old(client.hollow), old(db.writes), old(client.boxes), old(db.rows), plan, connects)) ==>
              db.rows.Keys !! plan.Keys
    ensures !configured && NoFault(db.goes, old(db.writes), db.writes) ==> db.rows.Keys !! Ids(records)
    ensures if configured && Tracked(old(db.rows), Ids(records)) then
              && OnlyTouched(old(db.rows), db.rows, plan.Keys)
              && (!connects ==> client.boxes == old(client.boxes) && db.rows == old(db.rows))
            else client.boxes == old(client.boxes)
  {
    hide OnlyMail, OnlyTouched, Ids, DistinctIds, Destination, Tracked, RowsFollowMail, AllFromRows, Plan, Prepared, Advanced, Counted, AllGo,
         PlanTrails, NoFault, DecisionsGo, Unhindered;
    ghost var before, rows, decisions := client.boxes, db.rows, db.decisions;
    PlanWithin(Ids(records), subfolders, root, client.Separator());
    TrackedIff(rows, records);
    Untouched(rows, plan.Keys);
    Untouched(rows, Ids(records));
    OnlyMailAtFirst(before, plan.Keys);
    AllGoAtFirst(before, plan);
    PlanTrailsAtFirst(before, client.noselect, rows, plan);
    DecisionsStay(decisions, rows, rows);
    NothingTrackedGone(before, client.noselect, waste, rows, rows, plan, records);
    NothingCounted(db.written, "archive", |records|);
    UnhinderedMeans(client, db, old(client.tick), old(client.hollow), old(db.writes), before, rows, plan, connects);
    shown, last := [], 0;
    if configured && exists r <- records :: r.uid.Some? {
      if connects {
        ghost var gone;
        shown, last, gone := ArchiveOnServer(client, db, records, root, subfolders, waste, plan);
        UnhinderedMeans(client, db, old(client.tick), old(client.hollow), old(db.writes), before, rows, plan, connects);
        AdvancedGone(before, client.boxes, client.noselect, rows, db.rows, plan, gone, plan.Keys);
        PreparedAgain(before, client.boxes, client.noselect, rows, db.rows, plan);
        TouchedMore(rows, db.rows, plan.Keys, Ids(records));
        GoneDecisions(decisions, rows, db.rows, gone);
      }
    } else {
      var ok;
      ok, shown, last := ArchiveLocally(client, db, records, configured, waste, plan);
      UnhinderedMeans(client, db, old(client.tick), old(client.hollow), old(db.writes), before, rows, plan, connects);
    }
  }

  /** The background archive. Whatever fails, the state ends idle after progress that rises within the total,
      no other mail or row is touched, every message that was somewhere unflagged is still there or in its
      destination, and what the worker relied on holds again for the rows that are left. As long as no COPY
      claims to have copied nothing, rows follow their mail; unhindered, only rows whose destination escapes
      the root are left. A server always has some folder, its INBOX. */
  method RunBatchArchive(client: Client, db: Database, configured: bool, connects: bool, root: string, subfolders: map<string, string>,
                         only: Option<string>, waste: set<string>)
    returns (ghost shown: seq<nat>)
    requires client.Valid() && db.Valid() && Decided(db.decisions, TO_ARCHIVE) <= subfolders.Keys
    requires Prepared(client.boxes, db.rows, Plan(Chosen(db.decisions, subfolders, only), subfolders, root, client.Separator()))
    requires client.boxes != map[]
    modifies client, db`rows, db`decisions, db`marks, db`written, db`writes
    ensures client.Valid() && db.Valid() && old(client.tick) <= client.tick && old(client.hollow) <= client.hollow && old(db.writes) <= db.writes
    ensures var chosen := Chosen(old(db.decisions), subfolders, only);
            var plan := Plan(chosen, subfolders, root, client.Separator());
            && PlansFor(plan, chosen, subfolders, root, client.Separator())
            && OnlyMail(old(client.boxes), client.boxes, plan.Keys) && AllGo(old(client.boxes), client.boxes, plan)
            && OnlyTouched(old(db.rows), db.rows, chosen) && PlanTrails(client.boxes, client.noselect, old(db.rows), db.rows, plan)
            && DecisionsGo(old(db.decisions), db.decisions, old(db.rows), db.rows)
            && Prepared(client.boxes, db.rows, plan)
            && Reported(old(db.written), db.written, "archive", shown, |chosen|)
            && (configured && client.hollow == old(client.hollow) ==>
                  RowsFollowMail(old(client.boxes), client.boxes, client.noselect, waste, old(db.rows), db.rows, plan))
            && (configured
                && Unhindered(client, db, old(client.tick), old(client.hollow), old(db.writes), old(client.boxes), old(db.rows), plan, connects) ==>
                  db.rows.Keys !! plan.Keys)
            && (!configured && NoFault(db.goes, old(db.writes), db.writes) ==> db.rows.Keys !! chosen)
    ensures !BatchRunning(db.GetWatermark(STATE_KEY))
    ensures var chosen := Chosen(old(db.decisions), subfolders, only);
            if configured && Tracked(old(db.rows), chosen) then
              && OnlyTouched(old(db.rows), db.rows, Plan(chosen, subfolders, root, client.Separator()).Keys)
              && (!connects ==> client.boxes == old(client.boxes) && db.rows == old(db.rows))
            else client.boxes == old(client.boxes)
  {
    hide OnlyMail, OnlyTouched, Ids, DistinctIds, Destination, Tracked, RowsFollowMail, AllFromRows, Chosen, Plan, PlansFor, Prepared, Advanced, Counted,
         ProgressText, AllGo, PlanTrails, NoFault, DecisionsGo, Unhindered;
    ghost var before, rows, written := client.boxes, db.rows, db.written;
    ghost var chosen := Chosen(db.decisions, subfolders, only);
    ghost var plan := Plan(chosen, subfolders, root, client.Separator());
    PlanWithin(chosen, subfolders, root, client.Separator());
    ChosenIn(db.decisions, subfolders, only);
    PlanFiles(chosen, subfolders, root, client.Separator());
    var all := CollectRecords(db, TO_ARCHIVE);
    IdsIn(all, subfolders);
    var records := PreFilter(all, subfolders, only);
    ChosenAre(rows, db.decisions, subfolders, only, all, records);
    IdsIn(records, subfolders) by { ChosenIn(db.decisions, subfolders, only); }
    ghost var total := |records|;
    DistinctSize(records);
    StartCounting(written, "archive", total);
    db.SetWatermark(STATE_KEY, ProgressText("archive", 0, |records|));
    shown := [0];
    ghost var mark: seq<(string, string)>, more: seq<nat>, last: nat := db.written, [], 0;
    NothingCounted(mark, "archive", total);
    more, last := ArchiveCollected(client, db, configured, connects, records, root, subfolders, waste, plan);
    CountedOn(written, mark, db.written, "archive", shown, more, last, total);
    shown := shown + more;
    FinishCounting(written, db.written, "archive", shown, last, total);
    db.SetWatermark(STATE_KEY, IDLE);
  }

  lemma PlanWithin(ids: set<string>, subfolders: map<string, string>, root: string, d: char)
    ensures Plan(ids, subfolders, root, d).Keys <= ids
  {
  }

  lemma DroppedSome(boxes: Boxes, noselect: set<string>, rows: Rows, gone: set<string>, chosen: set<string>, plan: map<string, string>)
    requires gone <= chosen && Prepared(boxes, rows, plan)
    ensures OnlyTouched(rows, rows - gone, chosen) && PlanTrails(boxes, noselect, rows, rows - gone, plan) && Prepared(boxes, rows - gone, plan)
  {
    hide Sure, Tidy;
  }

  lemma GoneDecisions(decisions: map<string, string>, was: Rows, rows: Rows, gone: set<string>)
    requires rows.Keys == was.Keys - gone && decisions.Keys <= was.Keys
    ensures DecisionsGo(decisions, decisions - gone, was, rows)
  {
  }

  lemma IdsIn(records: seq<Record>, subfolders: map<string, string>)
    requires Ids(records) <= subfolders.Keys
    ensures forall r <- records :: r.id in subfolders
  {
    forall r <- records ensures r.id in subfolders {
      assert r.id in Ids(records);
    }
  }

  lemma ChosenIn(decisions: map<string, string>, subfolders: map<string, string>, only: Option<string>)
    ensures Chosen(decisions, subfolders, only) <= subfolders.Keys
  {
  }

  // ---------- an interrupted run, and another ----------

  lemma ChosenAgain(decisions: map<string, string>, gone: set<string>, subfolders: map<string, string>, only: Option<string>, root: string, d: char)
    ensures var chosen, left := Chosen(decisions, subfolders, only), Chosen(decisions - gone, subfolders, only);
            && left == chosen - gone
            && Plan(left, subfolders, root, d) == Plan(chosen, subfolders, root, d) - gone
  {
    hide Destination;
  }

  lemma PreparedLess(boxes: Boxes, rows: Rows, plan: map<string, string>, gone: set<string>)
    requires Prepared(boxes, rows, plan)
    ensures Prepared(boxes, rows, plan - gone)
  {
    hide Sure, Tidy;
    forall id <- plan - gone | id in rows && rows[id].uid.Some?
      ensures Sure(boxes, Record(id, rows[id].folder, rows[id].uid), (plan - gone).Values)
    {
      SureLess(boxes, Record(id, rows[id].folder, rows[id].uid), (plan - gone).Values, plan.Values);
    }
  }

  /** A record that the first run moved on or left, and the second run finished. */
  lemma DoneAgain(before: Boxes, mid: Boxes, now: Boxes, noselect: set<string>, waste: set<string>, was: Row, row: Row, id: string, dest: string)
    requires RowTrails(mid, noselect, was, row, id, dest) && was.uid.Some? && Tidy(before, id, dest)
    requires Carried(before, mid, id, dest) && Carried(mid, now, id, dest)
    requires Done(mid, now, noselect, waste, Record(id, row.folder, row.uid), dest)
    ensures Done(before, now, noselect, waste, Record(id, was.folder, was.uid), dest)
  {
    hide MailSurvives;
    if row != was && was.folder != dest { GoneStays(mid, now, was.folder, id, dest); }
    if !Has(now, dest, id) {
      assert !Has(mid, dest, id) && !Has(before, dest, id);
      forall f <- before | f == was.folder || (f !in waste && f !in noselect) ensures Lacks(before[f], id) {
        NotThere(before, mid, noselect, waste, was, row, id, dest, f);
      }
    }
  }

  lemma NotThere(before: Boxes, mid: Boxes, noselect: set<string>, waste: set<string>, was: Row, row: Row, id: string, dest: string, f: string)
    requires RowTrails(mid, noselect, was, row, id, dest) && Survives(before, mid, id, dest) && Tidy(before, id, dest)
    requires !Has(mid, dest, id) && !Has(before, dest, id) && Unfindable(mid, noselect, waste, Record(id, row.folder, row.uid))
    requires f in before && (f == was.folder || (f !in waste && f !in noselect))
    ensures Lacks(before[f], id)
  {
    hide Anchored;
    assert OwnUnflagged(before[f], id);
    forall v <- before[f].slots ensures before[f].slots[v].mail.messageId != id {
      assert before[f].slots[v].mail.messageId == id ==> Has(before, f, id);
    }
  }

  lemma StillDecided(decisions: map<string, string>, gone: set<string>, subfolders: map<string, string>)
    requires Decided(decisions, TO_ARCHIVE) <= subfolders.Keys
    ensures Decided(decisions - gone, TO_ARCHIVE) <= subfolders.Keys
  {
    assert Decided(decisions - gone, TO_ARCHIVE) <= Decided(decisions, TO_ARCHIVE);
  }

  /** Rows moved on only to folders that can be selected. */
  lemma FoldersTrail(before: Boxes, boxes: Boxes, noselect: set<string>, was: Rows, rows: Rows, plan: map<string, string>, gone: set<string>)
    requires PlanTrails(boxes, noselect, was, rows, plan) && RowsSelectable(before, noselect, was, plan) && before.Keys <= boxes.Keys
    ensures RowsSelectable(boxes, noselect, rows, plan - gone)
  {
    hide IsOwn, Gone;
    forall id <- plan | id in rows && rows[id].uid.Some? ensures rows[id].folder in boxes && rows[id].folder !in noselect {
      assert RowTrails(boxes, noselect, was[id], rows[id], id, plan[id]);
    }
  }

  lemma PlanGone(was: Rows, held: Rows, rows: Rows, plan: map<string, string>, gone: set<string>)
    requires rows.Keys <= held.Keys <= was.Keys && gone == was.Keys - held.Keys && rows.Keys !! (plan - gone).Keys
    ensures rows.Keys !! plan.Keys
  {
  }

  lemma BothFollow(before: Boxes, mid: Boxes, now: Boxes, noselect: set<string>, waste: set<string>, was: Rows, held: Rows, rows: Rows,
                   plan: map<string, string>)
    requires Prepared(before, was, plan) && held.Keys <= was.Keys
    requires AllGo(before, mid, plan) && PlanTrails(mid, noselect, was, held, plan)
    requires RowsFollowMail(before, mid, noselect, waste, was, held, plan)
    requires OnlyMail(mid, now, (plan - (was.Keys - held.Keys)).Keys) && AllGo(mid, now, plan - (was.Keys - held.Keys))
    requires RowsFollowMail(mid, now, noselect, waste, held, rows, plan - (was.Keys - held.Keys))
    ensures RowsFollowMail(before, now, noselect, waste, was, rows, plan)
  {
    hide OnlyMail, Done, RowTrails, Survives, MailSurvives, ArrivesOnly, Tidy, Sure;
    var gone := was.Keys - held.Keys;
    forall id <- was.Keys - rows.Keys | was[id].uid.Some?
      ensures id in plan && Done(before, now, noselect, waste, Record(id, was[id].folder, was[id].uid), plan[id])
    {
      if id in gone {
        CarriedByOthers(mid, now, id, plan[id], (plan - gone).Keys);
        StillDone(before, mid, now, noselect, waste, Record(id, was[id].folder, was[id].uid), plan[id]);
      } else {
        TrackedStill(mid, noselect, was[id], held[id], id, plan);
        assert Carried(before, mid, id, plan[id]) && Carried(mid, now, id, (plan - gone)[id]);
        DoneAgain(before, mid, now, noselect, waste, was[id], held[id], id, plan[id]);
      }
    }
  }

  lemma TrackedStill(boxes: Boxes, noselect: set<string>, was: Row, row: Row, id: string, plan: map<string, string>)
    requires if id in plan then RowTrails(boxes, noselect, was, row, id, plan[id]) else row == was
    ensures was.uid.Some? <==> row.uid.Some?
  {
  }

  /** A run interrupted anywhere, and then another: no other mail is touched, and every message that was
      somewhere unflagged is still there or in its destination. If the second is unhindered, no planned row is
      left, and every tracked message is in its destination, or was nowhere to be found before the first run,
      and has left its folder. */
  method ArchiveAgain(client: Client, db: Database, connects: bool, reconnects: bool, root: string, subfolders: map<string, string>,
                      only: Option<string>, waste: set<string>)
    returns (ghost tick: nat, ghost writes: nat)
    requires client.Valid() && db.Valid() && Decided(db.decisions, TO_ARCHIVE) <= subfolders.Keys
    requires Prepared(client.boxes, db.rows, Plan(Chosen(db.decisions, subfolders, only), subfolders, root, client.Separator()))
    requires client.boxes != map[]
    modifies client, db`rows, db`decisions, db`marks, db`written, db`writes
    ensures var plan := Plan(Chosen(old(db.decisions), subfolders, only), subfolders, root, client.Separator());
            && old(client.tick) <= tick <= client.tick && old(db.writes) <= writes <= db.writes
            && OnlyMail(old(client.boxes), client.boxes, plan.Keys) && AllGo(old(client.boxes), client.boxes, plan)
            && (Unhindered(client, db, tick, old(client.hollow), writes, old(client.boxes), old(db.rows), plan, reconnects) ==>
                  && db.rows.Keys !! plan.Keys
                  && RowsFollowMail(old(client.boxes), client.boxes, client.noselect, waste, old(db.rows), db.rows, plan))
  {
    hide OnlyMail, OnlyTouched, Smooth, RowsFollowMail, Chosen, Plan, Prepared, AllGo, PlanTrails, Reported, NoFault, RowsSelectable;
    ghost var before, was, decisions, start := client.boxes, db.rows, db.decisions, client.hollow;
    ghost var chosen := Chosen(decisions, subfolders, only);
    ghost var plan := Plan(chosen, subfolders, root, client.Separator());
    var _ := RunBatchArchive(client, db, true, connects, root, subfolders, only, waste);
    tick, writes := client.tick, db.writes;
    ghost var boxes, held, gone := client.boxes, db.rows, was.Keys - db.rows.Keys;
    ChosenAgain(decisions, gone, subfolders, only, root, client.Separator());
    PreparedLess(boxes, held, plan, gone);
    StillDecided(decisions, gone, subfolders);
    PlanWithin(chosen, subfolders, root, client.Separator());
    TrailsWithin(boxes, client.noselect, was, held, plan);
    FoldersStay(before, boxes, plan.Keys);
    var _ := RunBatchArchive(client, db, true, reconnects, root, subfolders, only, waste);
    BothGo(before, boxes, client.boxes, plan, gone);
    if Unhindered(client, db, tick, start, writes, before, was, plan, reconnects) {
      FoldersTrail(before, boxes, client.noselect, was, held, plan, gone);
      TrailsWithin(client.boxes, client.noselect, held, db.rows, plan - gone);
      PlanGone(was, held, db.rows, plan, gone);
      BothFollow(before, boxes, client.boxes, client.noselect, waste, was, held, db.rows, plan);
    }
  }

  lemma BothGo(before: Boxes, mid: Boxes, now: Boxes, plan: map<string, string>, gone: set<string>)
    requires OnlyMail(before, mid, plan.Keys) && AllGo(before, mid, plan)
    requires OnlyMail(mid, now, (plan - gone).Keys) && AllGo(mid, now, plan - gone)
    ensures OnlyMail(before, now, plan.Keys) && AllGo(before, now, plan)
  {
    hide OnlyMail, Carried;
    OnlyMailOn(before, mid, now, (plan - gone).Keys, plan.Keys);
    forall id <- plan ensures Carried(mid, now, id, plan[id]) {
      if id in gone {
        CarriedByOthers(mid, now, id, plan[id], (plan - gone).Keys);
      } else {
        assert Carried(mid, now, id, (plan - gone)[id]);
      }
    }
    AllGoTwice(before, mid, now, plan);
  }

  lemma FoldersStay(before: Boxes, now: Boxes, ids: set<string>)
    requires OnlyMail(before, now, ids)
    ensures before.Keys <= now.Keys && (before != map[] ==> now != map[])
  {
    if before != map[] {
      var f :| f in before.Keys;
      assert f in now.Keys;
    }
  }
}
