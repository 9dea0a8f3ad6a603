/**
 Verifying the tracked rows against the mailbox: pipeline/reconcile.py lines 13-136.
 */
module Reconcile {
  import opened Outcome
  import opened Mailboxes
  import opened MailDatabase
  import opened ImapClient
  import opened Resolve

  const SEARCH_CHUNK := 500

  // ---------- what should become of a row ----------

  datatype Verdict = Keep | Heal(uid: nat) | Drop

  predicate Drifted(row: Row, monitored: Option<string>) {
    row.uid.Some? && monitored.Some? && row.folder != monitored.value
  }

  predicate Missing(row: Row, boxes: Boxes) {
    row.uid.Some? && row.folder in boxes && row.uid.value !in boxes[row.folder].slots
  }

  function VerdictOf(id: string, row: Row, boxes: Boxes, noselect: set<string>, monitored: Option<string>): Verdict {
    if Drifted(row, monitored) then Drop
    else if !Missing(row, boxes) || row.folder in noselect then Keep
    else
      var u := FirstWith(boxes[row.folder], id);
      if u.Some? then Heal(u.value) else Drop
  }

  function Reconciled(rows: Rows, boxes: Boxes, noselect: set<string>, monitored: Option<string>): Rows {
    map id | id in rows && VerdictOf(id, rows[id], boxes, noselect, monitored) != Drop ::
      match VerdictOf(id, rows[id], boxes, noselect, monitored)
      case Heal(u) => rows[id].(uid := Some(u))
      case _ => rows[id]
  }

  ghost predicate DistinctPairs(rows: Rows) {
    forall a, b :: a in rows && b in rows && a != b && rows[a].uid.Some? && rows[a].folder == rows[b].folder ==> rows[a].uid != rows[b].uid
  }

  // ---------- what holds whatever fails ----------

  /** A row may only go if it drifted away or the server has no message under its identifier. */
  predicate MayDrop(row: Row, boxes: Boxes, monitored: Option<string>) {
    Drifted(row, monitored) || Missing(row, boxes)
  }

  predicate MayHeal(id: string, row: Row, now: Row, boxes: Boxes, monitored: Option<string>) {
    && !Drifted(row, monitored) && Missing(row, boxes)
    && var u := FirstWith(boxes[row.folder], id); u.Some? && now == row.(uid := u)
  }

  ghost predicate Sane(before: Rows, now: Rows, boxes: Boxes, monitored: Option<string>) {
    && now.Keys <= before.Keys
    && (forall id <- before :: id in now || MayDrop(before[id], boxes, monitored))
    && (forall id <- now :: now[id] == before[id] || MayHeal(id, before[id], now[id], boxes, monitored))
  }

  ghost function Changed(before: Rows, now: Rows): set<string> {
    set id | id in before && id in now && now[id] != before[id]
  }

  ghost predicate Matched(id: string, before: Rows, now: Rows, v: Verdict)
    requires id in before
  {
    match v
    case Keep => id in now && now[id] == before[id]
    case Heal(u) => id in now && now[id] == before[id].(uid := Some(u))
    case Drop => id !in now
  }

  /** Where a reconciliation stands when it has been through the rows in `done`. */
  ghost predicate Progress(before: Rows, now: Rows, boxes: Boxes, noselect: set<string>, monitored: Option<string>,
                           done: set<string>, healed: nat, removed: nat, smooth: bool) {
    && Sane(before, now, boxes, monitored)
    && removed == |before.Keys| - |now.Keys| && healed == |Changed(before, now)|
    && Untouched(before, now, done)
    && (smooth ==> Decided(before, now, boxes, noselect, monitored, done))
  }

  ghost predicate Untouched(before: Rows, now: Rows, done: set<string>) {
    forall id <- before :: id !in done ==> id in now && now[id] == before[id]
  }

  ghost predicate Decided(before: Rows, now: Rows, boxes: Boxes, noselect: set<string>, monitored: Option<string>, done: set<string>) {
    forall id <- before :: id in done ==> Matched(id, before, now, VerdictOf(id, before[id], boxes, noselect, monitored))
  }

  /** What is done to one row. */
  function Amended(rows: Rows, id: string, v: Verdict): Rows
    requires id in rows
  {
    match v
    case Keep => rows
    case Heal(u) => rows[id := rows[id].(uid := Some(u))]
    case Drop => rows - {id}
  }

  lemma UntouchedStep(before: Rows, now: Rows, done: set<string>, id: string, v: Verdict)
    requires Untouched(before, now, done) && id in before && id !in done
    ensures id in now && now[id] == before[id]
    ensures Untouched(before, Amended(now, id, v), done + {id})
  {
  }

  lemma SaneStep(before: Rows, now: Rows, boxes: Boxes, monitored: Option<string>, id: string, v: Verdict)
    requires Sane(before, now, boxes, monitored) && id in now && now[id] == before[id]
    requires v.Drop? ==> MayDrop(before[id], boxes, monitored)
    requires v.Heal? ==> MayHeal(id, before[id], before[id].(uid := Some(v.uid)), boxes, monitored)
    ensures Sane(before, Amended(now, id, v), boxes, monitored)
  {
    hide MayDrop, MayHeal;
  }

  lemma CountsStep(before: Rows, now: Rows, id: string, v: Verdict)
    requires id in now && id in before && now[id] == before[id]
    requires v.Heal? ==> before[id].uid != Some(v.uid)
    ensures |Amended(now, id, v).Keys| == |now.Keys| - if v.Drop? then 1 else 0
    ensures |Changed(before, Amended(now, id, v))| == |Changed(before, now)| + if v.Heal? then 1 else 0
  {
    var next := Amended(now, id, v);
    match v {
      case Keep =>
      case Drop =>
        assert next.Keys == now.Keys - {id};
        assert Changed(before, next) == Changed(before, now);
      case Heal(u) =>
        assert next.Keys == now.Keys;
        assert Changed(before, next) == Changed(before, now) + {id};
    }
  }

  lemma DecidedStep(before: Rows, now: Rows, boxes: Boxes, noselect: set<string>, monitored: Option<string>,
                    done: set<string>, id: string, v: Verdict)
    requires Decided(before, now, boxes, noselect, monitored, done) && id !in done
    requires id in now && id in before && now[id] == before[id]
    requires v == VerdictOf(id, before[id], boxes, noselect, monitored)
    ensures Decided(before, Amended(now, id, v), boxes, noselect, monitored, done + {id})
  {
    hide VerdictOf;
  }

  /** The next row is dealt with; the verdict is sound in any case and right if nothing failed. */
  lemma ProgressStep(before: Rows, now: Rows, boxes: Boxes, noselect: set<string>, monitored: Option<string>,
                     done: set<string>, healed: nat, removed: nat, was: bool, smooth: bool, id: string, v: Verdict)
    requires Progress(before, now, boxes, noselect, monitored, done, healed, removed, was) && (smooth ==> was)
    requires id in before && id !in done
    requires v.Drop? ==> MayDrop(before[id], boxes, monitored)
    requires v.Heal? ==> MayHeal(id, before[id], before[id].(uid := Some(v.uid)), boxes, monitored)
    requires v.Heal? ==> before[id].uid != Some(v.uid)
    requires smooth ==> v == VerdictOf(id, before[id], boxes, noselect, monitored)
    ensures id in now && now[id] == before[id]
    ensures Progress(before, Amended(now, id, v), boxes, noselect, monitored, done + {id},
                     healed + if v.Heal? then 1 else 0, removed + if v.Drop? then 1 else 0, smooth)
  {
    hide MayDrop, MayHeal, VerdictOf, Sane, Untouched, Decided, Changed, Amended;
    UntouchedStep(before, now, done, id, v);
    SaneStep(before, now, boxes, monitored, id, v);
    CountsStep(before, now, id, v);
    if smooth { DecidedStep(before, now, boxes, noselect, monitored, done, id, v); }
  }

  lemma ProgressStart(before: Rows, boxes: Boxes, noselect: set<string>, monitored: Option<string>, smooth: bool)
    ensures Progress(before, before, boxes, noselect, monitored, {}, 0, 0, smooth)
  {
    assert Changed(before, before) == {};
  }

  // ---------- the index ----------

  type Index = map<string, map<nat, string>>

  /** Every entry stands for a row that is tracked there. */
  ghost predicate Fits(index: Index, rows: Rows) {
    forall f <- index, u <- index[f] :: Tracks(rows, index[f][u], f, u)
  }

  predicate Tracks(rows: Rows, id: string, folder: string, uid: nat) {
    id in rows && rows[id].folder == folder && rows[id].uid == Some(uid)
  }

  predicate Indexed(index: Index, folder: string, uid: nat) {
    folder in index && uid in index[folder]
  }

  method BuildIndex(rows: Rows) returns (index: Index)
    ensures Fits(index, rows)
    ensures forall id <- rows :: rows[id].uid.Some? ==> Indexed(index, rows[id].folder, rows[id].uid.value)
  {
    index := map[];
    var rest := rows.Keys;
    while rest != {}
      invariant rest <= rows.Keys && Fits(index, rows)
      invariant forall id <- rows :: id !in rest && rows[id].uid.Some? ==> Indexed(index, rows[id].folder, rows[id].uid.value)
      decreases |rest|
    {
      var id :| id in rest;
      rest := rest - {id};
      var row := rows[id];
      if row.uid.Some? {
        var entries := if row.folder in index then index[row.folder] else map[];
        index := index[row.folder := entries[row.uid.value := id]];
      }
    }
  }

  method SortedUids(uids: set<nat>) returns (order: seq<nat>)
    ensures forall u :: u in order <==> u in uids
  {
    order := [];
    var rest := uids;
    while rest != {}
      invariant rest <= uids && forall u :: u in order <==> u in uids && u !in rest
      decreases |rest|
    {
      ghost var least := Least(rest);
      var u :| u in rest && forall v <- rest :: u <= v;
      order, rest := order + [u], rest - {u};
    }
  }

  lemma {:induction false} Least(uids: set<nat>) returns (l: nat)
    requires uids != {}
    ensures l in uids && forall v <- uids :: l <= v
    decreases |uids|
  {
    var u :| u in uids;
    if uids == {u} { return u; }
    l := Least(uids - {u});
    assert forall v <- uids :: v == u || v in uids - {u};
    if u < l { l := u; }
  }

  /** The tracked identifiers that still exist, asked for in chunks. */
  method FindPresent(client: Client, uids: set<nat>) returns (r: Result<set<nat>, ImapError>)
    requires client.Ready()
    modifies client
    ensures client.Ready() && client.boxes == old(client.boxes) && client.selected == old(client.selected)
    ensures old(client.tick) <= client.tick && old(client.trace) <= client.trace
    ensures Still(client.trace, |old(client.trace)|, client.boxes)
    ensures r.Ok? ==> r.value == Live(client.boxes[client.selected.value], uids)
    ensures Smooth(client.answers, old(client.tick), client.tick) ==> r.Ok?
  {
    var order := SortedUids(uids);
    var found: set<nat> := {};
    ghost var box := client.Box();
    var i := 0;
    while i < |order|
      invariant client.Ready() && client.boxes == old(client.boxes) && client.selected == old(client.selected)
      invariant old(client.tick) <= client.tick && old(client.trace) <= client.trace
      invariant Still(client.trace, |old(client.trace)|, client.boxes)
      invariant 0 <= i <= |order| && found == Live(box, Seen(order[..i]))
    {
      var stop := if i + SEARCH_CHUNK <= |order| then i + SEARCH_CHUNK else |order|;
      var chunk := Seen(order[i..stop]);
      ghost var from := client.tick;
      var more := client.SearchUids(UidSet(chunk));
      SmoothSplits(client.answers, old(client.tick), from, client.tick);
      SmoothOnce(client.answers, from);
      if more.Err? { return Err(more.error); }
      SearchFinds(box, chunk);
      LiveJoins(box, order, i, stop);
      found := found + Seen(more.value);
      i := stop;
    }
    assert order[..i] == order;
    assert Seen(order) == uids;
    return Ok(found);
  }

  lemma LiveJoins(box: Mailbox, order: seq<nat>, i: nat, stop: nat)
    requires i <= stop <= |order|
    ensures Live(box, Seen(order[..stop])) == Live(box, Seen(order[..i])) + Live(box, Seen(order[i..stop]))
  {
    assert order[..stop] == order[..i] + order[i..stop];
  }

  // ---------- the pass over the rows ----------

  function Ids(entries: map<nat, string>, uids: set<nat>): set<string> {
    set u | u in uids && u in entries :: entries[u]
  }

  /** Rows that need nothing are dealt with by leaving them. */
  lemma ProgressSkip(before: Rows, now: Rows, boxes: Boxes, noselect: set<string>, monitored: Option<string>,
                     done: set<string>, more: set<string>, healed: nat, removed: nat, was: bool, smooth: bool)
    requires Progress(before, now, boxes, noselect, monitored, done, healed, removed, was) && (smooth ==> was)
    requires smooth ==> forall id <- more :: id in before && id !in done ==> VerdictOf(id, before[id], boxes, noselect, monitored) == Keep
    ensures Progress(before, now, boxes, noselect, monitored, done + more, healed, removed, smooth)
  {
    hide VerdictOf, Sane, Changed;
  }

  ghost predicate EntriesFit(before: Rows, folder: string, entries: map<nat, string>, done: set<string>) {
    forall u <- entries :: Tracks(before, entries[u], folder, u) && entries[u] !in done
  }

  lemma NextEntry(before: Rows, folder: string, entries: map<nat, string>, done: set<string>, handled: set<nat>, u: nat)
    requires EntriesFit(before, folder, entries, done) && u in entries && u !in handled
    ensures entries[u] in before && entries[u] !in done + Ids(entries, handled) && Tracks(before, entries[u], folder, u)
    ensures Ids(entries, handled + {u}) == Ids(entries, handled) + {entries[u]}
  {
    assert Tracks(before, entries[u], folder, u);
    forall v | v in handled && v in entries ensures entries[v] != entries[u] {
      assert Tracks(before, entries[v], folder, v);
    }
  }

  /** The whole group has drifted out of the monitored folder. */
  method PruneFolder(db: Database, boxes: Boxes, noselect: set<string>, folder: string, entries: map<nat, string>, monitored: Option<string>,
                     before: nat, ghost old0: Rows, ghost done: set<string>, ghost healed: nat, ghost smooth: bool) returns (removed: nat)
    requires db.Valid() && monitored.Some? && folder != monitored.value
    requires Progress(old0, db.rows, boxes, noselect, monitored, done, healed, before, smooth)
    requires EntriesFit(old0, folder, entries, done)
    modifies db`rows, db`decisions
    ensures db.Valid() && DecisionsGo(old(db.decisions), db.decisions, old(db.rows), db.rows)
    ensures Progress(old0, db.rows, boxes, noselect, monitored, done + Ids(entries, entries.Keys), healed, removed, smooth)
  {
    hide Progress, Ids, Drifted, EntriesFit, DecisionsGo;
    removed := before;
    DecisionsStay(db.decisions, db.rows, db.rows);
    var rest := entries.Keys;
    NoneHandled(entries, done);
    while rest != {}
      invariant db.Valid() && rest <= entries.Keys && DecisionsGo(old(db.decisions), db.decisions, old(db.rows), db.rows)
      invariant Progress(old0, db.rows, boxes, noselect, monitored, done + Ids(entries, entries.Keys - rest), healed, removed, smooth)
      decreases |rest|
    {
      var u :| u in rest;
      Restored(rest, u);
      ghost var handled := entries.Keys - rest;
      NextEntry(old0, folder, entries, done, handled, u);
      DriftedAway(entries[u], old0[entries[u]], boxes, noselect, monitored);
      ProgressStep(old0, db.rows, boxes, noselect, monitored, done + Ids(entries, handled), healed, removed, smooth, smooth, entries[u], Drop);
      ghost var held, decided := db.rows, db.decisions;
      DecisionsDropped(decided, held, {entries[u]});
      var _ := db.DeleteRecord(entries[u]);
      DecisionsTwice(old(db.decisions), decided, db.decisions, old(db.rows), held, db.rows);
      removed := removed + 1;
      rest := rest - {u};
      OneLess(entries, done, rest, u);
    }
    NoneLeft(entries.Keys, rest);
  }

  lemma OneLess(entries: map<nat, string>, done: set<string>, rest: set<nat>, u: nat)
    requires u in entries && u !in rest && rest <= entries.Keys
    ensures done + Ids(entries, entries.Keys - (rest + {u})) + {entries[u]} == done + Ids(entries, entries.Keys - rest)
  {
    assert entries.Keys - rest == (entries.Keys - (rest + {u})) + {u};
  }

  lemma Restored(rest: set<nat>, u: nat)
    requires u in rest
    ensures rest - {u} + {u} == rest
  {
  }

  lemma NoneLeft(all: set<nat>, rest: set<nat>)
    requires rest == {}
    ensures all - rest == all
  {
  }

  lemma Absent(box: Mailbox, uids: set<nat>)
    ensures var found := Live(box, uids);
            uids - (uids - found) == found && found <= uids && forall u <- uids - found :: u !in box.slots
  {
  }

  lemma NoneHandled(entries: map<nat, string>, done: set<string>)
    ensures done + Ids(entries, entries.Keys - entries.Keys) == done
  {
  }

  lemma DriftedAway(id: string, row: Row, boxes: Boxes, noselect: set<string>, monitored: Option<string>)
    requires row.uid.Some? && monitored.Some? && row.folder != monitored.value
    ensures MayDrop(row, boxes, monitored) && VerdictOf(id, row, boxes, noselect, monitored) == Drop
  {
  }

  /** A row whose identifier is gone: follow it within its folder, give it up otherwise. If nothing fails
      after the look into its folder, the row is given up exactly if that look failed or found nothing: a
      failed look reads like absence, and the row of a message that is there goes. */
  method ReconcileRow(client: Client, db: Database, id: string, folder: string, waste: set<string>) returns (v: Verdict)
    requires client.Valid() && db.Valid() && id in db.rows && db.rows[id].folder == folder
    requires folder in client.boxes && folder !in client.noselect
    modifies client, db`rows, db`decisions
    ensures client.Valid() && db.Valid() && client.boxes == old(client.boxes)
    ensures old(client.tick) < client.tick && old(client.trace) <= client.trace
    ensures Still(client.trace, |old(client.trace)|, client.boxes)
    ensures db.rows == Amended(old(db.rows), id, v) && DecisionsGo(old(db.decisions), db.decisions, old(db.rows), db.rows)
    ensures v.Heal? ==> FirstWith(client.boxes[folder], id) == Some(v.uid)
    ensures v.Drop? && FirstWith(client.boxes[folder], id).Some? ==>
              !Looked(client.boxes, client.noselect, client.answers, old(client.tick), folder)
    ensures Smooth(client.answers, LookedUntil(client.boxes, client.noselect, client.answers, old(client.tick), folder), client.tick) ==>
              v == if Looked(client.boxes, client.noselect, client.answers, old(client.tick), folder) && FirstWith(client.boxes[folder], id).Some?
                   then Heal(FirstWith(client.boxes[folder], id).value) else Drop
    ensures Smooth(client.answers, old(client.tick), client.tick) ==>
              v == if FirstWith(client.boxes[folder], id).Some? then Heal(FirstWith(client.boxes[folder], id).value) else Drop
  {
    hide FirstWith, DecisionsGo;
    DecisionsStay(db.decisions, db.rows, db.rows);
    DecisionsDropped(db.decisions, db.rows, {id});
    var resolved := CrossFolderResolve(client, id, Some(folder), waste);
    assert Smooth(client.answers, old(client.tick), client.tick) ==>
        Looked(client.boxes, client.noselect, client.answers, old(client.tick), folder) by {
      TwoCommands(client, old(client.tick));
    }
    if resolved.Err? { return Keep; }
    if resolved.value.Some? && resolved.value.value.0 == folder {
      DecisionsStay(db.decisions, db.rows, Amended(db.rows, id, Heal(resolved.value.value.1)));
      var _ := db.UpdateRecordSource(id, folder, Some(resolved.value.value.1));
      return Heal(resolved.value.value.1);
    }
    var _ := db.DeleteRecord(id);
    return Drop;
  }

  method ReconcileFolder(client: Client, db: Database, folder: string, entries: map<nat, string>, monitored: Option<string>, waste: set<string>,
                         healed0: nat, removed0: nat, ghost before: Rows, ghost start: nat, ghost done: set<string>)
    returns (healed: nat, removed: nat)
    requires client.Valid() && db.Valid() && start <= client.tick
    requires Progress(before, db.rows, client.boxes, client.noselect, monitored, done, healed0, removed0,
                      Smooth(client.answers, start, client.tick))
    requires EntriesFit(before, folder, entries, done)
    modifies client, db`rows, db`decisions
    ensures client.Valid() && db.Valid() && client.boxes == old(client.boxes) && DecisionsGo(old(db.decisions), db.decisions, old(db.rows), db.rows)
    ensures old(client.tick) <= client.tick && old(client.trace) <= client.trace
    ensures Progress(before, db.rows, client.boxes, client.noselect, monitored, done + Ids(entries, entries.Keys), healed, removed,
                     Smooth(client.answers, start, client.tick))
  {
    hide *;
    healed, removed := healed0, removed0;
    DecisionsStay(db.decisions, db.rows, db.rows);
    if monitored.Some? && folder != monitored.value {
      removed := PruneFolder(db, client.boxes, client.noselect, folder, entries, monitored, removed, before, done, healed,
                             Smooth(client.answers, start, client.tick));
      return;
    }
    ghost var was, from := Smooth(client.answers, start, client.tick), client.tick;
    var selected := client.SelectFolder(folder);
    SmoothSplits(client.answers, start, from, client.tick);
    SmoothOnce(client.answers, from);
    if selected.Err? {
      if Smooth(client.answers, start, client.tick) { Unopened(before, folder, entries, done, client.boxes, client.noselect, monitored); }
      ProgressSkip(before, db.rows, client.boxes, client.noselect, monitored, done, Ids(entries, entries.Keys), healed, removed,
                   was, Smooth(client.answers, start, client.tick));
      return;
    }
    from := client.tick;
    var found := FindPresent(client, entries.Keys);
    SmoothSplits(client.answers, start, from, client.tick);
    if found.Err? {
      ProgressSkip(before, db.rows, client.boxes, client.noselect, monitored, done, Ids(entries, entries.Keys), healed, removed,
                   was, Smooth(client.answers, start, client.tick));
      return;
    }
    PresentStays(before, folder, entries, done, client.boxes, client.noselect, monitored);
    ProgressSkip(before, db.rows, client.boxes, client.noselect, monitored, done, Ids(entries, found.value), healed, removed,
                 was, Smooth(client.answers, start, client.tick));
    healed, removed := ReconcileMissing(client, db, folder, entries, found.value, monitored, waste, healed, removed, before, start, done);
  }

  method ReconcileMissing(client: Client, db: Database, folder: string, entries: map<nat, string>, found: set<nat>, monitored: Option<string>,
                          waste: set<string>, healed0: nat, removed0: nat, ghost before: Rows, ghost start: nat, ghost done: set<string>)
    returns (healed: nat, removed: nat)
    requires client.Valid() && db.Valid() && start <= client.tick
    requires folder in client.boxes && folder !in client.noselect && !(monitored.Some? && folder != monitored.value)
    requires EntriesFit(before, folder, entries, done) && found == Live(client.boxes[folder], entries.Keys)
    requires Progress(before, db.rows, client.boxes, client.noselect, monitored, done + Ids(entries, found), healed0, removed0,
                      Smooth(client.answers, start, client.tick))
    modifies client, db`rows, db`decisions
    ensures client.Valid() && db.Valid() && client.boxes == old(client.boxes) && DecisionsGo(old(db.decisions), db.decisions, old(db.rows), db.rows)
    ensures old(client.tick) <= client.tick && old(client.trace) <= client.trace
    ensures Progress(before, db.rows, client.boxes, client.noselect, monitored, done + Ids(entries, entries.Keys), healed, removed,
                     Smooth(client.answers, start, client.tick))
  {
    hide *;
    healed, removed := healed0, removed0;
    DecisionsStay(db.decisions, db.rows, db.rows);
    var rest := entries.Keys - found;
    Absent(client.boxes[folder], entries.Keys);
    while rest != {}
      invariant client.Valid() && db.Valid() && client.boxes == old(client.boxes)
      invariant old(client.tick) <= client.tick && old(client.trace) <= client.trace
      invariant rest <= entries.Keys - found && DecisionsGo(old(db.decisions), db.decisions, old(db.rows), db.rows)
      invariant Progress(before, db.rows, client.boxes, client.noselect, monitored, done + Ids(entries, entries.Keys - rest), healed, removed,
                         Smooth(client.answers, start, client.tick))
      decreases |rest|
    {
      var u :| u in rest;
      Restored(rest, u);
      ghost var handled, from, rows, decided := entries.Keys - rest, client.tick, db.rows, db.decisions;
      NextEntry(before, folder, entries, done, handled, u);
      StillThere(before, db.rows, client.boxes, client.noselect, monitored, done + Ids(entries, handled), healed, removed,
                 Smooth(client.answers, start, from), entries[u], folder, u);
      var v := ReconcileRow(client, db, entries[u], folder, waste);
      DecisionsTwice(old(db.decisions), decided, db.decisions, old(db.rows), rows, db.rows);
      SmoothSplits(client.answers, start, from, client.tick);
      VerdictFits(before, entries[u], folder, u, client.boxes, client.noselect, monitored, v, Smooth(client.answers, start, client.tick));
      ProgressStep(before, rows, client.boxes, client.noselect, monitored, done + Ids(entries, handled), healed, removed,
                   Smooth(client.answers, start, from), Smooth(client.answers, start, client.tick), entries[u], v);
      healed, removed := healed + if v.Heal? then 1 else 0, removed + if v.Drop? then 1 else 0;
      rest := rest - {u};
      OneLess(entries, done, rest, u);
    }
    NoneLeft(entries.Keys, rest);
  }

  lemma TwoCommands(client: Client, from: nat)
    requires from + 2 <= client.tick
    ensures Smooth(client.answers, from, client.tick) ==>
              AnswerTo(client.answers, from).Works? && AnswerTo(client.answers, from + 1).Works?
  {
  }

  lemma Unopened(before: Rows, folder: string, entries: map<nat, string>, done: set<string>, boxes: Boxes, noselect: set<string>,
                 monitored: Option<string>)
    requires EntriesFit(before, folder, entries, done) && (folder !in boxes || folder in noselect)
    requires !(monitored.Some? && folder != monitored.value)
    ensures forall id <- Ids(entries, entries.Keys) :: id in before && VerdictOf(id, before[id], boxes, noselect, monitored) == Keep
  {
    forall id <- Ids(entries, entries.Keys) ensures id in before && VerdictOf(id, before[id], boxes, noselect, monitored) == Keep {
      var u :| u in entries && entries[u] == id;
      assert Tracks(before, entries[u], folder, u);
    }
  }

  lemma PresentStays(before: Rows, folder: string, entries: map<nat, string>, done: set<string>, boxes: Boxes, noselect: set<string>,
                     monitored: Option<string>)
    requires EntriesFit(before, folder, entries, done) && folder in boxes
    requires !(monitored.Some? && folder != monitored.value)
    ensures forall id <- Ids(entries, Live(boxes[folder], entries.Keys)) ::
              id in before && VerdictOf(id, before[id], boxes, noselect, monitored) == Keep
  {
    var found := Live(boxes[folder], entries.Keys);
    forall id <- Ids(entries, found) ensures id in before && VerdictOf(id, before[id], boxes, noselect, monitored) == Keep {
      var u :| u in found && u in entries && entries[u] == id;
      assert Tracks(before, entries[u], folder, u);
    }
  }

  lemma StillThere(before: Rows, now: Rows, boxes: Boxes, noselect: set<string>, monitored: Option<string>, done: set<string>,
                   healed: nat, removed: nat, smooth: bool, id: string, folder: string, u: nat)
    requires Progress(before, now, boxes, noselect, monitored, done, healed, removed, smooth)
    requires id in before && id !in done && Tracks(before, id, folder, u)
    ensures id in now && now[id] == before[id] && now[id].folder == folder
  {
    hide Sane, Decided, Changed;
  }

  lemma VerdictFits(before: Rows, id: string, folder: string, u: nat, boxes: Boxes, noselect: set<string>, monitored: Option<string>,
                    v: Verdict, smooth: bool)
    requires Tracks(before, id, folder, u) && folder in boxes && folder !in noselect && u !in boxes[folder].slots
    requires !(monitored.Some? && folder != monitored.value)
    requires v.Heal? ==> FirstWith(boxes[folder], id) == Some(v.uid)
    requires smooth ==> v == if FirstWith(boxes[folder], id).Some? then Heal(FirstWith(boxes[folder], id).value) else Drop
    ensures v.Drop? ==> MayDrop(before[id], boxes, monitored)
    ensures v.Heal? ==> MayHeal(id, before[id], before[id].(uid := Some(v.uid)), boxes, monitored) && before[id].uid != Some(v.uid)
    ensures smooth ==> v == VerdictOf(id, before[id], boxes, noselect, monitored)
  {
  }

  /** The Message-IDs of the groups already gone through. */
  function Covered(index: Index, folders: set<string>): set<string> {
    set f, u | f in folders && f in index && u in index[f] :: index[f][u]
  }

  lemma NextGroup(before: Rows, index: Index, folders: set<string>, f: string)
    requires Fits(index, before) && f in index && f !in folders
    ensures EntriesFit(before, f, index[f], Covered(index, folders))
    ensures Covered(index, folders + {f}) == Covered(index, folders) + Ids(index[f], index[f].Keys)
  {
    forall u <- index[f] ensures Tracks(before, index[f][u], f, u) && index[f][u] !in Covered(index, folders) {
      assert Tracks(before, index[f][u], f, u);
      forall g, v | g in folders && g in index && v in index[g] ensures index[g][v] != index[f][u] {
        assert Tracks(before, index[g][v], g, v);
      }
    }
  }

  /** With distinct pairs every tracked row has its entry. */
  lemma AllCovered(before: Rows, index: Index)
    requires Fits(index, before) && DistinctPairs(before)
    requires forall id <- before :: before[id].uid.Some? ==> Indexed(index, before[id].folder, before[id].uid.value)
    ensures forall id <- before :: before[id].uid.Some? ==> id in Covered(index, index.Keys)
  {
    forall id <- before | before[id].uid.Some? ensures id in Covered(index, index.Keys) {
      var f, u := before[id].folder, before[id].uid.value;
      assert Indexed(index, f, u);
      assert Tracks(before, index[f][u], f, u);
    }
  }

  /** What one pass leaves when nothing failed and no two rows track the same message. */
  lemma AllDecided(before: Rows, now: Rows, boxes: Boxes, noselect: set<string>, monitored: Option<string>, done: set<string>)
    requires Sane(before, now, boxes, monitored) && Untouched(before, now, done)
    requires Decided(before, now, boxes, noselect, monitored, done)
    requires forall id <- before :: before[id].uid.Some? ==> id in done
    ensures now == Reconciled(before, boxes, noselect, monitored)
  {
    hide Sane, FirstWith;
    var want := Reconciled(before, boxes, noselect, monitored);
    forall id <- before ensures (id in now <==> id in want) && (id in now ==> now[id] == want[id]) {
      if id !in done {
        assert VerdictOf(id, before[id], boxes, noselect, monitored) == Keep;
      } else {
        assert Matched(id, before, now, VerdictOf(id, before[id], boxes, noselect, monitored));
      }
    }
    assert now.Keys <= before.Keys by { SaneKeys(before, now, boxes, monitored); }
    assert now.Keys == want.Keys;
  }

  lemma SaneKeys(before: Rows, now: Rows, boxes: Boxes, monitored: Option<string>)
    requires Sane(before, now, boxes, monitored)
    ensures now.Keys <= before.Keys
  {
  }

  /** With every row as it should be, nothing changes. */
  lemma NothingToDo(before: Rows, now: Rows, boxes: Boxes, noselect: set<string>, monitored: Option<string>, done: set<string>)
    requires now.Keys <= before.Keys && Untouched(before, now, done)
    requires Decided(before, now, boxes, noselect, monitored, done)
    requires AllKept(before, boxes, noselect, monitored)
    ensures now == before && Changed(before, now) == {}
  {
    hide VerdictOf;
    forall id <- before ensures id in now && now[id] == before[id] {
      assert id in done ==> Matched(id, before, now, VerdictOf(id, before[id], boxes, noselect, monitored));
    }
  }

  ghost predicate AllKept(rows: Rows, boxes: Boxes, noselect: set<string>, monitored: Option<string>) {
    forall id <- rows :: VerdictOf(id, rows[id], boxes, noselect, monitored) == Keep
  }

  /** Main result: every row a pass leaves is one the next pass keeps, so a second pass changes nothing,
      even where healing has left two rows on one message. */
  lemma ReconciledIsStable(rows: Rows, boxes: Boxes, noselect: set<string>, monitored: Option<string>)
    ensures AllKept(Reconciled(rows, boxes, noselect, monitored), boxes, noselect, monitored)
  {
  }

  // ---------- what the verdicts come to ----------

  /** A tracked row's folder can be looked into. */
  predicate Visible(row: Row, boxes: Boxes, noselect: set<string>) {
    row.uid.Some? && row.folder in boxes && row.folder !in noselect
  }

  predicate Carries(box: Mailbox, u: nat, id: string) {
    u in box.slots && box.slots[u].mail.messageId == id
  }

  /** A verified row: what is tracked is where it is monitored and exists, as far as that can be looked at; only an
      identifier under which nothing was found was replaced, by the lowest with the Message-ID. */
  predicate RowVerified(id: string, before: Row, now: Row, boxes: Boxes, noselect: set<string>, monitored: Option<string>) {
    && now.folder == before.folder && now.mail == before.mail
    && (now.uid.Some? && monitored.Some? ==> now.folder == monitored.value)
    && (Visible(now, boxes, noselect) ==> now.uid.value in boxes[now.folder].slots)
    && (now.uid != before.uid ==>
          && Visible(before, boxes, noselect) && before.uid.value !in boxes[before.folder].slots
          && now.uid.Some? && Carries(boxes[before.folder], now.uid.value, id)
          && forall v <- boxes[before.folder].slots :: Carries(boxes[before.folder], v, id) ==> now.uid.value <= v)
  }

  /** A row that had to go: it had left the monitored folder, or could be found in no way. */
  predicate RowLost(id: string, before: Row, boxes: Boxes, noselect: set<string>, monitored: Option<string>) {
    && before.uid.Some?
    && (|| (monitored.Some? && before.folder != monitored.value)
        || (&& Visible(before, boxes, noselect) && before.uid.value !in boxes[before.folder].slots
            && forall v <- boxes[before.folder].slots :: !Carries(boxes[before.folder], v, id)))
  }

  ghost predicate Verified(before: Rows, now: Rows, boxes: Boxes, noselect: set<string>, monitored: Option<string>) {
    && now.Keys <= before.Keys
    && forall id <- before ::
         if id in now then RowVerified(id, before[id], now[id], boxes, noselect, monitored)
         else RowLost(id, before[id], boxes, noselect, monitored)
  }

  lemma RowVerifiedIff(id: string, before: Row, now: Row, boxes: Boxes, noselect: set<string>, monitored: Option<string>)
    requires AllValid(boxes)
    ensures RowLost(id, before, boxes, noselect, monitored) <==> VerdictOf(id, before, boxes, noselect, monitored) == Drop
    ensures RowVerified(id, before, now, boxes, noselect, monitored) <==>
            match VerdictOf(id, before, boxes, noselect, monitored)
            case Keep => now == before
            case Heal(u) => now == before.(uid := Some(u))
            case Drop => false
  {
    if before.folder in boxes {
      assert boxes[before.folder].Valid();
      var first := FirstWith(boxes[before.folder], id);
      if first.Some? && now.uid.Some? && Carries(boxes[before.folder], now.uid.value, id) { assert first.value <= now.uid.value; }
    }
  }

  /** Main result: the rows a pass is to leave are the verified ones, and there is only one way to verify them. */
  lemma ReconciledIff(before: Rows, now: Rows, boxes: Boxes, noselect: set<string>, monitored: Option<string>)
    requires AllValid(boxes)
    ensures now == Reconciled(before, boxes, noselect, monitored) <==> Verified(before, now, boxes, noselect, monitored)
  {
    var want := Reconciled(before, boxes, noselect, monitored);
    hide VerdictOf, RowVerified, RowLost;
    forall id <- before
      ensures id !in want <==> RowLost(id, before[id], boxes, noselect, monitored)
      ensures id in now ==> (id in want && now[id] == want[id] <==> RowVerified(id, before[id], now[id], boxes, noselect, monitored))
    {
      RowVerifiedIff(id, before[id], if id in now then now[id] else before[id], boxes, noselect, monitored);
    }
    if Verified(before, now, boxes, noselect, monitored) {
      assert now.Keys == want.Keys;
    }
  }

  /** What a pass may do whatever fails, and what it does when nothing does. */
  ghost predicate PassLeaves(before: Rows, now: Rows, boxes: Boxes, noselect: set<string>, monitored: Option<string>,
                          healed: nat, removed: nat, smooth: bool) {
    && Sane(before, now, boxes, monitored)
    && removed == |before.Keys| - |now.Keys| && healed == |Changed(before, now)|
    && (smooth && DistinctPairs(before) ==> now == Reconciled(before, boxes, noselect, monitored) && Verified(before, now, boxes, noselect, monitored))
    && (smooth && AllKept(before, boxes, noselect, monitored) ==> now == before && healed == 0 && removed == 0)
  }

  lemma PassDone(before: Rows, now: Rows, boxes: Boxes, noselect: set<string>, monitored: Option<string>, index: Index,
                 healed: nat, removed: nat, smooth: bool)
    requires Fits(index, before) && AllValid(boxes)
    requires forall id <- before :: before[id].uid.Some? ==> Indexed(index, before[id].folder, before[id].uid.value)
    requires Progress(before, now, boxes, noselect, monitored, Covered(index, index.Keys), healed, removed, smooth)
    ensures PassLeaves(before, now, boxes, noselect, monitored, healed, removed, smooth)
  {
    hide Sane, Untouched, Decided, Covered, Reconciled, AllKept, Changed, Fits, DistinctPairs, Verified;
    SaneKeys(before, now, boxes, monitored);
    if smooth && DistinctPairs(before) {
      AllCovered(before, index);
      AllDecided(before, now, boxes, noselect, monitored, Covered(index, index.Keys));
      ReconciledIff(before, now, boxes, noselect, monitored);
    }
    if smooth && AllKept(before, boxes, noselect, monitored) {
      NothingToDo(before, now, boxes, noselect, monitored, Covered(index, index.Keys));
    }
  }

  method ReconcileRecords(client: Client, db: Database, monitored: Option<string>, waste: set<string>) returns (healed: nat, removed: nat)
    requires client.Valid() && db.Valid()
    modifies client, db`rows, db`decisions
    ensures client.Valid() && db.Valid() && client.boxes == old(client.boxes) && old(client.tick) <= client.tick
    ensures DecisionsGo(old(db.decisions), db.decisions, old(db.rows), db.rows)
    ensures PassLeaves(old(db.rows), db.rows, client.boxes, client.noselect, monitored, healed, removed,
                    Smooth(client.answers, old(client.tick), client.tick))
  {
    ghost var before, start := db.rows, client.tick;
    var index := BuildIndex(db.rows);
    hide *;
    DecisionsStay(db.decisions, before, before);
    healed, removed := 0, 0;
    var rest := index.Keys;
    NoGroups(index);
    ProgressStart(before, client.boxes, client.noselect, monitored, Smooth(client.answers, start, start));
    while rest != {}
      invariant client.Valid() && db.Valid() && client.boxes == old(client.boxes) && start <= client.tick
      invariant rest <= index.Keys && DecisionsGo(old(db.decisions), db.decisions, before, db.rows)
      invariant Progress(before, db.rows, client.boxes, client.noselect, monitored, Covered(index, index.Keys - rest), healed, removed,
                         Smooth(client.answers, start, client.tick))
      decreases |rest|
    {
      var folder :| folder in rest;
      ghost var folders := index.Keys - rest;
      NextGroup(before, index, folders, folder);
      ghost var held, decided := db.rows, db.decisions;
      healed, removed :=
        ReconcileFolder(client, db, folder, index[folder], monitored, waste, healed, removed, before, start, Covered(index, folders));
      DecisionsTwice(old(db.decisions), decided, db.decisions, before, held, db.rows);
      GroupDone(index.Keys, rest, folder);
      rest := rest - {folder};
    }
    AllGroups(index.Keys, rest);
    PassDone(before, db.rows, client.boxes, client.noselect, monitored, index, healed, removed, Smooth(client.answers, start, client.tick));
  }

  lemma NoGroups(index: Index)
    ensures Covered(index, index.Keys - index.Keys) == {}
  {
  }

  lemma GroupDone(all: set<string>, rest: set<string>, f: string)
    requires f in rest && rest <= all
    ensures all - rest + {f} == all - (rest - {f})
  {
  }

  lemma AllGroups(all: set<string>, rest: set<string>)
    requires rest == {}
    ensures all - rest == all
  {
  }
}
