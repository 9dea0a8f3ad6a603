/**
 Parsing, deduplicating and storing one batch of fetched messages: pipeline/__init__.py lines
 211-328. Parsing is an arbitrary partial function from a message to its Message-ID.
 */
module IngestBatch {
  import opened Outcome
  import opened Mailboxes
  import opened MailDatabase

  datatype IngestError = IngestError(uid: nat, messageId: string)

  datatype Tally = Tally(stored: nat, skipped: nat, errors: seq<IngestError>)

  /** What a batch is run with; inserting a row raises for the positions in `broken`. */
  datatype Setting = Setting(parse: map<Mail, string>, folder: string, dry: bool, broken: set<nat>)

  datatype Fate = Unparsable | Duplicate(id: string) | Refused(id: string) | New(id: string)

  /** What becomes of the message at position `k`. */
  function FateOf(rows: Rows, m: Fetched, k: nat, s: Setting): Fate {
    if m.mail !in s.parse then Unparsable
    else
      var id := s.parse[m.mail];
      if id in rows then Duplicate(id)
      else if !s.dry && k in s.broken then Refused(id)
      else New(id)
  }

  function RowOf(m: Fetched, s: Setting): Row {
    Row(s.folder, Some(m.uid), m.mail)
  }

  function RowsAfter(rows: Rows, m: Fetched, k: nat, s: Setting): Rows {
    if s.dry then rows
    else match FateOf(rows, m, k, s)
      case Duplicate(id) => Relocated(rows, id, s.folder, Some(m.uid))
      case New(id) => rows[id := RowOf(m, s)]
      case _ => rows
  }

  function Counted(t: Tally, fate: Fate, uid: nat): Tally {
    match fate
    case Unparsable => t.(errors := t.errors + [IngestError(uid, "")])
    case Refused(id) => t.(errors := t.errors + [IngestError(uid, id)])
    case Duplicate(_) => t.(skipped := t.skipped + 1)
    case New(_) => t.(stored := t.stored + 1)
  }

  /** Table and tally after the first `n` messages. */
  function After(rows: Rows, messages: seq<Fetched>, s: Setting, n: nat): (Rows, Tally)
    requires n <= |messages|
  {
    if n == 0 then (rows, Tally(0, 0, []))
    else
      var (before, tally) := After(rows, messages, s, n - 1);
      var m := messages[n - 1];
      (RowsAfter(before, m, n - 1, s), Counted(tally, FateOf(before, m, n - 1, s), m.uid))
  }

  function Process(rows: Rows, messages: seq<Fetched>, s: Setting): (Rows, Tally) {
    After(rows, messages, s, |messages|)
  }

  method ProcessMessages(db: Database, messages: seq<Fetched>, s: Setting) returns (t: Tally)
    requires db.Valid()
    modifies db`rows
    ensures db.Valid()
    ensures (db.rows, t) == Process(old(db.rows), messages, s)
  {
    var stored, skipped, errors := 0, 0, [];
    for k := 0 to |messages|
      invariant db.Valid()
      invariant (db.rows, Tally(stored, skipped, errors)) == After(old(db.rows), messages, s, k)
    {
      var m := messages[k];
      if m.mail !in s.parse {
        errors := errors + [IngestError(m.uid, "")];
        continue;
      }
      var id := s.parse[m.mail];
      if db.RecordExists(id) {
        if !s.dry {
          var _ := db.UpdateRecordSource(id, s.folder, Some(m.uid));
        }
        skipped := skipped + 1;
        continue;
      }
      if s.dry {
        stored := stored + 1;
        continue;
      }
      if k in s.broken {
        errors := errors + [IngestError(m.uid, id)];
        continue;
      }
      var inserted := db.InsertRecord(id, RowOf(m, s));
      if inserted {
        stored := stored + 1;
      } else {
        skipped := skipped + 1;
      }
    }
    return Tally(stored, skipped, errors);
  }

  // ---------- what the numbers mean ----------

  lemma KeysAfter(rows: Rows, m: Fetched, k: nat, s: Setting)
    ensures var fate := FateOf(rows, m, k, s);
            RowsAfter(rows, m, k, s).Keys == rows.Keys + if fate.New? && !s.dry then {fate.id} else {}
    ensures var fate := FateOf(rows, m, k, s); fate.New? ==> fate.id !in rows
    ensures s.dry ==> RowsAfter(rows, m, k, s) == rows
  {
  }

  ghost predicate AddsUp(base: Rows, now: Rows, t: Tally, n: nat, dry: bool) {
    && t.stored + t.skipped + |t.errors| == n
    && base.Keys <= now.Keys
    && (!dry ==> |now.Keys - base.Keys| == t.stored)
    && (dry ==> now == base)
  }

  lemma AddsUpStep(base: Rows, before: Rows, t: Tally, m: Fetched, k: nat, s: Setting)
    requires AddsUp(base, before, t, k, s.dry)
    ensures AddsUp(base, RowsAfter(before, m, k, s), Counted(t, FateOf(before, m, k, s), m.uid), k + 1, s.dry)
  {
    hide FateOf, RowsAfter, Counted;
    var fate := FateOf(before, m, k, s);
    KeysAfter(before, m, k, s);
    CountedOnce(t, fate, m.uid);
    var more: set<string> := if fate.New? && !s.dry then {fate.id} else {};
    GrowsBy(base.Keys, before.Keys, RowsAfter(before, m, k, s).Keys, more);
  }

  lemma CountedOnce(t: Tally, fate: Fate, uid: nat)
    ensures var u := Counted(t, fate, uid);
            && u.stored + u.skipped + |u.errors| == t.stored + t.skipped + |t.errors| + 1
            && u.stored == t.stored + if fate.New? then 1 else 0
  {
  }

  /** Main result: every message is counted once, and the table gains exactly as many Message-IDs as
      were stored, losing none. A dry run changes no row. */
  lemma {:induction false} NumbersAddUp(rows: Rows, messages: seq<Fetched>, s: Setting, n: nat)
    requires n <= |messages|
    ensures var (now, t) := After(rows, messages, s, n);
            AddsUp(rows, now, t, n, s.dry)
  {
    if n == 0 {
      assert rows.Keys - rows.Keys == {};
    } else {
      hide AddsUp, FateOf, RowsAfter, Counted;
      NumbersAddUp(rows, messages, s, n - 1);
      var (before, t) := After(rows, messages, s, n - 1);
      AddsUpStep(rows, before, t, messages[n - 1], n - 1, s);
    }
  }

  lemma GrowsBy(base: set<string>, before: set<string>, now: set<string>, more: set<string>)
    requires base <= before && now == before + more && more !! before && |more| <= 1
    ensures |now - base| == |before - base| + |more|
  {
    assert now - base == (before - base) + more;
  }

  /** The message is settled: in the table under its Message-ID, or reported as an error. */
  ghost predicate Settled(m: Fetched, s: Setting, rows: Rows, t: Tally) {
    || (m.mail in s.parse && s.parse[m.mail] in rows)
    || exists e <- t.errors :: e.uid == m.uid && e.messageId == if m.mail in s.parse then s.parse[m.mail] else ""
  }

  lemma SettledStays(m: Fetched, s: Setting, rows: Rows, t: Tally, next: Fetched, k: nat)
    requires Settled(m, s, rows, t)
    ensures Settled(m, s, RowsAfter(rows, next, k, s), Counted(t, FateOf(rows, next, k, s), next.uid))
  {
    if !(m.mail in s.parse && s.parse[m.mail] in rows) {
      var e :| e in t.errors && e.uid == m.uid && e.messageId == if m.mail in s.parse then s.parse[m.mail] else "";
      assert e in Counted(t, FateOf(rows, next, k, s), next.uid).errors;
    }
  }

  /** Main result: no fetched message is dropped without a trace. */
  lemma {:induction false} NothingDropped(rows: Rows, messages: seq<Fetched>, s: Setting, n: nat)
    requires n <= |messages| && !s.dry
    ensures var (now, t) := After(rows, messages, s, n);
            forall k :: 0 <= k < n ==> Settled(messages[k], s, now, t)
  {
    if n > 0 {
      NothingDropped(rows, messages, s, n - 1);
      var (before, t) := After(rows, messages, s, n - 1);
      var (now, u) := After(rows, messages, s, n);
      var m := messages[n - 1];
      var fate := FateOf(before, m, n - 1, s);
      forall k | 0 <= k < n ensures Settled(messages[k], s, now, u) {
        if k < n - 1 {
          SettledStays(messages[k], s, before, t, m, n - 1);
        } else if fate.Unparsable? || fate.Refused? {
          assert u.errors[|t.errors|] in u.errors;
        }
      }
    }
  }

  // ---------- what the table holds ----------

  function IdOf(m: Fetched, s: Setting): Option<string> {
    if m.mail in s.parse then Some(s.parse[m.mail]) else None
  }

  /** The first message with the Message-ID, among the first `n`, whose insert is not refused. */
  function FirstInserted(messages: seq<Fetched>, s: Setting, n: nat, id: string): (first: Option<nat>)
    requires n <= |messages|
    ensures first.Some? ==> first.value < n && first.value !in s.broken && IdOf(messages[first.value], s) == Some(id)
    ensures forall j: nat :: j < (if first.Some? then first.value else n) && IdOf(messages[j], s) == Some(id) ==> j in s.broken
  {
    if n == 0 then None
    else
      var sooner := FirstInserted(messages, s, n - 1, id);
      if sooner.None? && n - 1 !in s.broken && IdOf(messages[n - 1], s) == Some(id) then Some(n - 1) else sooner
  }

  /** The last message with the Message-ID among the first `n`. */
  function LastSeen(messages: seq<Fetched>, s: Setting, n: nat, id: string): (last: Option<nat>)
    requires n <= |messages|
    ensures last.Some? ==> last.value < n && IdOf(messages[last.value], s) == Some(id)
    ensures forall j: nat :: (if last.Some? then last.value + 1 else 0) <= j < n ==> IdOf(messages[j], s) != Some(id)
  {
    if n == 0 then None
    else if IdOf(messages[n - 1], s) == Some(id) then Some(n - 1)
    else LastSeen(messages, s, n - 1, id)
  }

  /** What the table holds under a Message-ID after the first `n` messages: the mail that was there, or else that
      of the first message inserted; and the place of the last message seen, if there was one. */
  ghost predicate HoldsRow(rows: Rows, now: Rows, messages: seq<Fetched>, s: Setting, n: nat, id: string)
    requires n <= |messages|
  {
    var first, last := FirstInserted(messages, s, n, id), LastSeen(messages, s, n, id);
    && (id in now <==> id in rows || first.Some?)
    && (id in rows ==> now[id].mail == rows[id].mail && (last.None? ==> now[id] == rows[id]))
    && (id !in rows && first.Some? ==> now[id].mail == messages[first.value].mail)
    && (id in now && last.Some? ==> now[id].folder == s.folder && now[id].uid == Some(messages[last.value].uid))
  }

  lemma RowsStep(rows: Rows, m: Fetched, k: nat, s: Setting, id: string)
    requires !s.dry
    ensures var now := RowsAfter(rows, m, k, s);
            && (IdOf(m, s) != Some(id) ==> (id in now <==> id in rows) && (id in rows ==> now[id] == rows[id]))
            && (IdOf(m, s) == Some(id) && id in rows ==>
                  id in now && now[id].mail == rows[id].mail && now[id].folder == s.folder && now[id].uid == Some(m.uid))
            && (IdOf(m, s) == Some(id) && id !in rows ==>
                  && (id in now <==> k !in s.broken)
                  && (id in now ==> now[id].mail == m.mail && now[id].folder == s.folder && now[id].uid == Some(m.uid)))
  {
  }

  /** Main result: the table after a batch, row by row. A new Message-ID comes with the mail that was fetched, one
      that was there keeps its own. */
  lemma {:induction false} TableHolds(rows: Rows, messages: seq<Fetched>, s: Setting, n: nat, id: string)
    requires n <= |messages| && !s.dry
    ensures HoldsRow(rows, After(rows, messages, s, n).0, messages, s, n, id)
  {
    if n > 0 {
      hide RowsAfter, FateOf, IdOf;
      TableHolds(rows, messages, s, n - 1, id);
      RowsStep(After(rows, messages, s, n - 1).0, messages[n - 1], n - 1, s, id);
    }
  }

  /** The errors of the first `n` messages: what could not be parsed, and what could not be inserted. */
  function Failed(rows: Rows, messages: seq<Fetched>, s: Setting, n: nat): seq<IngestError>
    requires n <= |messages|
  {
    if n == 0 then []
    else
      var m, id := messages[n - 1], IdOf(messages[n - 1], s);
      Failed(rows, messages, s, n - 1) +
      if id.None? then [IngestError(m.uid, "")]
      else if id.value !in rows && FirstInserted(messages, s, n - 1, id.value).None? && n - 1 in s.broken then [IngestError(m.uid, id.value)]
      else []
  }

  /** Exactly what could not be parsed or inserted is reported, in order; as the numbers add up, so is what was
      stored and what was skipped. */
  lemma {:induction false} ErrorsExactly(rows: Rows, messages: seq<Fetched>, s: Setting, n: nat)
    requires n <= |messages| && !s.dry
    ensures After(rows, messages, s, n).1.errors == Failed(rows, messages, s, n)
  {
    if n > 0 {
      ErrorsExactly(rows, messages, s, n - 1);
      var id := IdOf(messages[n - 1], s);
      if id.Some? { InTable(rows, messages, s, n - 1, id.value); }
      hide RowsAfter, FirstInserted, LastSeen;
    }
  }

  lemma InTable(rows: Rows, messages: seq<Fetched>, s: Setting, n: nat, id: string)
    requires n <= |messages| && !s.dry
    ensures id in After(rows, messages, s, n).0 <==> id in rows || FirstInserted(messages, s, n, id).Some?
  {
    TableHolds(rows, messages, s, n, id);
  }

  // ---------- running a batch again ----------

  /** Some message from position `n` on carries the Message-ID. */
  ghost predicate Ahead(messages: seq<Fetched>, s: Setting, n: nat, id: string) {
    exists k :: n <= k < |messages| && IdOf(messages[k], s) == Some(id)
  }

  lemma AheadStep(messages: seq<Fetched>, s: Setting, n: nat, id: string)
    requires n < |messages|
    ensures Ahead(messages, s, n, id) <==> IdOf(messages[n], s) == Some(id) || Ahead(messages, s, n + 1, id)
  {
  }

  /** The row of a Message-ID says where its last occurrence among the first `n` messages is. */
  ghost predicate TracksLast(rows: Rows, messages: seq<Fetched>, s: Setting, n: nat)
    requires n <= |messages|
  {
    forall k :: 0 <= k < n ==> TracksAt(rows, messages, s, n, k)
  }

  ghost predicate TracksAt(rows: Rows, messages: seq<Fetched>, s: Setting, n: nat, k: nat)
    requires k < n <= |messages|
  {
    var id := IdOf(messages[k], s);
    && (id.Some? ==> id.value in rows)
    && (id.Some? && !Ahead(messages[..n], s, k + 1, id.value) ==>
          rows[id.value].folder == s.folder && rows[id.value].uid == Some(messages[k].uid))
  }

  lemma TracksAtStep(rows: Rows, messages: seq<Fetched>, s: Setting, n: nat, k: nat)
    requires k <= n < |messages| && !s.dry && s.broken == {}
    requires k < n ==> TracksAt(rows, messages, s, n, k)
    ensures TracksAt(RowsAfter(rows, messages[n], n, s), messages, s, n + 1, k)
  {
    var id := IdOf(messages[k], s);
    if k < n && id.Some? {
      if Ahead(messages[..n], s, k + 1, id.value) {
        var j :| k + 1 <= j < n && IdOf(messages[..n][j], s) == id;
        assert IdOf(messages[..n + 1][j], s) == id;
      } else if IdOf(messages[n], s) == id {
        assert IdOf(messages[..n + 1][n], s) == id;
      }
    }
  }

  lemma {:induction false} BatchTracksLast(rows: Rows, messages: seq<Fetched>, s: Setting, n: nat)
    requires n <= |messages| && !s.dry && s.broken == {}
    ensures TracksLast(After(rows, messages, s, n).0, messages, s, n)
  {
    if n > 0 {
      BatchTracksLast(rows, messages, s, n - 1);
      forall k | 0 <= k < n ensures TracksAt(After(rows, messages, s, n).0, messages, s, n, k) {
        TracksAtStep(After(rows, messages, s, n - 1).0, messages, s, n - 1, k);
      }
    }
  }

  /** A second run on its way: it has the same rows, except where messages still to come say. */
  ghost predicate CatchingUp(rows: Rows, target: Rows, messages: seq<Fetched>, s: Setting, n: nat) {
    && rows.Keys == target.Keys
    && (forall id <- rows :: rows[id].mail == target[id].mail)
    && (forall id <- rows :: Ahead(messages, s, n, id) || rows[id] == target[id])
  }

  lemma CatchUpStep(rows: Rows, target: Rows, messages: seq<Fetched>, s: Setting, n: nat)
    requires n < |messages| && !s.dry
    requires TracksLast(target, messages, s, |messages|) && CatchingUp(rows, target, messages, s, n)
    ensures CatchingUp(RowsAfter(rows, messages[n], n, s), target, messages, s, n + 1)
    ensures FateOf(rows, messages[n], n, s) == if IdOf(messages[n], s).Some? then Duplicate(IdOf(messages[n], s).value) else Unparsable
  {
    var now := RowsAfter(rows, messages[n], n, s);
    assert TracksAt(target, messages, s, |messages|, n);
    assert messages[..|messages|] == messages;
    forall id <- now ensures Ahead(messages, s, n + 1, id) || now[id] == target[id] {
      AheadStep(messages, s, n, id);
    }
  }

  /** Main result: running a batch whose inserts all worked a second time stores nothing, skips what
      could be parsed, repeats the parse errors and leaves the table exactly as it is. */
  lemma RerunStoresNothing(rows: Rows, messages: seq<Fetched>, s: Setting)
    requires !s.dry && s.broken == {}
    ensures var (once, t) := Process(rows, messages, s);
            var (twice, u) := Process(once, messages, s);
            twice == once && u == Tally(0, t.stored + t.skipped, t.errors)
  {
    var (once, _) := Process(rows, messages, s);
    BatchTracksLast(rows, messages, s, |messages|);
    RerunUpTo(rows, once, messages, s, |messages|);
    var (twice, _) := Process(once, messages, s);
    assert twice == once;
  }

  lemma FateWhenInsertsWork(rows: Rows, m: Fetched, k: nat, s: Setting)
    requires s.dry || s.broken == {}
    ensures FateOf(rows, m, k, s) ==
            var id := IdOf(m, s);
            if id.None? then Unparsable else if id.value in rows then Duplicate(id.value) else New(id.value)
  {
  }

  lemma OneAfter(rows: Rows, messages: seq<Fetched>, s: Setting, n: nat)
    requires n < |messages|
    ensures var (before, t), m := After(rows, messages, s, n), messages[n];
            After(rows, messages, s, n + 1) == (RowsAfter(before, m, n, s), Counted(t, FateOf(before, m, n, s), m.uid))
  {
    hide RowsAfter, Counted, FateOf;
  }

  lemma {:induction false} RerunUpTo(rows: Rows, once: Rows, messages: seq<Fetched>, s: Setting, n: nat)
    requires n <= |messages| && !s.dry && s.broken == {}
    requires TracksLast(once, messages, s, |messages|)
    ensures CatchingUp(After(once, messages, s, n).0, once, messages, s, n)
    ensures var t, u := After(rows, messages, s, n).1, After(once, messages, s, n).1;
            u == Tally(0, t.stored + t.skipped, t.errors)
  {
    if n > 0 {
      hide After, CatchingUp, FateOf, RowsAfter, TracksLast;
      OneAfter(rows, messages, s, n - 1);
      OneAfter(once, messages, s, n - 1);
      RerunUpTo(rows, once, messages, s, n - 1);
      FateWhenInsertsWork(After(rows, messages, s, n - 1).0, messages[n - 1], n - 1, s);
      CatchUpStep(After(once, messages, s, n - 1).0, once, messages, s, n - 1);
    }
  }

  // ---------- dry runs ----------

  /** A message among the first `n` whose Message-ID is new but occurred before. */
  ghost predicate Repeats(rows: Rows, messages: seq<Fetched>, s: Setting, n: nat) {
    exists k :: 0 <= k < n && n <= |messages| && RepeatsAt(rows, messages, s, k)
  }

  ghost predicate RepeatsAt(rows: Rows, messages: seq<Fetched>, s: Setting, k: nat)
    requires k < |messages|
  {
    var id := IdOf(messages[k], s);
    id.Some? && id.value !in rows && exists j :: 0 <= j < k && IdOf(messages[j], s) == id
  }

  lemma {:induction false} RealKeys(rows: Rows, messages: seq<Fetched>, s: Setting, n: nat)
    requires n <= |messages| && !s.dry && s.broken == {}
    ensures forall id :: id in After(rows, messages, s, n).0 <==> id in rows || exists j :: 0 <= j < n && IdOf(messages[j], s) == Some(id)
  {
    if n > 0 {
      RealKeys(rows, messages, s, n - 1);
      KeysAfter(After(rows, messages, s, n - 1).0, messages[n - 1], n - 1, s);
    }
  }

  /** Main result: a dry run never predicts fewer stored messages than a real run stores, and predicts
      the same number exactly when no new Message-ID occurs twice in the batch. */
  lemma {:induction false} DryRunPredicts(rows: Rows, messages: seq<Fetched>, s: Setting, n: nat)
    requires n <= |messages| && !s.dry && s.broken == {}
    ensures var live, dry := After(rows, messages, s, n).1, After(rows, messages, s.(dry := true), n).1;
            && dry.errors == live.errors && dry.stored >= live.stored
            && (dry.stored == live.stored <==> !Repeats(rows, messages, s, n))
  {
    if n > 0 {
      DryRunPredicts(rows, messages, s, n - 1);
      NumbersAddUp(rows, messages, s.(dry := true), n - 1);
      RealKeys(rows, messages, s, n - 1);
      var before := After(rows, messages, s, n - 1).0;
      var m, id := messages[n - 1], IdOf(messages[n - 1], s);
      FateWhenInsertsWork(before, m, n - 1, s);
      FateWhenInsertsWork(rows, m, n - 1, s.(dry := true));
      assert IdOf(m, s.(dry := true)) == id;
      hide FateOf, RowsAfter;
      assert RepeatsAt(rows, messages, s, n - 1) <==> id.Some? && id.value !in rows && id.value in before;
      assert Repeats(rows, messages, s, n) <==> Repeats(rows, messages, s, n - 1) || RepeatsAt(rows, messages, s, n - 1);
    }
  }
}
