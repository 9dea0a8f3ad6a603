/**
 Collecting the rows a batch worker acts on and grouping them: server/adapters.py lines 285-297,
 408-414 and 529-553.
 */
module BatchRecords {
  import opened Outcome
  import opened Decimal
  import opened MailDatabase

  datatype Record = Record(id: string, folder: string, uid: Option<nat>)

  function Ids(records: seq<Record>): set<string> {
    set r | r in records :: r.id
  }

  ghost predicate FromRow(rows: Rows, r: Record) {
    r.id in rows && r.folder == rows[r.id].folder && r.uid == rows[r.id].uid
  }

  ghost predicate AllFromRows(rows: Rows, records: seq<Record>) {
    forall r <- records :: FromRow(rows, r)
  }

  /** One record for every row decided this way. */
  method CollectRecords(db: Database, action: string) returns (records: seq<Record>)
    requires db.Valid()
    ensures AllFromRows(db.rows, records)
    ensures Ids(records) == Decided(db.decisions, action)
    ensures forall id :: id in Ids(records) <==> id in db.decisions && db.decisions[id] == action
    ensures DistinctIds(records)
  {
    records := [];
    var rest := Decided(db.decisions, action);
    while rest != {}
      invariant rest <= Decided(db.decisions, action) && AllFromRows(db.rows, records)
      invariant Ids(records) == Decided(db.decisions, action) - rest && DistinctIds(records)
      decreases |rest|
    {
      var id :| id in rest;
      ghost var sofar := records;
      records := records + [Record(id, db.rows[id].folder, db.rows[id].uid)];
      rest := rest - {id};
      IdsSnoc(sofar, records[|sofar|]);
      assert forall r <- sofar :: r.id in Ids(sofar);
    }
  }

  function Decided(decisions: map<string, string>, action: string): set<string> {
    set id | id in decisions && decisions[id] == action
  }

  ghost predicate DistinctIds(records: seq<Record>) {
    forall j, k :: 0 <= j < k < |records| ==> records[j].id != records[k].id
  }

  lemma IdsSnoc(records: seq<Record>, r: Record)
    ensures Ids(records + [r]) == Ids(records) + {r.id}
  {
    assert forall k :: k in records + [r] <==> k in records || k == r;
  }

  /** Whether the server has to be asked: some of the rows are tracked. */
  ghost predicate Tracked(rows: Rows, ids: set<string>) {
    exists id <- ids :: id in rows && rows[id].uid.Some?
  }

  lemma TrackedIff(rows: Rows, records: seq<Record>)
    requires AllFromRows(rows, records)
    ensures (exists r <- records :: r.uid.Some?) <==> Tracked(rows, Ids(records))
  {
    forall r <- records ensures FromRow(rows, r) && r.id in Ids(records) {
    }
    if id :| id in Ids(records) && id in rows && rows[id].uid.Some? {
      var r :| r in records && r.id == id;
      assert FromRow(rows, r);
    }
  }

  datatype Group<K> = Group(key: K, members: seq<Record>)

  /** Put a record into the group of its key, opening one at the end if there is none. */
  function Insert<K(==)>(groups: seq<Group<K>>, key: K, r: Record): seq<Group<K>> {
    if groups == [] then [Group(key, [r])]
    else if groups[0].key == key then [Group(key, groups[0].members + [r])] + groups[1..]
    else [groups[0]] + Insert(groups[1..], key, r)
  }

  /** No group is empty, and every member has its group's key. */
  ghost predicate Sorted<K(!new)>(groups: seq<Group<K>>, keyOf: map<Record, K>) {
    && (forall g <- groups, r <- g.members :: r in keyOf && keyOf[r] == g.key)
    && (forall g <- groups :: g.members != [])
  }

  function Size<K>(groups: seq<Group<K>>): nat {
    if groups == [] then 0 else |groups[0].members| + Size(groups[1..])
  }

  ghost function Members<K(!new)>(groups: seq<Group<K>>): set<Record> {
    set g, r | g in groups && r in g.members :: r
  }

  lemma {:induction false} InsertSorted<K(!new)>(groups: seq<Group<K>>, key: K, r: Record, keyOf: map<Record, K>)
    requires Sorted(groups, keyOf) && r in keyOf && keyOf[r] == key
    ensures Sorted(Insert(groups, key, r), keyOf)
  {
    if groups != [] {
      var after := Insert(groups, key, r);
      assert forall g <- groups[1..] :: g in groups;
      assert groups[0] in groups;
      if groups[0].key == key {
        assert forall m <- after[0].members :: m in groups[0].members || m == r;
        assert forall g <- after :: g == after[0] || g in groups[1..];
      } else {
        InsertSorted(groups[1..], key, r, keyOf);
        assert forall g <- after :: g == groups[0] || g in Insert(groups[1..], key, r);
      }
    }
  }

  lemma {:induction false} InsertSize<K(!new)>(groups: seq<Group<K>>, key: K, r: Record)
    ensures Size(Insert(groups, key, r)) == Size(groups) + 1
  {
    var after := Insert(groups, key, r);
    if groups == [] {
      assert after[1..] == [];
    } else if groups[0].key == key {
      assert after[1..] == groups[1..];
    } else {
      InsertSize(groups[1..], key, r);
      assert after[1..] == Insert(groups[1..], key, r);
    }
  }

  lemma {:induction false} InsertMembers<K(!new)>(groups: seq<Group<K>>, key: K, r: Record)
    ensures Members(Insert(groups, key, r)) == Members(groups) + {r}
  {
    var after := Insert(groups, key, r);
    MembersSplit(after);
    if groups == [] {
      assert after[1..] == [];
    } else {
      MembersSplit(groups);
      if groups[0].key == key {
        assert after[1..] == groups[1..];
        assert forall m :: m in after[0].members <==> m in groups[0].members || m == r;
      } else {
        InsertMembers(groups[1..], key, r);
        assert after[1..] == Insert(groups[1..], key, r);
      }
    }
  }

  lemma MembersSplit<K(!new)>(groups: seq<Group<K>>)
    requires groups != []
    ensures Members(groups) == (set r | r in groups[0].members) + Members(groups[1..])
  {
    assert groups == [groups[0]] + groups[1..];
    assert forall g :: g in groups <==> g == groups[0] || g in groups[1..];
  }

  /** The records of a key, in their order. */
  function Under<K(==)>(records: seq<Record>, keyOf: map<Record, K>, key: K): seq<Record>
    requires forall r <- records :: r in keyOf
  {
    if records == [] then []
    else
      var last := records[|records| - 1];
      Under(records[..|records| - 1], keyOf, key) + if keyOf[last] == key then [last] else []
  }

  /** One group for each key that occurs, with exactly its records. */
  ghost predicate Grouped<K(!new)>(groups: seq<Group<K>>, records: seq<Record>, keyOf: map<Record, K>)
    requires forall r <- records :: r in keyOf
  {
    && (forall i, j :: 0 <= i < j < |groups| ==> groups[i].key != groups[j].key)
    && (forall g <- groups :: g.members == Under(records, keyOf, g.key))
    && forall key :: HasKey(groups, key) <==> Under(records, keyOf, key) != []
  }

  ghost predicate HasKey<K(!new)>(groups: seq<Group<K>>, key: K) {
    exists g <- groups :: g.key == key
  }

  lemma {:induction false} InsertIs<K(!new)>(groups: seq<Group<K>>, key: K, r: Record) returns (i: nat)
    ensures i <= |groups| && (i < |groups| ==> groups[i].key == key)
    ensures i == |groups| ==> !HasKey(groups, key)
    ensures Insert(groups, key, r) ==
            if i < |groups| then groups[i := Group(key, groups[i].members + [r])] else groups + [Group(key, [r])]
  {
    if groups == [] || groups[0].key == key {
      i := 0;
    } else {
      i := InsertIs(groups[1..], key, r);
      assert groups == [groups[0]] + groups[1..];
      i := i + 1;
    }
  }

  lemma UnderMore<K(!new)>(records: seq<Record>, keyOf: map<Record, K>, r: Record)
    requires (forall m <- records :: m in keyOf) && r in keyOf
    ensures forall m <- records + [r] :: m in keyOf
    ensures forall k :: Under(records + [r], keyOf, k) == Under(records, keyOf, k) + if k == keyOf[r] then [r] else []
  {
    assert (records + [r])[..|records + [r]| - 1] == records;
  }

  lemma KeysApart<K(!new)>(groups: seq<Group<K>>, after: seq<Group<K>>, i: nat, key: K)
    requires i <= |groups| && (i == |groups| ==> !HasKey(groups, key)) && |after| == (if i < |groups| then |groups| else |groups| + 1)
    requires after[i].key == key && (i < |groups| ==> groups[i].key == key)
    requires forall j :: 0 <= j < |groups| && j != i ==> after[j] == groups[j]
    requires forall j, k :: 0 <= j < k < |groups| ==> groups[j].key != groups[k].key
    ensures forall j, k :: 0 <= j < k < |after| ==> after[j].key != after[k].key
    ensures forall j :: 0 <= j < |groups| && j != i ==> groups[j].key != key
  {
    forall j | 0 <= j < |groups| && j != i ensures groups[j].key != key {
      assert groups[j] in groups;
    }
  }

  lemma InsertGroups<K(!new)>(groups: seq<Group<K>>, records: seq<Record>, keyOf: map<Record, K>, r: Record)
    requires (forall m <- records :: m in keyOf) && r in keyOf && Grouped(groups, records, keyOf)
    ensures forall m <- records + [r] :: m in keyOf
    ensures Grouped(Insert(groups, keyOf[r], r), records + [r], keyOf)
  {
    var key, all := keyOf[r], records + [r];
    var i := InsertIs(groups, key, r);
    var after := Insert(groups, key, r);
    UnderMore(records, keyOf, r);
    hide Insert, Under, HasKey;
    KeysApart(groups, after, i, key);
    forall j | 0 <= j < |after| ensures after[j].members == Under(all, keyOf, after[j].key) {
      if j < |groups| { assert groups[j] in groups; }
    }
    forall k ensures HasKey(after, k) <==> Under(all, keyOf, k) != [] {
      if k == key {
        assert HasKey(after, key) by { KeyHere(after, i); }
      } else {
        OtherKey(groups, after, i, key, k);
      }
    }
  }

  lemma KeyHere<K(!new)>(groups: seq<Group<K>>, i: nat)
    requires i < |groups|
    ensures HasKey(groups, groups[i].key)
  {
    assert groups[i] in groups;
  }

  lemma OtherKey<K(!new)>(groups: seq<Group<K>>, after: seq<Group<K>>, i: nat, key: K, k: K)
    requires i <= |groups| && k != key && |after| == (if i < |groups| then |groups| else |groups| + 1)
    requires after[i].key == key && (i < |groups| ==> groups[i].key == key)
    requires forall j :: 0 <= j < |groups| && j != i ==> after[j] == groups[j]
    ensures HasKey(after, k) <==> HasKey(groups, k)
  {
    if g :| g in groups && g.key == k {
      var j :| 0 <= j < |groups| && groups[j] == g;
      assert after[j] in after;
    }
    if g :| g in after && g.key == k {
      var j :| 0 <= j < |after| && after[j] == g;
      assert groups[j] in groups;
    }
  }

  lemma NothingGrouped<K(!new)>(keyOf: map<Record, K>)
    ensures Sorted([], keyOf) && Size<K>([]) == 0 && Members<K>([]) == {} && Separate<K>([]) && Grouped([], [], keyOf)
  {
  }

  method GroupBy<K(==,!new)>(records: seq<Record>, keyOf: map<Record, K>) returns (groups: seq<Group<K>>)
    requires forall r <- records :: r in keyOf
    ensures Sorted(groups, keyOf) && Size(groups) == |records| && Members(groups) == set r | r in records
    ensures Grouped(groups, records, keyOf)
    ensures DistinctIds(records) ==> Separate(groups)
  {
    hide Sorted, Separate, Insert, Members, Size, DistinctIds, Grouped;
    groups := [];
    NothingGrouped(keyOf);
    for k := 0 to |records|
      invariant Sorted(groups, keyOf) && Size(groups) == k && Members(groups) == set r | r in records[..k]
      invariant Grouped(groups, records[..k], keyOf)
      invariant DistinctIds(records) ==> Separate(groups)
    {
      if DistinctIds(records) {
        NewToAll(records, k, groups);
        InsertApart(groups, keyOf[records[k]], records[k]);
      }
      InsertSorted(groups, keyOf[records[k]], records[k], keyOf);
      InsertSize(groups, keyOf[records[k]], records[k]);
      InsertMembers(groups, keyOf[records[k]], records[k]);
      InsertGroups(groups, records[..k], keyOf, records[k]);
      assert records[..k + 1] == records[..k] + [records[k]];
      groups := Insert(groups, keyOf[records[k]], records[k]);
    }
    assert records[..|records|] == records;
  }

  lemma {:induction false} SizeSplit<K>(groups: seq<Group<K>>, n: nat)
    requires n < |groups|
    ensures Size(groups[..n + 1]) == Size(groups[..n]) + |groups[n].members|
    ensures Size(groups[..n + 1]) <= Size(groups)
  {
    assert groups[..n + 1][1..] == groups[1..][..n];
    if n == 0 {
      assert groups[..1][1..] == [];
    } else {
      SizeSplit(groups[1..], n - 1);
      assert groups[..n][1..] == groups[1..][..n - 1];
    }
  }

  /** The Message-IDs of the first `n` groups. */
  ghost function GroupIds<K(!new)>(groups: seq<Group<K>>, n: nat): set<string>
    requires n <= |groups|
  {
    if n == 0 then {} else GroupIds(groups, n - 1) + Ids(groups[n - 1].members)
  }

  lemma GroupIdsStep<K(!new)>(groups: seq<Group<K>>, n: nat)
    requires n < |groups|
    ensures GroupIds(groups, n + 1) == GroupIds(groups, n) + Ids(groups[n].members)
  {
  }

  lemma NoGroups<K(!new)>(groups: seq<Group<K>>)
    ensures Size(groups[..0]) == 0 && GroupIds(groups, 0) == {}
  {
  }

  lemma WholeSize<K(!new)>(groups: seq<Group<K>>)
    ensures groups[..|groups|] == groups
  {
  }

  lemma {:induction false} GroupIdsAre<K(!new)>(groups: seq<Group<K>>, n: nat)
    requires n <= |groups|
    ensures forall id :: id in GroupIds(groups, n) <==> exists k :: 0 <= k < n && id in Ids(groups[k].members)
  {
    if n > 0 { GroupIdsAre(groups, n - 1); }
  }

  lemma EveryId<K(!new)>(groups: seq<Group<K>>, all: seq<Record>)
    requires Members(groups) == set r | r in all
    ensures GroupIds(groups, |groups|) == Ids(all)
  {
    GroupIdsAre(groups, |groups|);
    forall id ensures id in GroupIds(groups, |groups|) <==> id in Ids(all) {
      if id in Ids(all) {
        var r :| r in all && r.id == id;
        assert r in Members(groups);
        var g :| g in groups && r in g.members;
        var k :| 0 <= k < |groups| && groups[k] == g;
        assert id in Ids(groups[k].members);
      }
      if id in GroupIds(groups, |groups|) {
        var k :| 0 <= k < |groups| && id in Ids(groups[k].members);
        var r :| r in groups[k].members && r.id == id;
        assert groups[k] in groups && r in Members(groups);
      }
    }
  }

  lemma AllOf(records: seq<Record>)
    ensures records[..|records|] == records
  {
  }

  /** No two groups share a Message-ID, and no group has one twice. */
  ghost predicate Separate<K(!new)>(groups: seq<Group<K>>) {
    && (forall g <- groups :: DistinctIds(g.members))
    && (forall i, j :: 0 <= i < j < |groups| ==> Ids(groups[i].members) !! Ids(groups[j].members))
  }

  lemma ApartSplit<K(!new)>(groups: seq<Group<K>>)
    requires groups != []
    ensures Separate(groups) <==> DistinctIds(groups[0].members) && Separate(groups[1..]) && Disjoint(groups[0].members, groups[1..])
  {
    if DistinctIds(groups[0].members) && Separate(groups[1..]) && Disjoint(groups[0].members, groups[1..]) {
      forall g <- groups ensures DistinctIds(g.members) {
        assert g == groups[0] || g in groups[1..];
      }
      forall i, j | 0 <= i < j < |groups| ensures Ids(groups[i].members) !! Ids(groups[j].members) {
        assert groups[j] == groups[1..][j - 1];
        if i > 0 { assert groups[i] == groups[1..][i - 1]; }
      }
    }
    if Separate(groups) {
      forall g <- groups[1..] ensures Ids(groups[0].members) !! Ids(g.members) {
        var j :| 0 <= j < |groups[1..]| && groups[1..][j] == g;
        assert groups[j + 1] == g;
      }
      assert groups[0] in groups;
    }
  }

  ghost predicate Disjoint<K(!new)>(members: seq<Record>, groups: seq<Group<K>>) {
    forall g <- groups :: Ids(members) !! Ids(g.members)
  }

  ghost predicate NewTo<K(!new)>(r: Record, groups: seq<Group<K>>) {
    forall g <- groups :: r.id !in Ids(g.members)
  }

  lemma {:induction false} InsertApart<K(!new)>(groups: seq<Group<K>>, key: K, r: Record)
    requires Separate(groups) && NewTo(r, groups)
    ensures Separate(Insert(groups, key, r))
    ensures forall g <- Insert(groups, key, r), id :: id in Ids(g.members) ==> id == r.id || exists h <- groups :: id in Ids(h.members)
  {
    var after := Insert(groups, key, r);
    ApartSplit(after);
    if groups == [] {
      assert after[1..] == [] && Ids([r]) == {r.id};
    } else {
      ApartSplit(groups);
      assert groups[0] in groups && groups == [groups[0]] + groups[1..];
      if groups[0].key == key {
        assert after[1..] == groups[1..];
        IdsSnoc(groups[0].members, r);
        forall k | 0 <= k < |groups[0].members| ensures groups[0].members[k].id != r.id {
          assert groups[0].members[k] in groups[0].members;
        }
      } else {
        InsertApart(groups[1..], key, r);
        assert after[1..] == Insert(groups[1..], key, r);
        assert forall g <- groups[1..] :: g in groups;
      }
    }
  }

  lemma NewToAll<K(!new)>(records: seq<Record>, k: nat, groups: seq<Group<K>>)
    requires k < |records| && DistinctIds(records) && Members(groups) == set r | r in records[..k]
    ensures NewTo(records[k], groups)
  {
    forall g <- groups ensures records[k].id !in Ids(g.members) {
      forall m <- g.members ensures m.id != records[k].id {
        assert m in Members(groups);
        var j :| 0 <= j < k && records[..k][j] == m;
        assert records[j] == m;
      }
    }
  }

  // ---------- the progress watermark ----------

  const STATE_KEY := "batch_op:state"
  const IDLE := "idle"

  function ProgressText(op: string, done: nat, total: nat): string {
    "{\"op\": \"" + op + "\", \"done\": " + Print(done) + ", \"total\": " + Print(total) + "}"
  }

  /** Whether the watermark means that a worker is in flight. */
  predicate BatchRunning(state: Option<string>) {
    state.Some? && state.value != IDLE
  }

  /** Every progress payload counts as running, so only the reset to idle ends a batch for its readers. */
  lemma ProgressIsRunning(op: string, done: nat, total: nat)
    ensures BatchRunning(Some(ProgressText(op, done, total)))
  {
    assert ProgressText(op, done, total)[0] == '{';
  }

  /** How much of the text is before the first `c`. */
  function Before(text: string, c: char): (n: nat)
    ensures n <= |text|
  {
    if text == "" || text[0] == c then 0 else 1 + Before(text[1..], c)
  }

  /** How many digits the text starts with. */
  function DigitsOf(text: string): (n: nat)
    ensures n <= |text| && AllDigits(text[..n])
  {
    if text == "" || !IsDigit(text[0]) then 0
    else
      var n := 1 + DigitsOf(text[1..]);
      assert forall i :: 0 <= i < n ==> text[..n][i] == if i == 0 then text[0] else text[1..][..n - 1][i - 1];
      n
  }

  /** The text behind `mark`, which it has to start with. */
  function Behind(text: string, mark: string): Option<string> {
    if mark <= text then Some(text[|mark|..]) else None
  }

  function NumberThen(text: Option<string>): Option<(nat, string)> {
    if text.None? || DigitsOf(text.value) == 0 then None
    else Some((Decimal.Value(text.value[..DigitsOf(text.value)]), text.value[DigitsOf(text.value)..]))
  }

  /** What a reader of the watermark makes of a payload: the operation, how many are done, and of how many. */
  function ReadProgress(text: string): Option<(string, nat, nat)> {
    match Behind(text, "{\"op\": \"")
    case None => None
    case Some(rest) =>
      var n := Before(rest, '"');
      match NumberThen(Behind(rest[n..], "\", \"done\": "))
      case None => None
      case Some((done, later)) =>
        match NumberThen(Behind(later, ", \"total\": "))
        case None => None
        case Some((total, end)) => if end == "}" then Some((rest[..n], done, total)) else None
  }

  lemma {:induction false} BeforeIs(text: string, c: char, tail: string)
    requires c !in text
    ensures Before(text + [c] + tail, c) == |text|
  {
    var all := text + [c] + tail;
    if text != "" {
      assert all[0] == text[0] && text[0] in text && all[1..] == text[1..] + [c] + tail;
      BeforeIs(text[1..], c, tail);
    }
  }

  lemma {:induction false} DigitsAre(digits: string, tail: string)
    requires AllDigits(digits) && (tail == "" || !IsDigit(tail[0]))
    ensures DigitsOf(digits + tail) == |digits|
  {
    if digits == "" {
      assert digits + tail == tail;
    } else {
      assert IsDigit(digits[0]) && (digits + tail)[1..] == digits[1..] + tail;
      DigitsAre(digits[1..], tail);
    }
  }

  lemma NumberIs(n: nat, tail: string)
    requires tail == "" || !IsDigit(tail[0])
    ensures NumberThen(Some(Print(n) + tail)) == Some((n, tail))
  {
    hide Print, Decimal.Value, DigitsOf;
    var text := Print(n) + tail;
    DigitsAre(Print(n), tail);
    ParsePrint(n);
    assert text[..|Print(n)|] == Print(n) && text[|Print(n)|..] == tail;
  }

  lemma BehindIs(mark: string, tail: string)
    ensures Behind(mark + tail, mark) == Some(tail)
  {
  }

  /** Main result: a payload tells its reader the operation, how many are done, and of how many. */
  lemma ProgressReads(op: string, done: nat, total: nat)
    requires '"' !in op
    ensures ReadProgress(ProgressText(op, done, total)) == Some((op, done, total))
  {
    hide Print, Before, NumberThen, Behind;
    var end := Print(total) + "}";
    var later := ", \"total\": " + end;
    var rest := "\", \"done\": " + (Print(done) + later);
    assert ProgressText(op, done, total) == "{\"op\": \"" + (op + rest);
    BehindIs("{\"op\": \"", op + rest);
    assert rest == ['"'] + rest[1..] && op + rest == op + ['"'] + rest[1..];
    BeforeIs(op, '"', rest[1..]);
    assert (op + rest)[|op|..] == rest && (op + rest)[..|op|] == op;
    BehindIs("\", \"done\": ", Print(done) + later);
    NumberIs(done, later);
    BehindIs(", \"total\": ", end);
    NumberIs(total, "}");
  }

  /** The progress payloads as the watermark table receives them. */
  function Texts(op: string, shown: seq<nat>, total: nat): seq<(string, string)> {
    seq(|shown|, i requires 0 <= i < |shown| => (STATE_KEY, ProgressText(op, shown[i], total)))
  }

  /** What was written from `before` to `now` is this progress: it never goes back and stays within `last`. */
  ghost predicate Counted(before: seq<(string, string)>, now: seq<(string, string)>, op: string, shown: seq<nat>, last: nat, total: nat) {
    && now == before + Texts(op, shown, total) && last <= total
    && (forall i, j :: 0 <= i < j < |shown| ==> shown[i] <= shown[j])
    && (forall n <- shown :: n <= last)
  }

  /** The last progress shown, if any, is `n`. */
  predicate EndsAt(shown: seq<nat>, n: nat) {
    if shown == [] then n == 0 else shown[|shown| - 1] == n
  }

  lemma NothingCounted(before: seq<(string, string)>, op: string, total: nat)
    ensures Counted(before, before, op, [], 0, total)
  {
    assert Texts(op, [], total) == [];
  }

  lemma CountedMore(before: seq<(string, string)>, now: seq<(string, string)>, op: string, shown: seq<nat>, last: nat, n: nat, total: nat)
    requires Counted(before, now, op, shown, last, total) && last <= n <= total
    ensures Counted(before, now + [(STATE_KEY, ProgressText(op, n, total))], op, shown + [n], n, total)
  {
    hide ProgressText;
    var line := (STATE_KEY, ProgressText(op, n, total));
    assert Texts(op, shown + [n], total) == Texts(op, shown, total) + [line];
    assert before + Texts(op, shown, total) + [line] == before + (Texts(op, shown, total) + [line]);
    assert forall k: nat :: k < |shown| ==> shown[k] in shown;
    assert forall m <- shown + [n] :: m in shown || m == n;
  }

  lemma CountedOn(a: seq<(string, string)>, b: seq<(string, string)>, c: seq<(string, string)>, op: string, first: seq<nat>, second: seq<nat>,
                  last: nat, total: nat)
    requires Counted(a, b, op, first, 0, total) && Counted(b, c, op, second, last, total)
    ensures Counted(a, c, op, first + second, last, total)
  {
    hide ProgressText;
    assert Texts(op, first + second, total) == Texts(op, first, total) + Texts(op, second, total);
    assert forall k: nat :: k < |first| ==> first[k] in first;
    assert forall m <- first + second :: m in first || m in second;
    assert a + Texts(op, first, total) + Texts(op, second, total) == a + (Texts(op, first, total) + Texts(op, second, total));
  }

  /** A whole run as the watermark table saw it: from nothing done, through rising progress, to idle. */
  ghost predicate Reported(before: seq<(string, string)>, now: seq<(string, string)>, op: string, shown: seq<nat>, total: nat) {
    && shown != [] && shown[0] == 0
    && now == before + Texts(op, shown, total) + [(STATE_KEY, IDLE)]
    && (forall i, j :: 0 <= i < j < |shown| ==> shown[i] <= shown[j])
    && forall n <- shown :: n <= total
  }

  lemma StartCounting(before: seq<(string, string)>, op: string, total: nat)
    ensures Counted(before, before + [(STATE_KEY, ProgressText(op, 0, total))], op, [0], 0, total)
  {
    hide ProgressText;
    NothingCounted(before, op, total);
    CountedMore(before, before, op, [], 0, 0, total);
  }

  lemma FinishCounting(before: seq<(string, string)>, now: seq<(string, string)>, op: string, shown: seq<nat>, last: nat, total: nat)
    requires Counted(before, now, op, shown, last, total) && shown != [] && shown[0] == 0
    ensures Reported(before, now + [(STATE_KEY, IDLE)], op, shown, total)
  {
  }

  lemma {:induction false} DistinctSize(records: seq<Record>)
    requires DistinctIds(records)
    ensures |Ids(records)| == |records|
  {
    if records == [] {
      assert Ids(records) == {};
    } else {
      var before, r := records[..|records| - 1], records[|records| - 1];
      assert records == before + [r];
      DistinctSize(before);
      IdsSnoc(before, r);
      assert forall k :: 0 <= k < |before| ==> before[k] == records[k] && records[k].id != records[|before|].id;
      assert r.id !in Ids(before);
    }
  }

  lemma CountedWithin(before: seq<(string, string)>, now: seq<(string, string)>, op: string, shown: seq<nat>, last: nat, n: nat, total: nat)
    requires Counted(before, now, op, shown, last, total) && last <= n <= total
    ensures Counted(before, now, op, shown, n, total)
  {
  }

  lemma OneLess<V>(m: map<string, V>, records: seq<Record>, n: nat)
    requires n < |records|
    ensures m - Ids(records[..n]) - {records[n].id} == m - Ids(records[..n + 1])
  {
    assert records[..n + 1] == records[..n] + [records[n]];
    IdsSnoc(records[..n], records[n]);
    hide Ids;
    assert m - Ids(records[..n]) - {records[n].id} == m - (Ids(records[..n]) + {records[n].id});
  }

  lemma NoneLess<V>(m: map<string, V>, records: seq<Record>)
    ensures m - Ids(records[..0]) == m
  {
  }

  /** Rows without a server to ask: they go one by one, each counted, until all `n` of them are gone or the
      database raises. */
  method DeleteAllRows(db: Database, records: seq<Record>, op: string, total: nat) returns (ok: bool, n: nat, ghost shown: seq<nat>)
    requires db.Valid() && |records| == total
    modifies db`rows, db`decisions, db`marks, db`written, db`writes
    ensures db.Valid() && n <= total && old(db.writes) <= db.writes
    ensures db.rows == old(db.rows) - Ids(records[..n]) && db.decisions == old(db.decisions) - Ids(records[..n])
    ensures Counted(old(db.written), db.written, op, shown, n, total) && (ok ==> n == total && EndsAt(shown, total))
    ensures ok <==> NoFault(db.goes, old(db.writes), db.writes)
  {
    hide Counted, ProgressText, NoFault, Ids;
    shown, n := [], 0;
    NoneLess(db.rows, records);
    NoneLess(db.decisions, records);
    NothingCounted(db.written, op, total);
    NoneYet(db.goes, db.writes);
    while n < |records|
      invariant db.Valid() && n <= |records| && old(db.writes) <= db.writes && NoFault(db.goes, old(db.writes), db.writes)
      invariant db.rows == old(db.rows) - Ids(records[..n]) && db.decisions == old(db.decisions) - Ids(records[..n])
      invariant Counted(old(db.written), db.written, op, shown, n, total) && EndsAt(shown, n)
    {
      OneMore(db.goes, old(db.writes), db.writes);
      ok := db.Attempt();
      if !ok { return; }
      OneLess(old(db.rows), records, n);
      OneLess(old(db.decisions), records, n);
      var _ := db.DeleteRecord(records[n].id);
      OneMore(db.goes, old(db.writes), db.writes);
      ok := db.Attempt();
      if !ok {
        CountedWithin(old(db.written), db.written, op, shown, n, n + 1, total);
        n := n + 1;
        return;
      }
      CountedMore(old(db.written), db.written, op, shown, n, n + 1, total);
      n := n + 1;
      db.SetWatermark(STATE_KEY, ProgressText(op, n, total));
      shown := shown + [n];
    }
    ok := true;
  }
}
