/**
 Ingestion as a protocol between the client's stored watermarks and a mailbox that other parties
 deliver to, expunge from and renumber at any moment: pipeline/__init__.py lines 59-164 and 389-414,
 section 2.3.1.1 of RFC 3501. The server always advertises its UIDVALIDITY.
 */
module IngestProtocol {
  import opened Outcome
  import opened Decimal
  import opened Mailboxes
  import opened MailDatabase
  import opened IngestBatch
  import opened ImapClient

  const WATERMARK_KEY := "imap_uid"
  const UIDVALIDITY_KEY := "imap_uidvalidity"

  type Marks = map<string, string>

  function Mark(marks: Marks, key: string): Option<string> {
    if key in marks then Some(marks[key]) else None
  }

  // ---------- the decisions of one run ----------

  /** A stored validity that differs from the server's makes the watermark meaningless. */
  function Guarded(marks: Marks, current: nat, dry: bool): Marks {
    var stored := Mark(marks, UIDVALIDITY_KEY);
    if stored.Some? && stored.value != Print(current) && !dry then marks - {WATERMARK_KEY} else marks
  }

  /** What to search for; a watermark that is no number makes a command the server rejects. */
  function CriteriaFor(watermark: Option<string>): Option<Criteria> {
    match watermark
    case None => Some(All)
    case Some(text) => match Parse(text)
      case Some(w) => Some(From(w))
      case None => None
  }

  function Above(uids: seq<nat>, w: nat): (newer: seq<nat>)
    ensures forall u :: u in newer <==> u in uids && u > w
  {
    if uids == [] then []
    else (if uids[0] > w then [uids[0]] else []) + Above(uids[1..], w)
  }

  /** `UID w:*` also answers with the highest message there is, so the watermark is filtered out again. */
  function Newer(uids: seq<nat>, watermark: Option<string>): seq<nat> {
    match watermark
    case None => uids
    case Some(text) => match Parse(text)
      case Some(w) => Above(uids, w)
      case None => uids
  }

  function Highest(messages: seq<Fetched>): (h: nat)
    ensures forall m <- messages :: m.uid <= h
    ensures messages != [] ==> exists m <- messages :: m.uid == h
    ensures messages == [] ==> h == 0
  {
    if messages == [] then 0
    else
      var rest := Highest(messages[1..]);
      assert messages == [messages[0]] + messages[1..];
      if messages[0].uid > rest then messages[0].uid else rest
  }

  function Advanced(marks: Marks, messages: seq<Fetched>): Marks {
    if Highest(messages) > 0 then marks[WATERMARK_KEY := Print(Highest(messages))] else marks
  }

  // ---------- the transition system ----------

  /** Where a run of ingest is. `current` is the validity it read first; `space` the validity under
      which the messages were fetched. */
  datatype Phase =
    | Idle
    | Selected(current: nat, dry: bool)
    | Searched(current: nat, dry: bool, uids: seq<nat>)
    | Storing(current: nat, dry: bool, space: nat, messages: seq<Fetched>, done: nat)
    | Marked(current: nat)

  /** The mailbox, the database and the running ingest, together with what the proofs remember: what
      became of each message under each validity, the rows deleted by others, the validity the
      watermark was taken under, and whether a run ever started from a watermark of another validity
      without noticing. */
  datatype State = State(
    box: Mailbox, rows: Rows, marks: Marks, phase: Phase,
    ledger: map<(nat, nat), Fate>, discarded: set<string>, origin: nat, misled: bool)

  datatype Event =
    | Deliver(mail: Mail)
    | Remove(uids: set<nat>)
    | Renumber(anew: Mailbox)
    | Discard(id: string)
    | Begin(asDry: bool)
    | Search
    | Fetch
    | StoreOne(parse: map<Mail, string>, folder: string, broken: set<nat>)
    | WriteWatermark
    | WriteValidity
    | Abort

  /** The run is about to trust a watermark although no validity is stored with it. */
  predicate Unchecked(s: State) {
    UIDVALIDITY_KEY !in s.marks && WATERMARK_KEY in s.marks
  }

  predicate Enabled(s: State, e: Event) {
    match e
    case Deliver(_) => true
    case Remove(_) => true
    case Renumber(anew) => anew.Valid() && anew.validity > s.box.validity
    case Discard(_) => true
    case Begin(_) => s.phase.Idle?
    case Search => s.phase.Selected? && CriteriaFor(Mark(s.marks, WATERMARK_KEY)).Some?
    case Fetch => s.phase.Searched?
    case StoreOne(_, _, _) => s.phase.Storing? && s.phase.done < |s.phase.messages|
    case WriteWatermark => s.phase.Storing? && s.phase.done == |s.phase.messages| && !s.phase.dry
    case WriteValidity => s.phase.Marked?
    case Abort => !s.phase.Idle?
  }

  function SearchResult(s: State): seq<nat>
    requires Enabled(s, Event.Search)
  {
    var watermark := Mark(s.marks, WATERMARK_KEY);
    Newer(ImapClient.Search(s.box, CriteriaFor(watermark).value), watermark)
  }

  function SettingOf(s: State, e: Event): Setting
    requires e.StoreOne? && Enabled(s, e)
  {
    Setting(e.parse, e.folder, s.phase.dry, e.broken)
  }

  function Next(s: State, e: Event): State
    requires Enabled(s, e)
  {
    match e
    case Deliver(mail) =>
      s.(box := s.box.(next := s.box.next + 1, slots := s.box.slots[s.box.next := Slot(mail, false)]))
    case Remove(uids) => s.(box := s.box.(slots := s.box.slots - uids))
    case Renumber(anew) => s.(box := anew)
    case Discard(id) => s.(rows := s.rows - {id}, discarded := s.discarded + {id})
    case Begin(dry) =>
      s.(phase := Selected(s.box.validity, dry), marks := Guarded(s.marks, s.box.validity, dry),
         misled := s.misled || (!dry && Unchecked(s) && s.origin != s.box.validity))
    case Search =>
      var uids := SearchResult(s);
      s.(phase := if uids == [] then Idle else Searched(s.phase.current, s.phase.dry, uids))
    case Fetch =>
      var messages := FetchFrom(s.box, s.phase.uids);
      s.(phase := if messages == [] then Idle else Storing(s.phase.current, s.phase.dry, s.box.validity, messages, 0))
    case StoreOne(_, _, _) =>
      var m, k, setting := s.phase.messages[s.phase.done], s.phase.done, SettingOf(s, e);
      s.(rows := RowsAfter(s.rows, m, k, setting), phase := s.phase.(done := k + 1),
         ledger := if s.phase.dry then s.ledger else s.ledger[(s.phase.space, m.uid) := FateOf(s.rows, m, k, setting)])
    case WriteWatermark =>
      s.(marks := Advanced(s.marks, s.phase.messages), phase := Marked(s.phase.current), origin := s.phase.current)
    case WriteValidity => s.(marks := s.marks[UIDVALIDITY_KEY := Print(s.phase.current)], phase := Idle)
    case Abort => s.(phase := Idle)
  }

  ghost predicate Possible(s: State, events: seq<Event>)
    decreases |events|
  {
    events == [] || (Enabled(s, events[0]) && Possible(Next(s, events[0]), events[1..]))
  }

  function Run(s: State, events: seq<Event>): State
    requires Possible(s, events)
    decreases |events|
  {
    if events == [] then s else Run(Next(s, events[0]), events[1..])
  }

  predicate Initial(s: State) {
    && s.box.Valid() && s.phase == Idle && s.rows == map[] && s.ledger == map[] && s.discarded == {}
    && WATERMARK_KEY !in s.marks && UIDVALIDITY_KEY !in s.marks && !s.misled
  }

  // ---------- a run nobody disturbs ----------

  lemma {:induction false} RunAppend(s: State, first: seq<Event>, second: seq<Event>)
    requires Possible(s, first) && Possible(Run(s, first), second)
    ensures Possible(s, first + second) && Run(s, first + second) == Run(Run(s, first), second)
    decreases |first|
  {
    hide Enabled, Next;
    if first == [] {
      assert first + second == second;
    } else {
      assert (first + second)[0] == first[0] && (first + second)[1..] == first[1..] + second;
      RunAppend(Next(s, first[0]), first[1..], second);
    }
  }

  lemma RunOne(s: State, e: Event)
    requires Enabled(s, e)
    ensures Possible(s, [e]) && Run(s, [e]) == Next(s, e)
  {
    assert [e][1..] == [];
  }

  function Times(e: Event, n: nat): seq<Event> {
    if n == 0 then [] else Times(e, n - 1) + [e]
  }

  /** The ledger after the first `n` messages. */
  function Entered(ledger: map<(nat, nat), Fate>, space: nat, rows: Rows, messages: seq<Fetched>, s: Setting, n: nat): map<(nat, nat), Fate>
    requires n <= |messages|
  {
    if n == 0 || s.dry then ledger
    else
      var m := messages[n - 1];
      Entered(ledger, space, rows, messages, s, n - 1)[(space, m.uid) := FateOf(After(rows, messages, s, n - 1).0, m, n - 1, s)]
  }

  lemma {:induction false} EnteredKeys(ledger: map<(nat, nat), Fate>, space: nat, rows: Rows, messages: seq<Fetched>, s: Setting, n: nat)
    requires n <= |messages| && !s.dry
    ensures forall v: nat, u: nat :: (v, u) in Entered(ledger, space, rows, messages, s, n) <==>
              (v, u) in ledger || (v == space && exists k :: 0 <= k < n && messages[k].uid == u)
  {
    if n > 0 { EnteredKeys(ledger, space, rows, messages, s, n - 1); }
  }

  /** Storing message by message is the batch of IngestBatch. */
  lemma {:induction false} StoringRuns(s: State, e: Event, n: nat)
    requires s.phase.Storing? && s.phase.done == 0 && n <= |s.phase.messages| && e.StoreOne?
    ensures var setting := Setting(e.parse, e.folder, s.phase.dry, e.broken);
            && Possible(s, Times(e, n))
            && Run(s, Times(e, n)) == s.(
                 rows := After(s.rows, s.phase.messages, setting, n).0,
                 phase := s.phase.(done := n),
                 ledger := Entered(s.ledger, s.phase.space, s.rows, s.phase.messages, setting, n))
  {
    if n > 0 {
      StoringRuns(s, e, n - 1);
      var t := Run(s, Times(e, n - 1));
      RunOne(t, e);
      RunAppend(s, Times(e, n - 1), [e]);
    }
  }
}
