/**
 What every step of ingestion keeps, and what follows for whole runs: pipeline/__init__.py lines 59-164
 and 389-414.
 */
module IngestSafety {
  import opened Outcome
  import opened Decimal
  import opened Mailboxes
  import opened MailDatabase
  import opened IngestBatch
  import opened ImapClient
  import opened IngestProtocol

  // ---------- the invariant ----------

  function Number(marks: Marks, key: string): Option<nat> {
    if key in marks then Parse(marks[key]) else None
  }

  ghost predicate WellWritten(marks: Marks, key: string) {
    key in marks ==> Parse(marks[key]).Some? && marks[key] == Print(Parse(marks[key]).value)
  }

  /** Every message up to `w` was stored, found to be stored already, or reported. */
  ghost predicate Covered(box: Mailbox, w: nat, ledger: map<(nat, nat), Fate>) {
    forall u <- box.slots :: u <= w ==> (box.validity, u) in ledger
  }

  ghost predicate LedgerFits(s: State) {
    forall v, u :: (v, u) in s.ledger ==> v < s.box.validity || (v == s.box.validity && u < s.box.next)
  }

  /** What the ledger says was stored is in the table, unless somebody deleted it since. */
  ghost predicate RowsBackLedger(s: State) {
    forall k <- s.ledger :: Backed(s.ledger[k], s.rows, s.discarded)
  }

  ghost predicate Backed(fate: Fate, rows: Rows, discarded: set<string>) {
    match fate
    case New(id) => id in rows || id in discarded
    case Duplicate(id) => id in rows || id in discarded
    case _ => true
  }

  ghost predicate MarksFit(s: State) {
    && WellWritten(s.marks, WATERMARK_KEY) && WellWritten(s.marks, UIDVALIDITY_KEY)
    && (WATERMARK_KEY in s.marks ==> s.origin <= s.box.validity)
    && var stored := Number(s.marks, UIDVALIDITY_KEY);
       stored.Some? ==> stored.value <= s.box.validity && (WATERMARK_KEY in s.marks ==> stored.value <= s.origin)
  }

  /** The watermark tells the truth about the namespace it was taken under. */
  ghost predicate WatermarkTrue(s: State) {
    var w := Number(s.marks, WATERMARK_KEY);
    w.Some? && s.origin == s.box.validity ==> w.value < s.box.next && Covered(s.box, w.value, s.ledger)
  }

  /** A run that is not dry only goes on under its first validity with a watermark of that validity. */
  ghost predicate PhaseTrue(s: State) {
    match s.phase
    case Idle => true
    case Selected(current, dry) => Underway(s, current, dry)
    case Searched(current, dry, uids) =>
      && Underway(s, current, dry)
      && (current == s.box.validity ==> forall x <- uids :: x < s.box.next)
      && (!dry && !s.misled && current == s.box.validity ==> forall u <- s.box.slots :: Sought(s, u))
    case Storing(current, dry, space, messages, done) =>
      && Underway(s, current, dry)
      && current <= space <= s.box.validity && done <= |messages| && messages != []
      && (forall m <- messages :: 1 <= m.uid)
      && (space == s.box.validity ==> forall m <- messages :: m.uid < s.box.next)
      && (!dry && !s.misled && current == s.box.validity ==> forall u <- s.box.slots :: Pending(s, u))
    case Marked(current) => Underway(s, current, true) && (WATERMARK_KEY in s.marks ==> current <= s.origin)
  }

  ghost predicate Underway(s: State, current: nat, dry: bool) {
    var stored := Number(s.marks, UIDVALIDITY_KEY);
    && current <= s.box.validity && (!dry && stored.Some? ==> stored.value <= current)
    && (!dry && !s.misled && current == s.box.validity && WATERMARK_KEY in s.marks ==> s.origin == current)
  }

  /** A message is accounted for, about to be fetched, or newer than anything found. */
  ghost predicate Sought(s: State, u: nat)
    requires s.phase.Searched?
  {
    || u in s.phase.uids
    || (s.box.validity, u) in s.ledger
    || forall x <- s.phase.uids :: x < u
  }

  /** A message is accounted for, about to be stored, or newer than anything fetched. */
  ghost predicate Pending(s: State, u: nat)
    requires s.phase.Storing?
  {
    || (s.box.validity, u) in s.ledger
    || (exists k :: s.phase.done <= k < |s.phase.messages| && s.phase.messages[k].uid == u)
    || forall m <- s.phase.messages :: m.uid < u
  }

  ghost predicate Inv(s: State) {
    && s.box.Valid() && LedgerFits(s) && RowsBackLedger(s) && MarksFit(s)
    && (!s.misled ==> WatermarkTrue(s))
    && PhaseTrue(s)
  }

  // ---------- every step keeps it ----------

  lemma PrintInjective(a: nat, b: nat)
    ensures Print(a) == Print(b) <==> a == b
  {
    ParsePrint(a);
    ParsePrint(b);
  }

  lemma OthersKeep(s: State, e: Event)
    requires Inv(s) && Enabled(s, e) && (e.Deliver? || e.Remove? || e.Renumber? || e.Discard? || e.Abort?)
    ensures Inv(Next(s, e))
  {
    hide WellWritten, Backed;
    var t := Next(s, e);
    if e.Discard? {
      BackedStill(s.ledger, s.rows, t.rows, s.discarded, t.discarded);
    }
    assert PhaseTrue(t) by {
      if s.phase.Storing? && t.phase.Storing? {
        forall u <- t.box.slots | !s.phase.dry && !s.misled && s.phase.current == t.box.validity ensures Pending(t, u) {
          assert u in s.box.slots ==> Pending(s, u);
        }
      }
      if s.phase.Searched? && t.phase.Searched? {
        forall u <- t.box.slots | !s.phase.dry && !s.misled && s.phase.current == t.box.validity ensures Sought(t, u) {
          assert u in s.box.slots ==> Sought(s, u);
        }
      }
    }
  }

  lemma BackedStill(ledger: map<(nat, nat), Fate>, rows: Rows, next: Rows, discarded: set<string>, more: set<string>)
    requires forall k <- ledger :: Backed(ledger[k], rows, discarded)
    requires rows.Keys + discarded <= next.Keys + more
    ensures forall k <- ledger :: Backed(ledger[k], next, more)
  {
    forall k <- ledger ensures Backed(ledger[k], next, more) {
      assert forall id :: id in rows || id in discarded ==> id in rows.Keys + discarded;
    }
  }

  lemma BeginKeeps(s: State, e: Event)
    requires Inv(s) && Enabled(s, e) && e.Begin?
    ensures Inv(Next(s, e))
  {
    var stored := Number(s.marks, UIDVALIDITY_KEY);
    if stored.Some? { PrintInjective(stored.value, s.box.validity); }
  }

  lemma SearchKeeps(s: State, e: Event)
    requires Inv(s) && Enabled(s, e) && e.Search?
    ensures Inv(Next(s, e))
  {
    var t, uids := Next(s, e), SearchResult(s);
    var watermark := Mark(s.marks, WATERMARK_KEY);
    var c := CriteriaFor(watermark).value;
    var found := ImapClient.Search(s.box, c);
    assert forall u: nat :: u in found <==> u < s.box.next && Matches(s.box, c, u);
    assert forall x <- uids :: x in found;
    if t.phase.Searched? {
      forall u <- s.box.slots | !s.phase.dry && !s.misled && s.phase.current == s.box.validity ensures Sought(t, u) {
        assert watermark.Some? && u <= Parse(watermark.value).value ==> (s.box.validity, u) in s.ledger;
      }
    }
  }

  lemma FetchKeeps(s: State, e: Event)
    requires Inv(s) && Enabled(s, e) && e.Fetch?
    ensures Inv(Next(s, e))
  {
    hide Number, WellWritten;
    var t, messages := Next(s, e), FetchFrom(s.box, s.phase.uids);
    if t.phase.Storing? {
      forall u <- s.box.slots | !s.phase.dry && !s.misled && s.phase.current == s.box.validity ensures Pending(t, u) {
        assert Sought(s, u);
        if u in s.phase.uids {
          assert Fetched(u, s.box.slots[u].mail) in messages;
          var k :| 0 <= k < |messages| && messages[k] == Fetched(u, s.box.slots[u].mail);
        }
      }
    }
  }

  lemma StoreKeeps(s: State, e: Event)
    requires Inv(s) && Enabled(s, e) && e.StoreOne?
    ensures Inv(Next(s, e))
  {
    var t, setting := Next(s, e), SettingOf(s, e);
    var m, k := s.phase.messages[s.phase.done], s.phase.done;
    KeysAfter(s.rows, m, k, setting);
    BackedStill(s.ledger, s.rows, t.rows, s.discarded, s.discarded);
    assert !s.phase.dry ==> Backed(FateOf(s.rows, m, k, setting), t.rows, t.discarded);
    hide Number, WellWritten, Backed, FateOf, RowsAfter;
    assert m in s.phase.messages;
    forall u <- s.box.slots | !s.phase.dry && !s.misled && s.phase.current == s.box.validity ensures Pending(t, u) {
      assert Pending(s, u);
    }
  }

  lemma WatermarkKeeps(s: State, e: Event)
    requires Inv(s) && Enabled(s, e) && e.WriteWatermark?
    ensures Inv(Next(s, e))
  {
    var t, h := Next(s, e), Highest(s.phase.messages);
    ParsePrint(h);
    if !s.misled && s.phase.current == s.box.validity {
      forall u <- s.box.slots | u <= h ensures (s.box.validity, u) in s.ledger {
        assert Pending(s, u);
      }
    }
  }

  lemma ValidityKeeps(s: State, e: Event)
    requires Inv(s) && Enabled(s, e) && e.WriteValidity?
    ensures Inv(Next(s, e))
  {
    ParsePrint(s.phase.current);
  }

  lemma StepKeeps(s: State, e: Event)
    requires Inv(s) && Enabled(s, e)
    ensures Inv(Next(s, e))
  {
    hide Inv, Next;
    match e
    case Begin(_) => BeginKeeps(s, e);
    case Search => SearchKeeps(s, e);
    case Fetch => FetchKeeps(s, e);
    case StoreOne(_, _, _) => StoreKeeps(s, e);
    case WriteWatermark => WatermarkKeeps(s, e);
    case WriteValidity => ValidityKeeps(s, e);
    case _ => OthersKeep(s, e);
  }

  lemma {:induction false} RunKeeps(s: State, events: seq<Event>)
    requires Inv(s) && Possible(s, events)
    ensures Inv(Run(s, events))
    decreases |events|
  {
    hide Inv, Next, Enabled;
    if events != [] {
      StepKeeps(s, events[0]);
      RunKeeps(Next(s, events[0]), events[1..]);
    }
  }

  lemma InitialIsInvariant(s: State)
    requires Initial(s)
    ensures Inv(s)
  {
  }

  /** Main result, over every run whatever the other parties do and wherever it is cut short: when the
      stored validity is the server's, every message at or below the watermark was stored,
      deduplicated or reported, provided no run trusted an unchecked watermark of another validity. */
  lemma NothingSkipped(s: State, events: seq<Event>)
    requires Initial(s) && Possible(s, events)
    ensures var t := Run(s, events);
            var w := Number(t.marks, WATERMARK_KEY);
            !t.misled && Mark(t.marks, UIDVALIDITY_KEY) == Some(Print(t.box.validity)) && w.Some? ==>
              Covered(t.box, w.value, t.ledger)
  {
    InitialIsInvariant(s);
    RunKeeps(s, events);
    ParsePrint(Run(s, events).box.validity);
  }

  /** Over every run: whatever was stored or found to be stored is in the table still, unless somebody
      deleted it. */
  lemma StoredStays(s: State, events: seq<Event>)
    requires Initial(s) && Possible(s, events)
    ensures RowsBackLedger(Run(s, events))
  {
    InitialIsInvariant(s);
    RunKeeps(s, events);
  }

  // ---------- where the rows come from ----------

  function MailIn(box: Mailbox): set<Mail> {
    set u | u in box.slots :: box.slots[u].mail
  }

  /** Everything the server ever held: its first mailbox, what was delivered, and what came with a renumbering. */
  function Served(box: Mailbox, events: seq<Event>): set<Mail> {
    if events == [] then MailIn(box)
    else
      Served(box, events[..|events| - 1]) +
      match events[|events| - 1]
      case Deliver(mail) => {mail}
      case Renumber(anew) => MailIn(anew)
      case _ => {}
  }

  /** Some store of the run parsed this mail to this Message-ID. */
  ghost predicate ParsedTo(events: seq<Event>, mail: Mail, id: string) {
    exists e <- events :: e.StoreOne? && mail in e.parse && e.parse[mail] == id
  }

  /** Where a run has got to: whatever is in the mailbox, on its way or in the table came from the server. */
  ghost predicate FromServer(s: State, box: Mailbox, events: seq<Event>) {
    && MailIn(s.box) <= Served(box, events)
    && (s.phase.Storing? ==> forall m <- s.phase.messages :: m.mail in Served(box, events))
    && forall id <- s.rows :: s.rows[id].mail in Served(box, events) && ParsedTo(events, s.rows[id].mail, id)
  }

  lemma ServedMore(box: Mailbox, events: seq<Event>, e: Event)
    ensures Served(box, events + [e]) == Served(box, events) +
            match e
            case Deliver(mail) => {mail}
            case Renumber(anew) => MailIn(anew)
            case _ => {}
    ensures forall mail, id :: ParsedTo(events, mail, id) ==> ParsedTo(events + [e], mail, id)
  {
    assert (events + [e])[..|events|] == events;
    forall mail, id | ParsedTo(events, mail, id) ensures ParsedTo(events + [e], mail, id) {
      var x :| x in events && x.StoreOne? && mail in x.parse && x.parse[mail] == id;
      assert x in events + [e];
    }
  }

  lemma StepFromServer(s: State, e: Event, box: Mailbox, events: seq<Event>)
    requires FromServer(s, box, events) && Enabled(s, e)
    ensures FromServer(Next(s, e), box, events + [e])
  {
    hide ParsedTo, Served;
    var t := Next(s, e);
    ServedMore(box, events, e);
    if e.StoreOne? {
      StoredFromServer(s, e, box, events);
    } else {
      assert t.rows.Keys <= s.rows.Keys && forall id <- t.rows :: t.rows[id] == s.rows[id];
    }
  }

  lemma StoredFromServer(s: State, e: Event, box: Mailbox, events: seq<Event>)
    requires FromServer(s, box, events) && e.StoreOne? && Enabled(s, e)
    ensures var t := Next(s, e); forall id <- t.rows :: t.rows[id].mail in Served(box, events) && ParsedTo(events + [e], t.rows[id].mail, id)
  {
    hide Served;
    var t := Next(s, e);
    var m := s.phase.messages[s.phase.done];
    assert m in s.phase.messages;
    ServedMore(box, events, e);
    forall id <- t.rows ensures t.rows[id].mail in Served(box, events) && ParsedTo(events + [e], t.rows[id].mail, id) {
      if id in s.rows {
        assert t.rows[id].mail == s.rows[id].mail;
      } else {
        assert e in events + [e];
      }
    }
  }

  lemma {:induction false} RunFromServer(s: State, sofar: seq<Event>, events: seq<Event>, box: Mailbox)
    requires FromServer(s, box, sofar) && Possible(s, events)
    ensures FromServer(Run(s, events), box, sofar + events)
    decreases |events|
  {
    hide FromServer, Enabled, Next;
    if events == [] {
      assert sofar + events == sofar;
    } else {
      StepFromServer(s, events[0], box, sofar);
      RunFromServer(Next(s, events[0]), sofar + [events[0]], events[1..], box);
      assert sofar + [events[0]] + events[1..] == sofar + events;
    }
  }

  /** Over every run: each row holds a mail that the server held and that was parsed to the row's Message-ID. */
  lemma RowsFromServer(s: State, events: seq<Event>)
    requires Initial(s) && Possible(s, events)
    ensures var t := Run(s, events);
            forall id <- t.rows :: t.rows[id].mail in Served(s.box, events) && ParsedTo(events, t.rows[id].mail, id)
  {
    hide Next, Enabled;
    RunFromServer(s, [], events, s.box);
    assert [] + events == events;
  }

  // ---------- when a run is misled ----------

  /** No run is cut short between writing its watermark and writing the first validity ever. */
  ghost predicate CutShortSafely(s: State, events: seq<Event>)
    requires Possible(s, events)
    decreases |events|
  {
    events == [] ||
    (&& (events[0].Abort? && s.phase.Marked? ==> UIDVALIDITY_KEY in s.marks)
     && CutShortSafely(Next(s, events[0]), events[1..]))
  }

  /** With that guard no run is ever misled, so NothingSkipped applies to all of them. */
  lemma {:induction false} NeverMisled(s: State, events: seq<Event>)
    requires Possible(s, events) && CutShortSafely(s, events)
    requires !s.misled && (Unchecked(s) ==> s.phase.Marked?)
    ensures !Run(s, events).misled
    decreases |events|
  {
    if events != [] {
      NeverMisled(Next(s, events[0]), events[1..]);
    }
  }

  /** Main result: from an empty database, or from any sound state whose watermark has its validity stored
      with it, no run ever skips a message, as long as no first run is cut short between its two writes. */
  lemma NothingEverSkipped(s: State, events: seq<Event>)
    requires Initial(s) || (Inv(s) && s.phase.Idle? && !s.misled && !Unchecked(s))
    requires Possible(s, events) && CutShortSafely(s, events)
    ensures var t := Run(s, events);
            var w := Number(t.marks, WATERMARK_KEY);
            Mark(t.marks, UIDVALIDITY_KEY) == Some(Print(t.box.validity)) && w.Some? ==> Covered(t.box, w.value, t.ledger)
  {
    if Initial(s) { InitialIsInvariant(s); }
    RunKeeps(s, events);
    NeverMisled(s, events);
    ParsePrint(Run(s, events).box.validity);
  }
}
