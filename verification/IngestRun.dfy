/**
 One run of ingest against a mailbox nobody else touches meanwhile, as the code performs it, and what
 it amounts to in the protocol: pipeline/__init__.py lines 59-164 and 331-414.
 */
module IngestRun {
  import opened Outcome
  import opened Decimal
  import opened Mailboxes
  import opened MailDatabase
  import opened IngestBatch
  import opened ImapClient
  import opened IngestProtocol
  import opened IngestSafety

  method ReconcileUidvalidity(client: Client, db: Database, folder: string, dry: bool) returns (r: Result<nat, ImapError>)
    requires client.Valid() && db.Valid()
    modifies client, db`marks
    ensures client.Valid() && db.Valid() && client.boxes == old(client.boxes) && client.tick == old(client.tick) + 1
    ensures r.Ok? <==> folder in client.boxes && folder !in client.noselect && Smooth(client.answers, old(client.tick), client.tick)
    ensures r.Ok? ==> client.Ready() && client.selected == Some(folder) && r.value == client.boxes[folder].validity
    ensures r.Err? ==> r.error == ImapError.Refused
    ensures db.marks == if r.Ok? then Guarded(old(db.marks), r.value, dry) else old(db.marks)
  {
    var answer := client.SelectFolderAndUidvalidity(folder);
    if answer.Err? { return Err(answer.error); }
    var current := answer.value.1;
    var stored := db.GetWatermark(UIDVALIDITY_KEY);
    if stored.Some? && stored.value != Print(current) && !dry {
      db.DeleteWatermark(WATERMARK_KEY);
    }
    return Ok(current);
  }

  /** What a run fetches from the mailbox when it goes by these watermarks. */
  function NewMessages(box: Mailbox, marks: Marks): Option<seq<Fetched>> {
    var watermark := Mark(marks, WATERMARK_KEY);
    match CriteriaFor(watermark)
    case None => None
    case Some(c) => Some(FetchFrom(box, Newer(ImapClient.Search(box, c), watermark)))
  }

  method FetchNewMessages(client: Client, db: Database, folder: string) returns (r: Result<seq<Fetched>, ImapError>)
    requires client.Valid()
    modifies client
    ensures client.Valid() && client.boxes == old(client.boxes) && old(client.tick) <= client.tick
    ensures r.Ok? <==> && folder in client.boxes && folder !in client.noselect && Smooth(client.answers, old(client.tick), client.tick)
                       && NewMessages(client.boxes[folder], db.marks).Some?
    ensures r.Ok? ==> NewMessages(client.boxes[folder], db.marks) == Some(r.value)
  {
    hide FetchFrom, Newer, Highest;
    var watermark := db.GetWatermark(WATERMARK_KEY);
    var selected := client.SelectFolder(folder);
    if selected.Err? { return Err(selected.error); }
    var criteria := CriteriaFor(watermark);
    if criteria.None? { return Err(ImapError.Refused); }
    var uids := client.SearchUids(criteria.value);
    if uids.Err? { return Err(uids.error); }
    var newer := Newer(uids.value, watermark);
    NothingNewer(client.boxes[folder]);
    if newer == [] { return Ok([]); }
    r := client.FetchMessages(newer);
  }

  lemma NothingNewer(box: Mailbox)
    ensures FetchFrom(box, []) == []
  {
  }

  /** The steps of a run that finds something. */
  function WholeRun(store: Event, dry: bool, n: nat): seq<Event> {
    FetchAndStore(store, dry, n) + if dry then [Event.Abort] else [WriteWatermark, WriteValidity]
  }

  function AfterFetch(s: State, dry: bool, messages: seq<Fetched>): State {
    var t := Next(s.(phase := Idle), Event.Begin(dry));
    t.(phase := if messages == [] then Idle else Storing(s.box.validity, dry, s.box.validity, messages, 0))
  }

  lemma FetchRuns(s: State, dry: bool)
    requires s.phase.Idle? && NewMessages(s.box, Guarded(s.marks, s.box.validity, dry)).Some?
    requires NewMessages(s.box, Guarded(s.marks, s.box.validity, dry)).value != []
    ensures var e := [Event.Begin(dry), Event.Search, Event.Fetch];
            Possible(s, e) && Run(s, e) == AfterFetch(s, dry, NewMessages(s.box, Guarded(s.marks, s.box.validity, dry)).value)
  {
    var t := Next(s, Event.Begin(dry));
    var uids := SearchResult(t);
    var u := Next(t, Event.Search);
    assert uids != [];
    RunOne(u, Event.Fetch);
    assert [Event.Search, Event.Fetch][1..] == [Event.Fetch];
    assert [Event.Begin(dry), Event.Search, Event.Fetch][1..] == [Event.Search, Event.Fetch];
  }

  function Stamped(t: State): State
    requires t.phase.Storing?
  {
    if t.phase.dry then t.(phase := Idle)
    else t.(marks := Advanced(t.marks, t.phase.messages)[UIDVALIDITY_KEY := Print(t.phase.current)],
            origin := t.phase.current, phase := Idle)
  }

  lemma StampRuns(t: State)
    requires t.phase.Storing? && t.phase.done == |t.phase.messages|
    ensures var e := if t.phase.dry then [Event.Abort] else [WriteWatermark, WriteValidity];
            Possible(t, e) && Run(t, e) == Stamped(t)
  {
    if t.phase.dry {
      RunOne(t, Event.Abort);
    } else {
      RunOne(Next(t, WriteWatermark), WriteValidity);
      assert [WriteWatermark, WriteValidity][1..] == [WriteValidity];
    }
  }

  /** Everything that was fetched has been gone through. */
  function AfterStoring(s: State, messages: seq<Fetched>, setting: Setting): State
    requires messages != []
  {
    var t := AfterFetch(s, setting.dry, messages);
    t.(rows := After(t.rows, messages, setting, |messages|).0,
       phase := t.phase.(done := |messages|),
       ledger := Entered(t.ledger, t.phase.space, t.rows, messages, setting, |messages|))
  }

  function AfterRun(s: State, messages: seq<Fetched>, setting: Setting): State
    requires messages != []
  {
    Stamped(AfterStoring(s, messages, setting))
  }

  lemma StoringFields(s: State, messages: seq<Fetched>, setting: Setting)
    requires messages != []
    ensures var t, v := AfterStoring(s, messages, setting), s.box.validity;
            && t.phase == Storing(v, setting.dry, v, messages, |messages|)
            && t.box == s.box && t.marks == Guarded(s.marks, v, setting.dry)
            && t.rows == Process(s.rows, messages, setting).0
            && t.ledger == Entered(s.ledger, v, s.rows, messages, setting, |messages|)
  {
    hide After, Entered, Guarded;
  }

  function FetchAndStore(store: Event, dry: bool, n: nat): seq<Event> {
    [Event.Begin(dry), Event.Search, Event.Fetch] + Times(store, n)
  }

  lemma StoringIs(s: State, messages: seq<Fetched>, setting: Setting)
    requires s.phase.Idle? && messages != []
    requires NewMessages(s.box, Guarded(s.marks, s.box.validity, setting.dry)) == Some(messages)
    ensures var events := FetchAndStore(StoreOne(setting.parse, setting.folder, setting.broken), setting.dry, |messages|);
            Possible(s, events) && Run(s, events) == AfterStoring(s, messages, setting)
  {
    hide Possible, Run, Guarded, NewMessages, After, Entered, Times, AfterFetch;
    var store := StoreOne(setting.parse, setting.folder, setting.broken);
    var fetched := AfterFetch(s, setting.dry, messages);
    FetchRuns(s, setting.dry);
    AfterFetchFields(s, setting.dry, messages);
    StoringRuns(fetched, store, |messages|);
    RunAppend(s, [Event.Begin(setting.dry), Event.Search, Event.Fetch], Times(store, |messages|));
  }

  lemma AfterFetchFields(s: State, dry: bool, messages: seq<Fetched>)
    requires messages != []
    ensures AfterFetch(s, dry, messages).phase == Storing(s.box.validity, dry, s.box.validity, messages, 0)
  {
  }

  /** A run that nothing interrupts, in one step. */
  lemma WholeRunIs(s: State, messages: seq<Fetched>, setting: Setting)
    requires s.phase.Idle? && messages != []
    requires NewMessages(s.box, Guarded(s.marks, s.box.validity, setting.dry)) == Some(messages)
    ensures var events := WholeRun(StoreOne(setting.parse, setting.folder, setting.broken), setting.dry, |messages|);
            Possible(s, events) && Run(s, events) == AfterRun(s, messages, setting)
  {
    hide Possible, Run, Guarded, NewMessages, AfterStoring, Times, FetchAndStore, Stamped;
    StoringIs(s, messages, setting);
    StoringFields(s, messages, setting);
    StampRuns(AfterStoring(s, messages, setting));
    RunAppend(s, FetchAndStore(StoreOne(setting.parse, setting.folder, setting.broken), setting.dry, |messages|),
              if setting.dry then [Event.Abort] else [WriteWatermark, WriteValidity]);
  }

  /** What an undisturbed run leaves. */
  lemma AfterRunFields(s: State, messages: seq<Fetched>, setting: Setting)
    requires messages != []
    ensures var t, v := AfterRun(s, messages, setting), s.box.validity;
            && t.phase == Idle && t.box == s.box
            && t.rows == Process(s.rows, messages, setting).0
            && t.ledger == Entered(s.ledger, v, s.rows, messages, setting, |messages|)
            && t.marks == (if setting.dry then Guarded(s.marks, v, true)
                         else Advanced(Guarded(s.marks, v, false), messages)[UIDVALIDITY_KEY := Print(v)])
  {
    StoringFields(s, messages, setting);
    hide AfterStoring, Process, Entered, Highest;
  }

  ghost predicate Brings(messages: seq<Fetched>, u: nat) {
    exists k :: 0 <= k < |messages| && messages[k].uid == u
  }

  /** A run fetches exactly the messages above its watermark, or all of them without one, the oldest first. */
  lemma FetchesAbove(box: Mailbox, marks: Marks, messages: seq<Fetched>)
    requires box.Valid() && NewMessages(box, marks) == Some(messages)
    ensures var from := Number(marks, WATERMARK_KEY);
            forall u: nat :: Brings(messages, u) <==> u in box.slots && (from.None? || from.value < u)
    ensures forall u: nat :: Brings(messages, u) ==> u > 0
    ensures forall i, j :: 0 <= i < j < |messages| ==> messages[i].uid < messages[j].uid
  {
    RisingFetched(box, marks, messages);
    var from, watermark := Number(marks, WATERMARK_KEY), Mark(marks, WATERMARK_KEY);
    var newer := Newer(ImapClient.Search(box, CriteriaFor(watermark).value), watermark);
    FindsAbove(box, watermark);
    hide Newer, ImapClient.Search, CriteriaFor, FetchFrom;
    forall u: nat ensures Brings(messages, u) <==> u in newer && u in box.slots {
      BringsFound(box, newer, messages, u);
    }
  }

  ghost predicate Rising(uids: seq<nat>) {
    forall i, j :: 0 <= i < j < |uids| ==> uids[i] < uids[j]
  }

  lemma {:induction false} AboveRises(uids: seq<nat>, w: nat)
    requires Rising(uids)
    ensures Rising(Above(uids, w))
  {
    if uids != [] {
      var rest := uids[1..];
      forall i, j | 0 <= i < j < |rest| ensures rest[i] < rest[j] {
        assert uids[i + 1] < uids[j + 1];
      }
      AboveRises(rest, w);
      forall k | 0 <= k < |Above(rest, w)| ensures uids[0] < Above(rest, w)[k] {
        assert Above(rest, w)[k] in rest;
      }
    }
  }

  lemma {:induction false} FetchedRise(box: Mailbox, uids: seq<nat>)
    requires Rising(uids)
    ensures forall i, j :: 0 <= i < j < |FetchFrom(box, uids)| ==> FetchFrom(box, uids)[i].uid < FetchFrom(box, uids)[j].uid
  {
    if uids != [] {
      var rest := uids[1..];
      forall i, j | 0 <= i < j < |rest| ensures rest[i] < rest[j] {
        assert uids[i + 1] < uids[j + 1];
      }
      FetchedRise(box, rest);
      forall k | 0 <= k < |FetchFrom(box, rest)| ensures uids[0] < FetchFrom(box, rest)[k].uid {
        assert FetchFrom(box, rest)[k].uid in rest;
      }
    }
  }

  lemma RisingFetched(box: Mailbox, marks: Marks, messages: seq<Fetched>)
    requires NewMessages(box, marks) == Some(messages)
    ensures forall i, j :: 0 <= i < j < |messages| ==> messages[i].uid < messages[j].uid
  {
    hide ImapClient.Search, Above, FetchFrom;
    var watermark := Mark(marks, WATERMARK_KEY);
    var found := ImapClient.Search(box, CriteriaFor(watermark).value);
    assert Rising(found) by { SearchRises(box, CriteriaFor(watermark).value); }
    if watermark.Some? { AboveRises(found, Parse(watermark.value).value); }
    FetchedRise(box, Newer(found, watermark));
  }

  lemma SearchRises(box: Mailbox, c: Criteria)
    ensures Rising(ImapClient.Search(box, c))
  {
  }

  lemma BringsFound(box: Mailbox, uids: seq<nat>, messages: seq<Fetched>, u: nat)
    requires messages == FetchFrom(box, uids)
    ensures Brings(messages, u) <==> u in uids && u in box.slots
  {
    hide FetchFrom;
    if u in uids && u in box.slots {
      assert Fetched(u, box.slots[u].mail) in messages;
      var k :| 0 <= k < |messages| && messages[k] == Fetched(u, box.slots[u].mail);
    }
  }

  lemma FindsAbove(box: Mailbox, watermark: Option<string>)
    requires box.Valid() && CriteriaFor(watermark).Some?
    ensures forall u: nat :: u in Newer(ImapClient.Search(box, CriteriaFor(watermark).value), watermark) && u in box.slots <==>
              u in box.slots && (watermark.None? || Parse(watermark.value).None? || u > Parse(watermark.value).value)
  {
    var c := CriteriaFor(watermark).value;
    var found := ImapClient.Search(box, c);
    assert forall u: nat :: u in found <==> u < box.next && Matches(box, c, u);
    hide Newer, ImapClient.Search;
    forall u: nat
      ensures u in Newer(found, watermark) && u in box.slots <==>
              u in box.slots && (watermark.None? || Parse(watermark.value).None? || u > Parse(watermark.value).value)
    {
      NewerIs(found, watermark, u);
    }
  }

  lemma NewerIs(uids: seq<nat>, watermark: Option<string>, u: nat)
    ensures u in Newer(uids, watermark) <==>
            u in uids && (watermark.None? || Parse(watermark.value).None? || u > Parse(watermark.value).value)
  {
  }

  /** Main result: after an undisturbed run that found something, the watermark covers everything
      exactly when the watermark it set out from already did. So a run misled by a watermark of another
      validity loses, for good, every message at or below it that was not accounted for. */
  lemma CoversIff(s: State, messages: seq<Fetched>, setting: Setting)
    requires s.box.Valid() && s.phase.Idle? && messages != [] && !setting.dry
    requires NewMessages(s.box, Guarded(s.marks, s.box.validity, false)) == Some(messages)
    ensures var t := AfterRun(s, messages, setting);
            var from := Number(Guarded(s.marks, s.box.validity, false), WATERMARK_KEY);
            && Mark(t.marks, UIDVALIDITY_KEY) == Some(Print(t.box.validity))
            && Number(t.marks, WATERMARK_KEY) == Some(Highest(messages))
            && (Covered(t.box, Highest(messages), t.ledger) <==>
                from.None? || forall u <- s.box.slots :: u <= from.value ==> (s.box.validity, u) in s.ledger)
  {
    hide *;
    var t, v := AfterRun(s, messages, setting), s.box.validity;
    var marks := Guarded(s.marks, v, false);
    AfterRunFields(s, messages, setting);
    FetchesAbove(s.box, marks, messages);
    EnteredAll(s.ledger, v, s.rows, messages, setting);
    FirstBrought(messages);
    MarksAfter(marks, messages, v);
    CoverageIff(s.box, Number(marks, WATERMARK_KEY), messages, s.ledger, t.ledger);
  }

  lemma FirstBrought(messages: seq<Fetched>)
    requires messages != []
    ensures Brings(messages, messages[0].uid)
    ensures forall u: nat :: Brings(messages, u) ==> u <= Highest(messages)
  {
    assert messages[0] in messages;
  }

  lemma EnteredAll(ledger: map<(nat, nat), Fate>, space: nat, rows: Rows, messages: seq<Fetched>, s: Setting)
    requires !s.dry
    ensures var now := Entered(ledger, space, rows, messages, s, |messages|);
            forall v: nat, u: nat :: (v, u) in now <==> (v, u) in ledger || (v == space && Brings(messages, u))
  {
    EnteredKeys(ledger, space, rows, messages, s, |messages|);
  }

  lemma CoverageIff(box: Mailbox, from: Option<nat>, messages: seq<Fetched>, was: map<(nat, nat), Fate>, now: map<(nat, nat), Fate>)
    requires messages != [] && Brings(messages, messages[0].uid)
    requires forall u: nat :: Brings(messages, u) <==> u in box.slots && (from.None? || from.value < u)
    requires forall u: nat :: Brings(messages, u) ==> u <= Highest(messages)
    requires forall v: nat, u: nat :: (v, u) in now <==> (v, u) in was || (v == box.validity && Brings(messages, u))
    ensures Covered(box, Highest(messages), now) <==>
            from.None? || forall u <- box.slots :: u <= from.value ==> (box.validity, u) in was
  {
    hide Brings, Highest;
  }

  lemma MarksAfter(marks: Marks, messages: seq<Fetched>, v: nat)
    requires messages != [] && forall u: nat :: Brings(messages, u) ==> u > 0
    ensures var after := Advanced(marks, messages)[UIDVALIDITY_KEY := Print(v)];
            Mark(after, UIDVALIDITY_KEY) == Some(Print(v)) && Number(after, WATERMARK_KEY) == Some(Highest(messages))
  {
    ParsePrint(Highest(messages));
    assert Highest(messages) > 0 by {
      assert messages[0] in messages && Brings(messages, messages[0].uid);
    }
  }

  /** Main result: the run after an undisturbed one fetches exactly the messages that came since. Where the server
      has renumbered that is every message, unless the run is dry. */
  lemma NextRunFetches(s: State, messages: seq<Fetched>, setting: Setting, later: Mailbox, dry: bool)
    requires s.box.Valid() && s.phase.Idle? && messages != [] && !setting.dry && later.Valid()
    requires NewMessages(s.box, Guarded(s.marks, s.box.validity, false)) == Some(messages)
    ensures var next := NewMessages(later, Guarded(AfterRun(s, messages, setting).marks, later.validity, dry));
            && next.Some?
            && forall u: nat :: Brings(next.value, u) <==>
                 u in later.slots && (later.validity == s.box.validity || dry ==> Highest(messages) < u)
  {
    hide AfterRun, Entered, Process, Highest, Brings, NewMessages, Print;
    var v := s.box.validity;
    AfterRunFields(s, messages, setting);
    FetchesAbove(s.box, Guarded(s.marks, v, false), messages);
    FirstBrought(messages);
    var marks := AfterRun(s, messages, setting).marks;
    MarksAfter(Guarded(s.marks, v, false), messages, v);
    ParsePrint(v);
    ParsePrint(later.validity);
    NumberedIsSome(later, Guarded(marks, later.validity, dry));
    FetchesAbove(later, Guarded(marks, later.validity, dry), NewMessages(later, Guarded(marks, later.validity, dry)).value);
  }

  lemma NumberedIsSome(box: Mailbox, marks: Marks)
    ensures NewMessages(box, marks).Some? <==> WATERMARK_KEY !in marks || Number(marks, WATERMARK_KEY).Some?
  {
  }

  // ---------- the run that loses mail ----------

  /** A first run that stops right after writing its watermark, before the server renumbers. */
  function FirstRunCutShort(store: Event, n: nat, anew: Mailbox): seq<Event> {
    FetchAndStore(store, false, n) + [WriteWatermark, Event.Abort, Renumber(anew)]
  }

  function CutState(t: State, anew: Mailbox): State
    requires t.phase.Storing?
  {
    t.(box := anew, marks := Advanced(t.marks, t.phase.messages), origin := t.phase.current, phase := Idle)
  }

  lemma FirstRunIs(s: State, messages: seq<Fetched>, setting: Setting, anew: Mailbox)
    requires s.phase.Idle? && messages != [] && !setting.dry
    requires NewMessages(s.box, Guarded(s.marks, s.box.validity, false)) == Some(messages)
    requires anew.Valid() && anew.validity > s.box.validity
    ensures AfterStoring(s, messages, setting).phase.Storing?
    ensures var events := FirstRunCutShort(StoreOne(setting.parse, setting.folder, setting.broken), |messages|, anew);
            Possible(s, events) && Run(s, events) == CutState(AfterStoring(s, messages, setting), anew)
  {
    hide Possible, Run, Guarded, NewMessages, AfterStoring, Times, FetchAndStore, CutState;
    StoringIs(s, messages, setting);
    StoringFields(s, messages, setting);
    CutAndRenumbered(AfterStoring(s, messages, setting), anew);
    RunAppend(s, FetchAndStore(StoreOne(setting.parse, setting.folder, setting.broken), false, |messages|),
              [WriteWatermark, Event.Abort, Renumber(anew)]);
  }

  lemma FirstRunLeaves(s: State, messages: seq<Fetched>, setting: Setting, anew: Mailbox)
    requires Initial(s) && messages != [] && NewMessages(s.box, s.marks) == Some(messages) && !setting.dry
    ensures AfterStoring(s, messages, setting).phase.Storing?
    ensures var t := CutState(AfterStoring(s, messages, setting), anew);
            && t.box == anew && t.phase == Idle && UIDVALIDITY_KEY !in t.marks
            && Mark(t.marks, WATERMARK_KEY) == Some(Print(Highest(messages)))
            && forall v: nat, u: nat :: (v, u) in t.ledger ==> v == s.box.validity
  {
    StoringFields(s, messages, setting);
    FetchesAbove(s.box, s.marks, messages);
    EnteredAll(s.ledger, s.box.validity, s.rows, messages, setting);
    FirstBrought(messages);
    hide AfterStoring, Entered, Highest, NewMessages, Print, Process;
  }

  lemma CutAndRenumbered(t: State, anew: Mailbox)
    requires t.phase.Storing? && t.phase.done == |t.phase.messages| && !t.phase.dry
    requires anew.Valid() && anew.validity > t.box.validity
    ensures var e := [WriteWatermark, Event.Abort, Renumber(anew)];
            Possible(t, e) && Run(t, e) == CutState(t, anew)
  {
    var u := Next(t, WriteWatermark);
    RunOne(Next(u, Event.Abort), Renumber(anew));
    assert [WriteWatermark, Event.Abort, Renumber(anew)][1..] == [Event.Abort, Renumber(anew)];
    assert [Event.Abort, Renumber(anew)][1..] == [Renumber(anew)];
  }

  /** The guard NeverMisled asks for is needed. Let a first run over any mail be cut short between its
      two writes, and let the server then renumber so that a message sits at or below the watermark and
      one above it: the next run records the server's validity and a watermark that skips the first. */
  lemma CutShortUnsafelyLoses(s: State, messages: seq<Fetched>, setting: Setting, anew: Mailbox, low: nat, high: nat)
    requires Initial(s) && messages != [] && NewMessages(s.box, s.marks) == Some(messages) && !setting.dry
    requires anew.Valid() && anew.validity > s.box.validity
    requires low in anew.slots && high in anew.slots && low <= Highest(messages) < high
    ensures exists events :: Possible(s, events) && Skips(Run(s, events), low)
  {
    hide Possible, Run, NewMessages, AfterStoring, Times, FetchAndStore, Print, Highest, Process, CutState, WholeRun, FirstRunCutShort, AfterRun;
    var store := StoreOne(setting.parse, setting.folder, setting.broken);
    FirstRunIs(s, messages, setting, anew);
    FirstRunLeaves(s, messages, setting, anew);
    var t := CutState(AfterStoring(s, messages, setting), anew);
    var later := SecondRunSkips(t, setting, Highest(messages), low, high);
    WholeRunIs(t, later, setting);
    RunAppend(s, FirstRunCutShort(store, |messages|, anew), WholeRun(store, false, |later|));
  }

  /** A database from before validities were stored has a watermark and nothing to check it against. The next
      run that finds something trusts it: from then on everything is covered exactly if everything at or
      below that watermark had been accounted for under the validity the server has now. */
  lemma UncheckedStart(s: State, w: nat, messages: seq<Fetched>, setting: Setting)
    requires s.box.Valid() && s.phase.Idle? && Unchecked(s) && Number(s.marks, WATERMARK_KEY) == Some(w)
    requires messages != [] && !setting.dry && NewMessages(s.box, s.marks) == Some(messages)
    ensures var t := AfterRun(s, messages, setting);
            && Mark(t.marks, UIDVALIDITY_KEY) == Some(Print(t.box.validity))
            && Number(t.marks, WATERMARK_KEY) == Some(Highest(messages))
            && (Covered(t.box, Highest(messages), t.ledger) <==> Covered(s.box, w, s.ledger))
            && (t.misled <==> s.misled || s.origin != s.box.validity)
  {
    hide NewMessages, Highest, Process, Entered, Print;
    assert Guarded(s.marks, s.box.validity, false) == s.marks;
    CoversIff(s, messages, setting);
  }

  /** The stored validity is the server's and the watermark is past `low`, which nobody accounted for. */
  ghost predicate Skips(t: State, low: nat) {
    var w := Number(t.marks, WATERMARK_KEY);
    && Mark(t.marks, UIDVALIDITY_KEY) == Some(Print(t.box.validity)) && w.Some?
    && low in t.box.slots && low <= w.value && (t.box.validity, low) !in t.ledger
  }

  lemma BringsSome(messages: seq<Fetched>, u: nat)
    requires Brings(messages, u)
    ensures messages != []
  {
  }

  lemma SecondRunSkips(t: State, setting: Setting, w: nat, low: nat, high: nat) returns (later: seq<Fetched>)
    requires t.phase == Idle && t.box.Valid() && !setting.dry
    requires UIDVALIDITY_KEY !in t.marks && Mark(t.marks, WATERMARK_KEY) == Some(Print(w))
    requires low in t.box.slots && high in t.box.slots && low <= w < high && (t.box.validity, low) !in t.ledger
    ensures later != [] && NewMessages(t.box, Guarded(t.marks, t.box.validity, false)) == Some(later)
    ensures Skips(AfterRun(t, later, setting), low)
  {
    hide AfterRun, Entered, Process, Highest, Brings;
    ParsePrint(w);
    later := NewMessages(t.box, t.marks).value;
    FetchesAbove(t.box, t.marks, later);
    assert Brings(later, high) && !Brings(later, low);
    assert later != [] by { BringsSome(later, high); }
    CoversIff(t, later, setting);
    AfterRunFields(t, later, setting);
    EnteredAll(t.ledger, t.box.validity, t.rows, later, setting);
    FirstBrought(later);
  }

  /** The run of the source, and the steps of the protocol it takes; a failure leaves it cut short. */
  method IngestMail(client: Client, db: Database, setting: Setting, ghost s: State)
    returns (r: Result<Tally, ImapError>, ghost events: seq<Event>)
    requires client.Valid() && db.Valid()
    requires s.phase == Idle && (setting.folder in client.boxes ==> s.box == client.boxes[setting.folder]) && s.rows == db.rows && s.marks == db.marks
    modifies client, db`rows, db`marks, db`written
    ensures client.Valid() && db.Valid() && client.boxes == old(client.boxes) && old(client.tick) <= client.tick
    ensures r.Ok? <==> && setting.folder in client.boxes && setting.folder !in client.noselect && Smooth(client.answers, old(client.tick), client.tick)
                       && NewMessages(s.box, Guarded(s.marks, s.box.validity, setting.dry)).Some?
    ensures Possible(s, events)
    ensures var t := Run(s, events);
            t.phase == Idle && t.box == s.box && t.rows == db.rows && t.marks == db.marks
    ensures var messages := NewMessages(s.box, Guarded(s.marks, s.box.validity, setting.dry));
            r.Ok? ==> messages.Some? && r.value == Process(s.rows, messages.value, setting).1
    ensures var messages := NewMessages(s.box, Guarded(s.marks, s.box.validity, setting.dry));
            r.Ok? && messages.value != [] ==>
              events == WholeRun(StoreOne(setting.parse, setting.folder, setting.broken), setting.dry, |messages.value|)
    ensures r.Err? ==> events == [] || events == [Event.Begin(setting.dry), Event.Abort]
    ensures setting.folder !in client.boxes ==> r == Err(ImapError.Refused) && events == []
    ensures setting.dry ==> db.rows == old(db.rows) && db.marks == old(db.marks)
  {
    hide Possible, Run, AfterRun, Process, After, NewMessages, WholeRun, Advanced, Smooth, FetchFrom, CriteriaFor, Highest, Next, Enabled;
    events := [];
    Nothing(s);
    var current := ReconcileUidvalidity(client, db, setting.folder, setting.dry);
    if current.Err? { return Err(current.error), events; }
    ghost var mark := client.tick;
    events := [Event.Begin(setting.dry), Event.Abort];
    CutShort(s, setting.dry);
    var fetched := FetchNewMessages(client, db, setting.folder);
    SmoothSplits(client.answers, old(client.tick), mark, client.tick);
    if fetched.Err? { return Err(fetched.error), events; }
    var messages := fetched.value;
    if messages == [] {
      DryLeavesRows(s.rows, [], setting);
      return Ok(Tally(0, 0, [])), events;
    }
    WholeRunIs(s, messages, setting);
    AfterRunFields(s, messages, setting);
    DryLeavesRows(s.rows, messages, setting);
    events := WholeRun(StoreOne(setting.parse, setting.folder, setting.broken), setting.dry, |messages|);
    var tally := ProcessMessages(db, messages, setting);
    var highest := Highest(messages);
    WatermarkOf(db.marks, messages);
    if !setting.dry {
      if highest > 0 {
        db.SetWatermark(WATERMARK_KEY, Print(highest));
      }
      db.SetWatermark(UIDVALIDITY_KEY, Print(current.value));
    }
    return Ok(tally), events;
  }

  lemma DryLeavesRows(rows: Rows, messages: seq<Fetched>, setting: Setting)
    ensures setting.dry ==> Process(rows, messages, setting).0 == rows
    ensures messages == [] ==> Process(rows, messages, setting).1 == Tally(0, 0, [])
  {
    NumbersAddUp(rows, messages, setting, |messages|);
  }

  lemma Nothing(s: State)
    ensures Possible(s, []) && Run(s, []) == s
  {
  }

  lemma WatermarkOf(marks: Marks, messages: seq<Fetched>)
    ensures Advanced(marks, messages) == if Highest(messages) > 0 then marks[WATERMARK_KEY := Print(Highest(messages))] else marks
  {
  }

  lemma CutShort(s: State, dry: bool)
    requires s.phase.Idle?
    ensures var e := [Event.Begin(dry), Event.Abort];
            && Possible(s, e) && Run(s, e) == Next(s, Event.Begin(dry)).(phase := Idle)
            && Run(s, e).box == s.box && Run(s, e).rows == s.rows && Run(s, e).marks == Guarded(s.marks, s.box.validity, dry)
  {
    var t := Next(s, Event.Begin(dry));
    RunOne(t, Event.Abort);
    assert [Event.Begin(dry), Event.Abort][1..] == [Event.Abort];
  }
}
