/**
 The configuration surface as a state machine: config/service.py lines 256-290 and 350-419, over
 one stored configuration and its version log.
 */
module ConfigService {
  import opened Outcome
  import opened ConfigSchema
  import opened ConfigMerge
  import opened ConfigLaws
  import opened ConfigSecrets
  import opened ConfigDiff
  import opened ConfigValidation
  import opened ConfigOps
  import opened ConfigAcceptance
  import opened ConfigRenaming
  import opened ConfigMask
  import opened ConfigPaths
  import opened ConfigUpdates
  import opened ConfigHashing
  import opened VersionStore

  /** The model classes, and the validators that are not about shape (unique account ids and
      database paths, value ranges, template placeholders): any predicate. */
  datatype Definition = Definition(root: Class, accepts: Value -> bool)

  datatype State = State(config: Value, history: seq<Recorded>)

  datatype Op = Read | Update(updates: map<string, Value>) | Rollback(version: int)

  datatype Refusal = Unhashable | Rejected | UnknownVersion

  function Validate(m: Definition, candidate: Value): Option<Value> {
    var w := Conform(m.root, candidate);
    if w.Some? && m.accepts(w.value) then w else None
  }

  /** The log with the configuration it starts from recorded first. */
  ghost function Seeded(m: Definition, s: State): seq<Recorded> {
    if s.history == [] then [Recorded(Strip(m.root, s.config), ["(initial)"])] else s.history
  }

  ghost function Write(m: Definition, s: State, candidate: Value): Result<State, Refusal> {
    match Validate(m, candidate)
    case None => Err(Rejected)
    case Some(w) =>
      var record := Recorded(Strip(m.root, Mask(m.root, w)), Changes(m.root, s.config, w, ""));
      Ok(State(w, Seeded(m, s) + [record]))
  }

  ghost function Apply(m: Definition, s: State, op: Op): Result<State, Refusal>
    requires s.config.Dict?
  {
    match op
    case Read => Ok(State(s.config, Seeded(m, s)))
    case Update(updates) =>
      if Raises(m.root, s.config, Dict(updates)) then Err(Unhashable)
      else Write(m, s, Merge(m.root, s.config, Dict(updates)))
    case Rollback(version) =>
      (match SnapshotOf(s.history, version)
       case None => Err(UnknownVersion)
       case Some(snapshot) =>
         if Raises(m.root, s.config, snapshot) then Err(Unhashable)
         else Write(m, s, Merge(m.root, s.config, snapshot)))
  }

  /** The stored configuration is valid and every recorded one is a valid one without its secrets. */
  ghost predicate Inv(m: Definition, s: State) {
    && SchemaOk(m.root)
    && WellTyped(m.root, s.config)
    && forall r <- s.history :: IsStripped(m.root, r.config)
  }

  ghost predicate IsStripped(cls: Class, snapshot: Value) {
    exists d :: WellTyped(cls, d) && snapshot == Strip(cls, d)
  }

  lemma SeededIsStripped(m: Definition, s: State)
    requires Inv(m, s)
    ensures forall r <- Seeded(m, s) :: IsStripped(m.root, r.config)
  {
  }

  lemma WriteKeepsInv(m: Definition, s: State, candidate: Value)
    requires Inv(m, s) && Write(m, s, candidate).Ok?
    ensures Inv(m, Write(m, s, candidate).value)
  {
    var w := Validate(m, candidate).value;
    ConformTyped(m.root, candidate);
    StripMask(m.root, w);
    SeededIsStripped(m, s);
    assert IsStripped(m.root, Strip(m.root, Mask(m.root, w)));
  }

  lemma ApplyKeepsInv(m: Definition, s: State, op: Op)
    requires Inv(m, s) && Apply(m, s, op).Ok?
    ensures Inv(m, Apply(m, s, op).value)
  {
    match op
    case Read => SeededIsStripped(m, s);
    case Update(updates) => WriteKeepsInv(m, s, Merge(m.root, s.config, Dict(updates)));
    case Rollback(version) => WriteKeepsInv(m, s, Merge(m.root, s.config, SnapshotOf(s.history, version).value));
  }

  // ---------- runs ----------

  /** A refused request leaves everything as it was. */
  ghost function After(m: Definition, s: State, op: Op): State
    requires s.config.Dict?
  {
    var r := Apply(m, s, op);
    if r.Ok? then r.value else s
  }

  ghost function Run(m: Definition, s: State, ops: seq<Op>): State
    requires Inv(m, s)
    decreases |ops|
  {
    if ops == [] then s
    else
      AfterKeepsInv(m, s, ops[0]);
      Run(m, After(m, s, ops[0]), ops[1..])
  }

  lemma AfterKeepsInv(m: Definition, s: State, op: Op)
    requires Inv(m, s)
    ensures Inv(m, After(m, s, op))
  {
    if Apply(m, s, op).Ok? { ApplyKeepsInv(m, s, op); }
  }

  lemma {:induction false} RunKeepsInv(m: Definition, s: State, ops: seq<Op>)
    requires Inv(m, s)
    ensures Inv(m, Run(m, s, ops))
    decreases |ops|
  {
    if ops != [] {
      AfterKeepsInv(m, s, ops[0]);
      RunKeepsInv(m, After(m, s, ops[0]), ops[1..]);
    }
  }

  /** Main result: whatever is read, written and rolled back, no recorded version holds a secret. */
  lemma HistoryHoldsNoSecret(m: Definition, s: State, ops: seq<Op>, path: Path, secret: Value)
    requires Inv(m, s)
    ensures forall r <- Run(m, s, ops).history :: !HasSecret(m.root, r.config, path, secret)
  {
    RunKeepsInv(m, s, ops);
    forall r <- Run(m, s, ops).history ensures !HasSecret(m.root, r.config, path, secret) {
      var d :| WellTyped(m.root, d) && r.config == Strip(m.root, d);
      StripHasNone(m.root, d, path, secret);
    }
  }

  /** Main result: an accepted rollback restores the recorded configuration, records it again as the
      newest version, and keeps the log it started from. */
  lemma RollbackRestoresVersion(m: Definition, s: State, version: int)
    requires Inv(m, s) && Apply(m, s, Rollback(version)).Ok?
    ensures var s' := Apply(m, s, Rollback(version)).value;
            && SnapshotOf(s.history, version).Some?
            && Strip(m.root, s'.config) == SnapshotOf(s.history, version).value
            && SnapshotOf(s'.history, |s'.history|) == SnapshotOf(s.history, version)
            && s'.history[..|s.history|] == s.history && |s'.history| == |s.history| + 1
  {
    var snapshot := SnapshotOf(s.history, version).value;
    assert s.history[version - 1] in s.history;
    var d :| WellTyped(m.root, d) && snapshot == Strip(m.root, d);
    var candidate := Merge(m.root, s.config, snapshot);
    RollbackRestores(m.root, s.config, d);
    ConformIdentity(m.root, d);
    StripConform(m.root, candidate, d);
    StripMask(m.root, Validate(m, candidate).value);
  }

  // ---------- what requests do ----------

  /** The history has grown by the configuration without its secrets, after the one it started from if there was
      none yet; and what it records as changed is where the two configurations differ. */
  ghost predicate RecordedNext(m: Definition, s: State, t: State) {
    var n := |t.history| - 1;
    && n >= 1 && t.history[n].config == Strip(m.root, t.config)
    && t.history[..n] == (if s.history == [] then [Recorded(Strip(m.root, s.config), ["(initial)"])] else s.history)
    && (Gapless(m.root) ==>
          && (t.history[n].changed == [] <==> t.config == s.config)
          && forall text :: text in t.history[n].changed <==> Leads(m.root, s.config, t.config, text))
  }

  lemma WriteRecords(m: Definition, s: State, candidate: Value)
    requires Inv(m, s) && Write(m, s, candidate).Ok?
    ensures RecordedNext(m, s, Write(m, s, candidate).value)
  {
    hide Strip, Mask, Changes, WellTyped, Conform, Leads;
    var w := Validate(m, candidate).value;
    var record := Recorded(Strip(m.root, Mask(m.root, w)), Changes(m.root, s.config, w, ""));
    ConformTyped(m.root, candidate);
    StripMask(m.root, w);
    if Gapless(m.root) {
      DiffComplete(m.root, s.config, w);
      RecordedExactly(m.root, s.config, w);
    }
    assert (Seeded(m, s) + [record])[..|Seeded(m, s)|] == Seeded(m, s);
  }

  /** A valid configuration that follows from the stored one by the update, and that the validators accept. */
  ghost predicate Acceptable(m: Definition, s: State, u: Value, w: Value)
    requires s.config.Dict? && u.Dict?
  {
    WellTyped(m.root, w) && Follows(m.root, s.config, u, w) && m.accepts(w)
  }

  lemma WriteTakes(m: Definition, s: State, u: Value)
    requires Inv(m, s) && u.Dict?
    ensures var r := Write(m, s, Merge(m.root, s.config, u));
            && (r.Ok? <==> exists w :: Acceptable(m, s, u, w))
            && (r.Ok? ==> Acceptable(m, s, u, r.value.config) && RecordedNext(m, s, r.value))
            && (r.Err? ==> r.error == Rejected)
  {
    hide Conform, WellTyped, Merge, Follows, RecordedNext, Changes, Strip, Seeded;
    TypedDict(m.root, s.config);
    StoredIsPartial(m.root, s.config);
    var candidate := Merge(m.root, s.config, u);
    if Write(m, s, candidate).Ok? {
      WriteRecords(m, s, candidate);
      FollowsIff(m.root, s.config, u, Validate(m, candidate).value);
      assert Acceptable(m, s, u, Validate(m, candidate).value);
    }
    if exists w :: Acceptable(m, s, u, w) {
      var w :| Acceptable(m, s, u, w);
      FollowsIff(m.root, s.config, u, w);
    }
  }

  lemma StoredIsPartial(cls: Class, v: Value)
    requires WellTyped(cls, v)
    ensures Partial(cls, v)
  {
  }

  /** Main result: an update is accepted exactly if a valid configuration follows from it, and then that is what is
      stored and recorded. */
  lemma UpdateTakes(m: Definition, s: State, updates: map<string, Value>)
    requires Inv(m, s)
    ensures var r := Apply(m, s, Update(updates));
            && (r.Ok? <==> !Raises(m.root, s.config, Dict(updates)) && exists w :: Acceptable(m, s, Dict(updates), w))
            && (r.Ok? ==> Acceptable(m, s, Dict(updates), r.value.config) && RecordedNext(m, s, r.value))
            && (r.Err? ==> (r.error == Unhashable <==> Raises(m.root, s.config, Dict(updates))))
            && (!Carries(m.root, s.config) ==> (Raises(m.root, s.config, Dict(updates)) <==> Carries(m.root, Dict(updates))))
  {
    hide Write, Raises, Merge, Acceptable, RecordedNext, Carries;
    WriteTakes(m, s, Dict(updates));
    if !Carries(m.root, s.config) { RaisesIff(m.root, s.config, Dict(updates)); }
  }

  /** Where valid configurations have identities that can be looked up, a request is accepted exactly if a valid
      configuration follows from it. */
  lemma TakenIff(m: Definition, s: State, u: Value)
    requires Inv(m, s) && u.Dict? && m.accepts(s.config) && forall w :: m.accepts(w) ==> !Carries(m.root, w)
    ensures (exists w :: Acceptable(m, s, u, w)) ==> !Raises(m.root, s.config, u)
  {
    hide Raises, Carries, Follows, WellTyped, Inv;
    SchemaOf(m, s);
    RaisesIff(m.root, s.config, u);
    forall w | Acceptable(m, s, u, w) ensures !Carries(m.root, u) {
      if Carries(m.root, u) { BadStaysBad(m.root, s.config, u, w); }
    }
  }

  lemma SchemaOf(m: Definition, s: State)
    requires Inv(m, s)
    ensures SchemaOk(m.root) && s.config.Dict?
  {
    TypedDict(m.root, s.config);
  }

  lemma RefusedFor(m: Definition, s: State, updates: map<string, Value>)
    requires s.config.Dict?
    ensures Apply(m, s, Update(updates)).Err? ==> Apply(m, s, Update(updates)).error in {Unhashable, Rejected}
  {
    hide Raises, Merge, Validate;
  }

  /** What is stored is what the validators accepted. */
  lemma StoredAccepted(m: Definition, s: State, op: Op)
    requires s.config.Dict? && m.accepts(s.config) && Apply(m, s, op).Ok?
    ensures m.accepts(Apply(m, s, op).value.config)
  {
    hide Raises, Merge, Conform, Seeded;
  }

  /** A rollback is accepted exactly if the version is retained and a valid configuration follows from it. */
  lemma RollbackTakes(m: Definition, s: State, version: int)
    requires Inv(m, s)
    ensures var r, snapshot := Apply(m, s, Rollback(version)), SnapshotOf(s.history, version);
            && (r.Err? && r.error == UnknownVersion <==> snapshot.None?)
            && (snapshot.Some? ==>
                  && snapshot.value.Dict?
                  && (r.Ok? <==> !Raises(m.root, s.config, snapshot.value) && exists w :: Acceptable(m, s, snapshot.value, w))
                  && (r.Ok? ==> Acceptable(m, s, snapshot.value, r.value.config) && RecordedNext(m, s, r.value)))
  {
    hide Write, Raises, Merge, Acceptable, RecordedNext;
    if SnapshotOf(s.history, version).Some? { WriteTakes(m, s, SnapshotOf(s.history, version).value); }
  }

  /** Reading changes nothing but the history's beginning. */
  lemma ReadSeeds(m: Definition, s: State)
    requires s.config.Dict?
    ensures Apply(m, s, Read) ==
            Ok(if s.history == [] then s.(history := [Recorded(Strip(m.root, s.config), ["(initial)"])]) else s)
  {
  }

  /** Two requests that differ only in the secrets they carry. */
  ghost predicate Alike(cls: Class, a: Op, b: Op) {
    match a
    case Read => b.Read?
    case Update(u) => b.Update? && SameButSecrets(cls, Dict(u), Dict(b.updates))
    case Rollback(v) => b == a
  }

  ghost predicate AllAlike(cls: Class, a: seq<Op>, b: seq<Op>) {
    |a| == |b| && forall i :: 0 <= i < |a| ==> Alike(cls, a[i], b[i])
  }

  /** The validators that are not about shape do not look at secrets. */
  ghost predicate AcceptsBlind(m: Definition) {
    forall w, w' :: WellTyped(m.root, w) && WellTyped(m.root, w') && SameButSecrets(m.root, w, w') ==> (m.accepts(w) <==> m.accepts(w'))
  }

  /** The secrets a request carries are what the classes declare. */
  ghost predicate OpFits(cls: Class, op: Op) {
    op.Update? ==> SecretsFit(cls, Dict(op.updates))
  }

  /** Two states with the same non-secret part, in the store and in everything recorded. */
  ghost predicate SameHistory(h: seq<Recorded>, h': seq<Recorded>) {
    |h| == |h'| && forall i :: 0 <= i < |h| ==> h[i].config == h'[i].config
  }

  lemma WriteHidesSecrets(m: Definition, s: State, t: State, c: Value, c': Value)
    requires Inv(m, s) && Inv(m, t) && SameButSecrets(m.root, s.config, t.config) && SameHistory(s.history, t.history)
    requires SameButSecrets(m.root, c, c')
    requires Write(m, s, c).Ok? && Write(m, t, c').Ok?
    ensures var s', t' := Write(m, s, c).value, Write(m, t, c').value;
            SameButSecrets(m.root, s'.config, t'.config) && SameHistory(s'.history, t'.history)
  {
    hide Changes, Merge;
    var w, w' := Validate(m, c).value, Validate(m, c').value;
    StripConform(m.root, c, c');
    StripMask(m.root, w);
    StripMask(m.root, w');
  }

  lemma TypedDict(cls: Class, w: Value)
    requires WellTyped(cls, w)
    ensures w.Dict?
  {
  }

  lemma ValidateAlike(m: Definition, c: Value, c': Value)
    requires SchemaOk(m.root) && AcceptsBlind(m) && SecretsOptional(m.root)
    requires SameButSecrets(m.root, c, c') && SecretsFit(m.root, c) && SecretsFit(m.root, c')
    ensures Validate(m, c).Some? <==> Validate(m, c').Some?
  {
    hide Conform, SecretsFit, SecretsOptional, WellTyped, Strip;
    if Conform(m.root, c).Some? { ConformsAlike(m.root, c, c'); }
    if Conform(m.root, c').Some? { ConformsAlike(m.root, c', c); }
    if Conform(m.root, c).Some? {
      var w, w' := Conform(m.root, c).value, Conform(m.root, c').value;
      ConformTyped(m.root, c);
      ConformTyped(m.root, c');
      StripConform(m.root, c, c');
      TypedDict(m.root, w);
      TypedDict(m.root, w');
      assert SameButSecrets(m.root, w, w');
    }
  }

  lemma MergedAlike(m: Definition, s: State, t: State, u: Value, u': Value)
    requires Inv(m, s) && Inv(m, t) && SameButSecrets(m.root, s.config, t.config)
    requires SameButSecrets(m.root, u, u') && SecretsFit(m.root, u) && SecretsFit(m.root, u')
    ensures Raises(m.root, s.config, u) <==> Raises(m.root, t.config, u')
    ensures var c, c' := Merge(m.root, s.config, u), Merge(m.root, t.config, u');
            SameButSecrets(m.root, c, c') && SecretsFit(m.root, c) && SecretsFit(m.root, c')
  {
    RaisesAlike(m.root, s.config, t.config, u, u');
    MergeHidesSecrets(m.root, s.config, t.config, u, u');
    MergeFits(m.root, s.config, u);
    MergeFits(m.root, t.config, u');
  }

  lemma WriteBoth(m: Definition, s: State, t: State, c: Value, c': Value)
    requires Inv(m, s) && Inv(m, t) && SameButSecrets(m.root, s.config, t.config) && SameHistory(s.history, t.history)
    requires SchemaOk(m.root) && AcceptsBlind(m) && SecretsOptional(m.root)
    requires SameButSecrets(m.root, c, c') && SecretsFit(m.root, c) && SecretsFit(m.root, c')
    ensures Write(m, s, c).Ok? <==> Write(m, t, c').Ok?
    ensures Write(m, s, c).Ok? ==>
              var s', t' := Write(m, s, c).value, Write(m, t, c').value;
              SameButSecrets(m.root, s'.config, t'.config) && SameHistory(s'.history, t'.history)
  {
    hide Validate, Inv, AcceptsBlind, SecretsOptional, SecretsFit, SameButSecrets, SameHistory, Changes;
    ValidateAlike(m, c, c');
    if Write(m, s, c).Ok? { WriteHidesSecrets(m, s, t, c, c'); }
  }

  lemma SnapshotFits(m: Definition, s: State, v: int)
    requires Inv(m, s) && SnapshotOf(s.history, v).Some?
    ensures var snapshot := SnapshotOf(s.history, v).value; SecretsFit(m.root, snapshot) && snapshot.Dict?
  {
    assert s.history[v - 1] in s.history;
    var d :| WellTyped(m.root, d) && s.history[v - 1].config == Strip(m.root, d);
    StripFits(m.root, d);
  }

  /** One request in two states that differ in secrets only: accepted in both or in neither, and they
      still differ in secrets only. */
  lemma ApplyHidesSecrets(m: Definition, s: State, t: State, a: Op, b: Op)
    requires Inv(m, s) && Inv(m, t) && SameButSecrets(m.root, s.config, t.config) && SameHistory(s.history, t.history)
    requires AcceptsBlind(m) && SecretsOptional(m.root) && Alike(m.root, a, b) && OpFits(m.root, a) && OpFits(m.root, b)
    ensures Apply(m, s, a).Ok? <==> Apply(m, t, b).Ok?
    ensures var s', t' := After(m, s, a), After(m, t, b);
            SameButSecrets(m.root, s'.config, t'.config) && SameHistory(s'.history, t'.history)
  {
    hide Write, AcceptsBlind, SecretsOptional, SecretsFit, Raises, Merge;
    match a
    case Read => SeededAlike(m, s, t);
    case Update(u) =>
      MergedAlike(m, s, t, Dict(u), Dict(b.updates));
      WriteBoth(m, s, t, Merge(m.root, s.config, Dict(u)), Merge(m.root, t.config, Dict(b.updates)));
    case Rollback(v) =>
      assert SnapshotOf(s.history, v) == SnapshotOf(t.history, v);
      if SnapshotOf(s.history, v).Some? {
        var snapshot := SnapshotOf(s.history, v).value;
        SnapshotFits(m, s, v);
        MergedAlike(m, s, t, snapshot, snapshot);
        WriteBoth(m, s, t, Merge(m.root, s.config, snapshot), Merge(m.root, t.config, snapshot));
      }
  }

  lemma SeededAlike(m: Definition, s: State, t: State)
    requires SameButSecrets(m.root, s.config, t.config) && SameHistory(s.history, t.history)
    ensures SameHistory(Seeded(m, s), Seeded(m, t))
  {
  }

  /** Main result: run the same requests twice with different secrets, and each is accepted in both runs or
      in neither, every recorded version is the same, and the configurations differ in secrets only. */
  lemma {:induction false} HistoryIndependentOfSecrets(m: Definition, s: State, t: State, a: seq<Op>, b: seq<Op>)
    requires Inv(m, s) && Inv(m, t) && SameButSecrets(m.root, s.config, t.config) && SameHistory(s.history, t.history)
    requires AcceptsBlind(m) && SecretsOptional(m.root) && AllAlike(m.root, a, b)
    requires forall i :: 0 <= i < |a| == |b| ==> OpFits(m.root, a[i]) && OpFits(m.root, b[i])
    ensures SameHistory(Run(m, s, a).history, Run(m, t, b).history)
    ensures SameButSecrets(m.root, Run(m, s, a).config, Run(m, t, b).config)
    decreases |a|
  {
    if a != [] {
      hide Apply, AcceptsBlind, SecretsOptional, SameHistory, SameButSecrets, Inv;
      AfterKeepsInv(m, s, a[0]);
      AfterKeepsInv(m, t, b[0]);
      ApplyHidesSecrets(m, s, t, a[0], b[0]);
      HistoryIndependentOfSecrets(m, After(m, s, a[0]), After(m, t, b[0]), a[1..], b[1..]);
    }
  }

  // ---------- the recorded changes ----------

  /** The same state with other secrets; the history is not touched. */
  function Renamed(m: Definition, f: Value -> Value, s: State): State {
    State(Rename(m.root, f, s.config), s.history)
  }

  function RenamedOp(m: Definition, f: Value -> Value, op: Op): Op {
    if op.Update? then Update(Rename(m.root, f, Dict(op.updates)).entries) else op
  }

  function RenamedOps(m: Definition, f: Value -> Value, ops: seq<Op>): seq<Op> {
    seq(|ops|, i requires 0 <= i < |ops| => RenamedOp(m, f, ops[i]))
  }

  ghost function RenamedResult(m: Definition, f: Value -> Value, r: Result<State, Refusal>): Result<State, Refusal> {
    if r.Ok? then Ok(Renamed(m, f, r.value)) else r
  }

  lemma RenamedKeepsInv(m: Definition, f: Value -> Value, s: State)
    requires Inv(m, s) && Discreet(f) && DefaultsKept(m.root, f)
    ensures Inv(m, Renamed(m, f, s))
  {
    TypedRenamed(m.root, f, s.config);
  }

  lemma SeededRenamed(m: Definition, f: Value -> Value, s: State)
    ensures Seeded(m, Renamed(m, f, s)) == Seeded(m, s)
  {
    StripRenamed(m.root, f, s.config);
  }

  lemma ValidateRenamed(m: Definition, f: Value -> Value, c: Value)
    requires SchemaOk(m.root) && AcceptsBlind(m) && Discreet(f) && DefaultsKept(m.root, f)
    ensures Validate(m, Rename(m.root, f, c)) == RenameSome(Model(m.root), f, Validate(m, c))
  {
    hide Conform, WellTyped, Strip, Rename, Discreet, DefaultsKept;
    ConformRenamed(m.root, f, c);
    if Conform(m.root, c).Some? {
      var w := Conform(m.root, c).value;
      ConformTyped(m.root, c);
      ConformTyped(m.root, Rename(m.root, f, c));
      StripRenamed(m.root, f, w);
      TypedDict(m.root, w);
      TypedDict(m.root, Rename(m.root, f, w));
      assert SameButSecrets(m.root, w, Rename(m.root, f, w));
    }
  }

  lemma WriteRenamed(m: Definition, f: Value -> Value, s: State, c: Value)
    requires SchemaOk(m.root) && AcceptsBlind(m) && Discreet(f) && DefaultsKept(m.root, f)
    ensures Write(m, Renamed(m, f, s), Rename(m.root, f, c)) == RenamedResult(m, f, Write(m, s, c))
  {
    hide Validate, Strip, Mask, Changes, AcceptsBlind, DefaultsKept, Seeded;
    ValidateRenamed(m, f, c);
    if Validate(m, c).Some? {
      var w := Validate(m, c).value;
      SeededRenamed(m, f, s);
      StripMask(m.root, w);
      StripMask(m.root, Rename(m.root, f, w));
      StripRenamed(m.root, f, w);
      DiffSeesOnlyEquality(m.root, f, s.config, w, "");
    }
  }

  lemma MergeOpRenamed(m: Definition, f: Value -> Value, c: Value, u: Value)
    requires SchemaOk(m.root) && Discreet(f) && c.Dict? && u.Dict?
    ensures Raises(m.root, Rename(m.root, f, c), Rename(m.root, f, u)) <==> Raises(m.root, c, u)
    ensures Merge(m.root, Rename(m.root, f, c), Rename(m.root, f, u)) == Rename(m.root, f, Merge(m.root, c, u))
  {
    hide Raises, Merge, Strip;
    StripRenamed(m.root, f, c);
    StripRenamed(m.root, f, u);
    RaisesStripped(m.root, c, u);
    RaisesStripped(m.root, Rename(m.root, f, c), Rename(m.root, f, u));
    MergeRenamed(m.root, f, c, u);
  }

  /** A request with other secrets, in a state with other secrets, does the same and records the same. */
  lemma ApplyRenamed(m: Definition, f: Value -> Value, s: State, op: Op)
    requires Inv(m, s) && AcceptsBlind(m) && Discreet(f) && DefaultsKept(m.root, f)
    ensures Apply(m, Renamed(m, f, s), RenamedOp(m, f, op)) == RenamedResult(m, f, Apply(m, s, op))
  {
    hide Write, Raises, Merge, AcceptsBlind, DefaultsKept, Seeded, Discreet, WellTyped;
    TypedDict(m.root, s.config);
    match op
    case Read => SeededRenamed(m, f, s);
    case Update(updates) =>
      MergeOpRenamed(m, f, s.config, Dict(updates));
      WriteRenamed(m, f, s, Merge(m.root, s.config, Dict(updates)));
    case Rollback(version) =>
      var found := SnapshotOf(s.history, version);
      if found.Some? {
        assert s.history[version - 1] in s.history;
        var d :| WellTyped(m.root, d) && found.value == Strip(m.root, d);
        RenameStripped(m.root, f, d);
        MergeOpRenamed(m, f, s.config, found.value);
        WriteRenamed(m, f, s, Merge(m.root, s.config, found.value));
      }
  }

  /** Main result: exchange the secrets in the store and in every request, one for one, and the whole history
      stays what it is, the recorded changes included; only the stored secrets are the exchanged ones. */
  lemma {:induction false} HistorySeesOnlyEquality(m: Definition, f: Value -> Value, s: State, ops: seq<Op>)
    requires Inv(m, s) && AcceptsBlind(m) && Discreet(f) && DefaultsKept(m.root, f)
    ensures Inv(m, Renamed(m, f, s))
    ensures Run(m, Renamed(m, f, s), RenamedOps(m, f, ops)) == Renamed(m, f, Run(m, s, ops))
    decreases |ops|
  {
    RenamedKeepsInv(m, f, s);
    if ops != [] {
      hide Apply, AcceptsBlind, Inv, DefaultsKept, Discreet;
      AfterKeepsInv(m, s, ops[0]);
      ApplyRenamed(m, f, s, ops[0]);
      RenamedKeepsInv(m, f, After(m, s, ops[0]));
      AfterRenamed(m, f, s, ops[0]);
      assert RenamedOps(m, f, ops)[1..] == RenamedOps(m, f, ops[1..]);
      HistorySeesOnlyEquality(m, f, After(m, s, ops[0]), ops[1..]);
    }
  }

  lemma AfterRenamed(m: Definition, f: Value -> Value, s: State, op: Op)
    requires s.config.Dict? && Apply(m, Renamed(m, f, s), RenamedOp(m, f, op)) == RenamedResult(m, f, Apply(m, s, op))
    ensures After(m, Renamed(m, f, s), RenamedOp(m, f, op)) == Renamed(m, f, After(m, s, op))
  {
    hide Apply;
  }

  // ---------- the service ----------

  class Service {
    const model: Definition
    var config: Value
    const store: ConfigVersionStore

    ghost predicate Valid()
      reads this, store
    {
      store.Valid() && Inv(model, Current())
    }

    ghost function Current(): State
      reads this, store
    {
      State(config, store.history)
    }

    constructor (model: Definition, config: Value)
      requires SchemaOk(model.root) && WellTyped(model.root, config)
      ensures Valid() && fresh(store) && Current() == State(config, [])
      ensures this.model == model
    {
      this.model, this.config := model, config;
      store := new ConfigVersionStore();
    }

    method GetConfig() returns (masked: Value, version: nat)
      requires Valid()
      modifies this, store
      ensures Valid() && Ok(Current()) == old(Apply(model, Current(), Read))
      ensures masked == Mask(model.root, config) && version == |store.history|
      ensures forall path, s :: HasSecret(model.root, masked, path, s) ==> s in {Str("**********"), Str(""), Null}
    {
      masked := Mask(model.root, config);
      forall path, s | HasSecret(model.root, masked, path, s) ensures s in {Str("**********"), Str(""), Null} {
        MaskHides(model.root, config, path, s);
      }
      version := store.CurrentVersion();
      if version == 0 {
        StripMask(model.root, config);
        SeededIsStripped(model, Current());
        var stripped := StripSecrets(model.root, masked);
        version := store.Record(stripped, ["(initial)"]);
        assert store.history == [Recorded(stripped, ["(initial)"])];
      }
    }

    method Persist(candidate: Value) returns (r: Result<nat, Refusal>)
      requires Valid()
      modifies this, store
      ensures Valid()
      ensures match old(Write(model, Current(), candidate))
              case Ok(next) => Current() == next && r == Ok(|next.history|)
              case Err(e) => Current() == old(Current()) && r == Err(e)
    {
      var validated := Validate(model, candidate);
      if validated.None? { return Err(Rejected); }
      WriteKeepsInv(model, Current(), candidate);
      var before := config;
      var current := store.CurrentVersion();
      if current == 0 {
        var initial := StripSecrets(model.root, before);
        var _ := store.Record(initial, ["(initial)"]);
      }
      config := validated.value;
      var masked := Mask(model.root, validated.value);
      var after := WithRealSecrets(model.root, validated.value, masked);
      var changed := ChangedKeys(model.root, before, after);
      var stripped := StripSecrets(model.root, masked);
      var version := store.Record(stripped, changed);
      return Ok(version);
    }

    method UpdateConfig(updates: map<string, Value>) returns (r: Result<nat, Refusal>)
      requires Valid()
      modifies this, store
      ensures Valid()
      ensures match old(Apply(model, Current(), Update(updates)))
              case Ok(next) => Current() == next && r == Ok(|next.history|)
              case Err(e) => Current() == old(Current()) && r == Err(e)
    {
      var current := WithRealSecrets(model.root, config, Mask(model.root, config));
      var merged := MergeUpdates(model.root, current, Dict(updates));
      if merged.Err? { return Err(Unhashable); }
      r := Persist(merged.value);
    }

    method RollbackTo(version: int) returns (r: Result<nat, Refusal>)
      requires Valid()
      modifies this, store
      ensures Valid()
      ensures match old(Apply(model, Current(), Rollback(version)))
              case Ok(next) => Current() == next && r == Ok(|next.history|)
              case Err(e) => Current() == old(Current()) && r == Err(e)
    {
      var snapshot := store.Snapshot(version);
      if snapshot.None? { return Err(UnknownVersion); }
      var current := WithRealSecrets(model.root, config, Mask(model.root, config));
      var merged := MergeUpdates(model.root, current, snapshot.value);
      if merged.Err? { return Err(Unhashable); }
      r := Persist(merged.value);
    }
  }
}
