/**
 What the validators of the model classes make sure of beyond shape: config/model.py lines 78-330, 336-375,
 393-425 and 484-551, config/schema.py lines 45-50. None of them looks at a secret.
 */
module ConfigChecks {
  import opened Outcome
  import opened ConfigSchema
  import opened ConfigMerge
  import opened ConfigLaws
  import opened ConfigDiff
  import opened ConfigValidation
  import opened ConfigUpdates
  import opened ConfigAcceptance
  import opened ConfigRenaming
  import opened ConfigHashing
  import opened ConfigService
  import opened VersionStore
  import opened ConfigShipped
  import EncodingBits

  const TLS_MODES := {"starttls", "direct-tls", "none"}
  const LOG_LEVELS := {"DEBUG", "INFO", "WARNING", "ERROR", "CRITICAL"}
  const LOG_FORMATS := {"json", "console"}

  predicate OneOf(v: Value, allowed: set<string>) {
    v.Str? && v.s in allowed
  }

  predicate Within(v: Value, low: int, high: int) {
    v.Num? && low <= v.n <= high
  }

  /** A plain field of a mailbox's settings. */
  predicate SettingAccepted(key: string, v: Value) {
    if key == "imap_port" || key == "smtp_port" then Within(v, 1, 65535)
    else if key == "imap_tls_mode" || key == "smtp_tls_mode" then OneOf(v, TLS_MODES)
    else if key == "log_level" then OneOf(v, LOG_LEVELS)
    else if key == "log_format" then OneOf(v, LOG_FORMATS)
    else if key == "ingest_mode" then OneOf(v, {"watch", "once"})
    else if key == "ingest_interval_minutes" then v.Num?
    else if key == "archive_enabled" || key == "triage_on_ingest" then v.Bool?
    else v.Str?
  }

  predicate SettingsAccepted(config: Value) {
    forall key <- MAIL_CONFIG.fields :: KindOf(MAIL_CONFIG, key).Scalar? ==> SettingAccepted(key, Get(config, key))
  }

  predicate IdCharacter(c: char) {
    'A' <= c <= 'Z' || 'a' <= c <= 'z' || '0' <= c <= '9' || c == '.' || c == '_' || c == '-'
  }

  /** The identifier pattern; its `$` also matches before a newline at the end. */
  predicate IdAccepted(v: Value) {
    v.Str? &&
    var s := if v.s != "" && v.s[|v.s| - 1] == '\n' then v.s[..|v.s| - 1] else v.s;
    s != "" && forall c <- s :: IdCharacter(c)
  }

  predicate IdLetter(c: char) {
    c in EncodingBits.UPPER || c in EncodingBits.LOWER || c in EncodingBits.NUMERALS || c in "._-"
  }

  /** An identifier is accepted exactly if it is letters, digits, dots, underscores and hyphens, and then possibly one
      newline. */
  lemma IdAcceptedIff(v: Value)
    ensures IdAccepted(v) <==> exists id, end :: v == Str(id + end) && id != "" && end in {"", "\n"} && forall c <- id :: IdLetter(c)
  {
    hide IdLetter, IdCharacter;
    forall c ensures IdCharacter(c) <==> IdLetter(c) { LetterIs(c); }
    if IdAccepted(v) {
      var s := if v.s != "" && v.s[|v.s| - 1] == '\n' then v.s[..|v.s| - 1] else v.s;
      var end := if v.s != "" && v.s[|v.s| - 1] == '\n' then "\n" else "";
      assert v == Str(s + end);
    }
    if id, end :| v == Str(id + end) && id != "" && end in {"", "\n"} && forall c <- id :: IdLetter(c) {
      assert id[|id| - 1] in id && !IdLetter('\n') by { LetterIs('\n'); NoLetter(); }
      assert end == "\n" ==> v.s[..|v.s| - 1] == id;
      assert end == "" ==> v.s == id;
    }
  }

  lemma NoLetter()
    ensures !IdCharacter('\n')
  {
  }

  lemma LetterIs(c: char)
    ensures IdCharacter(c) <==> IdLetter(c)
  {
    hide EncodingBits.UPPER, EncodingBits.LOWER, EncodingBits.NUMERALS;
    EncodingBits.RowsAre(c);
  }

  predicate AccountAccepted(account: Value) {
    && IdAccepted(Get(account, "account_id"))
    && (Get(account, "label").Null? || Get(account, "label").Str?)
    && SettingsAccepted(Get(account, "config"))
  }

  function DatabasePath(account: Value): Value {
    Get(Get(account, "config"), "db_path")
  }

  predicate AccountsAccepted(accounts: seq<Value>) {
    && (forall account <- accounts :: AccountAccepted(account))
    && (forall i, j :: 0 <= i < j < |accounts| ==> Get(accounts[i], "account_id") != Get(accounts[j], "account_id"))
    && (forall i, j :: 0 <= i < j < |accounts| && DatabasePath(accounts[i]) != Str("") ==> DatabasePath(accounts[i]) != DatabasePath(accounts[j]))
  }

  predicate AllText(cls: Class, v: Value) {
    forall key <- cls.fields :: KindOf(cls, key).Scalar? ==> Get(v, key).Str?
  }

  predicate LangfuseAccepted(v: Value) {
    && AllText(LANGFUSE, v)
    && (Get(v, "projects").Dict? ==> forall name <- Get(v, "projects").entries :: AllText(LANGFUSE_PROJECT, Get(v, "projects").entries[name]))
  }

  predicate LevelAccepted(v: Value) {
    Within(v, 1, 3)
  }

  predicate ShippedAccepts(v: Value) {
    && AccountsAccepted(ItemsOr(Get(v, "accounts"))) && LangfuseAccepted(Get(v, "langfuse")) && AllText(TIER_MODELS, Get(v, "models"))
    && LevelAccepted(Get(v, "triage_level")) && LevelAccepted(Get(v, "classifier_level")) && LevelAccepted(Get(v, "draft_level"))
    && Get(v, "mail_data_root").Str? && Get(v, "file_hub_url").Str?
  }

  const SHIPPED := Definition(ACCOUNTS, (v: Value) => ShippedAccepts(v))

  const EMPTY := Dict(map["accounts" := List([])])

  const INITIAL := Dict(map[
    "accounts" := List([]),
    "langfuse" := LANGFUSE_DEFAULT,
    "openrouter" := OPENROUTER_DEFAULT,
    "models" := TIER_DEFAULT,
    "triage_level" := Num(1),
    "classifier_level" := Num(1),
    "draft_level" := Num(1),
    "mail_data_root" := Str("/data"),
    "file_hub_url" := Str("")])

  lemma DefaultAt(key: string)
    requires key in ACCOUNTS.fields && key != "accounts"
    ensures key in INITIAL.entries && key !in EMPTY.entries && ACCOUNTS.fields[key].default == Some(INITIAL.entries[key])
  {
    hide LANGFUSE_DEFAULT, OPENROUTER_DEFAULT, TIER_DEFAULT, LANGFUSE, OPENROUTER, TIER_MODELS, ACCOUNT;
  }

  lemma AccountsAt()
    ensures "accounts" in ACCOUNTS.fields && "accounts" in EMPTY.entries && INITIAL.entries.Keys == ACCOUNTS.fields.Keys
    ensures ACCOUNTS.fields["accounts"] == FieldInfo(ListType(ModelType(ACCOUNT)), None)
    ensures INITIAL.entries["accounts"] == EMPTY.entries["accounts"] == List([])
  {
    hide LANGFUSE_DEFAULT, OPENROUTER_DEFAULT, TIER_DEFAULT, LANGFUSE, OPENROUTER, TIER_MODELS, ACCOUNT;
  }

  lemma NoAccounts(a: Annotation)
    requires a == ListType(ModelType(ACCOUNT))
    ensures ConformField(a, List([])) == Some(List([]))
  {
    hide ACCOUNT;
    assert ConformItems(ACCOUNT, []) == [];
  }

  lemma EmptyConforms()
    ensures Conform(ACCOUNTS, EMPTY) == Some(INITIAL)
  {
    hide ACCOUNTS, INITIAL, EMPTY, Conform, ConformField, ACCOUNT;
    AccountsAt();
    assert EMPTY.Dict? && INITIAL.Dict? by { AreDicts(); }
    forall key <- ACCOUNTS.fields ensures ConformKey(ACCOUNTS.fields[key], EMPTY, key) == Some(INITIAL.entries[key]) {
      if key == "accounts" {
        NoAccounts(ACCOUNTS.fields[key].annotation);
      } else {
        DefaultAt(key);
      }
    }
    ConformIs(ACCOUNTS, EMPTY, INITIAL);
  }

  lemma AreDicts()
    ensures EMPTY.Dict? && INITIAL.Dict?
  {
  }

  lemma InitialAt()
    ensures Get(INITIAL, "accounts") == List([]) && Get(INITIAL, "langfuse") == LANGFUSE_DEFAULT && Get(INITIAL, "models") == TIER_DEFAULT
    ensures Get(INITIAL, "triage_level") == Get(INITIAL, "classifier_level") == Get(INITIAL, "draft_level") == Num(1)
    ensures Get(INITIAL, "mail_data_root").Str? && Get(INITIAL, "file_hub_url").Str?
  {
    hide LANGFUSE_DEFAULT, OPENROUTER_DEFAULT, TIER_DEFAULT;
  }

  lemma BlocksAccepted()
    ensures LangfuseAccepted(LANGFUSE_DEFAULT) && AllText(TIER_MODELS, TIER_DEFAULT)
  {
    hide LANGFUSE_PROJECT;
  }

  lemma InitialAccepted()
    ensures ShippedAccepts(INITIAL)
  {
    hide INITIAL, LANGFUSE_DEFAULT, TIER_DEFAULT, TIER_MODELS, AllText, LangfuseAccepted, AccountAccepted, DatabasePath;
    InitialAt();
    BlocksAccepted();
  }

  /** What the program starts with when there is no configuration: every default is accepted, so there is a run to begin. */
  lemma EmptyIsAccepted()
    ensures Validate(SHIPPED, EMPTY).Some?
    ensures var s := State(Validate(SHIPPED, EMPTY).value, []); Inv(SHIPPED, s) && ShippedAccepts(s.config)
  {
    hide *;
    EmptyConforms();
    InitialAccepted();
    ShippedIs();
    ShippedOk();
    StartsValid(SHIPPED, EMPTY, INITIAL);
  }

  lemma StartsValid(m: Definition, v: Value, w: Value)
    requires SchemaOk(m.root) && Conform(m.root, v) == Some(w) && m.accepts(w)
    ensures Validate(m, v) == Some(w) && Inv(m, State(w, []))
  {
    ConformTyped(m.root, v);
    hide Conform;
  }

  // ---------- blindness ----------

  /** Whatever is equal without its secrets has equal plain fields, and other fields equal without theirs. */
  lemma FieldStripped(cls: Class, a: Value, b: Value, key: string)
    requires Strip(cls, a) == Strip(cls, b) && !SecretKind(KindOf(cls, key))
    ensures StripField(KindOf(cls, key), Get(a, key)) == StripField(KindOf(cls, key), Get(b, key))
  {
    assert Get(Strip(cls, a), key) == StripField(KindOf(cls, key), Get(a, key));
    assert Get(Strip(cls, b), key) == StripField(KindOf(cls, key), Get(b, key));
  }

  lemma PlainStripped(cls: Class, a: Value, b: Value)
    requires Strip(cls, a) == Strip(cls, b)
    ensures forall key :: KindOf(cls, key).Scalar? ==> Get(a, key) == Get(b, key)
  {
    hide Strip;
    forall key | KindOf(cls, key).Scalar? ensures Get(a, key) == Get(b, key) {
      FieldStripped(cls, a, b, key);
    }
  }

  lemma AccountKinds()
    ensures KindOf(ACCOUNT, "account_id") == KindOf(ACCOUNT, "label") == Scalar && KindOf(ACCOUNT, "config") == Model(MAIL_CONFIG)
    ensures KindOf(MAIL_CONFIG, "db_path") == Scalar
  {
    LabelSound();
    assert NonNone([OtherType, NoneType]) == [OtherType] by { assert [OtherType, NoneType][1..] == [NoneType]; }
  }

  lemma AccountBlind(a: Value, b: Value)
    requires Strip(ACCOUNT, a) == Strip(ACCOUNT, b)
    ensures AccountAccepted(a) <==> AccountAccepted(b)
    ensures Get(a, "account_id") == Get(b, "account_id") && DatabasePath(a) == DatabasePath(b)
  {
    hide Strip, KindOf, SettingAccepted, IdAccepted;
    AccountKinds();
    PlainStripped(ACCOUNT, a, b);
    FieldStripped(ACCOUNT, a, b, "config");
    PlainStripped(MAIL_CONFIG, Get(a, "config"), Get(b, "config"));
  }

  lemma AccountsBlind(a: seq<Value>, b: seq<Value>)
    requires StripItems(ACCOUNT, a) == StripItems(ACCOUNT, b)
    ensures AccountsAccepted(a) <==> AccountsAccepted(b)
  {
    hide AccountAccepted, DatabasePath, Strip;
    assert |a| == |StripItems(ACCOUNT, a)| == |b|;
    forall i | 0 <= i < |a|
      ensures (AccountAccepted(a[i]) <==> AccountAccepted(b[i])) && Get(a[i], "account_id") == Get(b[i], "account_id") && DatabasePath(a[i]) == DatabasePath(b[i])
    {
      assert StripItems(ACCOUNT, a)[i] == StripItems(ACCOUNT, b)[i];
      AccountBlind(a[i], b[i]);
    }
    assert forall i :: 0 <= i < |a| ==> a[i] in a && b[i] in b;
  }

  lemma TextBlind(cls: Class, a: Value, b: Value)
    requires Strip(cls, a) == Strip(cls, b)
    ensures AllText(cls, a) <==> AllText(cls, b)
  {
    hide Strip, KindOf;
    PlainStripped(cls, a, b);
  }

  lemma LangfuseBlind(a: Value, b: Value)
    requires Strip(LANGFUSE, a) == Strip(LANGFUSE, b)
    ensures LangfuseAccepted(a) <==> LangfuseAccepted(b)
  {
    hide AllText, Strip;
    TextBlind(LANGFUSE, a, b);
    assert KindOf(LANGFUSE, "projects") == ModelMap(LANGFUSE_PROJECT);
    FieldStripped(LANGFUSE, a, b, "projects");
    var p, q := Get(a, "projects"), Get(b, "projects");
    if p.Dict? && q.Dict? {
      var sp, sq := StripField(ModelMap(LANGFUSE_PROJECT), p).entries, StripField(ModelMap(LANGFUSE_PROJECT), q).entries;
      assert p.entries.Keys == sp.Keys == sq.Keys == q.entries.Keys;
      forall name <- p.entries ensures AllText(LANGFUSE_PROJECT, p.entries[name]) <==> AllText(LANGFUSE_PROJECT, q.entries[name]) {
        assert Strip(LANGFUSE_PROJECT, p.entries[name]) == sp[name] == sq[name] == Strip(LANGFUSE_PROJECT, q.entries[name]);
        TextBlind(LANGFUSE_PROJECT, p.entries[name], q.entries[name]);
      }
    }
  }

  lemma TopKinds()
    ensures KindOf(ACCOUNTS, "accounts") == ModelList(ACCOUNT) && KindOf(ACCOUNTS, "langfuse") == Model(LANGFUSE)
    ensures KindOf(ACCOUNTS, "models") == Model(TIER_MODELS)
    ensures forall key <- {"triage_level", "classifier_level", "draft_level", "mail_data_root", "file_hub_url"} :: KindOf(ACCOUNTS, key) == Scalar
  {
  }

  /** The program's own validators do not look at secrets. */
  lemma ShippedBlind()
    ensures AcceptsBlind(SHIPPED)
  {
    forall w, w' | SameButSecrets(ACCOUNTS, w, w') ensures ShippedAccepts(w) <==> ShippedAccepts(w') {
      AcceptsAlike(w, w');
    }
  }

  lemma AcceptsAlike(a: Value, b: Value)
    requires Strip(ACCOUNTS, a) == Strip(ACCOUNTS, b)
    ensures ShippedAccepts(a) <==> ShippedAccepts(b)
  {
    hide Strip, KindOf, AccountsAccepted, LangfuseAccepted, AllText;
    TopKinds();
    PlainStripped(ACCOUNTS, a, b);
    FieldStripped(ACCOUNTS, a, b, "accounts");
    FieldStripped(ACCOUNTS, a, b, "langfuse");
    FieldStripped(ACCOUNTS, a, b, "models");
    ItemsStripped(Get(a, "accounts"), Get(b, "accounts"));
    AccountsBlind(ItemsOr(Get(a, "accounts")), ItemsOr(Get(b, "accounts")));
    LangfuseBlind(Get(a, "langfuse"), Get(b, "langfuse"));
    TextBlind(TIER_MODELS, Get(a, "models"), Get(b, "models"));
  }

  lemma ItemsStripped(a: Value, b: Value)
    requires StripField(ModelList(ACCOUNT), a) == StripField(ModelList(ACCOUNT), b)
    ensures StripItems(ACCOUNT, ItemsOr(a)) == StripItems(ACCOUNT, ItemsOr(b))
  {
    hide Strip;
  }

  // ---------- what follows for the program ----------

  lemma FlatCarriesNone(cls: Class, v: Value)
    requires Flat(cls)
    ensures !Carries(cls, v)
  {
  }

  lemma AccountCarriesNone(v: Value)
    ensures !Carries(ACCOUNT, v)
  {
    hide MAIL_CONFIG;
    AccountKinds();
    MailIsFlat();
    if v.Dict? && "config" in v.entries { FlatCarriesNone(MAIL_CONFIG, v.entries["config"]); }
  }

  lemma MailIsFlat()
    ensures Flat(MAIL_CONFIG)
  {
  }

  lemma BlockCarriesNone(key: string, v: Value)
    requires key != "accounts"
    ensures !FieldCarries(KindOf(ACCOUNTS, key), v)
  {
    hide KindOf;
    BlockKinds(key);
    LangfuseCarriesNone(v);
    OpenRouterCarriesNone(v);
    FlatCarriesNone(TIER_MODELS, v) by { TierIsFlat(); }
    hide Carries;
  }

  lemma TierIsFlat()
    ensures Flat(TIER_MODELS) && Flat(LANGFUSE_PROJECT)
  {
  }

  lemma LangfuseCarriesNone(v: Value)
    ensures !Carries(LANGFUSE, v)
  {
    TierIsFlat();
    if v.Dict? && "projects" in v.entries && v.entries["projects"].Dict? {
      forall name <- v.entries["projects"].entries { FlatCarriesNone(LANGFUSE_PROJECT, v.entries["projects"].entries[name]); }
    }
  }

  lemma OpenRouterCarriesNone(v: Value)
    ensures !Carries(OPENROUTER, v)
  {
  }

  /** The identities of what the validators accept are texts. */
  lemma AcceptedCarriesNone(v: Value)
    requires ShippedAccepts(v)
    ensures !Carries(ACCOUNTS, v)
  {
    hide KindOf, LangfuseAccepted, AllText, IdAccepted, SettingsAccepted;
    TopKinds();
    if v.Dict? {
      forall key <- v.entries ensures !FieldCarries(KindOf(ACCOUNTS, key), v.entries[key]) {
        if key == "accounts" {
          if v.entries[key].List? { AccountsCarryNone(v.entries[key].items); }
        } else {
          BlockCarriesNone(key, v.entries[key]);
        }
      }
      hide FieldCarries;
    }
  }

  lemma AccountsCarryNone(accounts: seq<Value>)
    requires AccountsAccepted(accounts)
    ensures !FieldCarries(ModelList(ACCOUNT), List(accounts))
  {
    hide SettingsAccepted, Carries, DatabasePath;
    forall item <- accounts ensures !Carries(ACCOUNT, item) && IdentityOf(ACCOUNT, item).Str? {
      AccountCarriesNone(item);
      AccountIdentity(item);
      assert AccountAccepted(item);
    }
  }

  /** Main result: the program accepts an update exactly if a configuration follows from it that its model classes and
      validators accept, and that is what it then stores and records. */
  lemma ShippedUpdateTakes(s: State, updates: map<string, Value>)
    requires Inv(SHIPPED, s) && ShippedAccepts(s.config)
    ensures var r := Apply(SHIPPED, s, Update(updates));
            && (r.Ok? <==> exists w :: Acceptable(SHIPPED, s, Dict(updates), w))
            && (r.Ok? ==> Acceptable(SHIPPED, s, Dict(updates), r.value.config) && RecordedNext(SHIPPED, s, r.value)
                          && ShippedAccepts(r.value.config))
            && (r.Err? ==> r.error == if Carries(ACCOUNTS, Dict(updates)) then Unhashable else Rejected)
  {
    hide *;
    SchemaOf(SHIPPED, s);
    ShippedIs();
    UpdateTakes(SHIPPED, s, updates);
    AcceptedCarriesNone(s.config);
    forall w | SHIPPED.accepts(w) ensures !Carries(ACCOUNTS, w) { AcceptedCarriesNone(w); }
    TakenIff(SHIPPED, s, Dict(updates));
    if Apply(SHIPPED, s, Update(updates)).Ok? { StoredAccepted(SHIPPED, s, Update(updates)); }
    RefusedFor(SHIPPED, s, updates);
  }

  /** And a rollback exactly if the version is retained and a configuration follows from it that they accept. */
  lemma ShippedRollbackTakes(s: State, version: int)
    requires Inv(SHIPPED, s) && ShippedAccepts(s.config)
    ensures var r, snapshot := Apply(SHIPPED, s, Rollback(version)), SnapshotOf(s.history, version);
            && (snapshot.Some? ==> snapshot.value.Dict?)
            && (r.Ok? <==> snapshot.Some? && exists w :: Acceptable(SHIPPED, s, snapshot.value, w))
            && (r.Ok? ==> Acceptable(SHIPPED, s, snapshot.value, r.value.config) && RecordedNext(SHIPPED, s, r.value)
                          && ShippedAccepts(r.value.config))
            && (r.Err? && r.error == UnknownVersion <==> snapshot.None?)
  {
    hide *;
    SchemaOf(SHIPPED, s);
    ShippedIs();
    RollbackTakes(SHIPPED, s, version);
    forall w | SHIPPED.accepts(w) ensures !Carries(ACCOUNTS, w) { AcceptedCarriesNone(w); }
    if SnapshotOf(s.history, version).Some? { TakenIff(SHIPPED, s, SnapshotOf(s.history, version).value); }
    if Apply(SHIPPED, s, Rollback(version)).Ok? { StoredAccepted(SHIPPED, s, Rollback(version)); }
  }

  lemma ShippedIs()
    ensures SHIPPED.root == ACCOUNTS && forall w :: SHIPPED.accepts(w) <==> ShippedAccepts(w)
  {
    hide ShippedAccepts, ACCOUNTS;
  }

  ghost predicate FieldKept(info: FieldInfo, f: Value -> Value) {
    DefaultKept(info, f) && KeptBelow(info.annotation, f)
  }

  ghost predicate AllKept(cls: Class, f: Value -> Value) {
    forall key <- cls.fields :: FieldKept(cls.fields[key], f)
  }

  lemma KeptFrom(cls: Class, f: Value -> Value)
    requires AllKept(cls, f)
    ensures DefaultsKept(cls, f)
  {
    forall key <- cls.fields ensures FieldKept(cls.fields[key], f) {
    }
  }

  lemma PlainKept(info: FieldInfo, f: Value -> Value)
    requires info.annotation.OtherType? || (info == SECRET && f(Str("")) == Str(""))
    ensures FieldKept(info, f)
  {
  }

  lemma FlatKept(cls: Class, f: Value -> Value)
    requires f(Str("")) == Str("") && forall key <- cls.fields :: cls.fields[key] == SECRET || cls.fields[key].annotation.OtherType?
    ensures DefaultsKept(cls, f)
  {
    hide FieldKept;
    forall key <- cls.fields ensures FieldKept(cls.fields[key], f) {
      PlainKept(cls.fields[key], f);
    }
    KeptFrom(cls, f);
  }

  lemma ModelKept(cls: Class, default: Option<Value>, f: Value -> Value)
    requires DefaultsKept(cls, f) && (default.Some? ==> Rename(cls, f, default.value) == default.value)
    ensures FieldKept(FieldInfo(ModelType(cls), default), f) && FieldKept(FieldInfo(ListType(ModelType(cls)), None), f)
  {
  }

  lemma BlocksKept(f: Value -> Value)
    requires f(Str("")) == Str("")
    ensures DefaultsKept(LANGFUSE, f) && DefaultsKept(OPENROUTER, f) && DefaultsKept(TIER_MODELS, f)
  {
    FlatKept(TIER_MODELS, f);
    FlatKept(LANGFUSE_PROJECT, f);
    PlainKept(TEXT, f);
    ProjectsKept(f);
    hide FieldKept, DefaultsKept;
    KeptFrom(LANGFUSE, f);
    KeptFrom(OPENROUTER, f);
  }

  lemma ProjectsKept(f: Value -> Value)
    requires DefaultsKept(LANGFUSE_PROJECT, f)
    ensures FieldKept(LANGFUSE.fields["projects"], f) && FieldKept(OPENROUTER.fields["keys"], f)
  {
    assert RenameField(ModelMap(LANGFUSE_PROJECT), f, Dict(map[])) == Dict(map[]);
    assert RenameField(SecretMap, f, Dict(map[])) == Dict(map[]);
  }

  lemma AccountKept(f: Value -> Value)
    requires f(Str("")) == Str("")
    ensures DefaultsKept(ACCOUNT, f)
  {
    MailKept(f);
    hide DefaultsKept;
    ModelKept(MAIL_CONFIG, None, f);
    PlainKept(REQUIRED, f);
    LabelKept(f);
    hide FieldKept;
    KeptFrom(ACCOUNT, f);
  }

  lemma MailKept(f: Value -> Value)
    requires f(Str("")) == Str("")
    ensures DefaultsKept(MAIL_CONFIG, f)
  {
    hide DefaultsKept;
    FlatKept(MAIL_CONFIG, f);
  }

  lemma LabelKept(f: Value -> Value)
    ensures FieldKept(LABEL, f)
  {
    assert NonNone([OtherType, NoneType]) == [OtherType] by { assert [OtherType, NoneType][1..] == [NoneType]; }
  }

  lemma LangfuseDefaultKept(f: Value -> Value)
    ensures Rename(LANGFUSE, f, LANGFUSE_DEFAULT) == LANGFUSE_DEFAULT
  {
    assert RenameField(ModelMap(LANGFUSE_PROJECT), f, Dict(map[])) == Dict(map[]);
    assert KindOf(LANGFUSE, "projects") == ModelMap(LANGFUSE_PROJECT) && KindOf(LANGFUSE, "host") == Scalar;
    assert Rename(LANGFUSE, f, LANGFUSE_DEFAULT).entries == LANGFUSE_DEFAULT.entries;
  }

  lemma OpenRouterDefaultKept(f: Value -> Value)
    ensures Rename(OPENROUTER, f, OPENROUTER_DEFAULT) == OPENROUTER_DEFAULT
  {
    assert RenameField(SecretMap, f, Dict(map[])) == Dict(map[]);
    assert Rename(OPENROUTER, f, OPENROUTER_DEFAULT).entries == OPENROUTER_DEFAULT.entries;
  }

  lemma TierDefaultKept(f: Value -> Value)
    ensures Rename(TIER_MODELS, f, TIER_DEFAULT) == TIER_DEFAULT
  {
    forall key <- TIER_DEFAULT.entries ensures KindOf(TIER_MODELS, key) == Scalar {
    }
    hide KindOf;
    assert Rename(TIER_MODELS, f, TIER_DEFAULT).entries == TIER_DEFAULT.entries;
  }

  /** The defaults of the shipped classes hold no secret but the empty one. */
  lemma ShippedDefaultsKept(f: Value -> Value)
    requires f(Str("")) == Str("")
    ensures DefaultsKept(ACCOUNTS, f)
  {
    TopKept(f);
    hide AllKept, DefaultsKept;
    KeptFrom(ACCOUNTS, f);
  }

  lemma TopKept(f: Value -> Value)
    requires f(Str("")) == Str("")
    ensures AllKept(ACCOUNTS, f)
  {
    hide FieldKept, DefaultsKept, Rename;
    BlocksKept(f);
    AccountKept(f);
    LangfuseDefaultKept(f);
    OpenRouterDefaultKept(f);
    TierDefaultKept(f);
    ModelKept(ACCOUNT, None, f);
    ModelKept(LANGFUSE, Some(LANGFUSE_DEFAULT), f);
    ModelKept(OPENROUTER, Some(OPENROUTER_DEFAULT), f);
    ModelKept(TIER_MODELS, Some(TIER_DEFAULT), f);
    PlainKept(TEXT, f);
    PlainKept(Default(Num(1)), f);
    PlainKept(Default(Str("/data")), f);
  }

  /** Run the same requests with other secrets: every recorded version is the same. */
  lemma ShippedHistoryBlind(s: State, t: State, a: seq<Op>, b: seq<Op>)
    requires Inv(SHIPPED, s) && Inv(SHIPPED, t) && SameButSecrets(ACCOUNTS, s.config, t.config) && SameHistory(s.history, t.history)
    requires AllAlike(ACCOUNTS, a, b) && forall i :: 0 <= i < |a| == |b| ==> OpFits(ACCOUNTS, a[i]) && OpFits(ACCOUNTS, b[i])
    ensures SameHistory(Run(SHIPPED, s, a).history, Run(SHIPPED, t, b).history)
  {
    ShippedBlind();
    ShippedOptional();
    hide AcceptsBlind, SecretsOptional, Inv, SameHistory, SameButSecrets, AllAlike;
    HistoryIndependentOfSecrets(SHIPPED, s, t, a, b);
  }

  /** Exchange the secrets one for one: the recorded changes are the same as well. */
  lemma ShippedHistorySame(f: Value -> Value, s: State, ops: seq<Op>)
    requires Inv(SHIPPED, s) && Discreet(f)
    ensures Inv(SHIPPED, Renamed(SHIPPED, f, s))
    ensures Run(SHIPPED, Renamed(SHIPPED, f, s), RenamedOps(SHIPPED, f, ops)).history == Run(SHIPPED, s, ops).history
  {
    ShippedBlind();
    ShippedDefaultsKept(f);
    hide AcceptsBlind, DefaultsKept, Inv, Discreet, Run, RenamedOps;
    HistorySeesOnlyEquality(SHIPPED, f, s, ops);
  }

  lemma AccountIdentity(item: Value)
    ensures IdentityOf(ACCOUNT, item) == Get(item, "account_id")
  {
  }

  lemma ConformsAt(cls: Class, v: Value, key: string)
    requires Conform(cls, v).Some? && key in cls.fields
    ensures v.Dict? && ConformKey(cls.fields[key], v, key).Some?
    ensures Get(Conform(cls, v).value, key) == ConformKey(cls.fields[key], v, key).value
  {
  }

  lemma IdConforms(item: Value)
    requires Conform(ACCOUNT, item).Some?
    ensures Get(Conform(ACCOUNT, item).value, "account_id") == Get(item, "account_id") != Null
  {
    hide Conform;
    ConformsAt(ACCOUNT, item, "account_id");
  }

  lemma UniqueBefore(v: Value)
    requires Validate(SHIPPED, v).Some?
    ensures UniqueAccounts(v)
  {
    hide UniqueIdentities, LangfuseAccepted, AllText, AccountsAccepted, Conform;
    ConformsAt(ACCOUNTS, v, "accounts");
    if "accounts" in v.entries && v.entries["accounts"].List? { UniqueItems(v.entries["accounts"].items); }
  }

  lemma UniqueItems(items: seq<Value>)
    requires (forall i | 0 <= i < |items| :: Conform(ACCOUNT, items[i]).Some?) && AccountsAccepted(ConformItems(ACCOUNT, items))
    ensures UniqueIdentities(ACCOUNT, items)
  {
    hide *;
    forall i, j | 0 <= i < j < |items| ensures IdentityOf(ACCOUNT, items[i]) != IdentityOf(ACCOUNT, items[j]) {
      AccountIdentity(items[i]);
      AccountIdentity(items[j]);
      IdConforms(items[i]);
      IdConforms(items[j]);
      ConformedAt(items, i);
      ConformedAt(items, j);
      DistinctAt(ConformItems(ACCOUNT, items), i, j);
    }
    AllDistinct(items);
  }

  lemma ConformedAt(items: seq<Value>, i: nat)
    requires (forall i | 0 <= i < |items| :: Conform(ACCOUNT, items[i]).Some?) && i < |items|
    ensures ConformItems(ACCOUNT, items)[i] == Conform(ACCOUNT, items[i]).value
  {
    hide Conform;
  }

  lemma DistinctAt(accounts: seq<Value>, i: nat, j: nat)
    requires AccountsAccepted(accounts) && i < j < |accounts|
    ensures Get(accounts[i], "account_id") != Get(accounts[j], "account_id")
  {
    hide AccountAccepted, DatabasePath;
  }

  lemma AllDistinct(items: seq<Value>)
    requires forall i, j :: 0 <= i < j < |items| ==> IdentityOf(ACCOUNT, items[i]) != IdentityOf(ACCOUNT, items[j])
    ensures UniqueIdentities(ACCOUNT, items)
  {
    hide IdentityOf;
  }

  /** An update that the program accepts changes nothing when it is sent again. */
  lemma ShippedUpdateIdempotent(c: Value, u: Value)
    requires c.Dict? && u.Dict? && Validate(SHIPPED, Merge(ACCOUNTS, c, u)).Some?
    ensures Merge(ACCOUNTS, Merge(ACCOUNTS, c, u), u) == Merge(ACCOUNTS, c, u)
  {
    hide *;
    UniqueBefore(Merge(ACCOUNTS, c, u));
    ShippedMergeIdempotent(c, u);
  }
}
