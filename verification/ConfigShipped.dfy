/**
 The model classes as they are: config/model.py lines 78-275, 351-375, 393-425 and 434-541, and
 config/credentials.py lines 45-105.
 */
module ConfigShipped {
  import opened Outcome
  import opened ConfigSchema
  import opened ConfigMerge
  import opened ConfigLaws
  import opened ConfigDiff
  import opened ConfigValidation
  import opened ConfigAcceptance

  const REQUIRED := FieldInfo(OtherType, None)
  const TEXT := FieldInfo(OtherType, Some(Str("")))
  const SECRET := FieldInfo(SecretType, Some(Str("")))

  function Default(v: Value): FieldInfo {
    FieldInfo(OtherType, Some(v))
  }

  const LANGFUSE_PROJECT := Class(map["public_key" := TEXT, "secret_key" := SECRET, "project_id" := TEXT])

  const LANGFUSE := Class(map[
    "host" := TEXT,
    "projects" := FieldInfo(DictType(OtherType, ModelType(LANGFUSE_PROJECT)), Some(Dict(map[])))])

  const OPENROUTER := Class(map["keys" := FieldInfo(DictType(OtherType, SecretType), Some(Dict(map[])))])

  const TIER_MODELS := Class(map["level1" := TEXT, "level2" := TEXT, "level3" := TEXT])

  const MAIL_CONFIG := Class(map[
    "imap_host" := REQUIRED,
    "smtp_host" := REQUIRED,
    "username" := REQUIRED,
    "password" := SECRET,
    "imap_port" := Default(Num(993)),
    "imap_tls_mode" := Default(Str("direct-tls")),
    "smtp_port" := Default(Num(587)),
    "smtp_tls_mode" := Default(Str("starttls")),
    "db_path" := TEXT,
    "imap_folder" := Default(Str("INBOX")),
    "ingest_interval_minutes" := Default(Num(15)),
    "ingest_mode" := Default(Str("once")),
    "heartbeat_file" := TEXT,
    "archive_root" := Default(Str("robotsix-mail-archive")),
    "archive_enabled" := Default(Bool(true)),
    "triage_on_ingest" := Default(Bool(true)),
    "triage_guidance" := TEXT,
    "oauth2_token" := SECRET,
    "oauth2_client_id" := TEXT,
    "oauth2_client_secret" := SECRET,
    "oauth2_provider" := TEXT,
    "oauth2_tenant" := Default(Str("organizations")),
    "log_level" := Default(Str("INFO")),
    "log_format" := Default(Str("console"))])

  const LABEL := FieldInfo(UnionType([OtherType, NoneType]), Some(Null))

  const ACCOUNT := Class(map[
    "account_id" := REQUIRED,
    "config" := FieldInfo(ModelType(MAIL_CONFIG), None),
    "label" := LABEL])

  const LANGFUSE_DEFAULT := Dict(map["host" := Str(""), "projects" := Dict(map[])])
  const OPENROUTER_DEFAULT := Dict(map["keys" := Dict(map[])])
  const TIER_DEFAULT := Dict(map["level1" := Str(""), "level2" := Str(""), "level3" := Str("")])

  const ACCOUNTS := Class(map[
    "accounts" := FieldInfo(ListType(ModelType(ACCOUNT)), None),
    "langfuse" := FieldInfo(ModelType(LANGFUSE), Some(LANGFUSE_DEFAULT)),
    "openrouter" := FieldInfo(ModelType(OPENROUTER), Some(OPENROUTER_DEFAULT)),
    "models" := FieldInfo(ModelType(TIER_MODELS), Some(TIER_DEFAULT)),
    "triage_level" := Default(Num(1)),
    "classifier_level" := Default(Num(1)),
    "draft_level" := Default(Num(1)),
    "mail_data_root" := Default(Str("/data")),
    "file_hub_url" := TEXT])

  /** A field as every other result needs it. */
  ghost predicate Sound(info: FieldInfo) {
    && AnnotationOk(info.annotation) && DefaultOk(info)
    && GaplessField(info.annotation) && GaplessBelow(info.annotation)
  }

  ghost predicate AllSound(cls: Class) {
    forall key <- cls.fields :: Sound(cls.fields[key])
  }

  lemma SoundIsOk(cls: Class)
    requires AllSound(cls) && "" !in cls.fields && (IdentityKey(cls).Some? ==> KindOf(cls, IdentityKey(cls).value).Scalar?)
    ensures SchemaOk(cls) && Gapless(cls)
  {
    forall key <- cls.fields ensures Sound(cls.fields[key]) {
    }
    hide AnnotationOk, DefaultOk, GaplessField, GaplessBelow;
  }

  lemma PlainSound(info: FieldInfo)
    requires info.annotation.OtherType? && info.default != Some(Null)
    ensures Sound(info)
  {
  }

  lemma SecretSound()
    ensures Sound(SECRET)
  {
  }

  lemma LabelSound()
    ensures Sound(LABEL)
  {
    assert NonNone([OtherType, NoneType]) == [OtherType] by { assert [OtherType, NoneType][1..] == [NoneType]; }
  }

  lemma ModelSound(cls: Class, default: Option<Value>)
    requires SchemaOk(cls) && Gapless(cls) && (default.Some? ==> WellTyped(cls, default.value))
    ensures Sound(FieldInfo(ModelType(cls), default))
  {
  }

  lemma ListSound(cls: Class)
    requires SchemaOk(cls) && Gapless(cls)
    ensures Sound(FieldInfo(ListType(ModelType(cls)), None))
  {
  }

  lemma MapSound(cls: Class)
    requires SchemaOk(cls) && Gapless(cls)
    ensures Sound(FieldInfo(DictType(OtherType, ModelType(cls)), Some(Dict(map[]))))
  {
  }

  lemma KeysSound()
    ensures Sound(FieldInfo(DictType(OtherType, SecretType), Some(Dict(map[]))))
  {
  }

  lemma FlatOk(cls: Class)
    requires "" !in cls.fields && IdentityKey(cls).None?
    requires forall key <- cls.fields :: cls.fields[key] == SECRET || (cls.fields[key].annotation.OtherType? && cls.fields[key].default != Some(Null))
    ensures SchemaOk(cls) && Gapless(cls)
  {
    hide Sound;
    forall key <- cls.fields ensures Sound(cls.fields[key]) {
      if cls.fields[key] == SECRET { SecretSound(); } else { PlainSound(cls.fields[key]); }
    }
    SoundIsOk(cls);
  }

  lemma LangfuseOk()
    ensures SchemaOk(LANGFUSE) && Gapless(LANGFUSE)
  {
    hide Sound, SchemaOk, Gapless;
    FlatOk(LANGFUSE_PROJECT);
    PlainSound(TEXT);
    MapSound(LANGFUSE_PROJECT);
    SoundIsOk(LANGFUSE);
  }

  lemma OpenRouterOk()
    ensures SchemaOk(OPENROUTER) && Gapless(OPENROUTER)
  {
    hide Sound, SchemaOk, Gapless;
    KeysSound();
    SoundIsOk(OPENROUTER);
  }

  lemma MailConfigOk()
    ensures SchemaOk(MAIL_CONFIG) && Gapless(MAIL_CONFIG)
  {
    hide SchemaOk, Gapless, Classify;
    FlatOk(MAIL_CONFIG);
  }

  lemma AccountSound()
    ensures AllSound(ACCOUNT)
  {
    hide Sound, SchemaOk, Gapless;
    MailConfigOk();
    PlainSound(REQUIRED);
    ModelSound(MAIL_CONFIG, None);
    LabelSound();
  }

  lemma AccountOk()
    ensures SchemaOk(ACCOUNT) && Gapless(ACCOUNT)
  {
    hide AllSound, SchemaOk, Gapless;
    AccountSound();
    SoundIsOk(ACCOUNT);
  }

  lemma LangfuseDefault()
    ensures WellTyped(LANGFUSE, LANGFUSE_DEFAULT)
  {
  }

  lemma OpenRouterDefault()
    ensures WellTyped(OPENROUTER, OPENROUTER_DEFAULT)
  {
  }

  lemma TierDefault()
    ensures WellTyped(TIER_MODELS, TIER_DEFAULT)
  {
  }

  lemma NestedSound()
    ensures Sound(FieldInfo(ListType(ModelType(ACCOUNT)), None))
    ensures Sound(FieldInfo(ModelType(LANGFUSE), Some(LANGFUSE_DEFAULT))) && Sound(FieldInfo(ModelType(OPENROUTER), Some(OPENROUTER_DEFAULT)))
    ensures Sound(FieldInfo(ModelType(TIER_MODELS), Some(TIER_DEFAULT)))
  {
    hide Sound, SchemaOk, Gapless, WellTyped;
    AccountOk();
    LangfuseOk();
    OpenRouterOk();
    FlatOk(TIER_MODELS);
    LangfuseDefault();
    OpenRouterDefault();
    TierDefault();
    ListSound(ACCOUNT);
    ModelSound(LANGFUSE, Some(LANGFUSE_DEFAULT));
    ModelSound(OPENROUTER, Some(OPENROUTER_DEFAULT));
    ModelSound(TIER_MODELS, Some(TIER_DEFAULT));
  }

  lemma AccountsSound()
    ensures AllSound(ACCOUNTS)
  {
    hide Sound;
    NestedSound();
    PlainSound(TEXT);
    PlainSound(Default(Num(1)));
    PlainSound(Default(Str("/data")));
  }

  /** The shipped classes are as every other result needs them. */
  lemma ShippedOk()
    ensures SchemaOk(ACCOUNTS) && Gapless(ACCOUNTS)
  {
    hide AllSound, SchemaOk, Gapless;
    AccountsSound();
    SoundIsOk(ACCOUNTS);
  }

  /** For the configuration that is actually stored, the changed keys are empty exactly when it did not
      change. */
  lemma ShippedDiffComplete(before: Value, after: Value)
    requires WellTyped(ACCOUNTS, before) && WellTyped(ACCOUNTS, after)
    ensures Changes(ACCOUNTS, before, after, "") == [] <==> before == after
  {
    hide *;
    ShippedOk();
    DiffComplete(ACCOUNTS, before, after);
  }

  /** What validation asks of the accounts, apart from their database paths. */
  ghost predicate UniqueAccounts(v: Value) {
    v.Dict? && "accounts" in v.entries && v.entries["accounts"].List? ==> UniqueIdentities(ACCOUNT, v.entries["accounts"].items)
  }

  lemma AccountsDistinct(v: Value)
    requires UniqueAccounts(v)
    ensures DistinctIds(ACCOUNTS, v)
  {
    if v.Dict? {
      forall key <- v.entries ensures FieldDistinct(KindOf(ACCOUNTS, key), v.entries[key]) {
        if key == "accounts" {
          forall item: Value ensures DistinctIds(ACCOUNT, item) {
            AccountDistinct(item);
          }
        } else {
          BlockDistinct(key, v.entries[key]);
        }
      }
    }
  }

  lemma AccountDistinct(v: Value)
    ensures DistinctIds(ACCOUNT, v)
  {
    if v.Dict? && "config" in v.entries { FlatIsDistinct(MAIL_CONFIG, v.entries["config"]); }
  }

  lemma BlockKinds(key: string)
    requires key != "accounts"
    ensures KindOf(ACCOUNTS, key) in {Scalar, Model(LANGFUSE), Model(OPENROUTER), Model(TIER_MODELS)}
  {
  }

  lemma LangfuseDistinct(v: Value)
    ensures DistinctIds(LANGFUSE, v)
  {
    if v.Dict? && "projects" in v.entries && v.entries["projects"].Dict? {
      forall name <- v.entries["projects"].entries { FlatIsDistinct(LANGFUSE_PROJECT, v.entries["projects"].entries[name]); }
    }
  }

  lemma OpenRouterDistinct(v: Value)
    ensures DistinctIds(OPENROUTER, v)
  {
  }

  lemma TierDistinct(v: Value)
    ensures DistinctIds(TIER_MODELS, v)
  {
    FlatIsDistinct(TIER_MODELS, v);
  }

  lemma BlockDistinct(key: string, v: Value)
    requires key != "accounts"
    ensures FieldDistinct(KindOf(ACCOUNTS, key), v)
  {
    hide DistinctIds, KindOf;
    BlockKinds(key);
    LangfuseDistinct(v);
    OpenRouterDistinct(v);
    TierDistinct(v);
  }

  /** An update whose result validation accepts changes nothing when it is sent again. */
  lemma ShippedMergeIdempotent(c: Value, u: Value)
    requires c.Dict? && u.Dict? && UniqueAccounts(Merge(ACCOUNTS, c, u))
    ensures Merge(ACCOUNTS, Merge(ACCOUNTS, c, u), u) == Merge(ACCOUNTS, c, u)
  {
    hide *;
    ShippedOk();
    AccountsDistinct(Merge(ACCOUNTS, c, u));
    AcceptedMergeIdempotent(ACCOUNTS, c, u);
  }

  lemma FlatOptional(cls: Class)
    requires forall key <- cls.fields :: cls.fields[key] == SECRET || cls.fields[key].annotation.OtherType?
    ensures SecretsOptional(cls)
  {
  }

  lemma MailConfigOptional()
    ensures SecretsOptional(MAIL_CONFIG)
  {
    hide SecretsOptional;
    FlatOptional(MAIL_CONFIG);
  }

  lemma BlocksOptional()
    ensures SecretsOptional(LANGFUSE) && SecretsOptional(OPENROUTER) && SecretsOptional(TIER_MODELS)
  {
    FlatOptional(LANGFUSE_PROJECT);
    FlatOptional(TIER_MODELS);
  }

  lemma AccountOptional()
    ensures SecretsOptional(ACCOUNT)
  {
    MailConfigOptional();
    assert KindOf(ACCOUNT, "account_id") == KindOf(ACCOUNT, "label") == Scalar by { LabelSound(); }
  }

  ghost predicate OptionalField(info: FieldInfo) {
    (SecretKind(Classify(info.annotation)) ==> info.default.Some?) && OptionalBelow(info.annotation)
  }

  ghost predicate AllOptional(cls: Class) {
    forall key <- cls.fields :: OptionalField(cls.fields[key])
  }

  lemma OptionalFrom(cls: Class)
    requires AllOptional(cls)
    ensures SecretsOptional(cls)
  {
    forall key <- cls.fields ensures OptionalField(cls.fields[key]) {
    }
  }

  lemma BelowOptional(info: FieldInfo, cls: Class)
    requires SecretsOptional(cls) && (info.annotation == ModelType(cls) || info.annotation == ListType(ModelType(cls)))
    ensures OptionalField(info)
  {
  }

  lemma TopOptional()
    ensures AllOptional(ACCOUNTS)
  {
    hide OptionalField, SecretsOptional;
    BlocksOptional();
    AccountOptional();
    BelowOptional(FieldInfo(ListType(ModelType(ACCOUNT)), None), ACCOUNT);
    BelowOptional(FieldInfo(ModelType(LANGFUSE), Some(LANGFUSE_DEFAULT)), LANGFUSE);
    BelowOptional(FieldInfo(ModelType(OPENROUTER), Some(OPENROUTER_DEFAULT)), OPENROUTER);
    BelowOptional(FieldInfo(ModelType(TIER_MODELS), Some(TIER_DEFAULT)), TIER_MODELS);
    PlainOptional(TEXT);
    PlainOptional(Default(Num(1)));
    PlainOptional(Default(Str("/data")));
  }

  lemma PlainOptional(info: FieldInfo)
    requires info.annotation.OtherType?
    ensures OptionalField(info)
  {
  }

  /** Every secret of the shipped classes may be left out of a request. */
  lemma ShippedOptional()
    ensures SecretsOptional(ACCOUNTS)
  {
    hide *;
    TopOptional();
    OptionalFrom(ACCOUNTS);
  }
}
