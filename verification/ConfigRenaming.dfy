/**
 Exchanging secrets for others, one for one, commutes with everything a request does: config/service.py lines
 114-248 and 350-359.
 */
module ConfigRenaming {
  import opened Outcome
  import opened ConfigSchema
  import opened ConfigMerge
  import opened ConfigDiff
  import opened ConfigValidation

  /** A renaming of secrets that keeps strings strings, and the blank and the mask what they are. */
  ghost predicate Discreet(f: Value -> Value) {
    && Renaming(f) && f(Str("")) == Str("") && f(Str(MASK)) == Str(MASK)
    && forall v :: f(v).Str? <==> v.Str?
  }

  lemma BlankRenamed(f: Value -> Value, v: Value)
    requires Discreet(f)
    ensures Blank(f(v)) <==> Blank(v)
  {
    assert f(v) == f(Str("")) <==> v == Str("");
    assert f(v) == f(Str(MASK)) <==> v == Str(MASK);
  }

  // ---------- stripping ----------

  lemma {:induction false} StripRenamed(cls: Class, f: Value -> Value, v: Value)
    ensures Strip(cls, Rename(cls, f, v)) == Strip(cls, v)
    decreases v, 0
  {
    if v.Dict? {
      var renamed, plain := Strip(cls, Rename(cls, f, v)), Strip(cls, v);
      forall key <- plain.entries ensures key in renamed.entries && renamed.entries[key] == plain.entries[key] {
        StripFieldRenamed(KindOf(cls, key), f, v.entries[key]);
      }
      assert renamed.entries == plain.entries;
    }
  }

  lemma {:induction false} StripFieldRenamed(k: Kind, f: Value -> Value, v: Value)
    requires !SecretKind(k)
    ensures StripField(k, RenameField(k, f, v)) == StripField(k, v)
    decreases v, 1
  {
    match k
    case Scalar =>
    case Model(sub) => StripRenamed(sub, f, v);
    case ModelList(sub) =>
      if v.List? {
        forall i | 0 <= i < |v.items| { StripRenamed(sub, f, v.items[i]); }
        assert StripItems(sub, RenameItems(sub, f, v.items)) == StripItems(sub, v.items);
      }
    case ModelMap(sub) =>
      if v.Dict? {
        forall name <- v.entries { StripRenamed(sub, f, v.entries[name]); }
        assert StripField(k, RenameField(k, f, v)).entries == StripField(k, v).entries;
      }
  }

  /** There is nothing to rename in what stripping leaves. */
  lemma {:induction false} RenameStripped(cls: Class, f: Value -> Value, v: Value)
    ensures Rename(cls, f, Strip(cls, v)) == Strip(cls, v)
    decreases v, 0
  {
    if v.Dict? {
      var renamed, plain := Rename(cls, f, Strip(cls, v)), Strip(cls, v);
      forall key <- plain.entries ensures renamed.entries[key] == plain.entries[key] {
        RenameStrippedField(KindOf(cls, key), f, v.entries[key]);
      }
      assert renamed.entries == plain.entries;
    }
  }

  lemma {:induction false} RenameStrippedField(k: Kind, f: Value -> Value, v: Value)
    requires !SecretKind(k)
    ensures RenameField(k, f, StripField(k, v)) == StripField(k, v)
    decreases v, 1
  {
    match k
    case Scalar =>
    case Model(sub) => RenameStripped(sub, f, v);
    case ModelList(sub) =>
      if v.List? {
        forall i | 0 <= i < |v.items| { RenameStripped(sub, f, v.items[i]); }
        assert RenameItems(sub, f, StripItems(sub, v.items)) == StripItems(sub, v.items);
      }
    case ModelMap(sub) =>
      if v.Dict? {
        forall name <- v.entries { RenameStripped(sub, f, v.entries[name]); }
        assert RenameField(k, f, StripField(k, v)).entries == StripField(k, v).entries;
      }
  }

  // ---------- merging ----------

  lemma GetRenamed(cls: Class, f: Value -> Value, v: Value, key: string)
    requires Renaming(f)
    ensures Get(Rename(cls, f, v), key) == RenameField(KindOf(cls, key), f, Get(v, key))
  {
    assert f(Null) == Null;
  }

  lemma UntouchedRenamed(cls: Class, f: Value -> Value, u: Value, key: string)
    requires Discreet(f) && u.Dict?
    ensures Untouched(cls, key, Rename(cls, f, u)) <==> Untouched(cls, key, u)
  {
    if key in u.entries { BlankRenamed(f, u.entries[key]); }
  }

  lemma DictRenamed(cls: Class, f: Value -> Value, c: Value)
    ensures DictOr(Rename(cls, f, c)) == Rename(cls, f, DictOr(c))
  {
    assert Rename(cls, f, Dict(map[])) == Dict(map[]);
  }

  lemma IdentityRenamed(cls: Class, f: Value -> Value, item: Value)
    requires SchemaOk(cls)
    ensures IdentityOf(cls, Rename(cls, f, item)) == IdentityOf(cls, item)
  {
  }

  lemma {:induction false} LastWithRenamed(cls: Class, f: Value -> Value, current: seq<Value>, id: Value)
    requires SchemaOk(cls) && IdentityKey(cls).Some?
    ensures LastWith(RenameItems(cls, f, current), IdentityKey(cls).value, id) ==
            match LastWith(current, IdentityKey(cls).value, id)
            case Some(item) => Some(Rename(cls, f, item))
            case None => None
  {
    if current != [] {
      IdentityRenamed(cls, f, current[|current| - 1]);
      assert RenameItems(cls, f, current)[..|current| - 1] == RenameItems(cls, f, current[..|current| - 1]);
      LastWithRenamed(cls, f, current[..|current| - 1], id);
    }
  }

  lemma ExistingRenamed(cls: Class, f: Value -> Value, current: seq<Value>, index: nat, item: Value)
    requires SchemaOk(cls)
    ensures Existing(cls, RenameItems(cls, f, current), index, Rename(cls, f, item)) == Rename(cls, f, Existing(cls, current, index, item))
  {
    IdentityRenamed(cls, f, item);
    if IdentityKey(cls).Some? { LastWithRenamed(cls, f, current, IdentityOf(cls, item)); }
    if index < |current| { IdentityRenamed(cls, f, current[index]); }
    DictRenamed(cls, f, Null);
  }

  /** Main result: merging with other secrets is merging, with the secrets exchanged in the result. */
  lemma {:induction false} MergeRenamed(cls: Class, f: Value -> Value, c: Value, u: Value)
    requires SchemaOk(cls) && Discreet(f) && c.Dict? && u.Dict?
    ensures Merge(cls, Rename(cls, f, c), Rename(cls, f, u)) == Rename(cls, f, Merge(cls, c, u))
    decreases u, 0
  {
    var left, right := Merge(cls, Rename(cls, f, c), Rename(cls, f, u)), Rename(cls, f, Merge(cls, c, u));
    forall key | key in left.entries || key in right.entries
      ensures key in left.entries && key in right.entries && left.entries[key] == right.entries[key]
    {
      SubSchemaOk(cls, key);
      UntouchedRenamed(cls, f, u, key);
      GetRenamed(cls, f, c, key);
      if !Untouched(cls, key, u) { MergeFieldRenamed(KindOf(cls, key), f, Get(c, key), u.entries[key]); }
    }
    assert left.entries == right.entries;
  }

  lemma {:induction false} MergeFieldRenamed(k: Kind, f: Value -> Value, c: Value, v: Value)
    requires Discreet(f) && (k.Model? || k.ModelList? || k.ModelMap? ==> SchemaOk(k.sub))
    ensures MergeField(k, RenameField(k, f, c), RenameField(k, f, v)) == RenameField(k, f, MergeField(k, c, v))
    decreases v, 1
  {
    match k
    case Scalar =>
    case Secret =>
    case SecretMap => if v.Dict? { MergeAliasesRenamed(f, c, v); }
    case Model(sub) =>
      if v.Dict? {
        MergeRenamed(sub, f, DictOr(c), v);
        DictRenamed(sub, f, c);
      }
    case ModelList(sub) => if v.List? { MergeItemsRenamed(sub, f, ItemsOr(c), v.items); }
    case ModelMap(sub) => if v.Dict? { MergeEntriesRenamed(sub, f, c, v); }
  }

  lemma MergeSecretRenamed(f: Value -> Value, c: Value, v: Value)
    requires Discreet(f)
    ensures MergeSecret(f(c), f(v)) == f(MergeSecret(c, v))
  {
    BlankRenamed(f, v);
  }

  lemma MergeAliasesRenamed(f: Value -> Value, c: Value, v: Value)
    requires Discreet(f) && v.Dict?
    ensures MergeField(SecretMap, RenameField(SecretMap, f, c), RenameField(SecretMap, f, v)) == RenameField(SecretMap, f, MergeField(SecretMap, c, v))
  {
    var left := MergeField(SecretMap, RenameField(SecretMap, f, c), RenameField(SecretMap, f, v));
    var right := RenameField(SecretMap, f, MergeField(SecretMap, c, v));
    forall alias <- v.entries ensures left.entries[alias] == right.entries[alias] {
      assert Get(RenameField(SecretMap, f, c), alias) == f(Get(c, alias)) by { assert f(Null) == Null; }
      hide Discreet, MergeSecret;
      MergeSecretRenamed(f, Get(c, alias), v.entries[alias]);
    }
    assert left.entries == right.entries;
  }

  lemma {:induction false} MergeEntriesRenamed(cls: Class, f: Value -> Value, c: Value, v: Value)
    requires Discreet(f) && SchemaOk(cls) && v.Dict?
    ensures MergeField(ModelMap(cls), RenameField(ModelMap(cls), f, c), RenameField(ModelMap(cls), f, v)) ==
            RenameField(ModelMap(cls), f, MergeField(ModelMap(cls), c, v))
    decreases v, 0
  {
    var k := ModelMap(cls);
    var left, right := MergeField(k, RenameField(k, f, c), RenameField(k, f, v)), RenameField(k, f, MergeField(k, c, v));
    forall name <- v.entries ensures left.entries[name] == right.entries[name] {
      assert Get(RenameField(k, f, c), name) == Rename(cls, f, Get(c, name));
      MergeEntryRenamed(cls, f, Get(c, name), v.entries[name]);
    }
    assert left.entries == right.entries;
  }

  lemma {:induction false} MergeEntryRenamed(cls: Class, f: Value -> Value, c: Value, v: Value)
    requires Discreet(f) && SchemaOk(cls)
    ensures MergeEntry(cls, Rename(cls, f, c), Rename(cls, f, v)) == Rename(cls, f, MergeEntry(cls, c, v))
    decreases v, 1
  {
    if v.Dict? {
      MergeRenamed(cls, f, DictOr(c), v);
      DictRenamed(cls, f, c);
    }
  }

  lemma {:induction false} MergeItemsRenamed(cls: Class, f: Value -> Value, c: seq<Value>, u: seq<Value>)
    requires Discreet(f) && SchemaOk(cls)
    ensures MergeItems(cls, RenameItems(cls, f, c), RenameItems(cls, f, u)) == RenameItems(cls, f, MergeItems(cls, c, u))
    decreases u
  {
    forall i | 0 <= i < |u|
      ensures MergeItems(cls, RenameItems(cls, f, c), RenameItems(cls, f, u))[i] == RenameItems(cls, f, MergeItems(cls, c, u))[i]
    {
      if u[i].Dict? {
        ExistingRenamed(cls, f, c, i, u[i]);
        MergeRenamed(cls, f, Existing(cls, c, i, u[i]), u[i]);
      }
    }
  }

  // ---------- validation ----------

  /** A default holds no secret but what the renaming leaves alone, at every level. */
  ghost predicate DefaultsKept(cls: Class, f: Value -> Value) {
    forall key <- cls.fields :: DefaultKept(cls.fields[key], f) && KeptBelow(cls.fields[key].annotation, f)
  }

  ghost predicate DefaultKept(info: FieldInfo, f: Value -> Value) {
    info.default.Some? ==> RenameField(Classify(info.annotation), f, info.default.value) == info.default.value
  }

  ghost predicate KeptBelow(a: Annotation, f: Value -> Value) {
    match a
    case ModelType(cls) => DefaultsKept(cls, f)
    case ListType(element) => KeptBelow(element, f)
    case DictType(_, value) => KeptBelow(value, f)
    case UnionType(branches) => forall b <- branches :: KeptBelow(b, f)
    case _ => true
  }

  lemma UnwrapKept(a: Annotation, f: Value -> Value)
    requires KeptBelow(a, f)
    ensures KeptBelow(UnwrapOptional(a), f)
  {
    if a.UnionType? { NonNoneMembers(a.branches); }
  }

  lemma SubKept(a: Annotation, f: Value -> Value)
    requires KeptBelow(a, f)
    ensures var k := Classify(a);
            k.Model? || k.ModelList? || k.ModelMap? ==> DefaultsKept(k.sub, f)
  {
    UnwrapKept(a, f);
    if UnwrapOptional(a).DictType? { UnwrapKept(UnwrapOptional(a).value, f); }
  }

  function RenameSome(k: Kind, f: Value -> Value, w: Option<Value>): Option<Value> {
    if w.Some? then Some(RenameField(k, f, w.value)) else None
  }

  /** Main result: validation accepts a candidate with other secrets just as well, and makes the same of it. */
  lemma {:induction false} ConformRenamed(cls: Class, f: Value -> Value, v: Value)
    requires Discreet(f) && DefaultsKept(cls, f)
    ensures Conform(cls, Rename(cls, f, v)) == RenameSome(Model(cls), f, Conform(cls, v))
    decreases v, 2
  {
    if v.Dict? {
      var r := Rename(cls, f, v);
      forall key <- cls.fields
        ensures ConformKey(cls.fields[key], r, key) == RenameSome(KindOf(cls, key), f, ConformKey(cls.fields[key], v, key))
      {
        assert DefaultKept(cls.fields[key], f) && KeptBelow(cls.fields[key].annotation, f);
        SubKept(cls.fields[key].annotation, f);
        if key in v.entries { ConformFieldRenamed(cls.fields[key].annotation, f, v.entries[key]); }
      }
      if Conform(cls, v).Some? {
        assert Conform(cls, r).Some?;
        assert Conform(cls, r).value.entries == Rename(cls, f, Conform(cls, v).value).entries;
      }
    }
  }

  lemma {:induction false} ConformFieldRenamed(a: Annotation, f: Value -> Value, v: Value)
    requires Discreet(f)
    requires var k := Classify(a); k.Model? || k.ModelList? || k.ModelMap? ==> DefaultsKept(k.sub, f)
    ensures ConformField(a, RenameField(Classify(a), f, v)) == RenameSome(Classify(a), f, ConformField(a, v))
    decreases v, 3
  {
    var k := Classify(a);
    assert f(Null) == Null;
    if !v.Null? {
      match k
      case Scalar =>
      case Secret =>
      case SecretMap =>
        if v.Dict? {
          var r := RenameField(k, f, v);
          assert forall n <- v.entries :: r.entries[n] == f(v.entries[n]);
        }
      case Model(sub) => ConformRenamed(sub, f, v);
      case ModelList(sub) => if v.List? { ConformItemsRenamed(a, sub, f, v); }
      case ModelMap(sub) => if v.Dict? { ConformEntriesRenamed(a, sub, f, v); }
    }
  }

  lemma {:induction false} ConformItemsRenamed(a: Annotation, sub: Class, f: Value -> Value, v: Value)
    requires Discreet(f) && Classify(a) == ModelList(sub) && DefaultsKept(sub, f) && v.List?
    ensures ConformField(a, RenameField(ModelList(sub), f, v)) == RenameSome(ModelList(sub), f, ConformField(a, v))
    decreases v, 2
  {
    var r := RenameItems(sub, f, v.items);
    forall i | 0 <= i < |v.items| ensures Conform(sub, r[i]) == RenameSome(Model(sub), f, Conform(sub, v.items[i])) {
      ConformRenamed(sub, f, v.items[i]);
    }
    if ConformField(a, v).Some? {
      assert ConformItems(sub, r) == RenameItems(sub, f, ConformItems(sub, v.items));
    }
  }

  lemma {:induction false} ConformEntriesRenamed(a: Annotation, sub: Class, f: Value -> Value, v: Value)
    requires Discreet(f) && Classify(a) == ModelMap(sub) && DefaultsKept(sub, f) && v.Dict?
    ensures ConformField(a, RenameField(ModelMap(sub), f, v)) == RenameSome(ModelMap(sub), f, ConformField(a, v))
    decreases v, 2
  {
    var k := ModelMap(sub);
    var r := RenameField(k, f, v);
    forall n <- v.entries ensures ConformEntry(a, sub, r.entries[n]) == RenameSome(Model(sub), f, ConformEntry(a, sub, v.entries[n])) {
      if !v.entries[n].Null? { ConformRenamed(sub, f, v.entries[n]); }
    }
    if ConformField(a, v).Some? {
      assert ConformField(a, r).Some?;
      assert ConformField(a, r).value.entries == RenameField(k, f, ConformField(a, v).value).entries;
    }
  }

  /** A valid configuration with other secrets is valid. */
  lemma TypedRenamed(cls: Class, f: Value -> Value, v: Value)
    requires SchemaOk(cls) && Discreet(f) && DefaultsKept(cls, f) && WellTyped(cls, v)
    ensures WellTyped(cls, Rename(cls, f, v))
  {
    ConformIdentity(cls, v);
    ConformRenamed(cls, f, v);
    ConformTyped(cls, Rename(cls, f, v));
  }
}
