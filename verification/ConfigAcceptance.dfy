/**
 Whether a request is accepted does not depend on the secrets in it or in the store, as long as secrets
 come as what the model classes declare: config/service.py lines 145-248 and 350-358.
 */
module ConfigAcceptance {
  import opened Outcome
  import opened ConfigSchema
  import opened ConfigMerge
  import opened ConfigLaws
  import opened ConfigValidation
  import opened ConfigOps

  /** Wherever a declared secret is given, it is one: a string, or a map of strings. */
  ghost predicate SecretsFit(cls: Class, v: Value)
    decreases v, 0
  {
    v.Dict? ==> forall key <- v.entries :: key in cls.fields ==> FieldFits(cls.fields[key].annotation, v.entries[key])
  }

  ghost predicate FieldFits(a: Annotation, v: Value)
    decreases v, 1
  {
    match Classify(a)
    case Secret => ConformField(a, v).Some?
    case SecretMap => ConformField(a, v).Some?
    case Model(sub) => SecretsFit(sub, v)
    case ModelList(sub) => v.List? ==> forall item <- v.items :: SecretsFit(sub, item)
    case ModelMap(sub) => v.Dict? ==> forall name <- v.entries :: SecretsFit(sub, v.entries[name])
    case Scalar => true
  }

  /** Every secret field has a default, at every level. */
  ghost predicate SecretsOptional(cls: Class) {
    forall key <- cls.fields ::
      && (SecretKind(KindOf(cls, key)) ==> cls.fields[key].default.Some?)
      && OptionalBelow(cls.fields[key].annotation)
  }

  ghost predicate OptionalBelow(a: Annotation) {
    match a
    case ModelType(cls) => SecretsOptional(cls)
    case ListType(element) => OptionalBelow(element)
    case DictType(_, value) => OptionalBelow(value)
    case UnionType(branches) => forall b <- branches :: OptionalBelow(b)
    case _ => true
  }

  lemma UnwrapOptionalBelow(a: Annotation)
    requires OptionalBelow(a)
    ensures OptionalBelow(UnwrapOptional(a))
  {
    if a.UnionType? { NonNoneMembers(a.branches); }
  }

  lemma SubOptional(a: Annotation)
    requires OptionalBelow(a)
    ensures var k := Classify(a);
            k.Model? || k.ModelList? || k.ModelMap? ==> SecretsOptional(k.sub)
  {
    UnwrapOptionalBelow(a);
    if UnwrapOptional(a).DictType? { UnwrapOptionalBelow(UnwrapOptional(a).value); }
  }

  // ---------- merging keeps secrets fit ----------

  lemma {:induction false} TypedFits(cls: Class, v: Value)
    requires Partial(cls, v)
    ensures SecretsFit(cls, v)
    decreases v, 0
  {
    forall key <- v.entries ensures FieldFits(cls.fields[key].annotation, v.entries[key]) {
      TypedFieldFits(cls.fields[key].annotation, v.entries[key]);
    }
  }

  lemma {:induction false} TypedFieldFits(a: Annotation, v: Value)
    requires FieldTyped(a, v)
    ensures FieldFits(a, v)
    decreases v, 1
  {
    match Classify(a)
    case Secret => ConformFieldIdentity(a, v);
    case SecretMap => ConformFieldIdentity(a, v);
    case Model(sub) => if v.Dict? { TypedFits(sub, v); }
    case ModelList(sub) => if v.List? { forall item <- v.items { TypedFits(sub, item); } }
    case ModelMap(sub) => if v.Dict? { forall name <- v.entries | v.entries[name].Dict? { TypedFits(sub, v.entries[name]); } }
    case Scalar =>
  }

  lemma {:induction false} MergeFits(cls: Class, c: Value, u: Value)
    requires Partial(cls, c) && u.Dict? && SecretsFit(cls, u)
    ensures SecretsFit(cls, Merge(cls, c, u))
    decreases u, 0
  {
    var merged := Merge(cls, c, u);
    forall key <- merged.entries | key in cls.fields ensures FieldFits(cls.fields[key].annotation, merged.entries[key]) {
      var a := cls.fields[key].annotation;
      if Untouched(cls, key, u) {
        TypedFieldFits(a, c.entries[key]);
      } else {
        MergeFieldFits(a, Get(c, key), u.entries[key]);
      }
    }
  }

  lemma {:induction false} MergeFieldFits(a: Annotation, c: Value, v: Value)
    requires (c.Null? || FieldTyped(a, c)) && FieldFits(a, v)
    ensures FieldFits(a, MergeField(Classify(a), c, v))
    decreases v, 1
  {
    match Classify(a)
    case Scalar =>
    case Secret =>
    case SecretMap =>
    case Model(sub) => if v.Dict? { MergeFits(sub, DictOr(c), v); }
    case ModelList(sub) =>
      if v.List? {
        var merged := MergeItems(sub, ItemsOr(c), v.items);
        forall i | 0 <= i < |merged| ensures SecretsFit(sub, merged[i]) {
          assert forall item <- ItemsOr(c) :: WellTyped(sub, item);
          if v.items[i].Dict? { MergeFits(sub, Existing(sub, ItemsOr(c), i, v.items[i]), v.items[i]); }
        }
      }
    case ModelMap(sub) =>
      if v.Dict? {
        var merged := MergeField(Classify(a), c, v);
        forall name <- v.entries ensures SecretsFit(sub, merged.entries[name]) {
          assert merged.entries[name] == MergeEntry(sub, Get(c, name), v.entries[name]);
          if v.entries[name].Dict? { MergeFits(sub, DictOr(Get(c, name)), v.entries[name]); }
        }
      }
  }

  lemma {:induction false} StripFits(cls: Class, v: Value)
    ensures SecretsFit(cls, Strip(cls, v))
    decreases v, 0
  {
    if v.Dict? {
      forall key <- Strip(cls, v).entries | key in cls.fields ensures FieldFits(cls.fields[key].annotation, Strip(cls, v).entries[key]) {
        StripFieldFits(cls.fields[key].annotation, v.entries[key]);
      }
    }
  }

  lemma {:induction false} StripFieldFits(a: Annotation, v: Value)
    requires !SecretKind(Classify(a))
    ensures FieldFits(a, StripField(Classify(a), v))
    decreases v, 1
  {
    match Classify(a)
    case Scalar =>
    case Model(sub) => StripFits(sub, v);
    case ModelList(sub) =>
      if v.List? {
        forall i | 0 <= i < |v.items| ensures SecretsFit(sub, StripItems(sub, v.items)[i]) {
          StripFits(sub, v.items[i]);
        }
      }
    case ModelMap(sub) =>
      if v.Dict? {
        forall name <- v.entries ensures SecretsFit(sub, StripField(Classify(a), v).entries[name]) {
          StripFits(sub, v.entries[name]);
        }
      }
  }

  // ---------- acceptance ----------

  /** A candidate with other secrets fits the classes just as well. */
  lemma {:induction false} ConformsAlike(cls: Class, v: Value, v': Value)
    requires SecretsOptional(cls) && SecretsFit(cls, v') && Strip(cls, v) == Strip(cls, v')
    requires Conform(cls, v).Some?
    ensures Conform(cls, v').Some?
    decreases v, 0
  {
    forall key <- cls.fields ensures ConformKey(cls.fields[key], v', key).Some? {
      var a := cls.fields[key].annotation;
      assert ConformKey(cls.fields[key], v, key).Some?;
      if SecretKind(KindOf(cls, key)) {
        assert key in v'.entries ==> FieldFits(a, v'.entries[key]);
      } else {
        assert key in v.entries <==> key in Strip(cls, v).entries;
        assert key in v'.entries <==> key in Strip(cls, v').entries;
        if key in v.entries {
          assert StripField(Classify(a), v.entries[key]) == Strip(cls, v).entries[key] == StripField(Classify(a), v'.entries[key]);
          SubOptional(a);
          FieldConformsAlike(a, v.entries[key], v'.entries[key]);
        }
      }
    }
  }

  lemma {:induction false} FieldConformsAlike(a: Annotation, v: Value, v': Value)
    requires !SecretKind(Classify(a)) && FieldFits(a, v') && StripField(Classify(a), v) == StripField(Classify(a), v')
    requires var k := Classify(a); k.Model? || k.ModelList? || k.ModelMap? ==> SecretsOptional(k.sub)
    requires ConformField(a, v).Some?
    ensures ConformField(a, v').Some?
    decreases v, 1
  {
    if !v.Null? {
      match Classify(a)
      case Scalar =>
      case Model(sub) => ConformsAlike(sub, v, v');
      case ModelList(sub) =>
        assert |v.items| == |StripItems(sub, v.items)| == |StripItems(sub, v'.items)| == |v'.items|;
        forall i | 0 <= i < |v'.items| ensures Conform(sub, v'.items[i]).Some? {
          assert StripItems(sub, v.items)[i] == StripItems(sub, v'.items)[i];
          ConformsAlike(sub, v.items[i], v'.items[i]);
        }
      case ModelMap(sub) =>
        var s, s' := StripField(Classify(a), v).entries, StripField(Classify(a), v').entries;
        forall name <- v'.entries ensures ConformEntry(a, sub, v'.entries[name]).Some? {
          assert name in s' && name in s && Strip(sub, v.entries[name]) == s[name] == s'[name] == Strip(sub, v'.entries[name]);
          assert ConformEntry(a, sub, v.entries[name]).Some?;
          if !v.entries[name].Null? { ConformsAlike(sub, v.entries[name], v'.entries[name]); }
        }
    }
  }

  /** Whether merging raises is decided by the non-secret parts alone. */
  lemma {:induction false} RaisesStripped(cls: Class, c: Value, u: Value)
    requires SchemaOk(cls) && c.Dict?
    ensures Raises(cls, c, u) <==> Raises(cls, Strip(cls, c), Strip(cls, u))
    decreases u, 0
  {
    if u.Dict? {
      var s := Strip(cls, u);
      forall key <- u.entries
        ensures FieldRaises(KindOf(cls, key), Get(c, key), u.entries[key]) ==>
                  key in s.entries && FieldRaises(KindOf(cls, key), Get(Strip(cls, c), key), s.entries[key])
        ensures key in s.entries && FieldRaises(KindOf(cls, key), Get(Strip(cls, c), key), s.entries[key]) ==>
                  FieldRaises(KindOf(cls, key), Get(c, key), u.entries[key])
      {
        SubSchemaOk(cls, key);
        if !SecretKind(KindOf(cls, key)) {
          assert Get(Strip(cls, c), key) == StripField(KindOf(cls, key), Get(c, key));
          FieldRaisesStripped(KindOf(cls, key), Get(c, key), u.entries[key]);
        }
      }
      assert s.entries.Keys <= u.entries.Keys;
    }
  }

  lemma {:induction false} FieldRaisesStripped(k: Kind, c: Value, v: Value)
    requires !SecretKind(k)
    requires k.Model? || k.ModelList? || k.ModelMap? ==> SchemaOk(k.sub)
    ensures FieldRaises(k, c, v) <==> FieldRaises(k, StripField(k, c), StripField(k, v))
    decreases v, 1
  {
    match k
    case Scalar =>
    case Model(sub) =>
      RaisesStripped(sub, DictOr(c), v);
      DictStripped(sub, c);
    case ModelList(sub) => if v.List? { ListRaisesStripped(sub, ItemsOr(c), v.items); }
    case ModelMap(sub) =>
      if v.Dict? {
        var d, s := DictOr(c), StripField(k, v);
        forall name <- v.entries
          ensures Raises(sub, DictOr(Get(d, name)), v.entries[name]) <==>
                  Raises(sub, DictOr(Get(DictOr(StripField(k, c)), name)), s.entries[name])
        {
          assert Get(DictOr(StripField(k, c)), name) == Strip(sub, Get(d, name));
          RaisesStripped(sub, DictOr(Get(d, name)), v.entries[name]);
          DictStripped(sub, Get(d, name));
        }
        assert s.entries.Keys == v.entries.Keys;
      }
  }

  lemma DictStripped(cls: Class, c: Value)
    ensures DictOr(Strip(cls, c)) == Strip(cls, DictOr(c))
  {
    assert Strip(cls, Dict(map[])) == Dict(map[]);
  }

  lemma {:induction false} ListRaisesStripped(cls: Class, c: seq<Value>, u: seq<Value>)
    requires SchemaOk(cls)
    ensures ListRaises(cls, c, u) <==> ListRaises(cls, StripItems(cls, c), StripItems(cls, u))
    decreases u
  {
    var sc, su := StripItems(cls, c), StripItems(cls, u);
    StoredHashable(cls, c);
    forall i | 0 <= i < |u| ensures ItemRaises(cls, c, i, u[i]) <==> ItemRaises(cls, sc, i, su[i]) {
      IdentityStripped(cls, u[i]);
      if u[i].Dict? {
        ExistingStripped(cls, c, i, u[i]);
        RaisesStripped(cls, Existing(cls, c, i, u[i]), u[i]);
      }
    }
  }

  lemma StoredHashable(cls: Class, c: seq<Value>)
    requires SchemaOk(cls)
    ensures (exists item <- c :: !Hashable(IdentityOf(cls, item))) <==> exists item <- StripItems(cls, c) :: !Hashable(IdentityOf(cls, item))
  {
    hide IdentityOf, Hashable, Strip;
    var sc := StripItems(cls, c);
    if exists item <- c :: !Hashable(IdentityOf(cls, item)) {
      var item :| item in c && !Hashable(IdentityOf(cls, item));
      var i :| 0 <= i < |c| && c[i] == item;
      IdentityStripped(cls, c[i]);
      assert sc[i] in sc;
    }
    if exists item <- sc :: !Hashable(IdentityOf(cls, item)) {
      var item :| item in sc && !Hashable(IdentityOf(cls, item));
      var i :| 0 <= i < |sc| && sc[i] == item;
      IdentityStripped(cls, c[i]);
      assert c[i] in c;
    }
  }

  lemma RaisesAlike(cls: Class, c: Value, c': Value, u: Value, u': Value)
    requires SchemaOk(cls) && SameButSecrets(cls, c, c') && SameButSecrets(cls, u, u')
    ensures Raises(cls, c, u) <==> Raises(cls, c', u')
  {
    RaisesStripped(cls, c, u);
    RaisesStripped(cls, c', u');
  }
}
