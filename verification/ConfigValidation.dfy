/**
 Validation of a candidate configuration, as far as the model classes decide it: undeclared keys
 are dropped, missing ones take their default, and every value has to fit its annotation.
 */
module ConfigValidation {
  import opened Outcome
  import opened ConfigSchema
  import opened ConfigMerge

  function Conform(cls: Class, v: Value): Option<Value>
    decreases v, 2
  {
    if v.Dict? && forall key <- cls.fields :: ConformKey(cls.fields[key], v, key).Some? then
      Some(Dict(map key | key in cls.fields :: ConformKey(cls.fields[key], v, key).value))
    else None
  }

  function ConformKey(info: FieldInfo, v: Value, key: string): Option<Value>
    requires v.Dict?
    decreases v, 1
  {
    if key in v.entries then ConformField(info.annotation, v.entries[key]) else info.default
  }

  function ConformField(a: Annotation, v: Value): Option<Value>
    decreases v, 3
  {
    if v.Null? then if Nullable(a) then Some(v) else None
    else
      match Classify(a)
      case Scalar => Some(v)
      case Secret => if v.Str? then Some(v) else None
      case SecretMap =>
        if v.Dict? && forall n <- v.entries :: if v.entries[n].Null? then EntriesNullable(a) else v.entries[n].Str?
        then Some(v) else None
      case Model(sub) => Conform(sub, v)
      case ModelList(sub) =>
        if v.List? && forall i | 0 <= i < |v.items| :: Conform(sub, v.items[i]).Some?
        then Some(List(ConformItems(sub, v.items)))
        else None
      case ModelMap(sub) =>
        if v.Dict? && forall n <- v.entries :: ConformEntry(a, sub, v.entries[n]).Some?
        then Some(Dict(map n | n in v.entries :: ConformEntry(a, sub, v.entries[n]).value))
        else None
  }

  function ConformEntry(a: Annotation, sub: Class, v: Value): Option<Value>
    decreases v, 3
  {
    if v.Null? then if EntriesNullable(a) then Some(v) else None else Conform(sub, v)
  }

  function ConformItems(cls: Class, items: seq<Value>): (r: seq<Value>)
    requires forall i | 0 <= i < |items| :: Conform(cls, items[i]).Some?
    ensures |r| == |items|
    decreases items
  {
    seq(|items|, i requires 0 <= i < |items| => Conform(cls, items[i]).value)
  }

  /** Whatever validation lets through is well typed. */
  lemma {:induction false} ConformTyped(cls: Class, v: Value)
    requires SchemaOk(cls) && Conform(cls, v).Some?
    ensures WellTyped(cls, Conform(cls, v).value)
    decreases v, 0
  {
    var w := Conform(cls, v).value;
    forall key <- w.entries
      ensures FieldTyped(cls.fields[key].annotation, w.entries[key])
    {
      assert ConformKey(cls.fields[key], v, key).Some?;
      SubSchemaOk(cls, key);
      if key in v.entries {
        ConformFieldTyped(cls.fields[key].annotation, v.entries[key]);
      } else {
        assert DefaultOk(cls.fields[key]);
      }
    }
  }

  lemma {:induction false} ConformFieldTyped(a: Annotation, v: Value)
    requires var k := Classify(a); k.Model? || k.ModelList? || k.ModelMap? ==> SchemaOk(k.sub)
    requires ConformField(a, v).Some?
    ensures FieldTyped(a, ConformField(a, v).value)
    decreases v, 1
  {
    if !v.Null? {
      match Classify(a)
      case Scalar =>
      case Secret =>
      case SecretMap =>
      case Model(sub) => ConformTyped(sub, v);
      case ModelList(sub) =>
        forall i | 0 <= i < |v.items| ensures WellTyped(sub, ConformItems(sub, v.items)[i]) {
          ConformTyped(sub, v.items[i]);
        }
      case ModelMap(sub) =>
        forall n <- v.entries
          ensures var w := ConformEntry(a, sub, v.entries[n]);
                  w.Some? && if w.value.Null? then EntriesNullable(a) else WellTyped(sub, w.value)
        {
          if !v.entries[n].Null? { ConformTyped(sub, v.entries[n]); }
        }
    }
  }

  /** Validation does not let secrets decide anything but acceptance: two candidates with the same
      non-secret part, both accepted, become configurations with the same non-secret part. */
  lemma {:induction false} StripConform(cls: Class, v: Value, v': Value)
    requires Conform(cls, v).Some? && Conform(cls, v').Some? && Strip(cls, v) == Strip(cls, v')
    ensures Strip(cls, Conform(cls, v).value) == Strip(cls, Conform(cls, v').value)
    decreases v, 0
  {
    var w, w' := Conform(cls, v).value, Conform(cls, v').value;
    var s, s' := Strip(cls, w), Strip(cls, w');
    forall key <- s.entries
      ensures key in s'.entries && s.entries[key] == s'.entries[key]
    {
      assert ConformKey(cls.fields[key], v, key).Some? && ConformKey(cls.fields[key], v', key).Some?;
      assert key in v.entries <==> key in Strip(cls, v).entries;
      assert key in v'.entries <==> key in Strip(cls, v').entries;
      if key in v.entries {
        assert Strip(cls, v).entries[key] == Strip(cls, v').entries[key];
        StripConformField(cls.fields[key].annotation, v.entries[key], v'.entries[key]);
      }
    }
    assert s.entries.Keys == s'.entries.Keys;
    assert s.entries == s'.entries;
  }

  lemma {:induction false} StripConformField(a: Annotation, v: Value, v': Value)
    requires !SecretKind(Classify(a))
    requires ConformField(a, v).Some? && ConformField(a, v').Some?
    requires StripField(Classify(a), v) == StripField(Classify(a), v')
    ensures StripField(Classify(a), ConformField(a, v).value) == StripField(Classify(a), ConformField(a, v').value)
    decreases v, 1
  {
    if !v.Null? {
      match Classify(a)
      case Scalar =>
      case Model(sub) => StripConform(sub, v, v');
      case ModelList(sub) =>
        var r, r' := ConformItems(sub, v.items), ConformItems(sub, v'.items);
        assert |v.items| == |StripItems(sub, v.items)| == |StripItems(sub, v'.items)| == |v'.items|;
        forall i | 0 <= i < |v.items| ensures StripItems(sub, r)[i] == StripItems(sub, r')[i] {
          assert StripItems(sub, v.items)[i] == StripItems(sub, v'.items)[i];
          StripConform(sub, v.items[i], v'.items[i]);
        }
        assert StripItems(sub, r) == StripItems(sub, r');
      case ModelMap(sub) => StripConformEntries(a, sub, v, v');
    }
  }

  lemma {:induction false} StripConformEntries(a: Annotation, sub: Class, v: Value, v': Value)
    requires Classify(a) == ModelMap(sub) && v.Dict? && v'.Dict?
    requires ConformField(a, v).Some? && ConformField(a, v').Some?
    requires StripField(Classify(a), v) == StripField(Classify(a), v')
    ensures StripField(Classify(a), ConformField(a, v).value) == StripField(Classify(a), ConformField(a, v').value)
    decreases v, 0
  {
    var k := ModelMap(sub);
    var s, s' := StripField(k, v).entries, StripField(k, v').entries;
    assert v.entries.Keys == s.Keys == s'.Keys == v'.entries.Keys;
    forall n <- v.entries
      ensures Strip(sub, ConformEntry(a, sub, v.entries[n]).value) == Strip(sub, ConformEntry(a, sub, v'.entries[n]).value)
    {
      assert Strip(sub, v.entries[n]) == s[n] == s'[n] == Strip(sub, v'.entries[n]);
      if !v.entries[n].Null? { StripConform(sub, v.entries[n], v'.entries[n]); }
    }
    assert StripField(k, ConformField(a, v).value).entries == StripField(k, ConformField(a, v').value).entries;
  }

  /** A well-typed configuration passes unchanged. */
  lemma {:induction false} ConformIdentity(cls: Class, v: Value)
    requires WellTyped(cls, v)
    ensures Conform(cls, v) == Some(v)
    decreases v, 0
  {
    forall key <- cls.fields
      ensures ConformKey(cls.fields[key], v, key) == Some(v.entries[key])
    {
      ConformFieldIdentity(cls.fields[key].annotation, v.entries[key]);
    }
    assert Conform(cls, v).value.entries == v.entries;
  }

  lemma {:induction false} ConformFieldIdentity(a: Annotation, v: Value)
    requires FieldTyped(a, v)
    ensures ConformField(a, v) == Some(v)
    decreases v, 1
  {
    if !v.Null? {
      match Classify(a)
      case Scalar =>
      case Secret =>
      case SecretMap =>
      case Model(sub) => ConformIdentity(sub, v);
      case ModelList(sub) =>
        forall i | 0 <= i < |v.items| ensures Conform(sub, v.items[i]) == Some(v.items[i]) {
          ConformIdentity(sub, v.items[i]);
        }
        assert ConformItems(sub, v.items) == v.items;
      case ModelMap(sub) =>
        forall n <- v.entries ensures ConformEntry(a, sub, v.entries[n]) == Some(v.entries[n]) {
          if !v.entries[n].Null? { ConformIdentity(sub, v.entries[n]); }
        }
        assert ConformField(a, v).value.entries == v.entries;
    }
  }

  // ---------- a restored snapshot is accepted ----------

  /** A stored value, or nothing at all: whatever is there fits its field. */
  ghost predicate Partial(cls: Class, c: Value) {
    c.Dict? && forall key <- c.entries :: key in cls.fields && FieldTyped(cls.fields[key].annotation, c.entries[key])
  }

  /** Every secret field that `d` has room for can be left out of a candidate. */
  ghost predicate SecretsDefaulted(cls: Class, d: Value)
    decreases d, 0
  {
    d.Dict? ==>
      && (forall key <- cls.fields :: SecretKind(KindOf(cls, key)) ==> cls.fields[key].default.Some?)
      && (forall key <- d.entries :: FieldDefaulted(KindOf(cls, key), d.entries[key]))
  }

  ghost predicate FieldDefaulted(k: Kind, v: Value)
    decreases v, 1
  {
    match k
    case Model(sub) => SecretsDefaulted(sub, v)
    case ModelList(sub) => v.List? ==> forall item <- v.items :: SecretsDefaulted(sub, item)
    case ModelMap(sub) => v.Dict? ==> forall name <- v.entries :: SecretsDefaulted(sub, v.entries[name])
    case _ => true
  }

  /** Main result: rolling back produces a candidate that validates in shape, whatever accounts have
      come and gone since, as long as every secret field has a default. */
  lemma {:induction false} RollbackConforms(cls: Class, c: Value, d: Value)
    requires Partial(cls, c) && WellTyped(cls, d) && SecretsDefaulted(cls, d)
    ensures Conform(cls, Merge(cls, c, Strip(cls, d))).Some?
    decreases d, 0
  {
    var merged := Merge(cls, c, Strip(cls, d));
    forall key <- cls.fields
      ensures ConformKey(cls.fields[key], merged, key).Some?
    {
      var a := cls.fields[key].annotation;
      if SecretKind(KindOf(cls, key)) {
        if key in c.entries { ConformFieldIdentity(a, c.entries[key]); }
      } else {
        assert FieldDefaulted(KindOf(cls, key), d.entries[key]);
        RollbackFieldConforms(a, Get(c, key), d.entries[key]);
      }
    }
  }

  lemma {:induction false} RollbackFieldConforms(a: Annotation, c: Value, v: Value)
    requires !SecretKind(Classify(a)) && FieldTyped(a, v) && FieldDefaulted(Classify(a), v)
    requires c.Null? || FieldTyped(a, c)
    ensures ConformField(a, MergeField(Classify(a), c, StripField(Classify(a), v))).Some?
    decreases v, 1
  {
    if !v.Null? {
      match Classify(a)
      case Scalar =>
      case Model(sub) => RollbackConforms(sub, DictOr(c), v);
      case ModelList(sub) =>
        var items := StripItems(sub, v.items);
        assert forall item <- ItemsOr(c) :: WellTyped(sub, item);
        forall i | 0 <= i < |items| ensures Conform(sub, MergeItems(sub, ItemsOr(c), items)[i]).Some? {
          RollbackConforms(sub, Existing(sub, ItemsOr(c), i, items[i]), v.items[i]);
        }
      case ModelMap(sub) =>
        var k := ModelMap(sub);
        forall n <- v.entries
          ensures ConformEntry(a, sub, MergeEntry(sub, Get(c, n), Strip(sub, v.entries[n]))).Some?
        {
          if v.entries[n].Dict? { RollbackConforms(sub, DictOr(Get(c, n)), v.entries[n]); }
        }
        assert forall n <- v.entries ::
          MergeField(k, c, StripField(k, v)).entries[n] == MergeEntry(sub, Get(c, n), Strip(sub, v.entries[n]));
    }
  }
}
