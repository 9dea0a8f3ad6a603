/** What saving, masking, restoring and re-saving a configuration keep. */
module ConfigLaws {
  import opened Outcome
  import opened ConfigSchema
  import opened ConfigMerge

  // ---------- rollback ----------

  lemma {:induction false} StripTwice(cls: Class, v: Value)
    ensures Strip(cls, Strip(cls, v)) == Strip(cls, v)
    decreases v, 0
  {
    if v.Dict? {
      var once, twice := Strip(cls, v), Strip(cls, Strip(cls, v));
      forall key | key in once.entries
        ensures twice.entries[key] == once.entries[key]
      {
        StripFieldTwice(KindOf(cls, key), v.entries[key]);
      }
      assert twice.entries == once.entries;
    }
  }

  lemma {:induction false} StripFieldTwice(k: Kind, v: Value)
    ensures StripField(k, StripField(k, v)) == StripField(k, v)
    decreases v, 1
  {
    match k
    case Model(sub) => StripTwice(sub, v);
    case ModelList(sub) =>
      if v.List? {
        forall i | 0 <= i < |v.items| { StripTwice(sub, v.items[i]); }
        assert StripItems(sub, StripItems(sub, v.items)) == StripItems(sub, v.items);
      }
    case ModelMap(sub) =>
      if v.Dict? {
        forall name | name in v.entries { StripTwice(sub, v.entries[name]); }
        assert StripField(k, StripField(k, v)).entries == StripField(k, v).entries;
      }
    case _ =>
  }

  /** Main result: rolling back to the snapshot of `d` restores everything the snapshot holds,
      whatever the configuration is by then. */
  lemma RollbackRestores(cls: Class, current: Value, d: Value)
    requires SchemaOk(cls) && WellTyped(cls, current) && WellTyped(cls, d)
    ensures Strip(cls, Merge(cls, current, Strip(cls, d))) == Strip(cls, d)
  {
    StripMerge(cls, current, Strip(cls, d));
    StripTwice(cls, d);
    StripIsSnapshot(cls, current);
    StripIsSnapshot(cls, d);
    SnapshotIsPlain(cls, Strip(cls, current));
    SnapshotOverwrites(cls, Strip(cls, current), Strip(cls, d));
  }

  // ---------- noninterference ----------

  /** Two values with the same non-secret part. */
  ghost predicate SameButSecrets(cls: Class, a: Value, b: Value) {
    a.Dict? && b.Dict? && Strip(cls, a) == Strip(cls, b)
  }

  lemma MergeHidesSecrets(cls: Class, c: Value, c': Value, u: Value, u': Value)
    requires SchemaOk(cls) && SameButSecrets(cls, c, c') && SameButSecrets(cls, u, u')
    ensures SameButSecrets(cls, Merge(cls, c, u), Merge(cls, c', u'))
  {
    StripMerge(cls, c, u);
    StripMerge(cls, c', u');
  }

  /** Masking only touches what stripping removes. */
  lemma {:induction false} StripMask(cls: Class, v: Value)
    ensures Strip(cls, Mask(cls, v)) == Strip(cls, v)
    decreases v, 0
  {
    if v.Dict? {
      var masked, stripped := Strip(cls, Mask(cls, v)), Strip(cls, v);
      forall key | key in stripped.entries
        ensures masked.entries[key] == stripped.entries[key]
      {
        StripMaskField(KindOf(cls, key), v.entries[key]);
      }
      assert masked.entries == stripped.entries;
    }
  }

  lemma {:induction false} StripMaskField(k: Kind, v: Value)
    requires !SecretKind(k)
    ensures StripField(k, MaskField(k, v)) == StripField(k, v)
    decreases v, 1
  {
    match k
    case Scalar =>
    case Model(sub) => StripMask(sub, v);
    case ModelList(sub) =>
      if v.List? {
        forall i | 0 <= i < |v.items| { StripMask(sub, v.items[i]); }
        assert StripItems(sub, MaskItems(sub, v.items)) == StripItems(sub, v.items);
      }
    case ModelMap(sub) =>
      if v.Dict? {
        forall name | name in v.entries { StripMask(sub, v.entries[name]); }
        assert StripField(k, MaskField(k, v)).entries == StripField(k, v).entries;
      }
  }

  // ---------- saving the untouched panel ----------

  lemma {:induction false} LastWithUnique(cls: Class, items: seq<Value>, i: nat)
    requires UniqueIdentities(cls, items) && i < |items|
    requires items[i].Dict? && IdentityKey(cls).Some? && IdentityOf(cls, items[i]) != Null
    ensures LastWith(items, IdentityKey(cls).value, IdentityOf(cls, items[i])) == Some(items[i])
  {
    if i < |items| - 1 {
      LastWithUnique(cls, items[..|items| - 1], i);
    }
  }

  /** In a list with distinct identities an entry finds itself again. */
  lemma ExistingIsSelf(cls: Class, items: seq<Value>, i: nat, item: Value)
    requires UniqueIdentities(cls, items) && i < |items| && items[i].Dict?
    requires IdentityOf(cls, item) == IdentityOf(cls, items[i])
    ensures Existing(cls, items, i, item) == items[i]
  {
    if IdentityOf(cls, item) != Null { LastWithUnique(cls, items, i); }
  }

  lemma IdentityMasked(cls: Class, item: Value)
    requires SchemaOk(cls)
    ensures IdentityOf(cls, Mask(cls, item)) == IdentityOf(cls, item)
  {
  }

  /** Main result: sending back the masked configuration unchanged changes nothing. */
  lemma {:induction false} MaskedMergeIsIdentity(cls: Class, c: Value)
    requires SchemaOk(cls) && WellTyped(cls, c) && DistinctIds(cls, c)
    ensures Merge(cls, c, Mask(cls, c)) == c
    decreases c, 0
  {
    var masked := Mask(cls, c);
    var merged := Merge(cls, c, masked);
    forall key | key in c.entries
      ensures merged.entries[key] == c.entries[key]
    {
      SubSchemaOk(cls, key);
      assert FieldDistinct(KindOf(cls, key), c.entries[key]);
      if !Untouched(cls, key, masked) {
        MaskedFieldIsIdentity(cls.fields[key].annotation, c.entries[key]);
      }
    }
    assert merged.entries == c.entries;
  }

  lemma {:induction false} MaskedFieldIsIdentity(a: Annotation, v: Value)
    requires FieldTyped(a, v) && FieldDistinct(Classify(a), v)
    requires var k := Classify(a); k.Model? || k.ModelList? || k.ModelMap? ==> SchemaOk(k.sub)
    requires Classify(a).Secret? ==> !Blank(MaskField(Classify(a), v))
    ensures MergeField(Classify(a), v, MaskField(Classify(a), v)) == v
    decreases v, 1
  {
    var k := Classify(a);
    match k
    case Scalar =>
    case Secret =>
    case SecretMap =>
      if v.Dict? { assert MergeField(k, v, MaskField(k, v)).entries == v.entries; }
    case Model(sub) => if v.Dict? { MaskedMergeIsIdentity(sub, v); }
    case ModelList(sub) =>
      if v.List? {
        var masked := MaskItems(sub, v.items);
        forall i | 0 <= i < |v.items|
          ensures MergeItems(sub, v.items, masked)[i] == v.items[i]
        {
          MaskedMergeIsIdentity(sub, v.items[i]);
          IdentityMasked(sub, v.items[i]);
          ExistingIsSelf(sub, v.items, i, masked[i]);
        }
        assert MergeItems(sub, v.items, masked) == v.items;
      }
    case ModelMap(sub) =>
      if v.Dict? {
        forall name | name in v.entries
          ensures MergeEntry(sub, v.entries[name], Mask(sub, v.entries[name])) == v.entries[name]
        {
          assert DistinctIds(sub, v.entries[name]);
          if v.entries[name].Dict? { MaskedMergeIsIdentity(sub, v.entries[name]); }
        }
        assert MergeField(k, v, MaskField(k, v)).entries == v.entries;
      }
  }

  // ---------- merging twice ----------

  /** An entry keeps the identity its update gives it. */
  lemma IdentityMerged(cls: Class, c: seq<Value>, i: nat, item: Value)
    requires SchemaOk(cls) && item.Dict?
    ensures IdentityOf(cls, Merge(cls, Existing(cls, c, i, item), item)) == IdentityOf(cls, item)
  {
    var existing := Existing(cls, c, i, item);
    assert IdentityOf(cls, existing) == IdentityOf(cls, item) || existing == Dict(map[]);
  }

  /** Main result: applying the same update twice is applying it once. */
  lemma {:induction false} MergeIdempotent(cls: Class, c: Value, u: Value)
    requires SchemaOk(cls) && c.Dict? && u.Dict? && DistinctIds(cls, u)
    ensures Merge(cls, Merge(cls, c, u), u) == Merge(cls, c, u)
    decreases u, 0
  {
    var once := Merge(cls, c, u);
    var twice := Merge(cls, once, u);
    forall key | key in once.entries
      ensures key in twice.entries && twice.entries[key] == once.entries[key]
    {
      if !Untouched(cls, key, u) {
        SubSchemaOk(cls, key);
        assert FieldDistinct(KindOf(cls, key), u.entries[key]);
        MergeFieldIdempotent(KindOf(cls, key), Get(c, key), u.entries[key]);
      }
    }
    assert twice.entries == once.entries;
  }

  lemma {:induction false} MergeFieldIdempotent(k: Kind, c: Value, v: Value)
    requires FieldDistinct(k, v)
    requires k.Model? || k.ModelList? || k.ModelMap? ==> SchemaOk(k.sub)
    ensures MergeField(k, MergeField(k, c, v), v) == MergeField(k, c, v)
    decreases v, 1
  {
    var once := MergeField(k, c, v);
    match k
    case Scalar =>
    case Secret =>
    case SecretMap =>
      if v.Dict? { assert MergeField(k, once, v).entries == once.entries; }
    case Model(sub) => if v.Dict? { MergeIdempotent(sub, DictOr(c), v); }
    case ModelList(sub) => if v.List? { MergeItemsIdempotent(sub, ItemsOr(c), v.items); }
    case ModelMap(sub) =>
      if v.Dict? {
        forall name | name in v.entries
          ensures MergeEntry(sub, once.entries[name], v.entries[name]) == once.entries[name]
        {
          assert DistinctIds(sub, v.entries[name]);
          MergeEntryIdempotent(sub, Get(c, name), v.entries[name]);
        }
        assert MergeField(k, once, v).entries == once.entries;
      }
  }

  lemma {:induction false} MergeEntryIdempotent(cls: Class, c: Value, v: Value)
    requires SchemaOk(cls) && DistinctIds(cls, v)
    ensures MergeEntry(cls, MergeEntry(cls, c, v), v) == MergeEntry(cls, c, v)
    decreases v, 1
  {
    if v.Dict? { MergeIdempotent(cls, DictOr(c), v); }
  }

  lemma {:induction false} MergeItemsIdempotent(cls: Class, c: seq<Value>, u: seq<Value>)
    requires SchemaOk(cls) && UniqueIdentities(cls, u) && forall item <- u :: DistinctIds(cls, item)
    ensures MergeItems(cls, MergeItems(cls, c, u), u) == MergeItems(cls, c, u)
    decreases u
  {
    var once := MergeItems(cls, c, u);
    forall i | 0 <= i < |u|
      ensures IdentityOf(cls, once[i]) == IdentityOf(cls, u[i])
    {
      if u[i].Dict? { IdentityMerged(cls, c, i, u[i]); }
    }
    forall i | 0 <= i < |u|
      ensures MergeItems(cls, once, u)[i] == once[i]
    {
      if u[i].Dict? {
        ExistingIsSelf(cls, once, i, u[i]);
        MergeIdempotent(cls, Existing(cls, c, i, u[i]), u[i]);
      }
    }
  }

  // ---------- updates that list an identity twice ----------

  lemma MergedIdentities(cls: Class, c: seq<Value>, u: seq<Value>)
    requires SchemaOk(cls)
    ensures forall i :: 0 <= i < |u| ==> IdentityOf(cls, MergeItems(cls, c, u)[i]) == IdentityOf(cls, u[i])
  {
    forall i | 0 <= i < |u| ensures IdentityOf(cls, MergeItems(cls, c, u)[i]) == IdentityOf(cls, u[i]) {
      if u[i].Dict? { IdentityMerged(cls, c, i, u[i]); }
    }
  }

  /** A merge repeats every identity its update repeats, so a result without repetitions comes from an
      update without any. */
  lemma {:induction false} DistinctFromMerged(cls: Class, c: Value, u: Value)
    requires SchemaOk(cls) && c.Dict? && u.Dict? && DistinctIds(cls, Merge(cls, c, u))
    ensures DistinctIds(cls, u)
    decreases u, 0
  {
    var merged := Merge(cls, c, u);
    forall key <- u.entries ensures FieldDistinct(KindOf(cls, key), u.entries[key]) {
      if !Untouched(cls, key, u) {
        SubSchemaOk(cls, key);
        assert key in merged.entries && FieldDistinct(KindOf(cls, key), merged.entries[key]);
        FieldDistinctFromMerged(KindOf(cls, key), Get(c, key), u.entries[key]);
      }
    }
  }

  lemma {:induction false} FieldDistinctFromMerged(k: Kind, c: Value, v: Value)
    requires k.Model? || k.ModelList? || k.ModelMap? ==> SchemaOk(k.sub)
    requires FieldDistinct(k, MergeField(k, c, v))
    ensures FieldDistinct(k, v)
    decreases v, 1
  {
    match k
    case Model(sub) => if v.Dict? { DistinctFromMerged(sub, DictOr(c), v); }
    case ModelList(sub) =>
      if v.List? {
        var merged := MergeItems(sub, ItemsOr(c), v.items);
        MergedIdentities(sub, ItemsOr(c), v.items);
        forall i | 0 <= i < |v.items| ensures DistinctIds(sub, v.items[i]) {
          assert merged[i] in merged;
          if v.items[i].Dict? { DistinctFromMerged(sub, Existing(sub, ItemsOr(c), i, v.items[i]), v.items[i]); }
        }
      }
    case ModelMap(sub) =>
      if v.Dict? {
        var merged := MergeField(k, c, v);
        forall name <- v.entries ensures DistinctIds(sub, v.entries[name]) {
          assert merged.entries[name] == MergeEntry(sub, Get(c, name), v.entries[name]);
          if v.entries[name].Dict? { DistinctFromMerged(sub, DictOr(Get(c, name)), v.entries[name]); }
        }
      }
    case _ =>
  }

  /** Main result: a merge whose result has distinct identities, as validation demands, changes nothing
      when it is made again. */
  lemma AcceptedMergeIdempotent(cls: Class, c: Value, u: Value)
    requires SchemaOk(cls) && c.Dict? && u.Dict? && DistinctIds(cls, Merge(cls, c, u))
    ensures Merge(cls, Merge(cls, c, u), u) == Merge(cls, c, u)
  {
    DistinctFromMerged(cls, c, u);
    MergeIdempotent(cls, c, u);
  }

  /** Every field of the class is a plain value or a secret. */
  ghost predicate Flat(cls: Class) {
    forall key <- cls.fields :: KindOf(cls, key).Scalar? || KindOf(cls, key).Secret?
  }

  lemma FlatIsDistinct(cls: Class, v: Value)
    requires Flat(cls)
    ensures DistinctIds(cls, v)
  {
  }
}
