/**
 What becomes of a configuration by an update, said without reference to how updates are merged: config/service.py
 lines 145-248 and 350-411.
 */
module ConfigUpdates {
  import opened Outcome
  import opened ConfigSchema
  import opened ConfigMerge
  import opened ConfigLaws
  import opened ConfigValidation

  /** A secret that is submitted as nothing, or as its mask, is left alone. */
  predicate LeavesAlone(k: Kind, v: Value) {
    k.Secret? && (v == Str("") || v == Str("**********"))
  }

  /** `w` is `c` updated by `u`, at every level: what `u` gives is taken, what it does not give stays, and what is
      not there either has its default. */
  ghost predicate Follows(cls: Class, c: Value, u: Value, w: Value)
    requires c.Dict? && u.Dict?
    decreases u, 0
  {
    && w.Dict? && w.entries.Keys == cls.fields.Keys
    && forall key <- cls.fields ::
         if key in u.entries && !LeavesAlone(KindOf(cls, key), u.entries[key]) then
           FieldFollows(KindOf(cls, key), Get(c, key), u.entries[key], w.entries[key])
         else if key in c.entries then w.entries[key] == c.entries[key]
         else cls.fields[key].default == Some(w.entries[key])
  }

  ghost predicate FieldFollows(k: Kind, c: Value, v: Value, w: Value)
    decreases v, 1
  {
    match k
    case Scalar => w == v
    case Secret => w == v
    case SecretMap =>
      if v.Dict? then
        w.Dict? && w.entries.Keys == v.entries.Keys && forall alias <- v.entries :: AliasFollows(Get(c, alias), v.entries[alias], w.entries[alias])
      else w == v
    case Model(sub) => if v.Dict? then Follows(sub, if c.Dict? then c else Dict(map[]), v, w) else w == v
    case ModelList(sub) =>
      if v.List? then
        w.List? && |w.items| == |v.items|
        && forall i | 0 <= i < |v.items| :: ItemFollows(sub, if c.List? then c.items else [], i, v.items[i], w.items[i])
      else w == v
    case ModelMap(sub) =>
      if v.Dict? then
        w.Dict? && w.entries.Keys == v.entries.Keys && forall name <- v.entries :: EntryFollows(sub, Get(c, name), v.entries[name], w.entries[name])
      else w == v
  }

  /** An alias is kept by submitting it as nothing or masked; one that was not set then comes out empty. */
  predicate AliasFollows(c: Value, v: Value, w: Value) {
    if v == Str("") || v == Str("**********") then w == (if c.Str? then c else Str("")) else w == v
  }

  ghost predicate EntryFollows(cls: Class, c: Value, v: Value, w: Value)
    decreases v, 1
  {
    if v.Dict? then Follows(cls, if c.Dict? then c else Dict(map[]), v, w) else w == v == Null
  }

  ghost predicate ItemFollows(cls: Class, c: seq<Value>, i: nat, v: Value, w: Value)
    decreases v, 1
  {
    v.Dict? && exists e: Value :: e.Dict? && Counterpart(cls, c, i, v, e) && Follows(cls, e, v, w)
  }

  ghost predicate Identifies(cls: Class, e: Value, id: Value) {
    e.Dict? && IdentityOf(cls, e) == id
  }

  /** The stored entry that entry `i` of an update is about: the last with its identity; without one, the entry in
      the same place if neither has an identity; failing that, nothing. */
  ghost predicate Counterpart(cls: Class, c: seq<Value>, i: nat, v: Value, e: Value) {
    var id := IdentityOf(cls, v);
    if id != Null && exists j :: 0 <= j < |c| && Identifies(cls, c[j], id) then exists j: nat :: IsLast(cls, c, id, j) && c[j] == e
    else if id == Null && i < |c| && Identifies(cls, c[i], Null) then e == c[i]
    else e == Dict(map[])
  }

  // ---------- the code's way of choosing ----------

  ghost predicate IsLast(cls: Class, c: seq<Value>, id: Value, j: nat) {
    j < |c| && Identifies(cls, c[j], id) && forall k :: j < k < |c| ==> !Identifies(cls, c[k], id)
  }

  lemma {:induction false} LastWithIsLast(cls: Class, c: seq<Value>, id: Value) returns (j: nat)
    requires IdentityKey(cls).Some? && id != Null
    ensures match LastWith(c, IdentityKey(cls).value, id)
            case Some(last) => IsLast(cls, c, id, j) && c[j] == last
            case None => forall k :: 0 <= k < |c| ==> !Identifies(cls, c[k], id)
  {
    if c == [] {
      j := 0;
    } else {
      var n := |c| - 1;
      if Identifies(cls, c[n], id) {
        j := n;
      } else {
        j := LastWithIsLast(cls, c[..n], id);
        assert forall k :: 0 <= k < n ==> c[..n][k] == c[k];
        hide Identifies;
      }
    }
  }

  /** The entry the code merges onto is the counterpart, and the only one. */
  lemma ExistingIsCounterpart(cls: Class, c: seq<Value>, i: nat, v: Value, e: Value)
    ensures Counterpart(cls, c, i, v, e) <==> e == Existing(cls, c, i, v)
  {
    var id := IdentityOf(cls, v);
    if id != Null {
      var j := LastWithIsLast(cls, c, id);
      if LastWith(c, IdentityKey(cls).value, id).None? && i < |c| { assert !Identifies(cls, c[i], id); }
    }
  }

  // ---------- exactly this ----------

  lemma AloneIsUntouched(cls: Class, key: string, u: Value)
    requires u.Dict?
    ensures Untouched(cls, key, u) <==> key !in u.entries || LeavesAlone(KindOf(cls, key), u.entries[key])
  {
  }

  /** Main result: the merged candidate is accepted, and becomes `w`, exactly if `w` is a valid configuration that
      follows from the stored one by the update. */
  lemma {:induction false} FollowsIff(cls: Class, c: Value, u: Value, w: Value)
    requires SchemaOk(cls) && Partial(cls, c) && u.Dict?
    ensures Conform(cls, Merge(cls, c, u)) == Some(w) <==> WellTyped(cls, w) && Follows(cls, c, u, w)
    decreases u, 0
  {
    var merged := Merge(cls, c, u);
    if w.Dict? && w.entries.Keys == cls.fields.Keys {
      forall key <- cls.fields
        ensures ConformKey(cls.fields[key], merged, key) == Some(w.entries[key]) <==>
                && FieldTyped(cls.fields[key].annotation, w.entries[key])
                && if key in u.entries && !LeavesAlone(KindOf(cls, key), u.entries[key]) then
                     FieldFollows(KindOf(cls, key), Get(c, key), u.entries[key], w.entries[key])
                   else if key in c.entries then w.entries[key] == c.entries[key]
                   else cls.fields[key].default == Some(w.entries[key])
      {
        KeyFollowsIff(cls, c, u, w, key);
      }
    }
    hide Merge, FieldFollows, LeavesAlone, ConformKey;
    ConformIs(cls, merged, w);
  }

  lemma ConformIs(cls: Class, v: Value, w: Value)
    requires v.Dict?
    ensures Conform(cls, v) == Some(w) <==>
            w.Dict? && w.entries.Keys == cls.fields.Keys
            && forall key <- cls.fields :: ConformKey(cls.fields[key], v, key) == Some(w.entries[key])
  {
    hide ConformKey;
    if Conform(cls, v).Some? {
      var r := Conform(cls, v).value;
      if w.Dict? && w.entries.Keys == cls.fields.Keys {
        assert r == w <==> r.entries == w.entries;
        SameEntries(r.entries, w.entries);
      }
    }
  }

  lemma SameEntries(a: map<string, Value>, b: map<string, Value>)
    requires a.Keys == b.Keys
    ensures a == b <==> forall key <- a :: a[key] == b[key]
  {
  }

  lemma {:induction false} KeyFollowsIff(cls: Class, c: Value, u: Value, w: Value, key: string)
    requires SchemaOk(cls) && Partial(cls, c) && u.Dict? && key in cls.fields && w.Dict? && key in w.entries
    ensures ConformKey(cls.fields[key], Merge(cls, c, u), key) == Some(w.entries[key]) <==>
            && FieldTyped(cls.fields[key].annotation, w.entries[key])
            && if key in u.entries && !LeavesAlone(KindOf(cls, key), u.entries[key]) then
                 FieldFollows(KindOf(cls, key), Get(c, key), u.entries[key], w.entries[key])
               else if key in c.entries then w.entries[key] == c.entries[key]
               else cls.fields[key].default == Some(w.entries[key])
    decreases u, 0, 0
  {
    var a := cls.fields[key].annotation;
    SubSchemaOk(cls, key);
    AloneIsUntouched(cls, key, u);
    if !Untouched(cls, key, u) {
      FieldFollowsIff(a, Get(c, key), u.entries[key], w.entries[key]);
    } else if key in c.entries {
      ConformFieldIdentity(a, c.entries[key]);
    } else {
      assert DefaultOk(cls.fields[key]);
    }
  }

  lemma {:induction false} FieldFollowsIff(a: Annotation, c: Value, v: Value, w: Value)
    requires c.Null? || FieldTyped(a, c)
    requires var k := Classify(a); k.Model? || k.ModelList? || k.ModelMap? ==> SchemaOk(k.sub)
    ensures ConformField(a, MergeField(Classify(a), c, v)) == Some(w) <==> FieldTyped(a, w) && FieldFollows(Classify(a), c, v, w)
    decreases v, 2
  {
    hide Merge, Follows, Conform, WellTyped, MergeItems, ItemFollows, EntryFollows, AliasFollows, SchemaOk, ConformEntry, ConformField, MergeField,
         FieldFollows, FieldTyped;
    match Classify(a)
    case SecretMap => AliasesFollowIff(a, c, v, w);
    case Model(sub) => ModelFollowsIff(a, sub, c, v, w);
    case ModelList(sub) => if v.List? { ItemsFollowIff(a, sub, c, v, w); } else { PlainFollowsIff(a, c, v, w); }
    case ModelMap(sub) => if v.Dict? { EntriesFollowIff(a, sub, c, v, w); } else { PlainFollowsIff(a, c, v, w); }
    case _ => PlainFollowsIff(a, c, v, w);
  }

  /** A field that is taken as it is given. */
  lemma PlainFollowsIff(a: Annotation, c: Value, v: Value, w: Value)
    requires var k := Classify(a); k.Scalar? || k.Secret? || (k.ModelList? && !v.List?) || (k.ModelMap? && !v.Dict?)
    ensures ConformField(a, MergeField(Classify(a), c, v)) == Some(w) <==> FieldTyped(a, w) && FieldFollows(Classify(a), c, v, w)
  {
    hide Merge, Follows, Conform, WellTyped, ItemFollows, EntryFollows, AliasFollows, ConformEntry;
  }

  lemma {:induction false} ModelFollowsIff(a: Annotation, sub: Class, c: Value, v: Value, w: Value)
    requires Classify(a) == Model(sub) && SchemaOk(sub) && (c.Null? || FieldTyped(a, c))
    ensures ConformField(a, MergeField(Model(sub), c, v)) == Some(w) <==> FieldTyped(a, w) && FieldFollows(Model(sub), c, v, w)
    decreases v, 1
  {
    if v.Dict? {
      FollowsIff(sub, DictOr(c), v, w);
      hide Merge, Follows, Conform;
    } else {
      assert Conform(sub, v) == None;
    }
  }

  lemma AliasesConform(a: Annotation, v: Value, w: Value)
    requires Classify(a) == SecretMap
    ensures ConformField(a, v) == Some(w) <==> w == v && FieldTyped(a, v)
  {
  }

  lemma AliasesMerged(c: Value, v: Value, w: Value)
    requires v.Dict?
    ensures w == MergeField(SecretMap, c, v) <==> FieldFollows(SecretMap, c, v, w)
  {
    var merged := MergeField(SecretMap, c, v);
    if w.Dict? && w.entries.Keys == v.entries.Keys {
      forall alias <- v.entries ensures AliasFollows(Get(c, alias), v.entries[alias], w.entries[alias]) <==> w.entries[alias] == merged.entries[alias] {
        assert merged.entries[alias] == MergeSecret(Get(c, alias), v.entries[alias]);
      }
      hide MergeField, AliasFollows;
      SameEntries(w.entries, merged.entries);
    }
  }

  lemma AliasesFollowIff(a: Annotation, c: Value, v: Value, w: Value)
    requires Classify(a) == SecretMap
    ensures ConformField(a, MergeField(SecretMap, c, v)) == Some(w) <==> FieldTyped(a, w) && FieldFollows(SecretMap, c, v, w)
  {
    hide FieldTyped, ConformField;
    AliasesConform(a, MergeField(SecretMap, c, v), w);
    if v.Dict? {
      AliasesMerged(c, v, w);
      hide MergeField, FieldFollows;
    }
  }

  lemma ItemsConform(a: Annotation, sub: Class, v: seq<Value>, w: Value)
    requires Classify(a) == ModelList(sub)
    ensures ConformField(a, List(v)) == Some(w) <==>
            w.List? && |w.items| == |v| && forall i | 0 <= i < |v| :: Conform(sub, v[i]) == Some(w.items[i])
  {
    hide Conform;
    if w.List? && |w.items| == |v| && forall i | 0 <= i < |v| :: Conform(sub, v[i]).Some? {
      assert ConformItems(sub, v) == w.items <==> forall i | 0 <= i < |v| :: ConformItems(sub, v)[i] == w.items[i];
    }
  }

  lemma {:induction false} ItemsFollowIff(a: Annotation, sub: Class, c: Value, v: Value, w: Value)
    requires Classify(a) == ModelList(sub) && SchemaOk(sub) && v.List? && (c.Null? || FieldTyped(a, c))
    ensures ConformField(a, MergeField(ModelList(sub), c, v)) == Some(w) <==> FieldTyped(a, w) && FieldFollows(ModelList(sub), c, v, w)
    decreases v, 0
  {
    hide Conform, ItemFollows, ConformField, Existing, Merge, SchemaOk;
    var stored := ItemsOr(c);
    var merged := MergeItems(sub, stored, v.items);
    assert MergeField(ModelList(sub), c, v) == List(merged);
    ItemsConform(a, sub, merged, w);
    StoredTyped(a, sub, c);
    if w.List? && |w.items| == |v.items| {
      forall i | 0 <= i < |v.items|
        ensures Conform(sub, merged[i]) == Some(w.items[i]) <==> WellTyped(sub, w.items[i]) && ItemFollows(sub, stored, i, v.items[i], w.items[i])
      {
        ItemFollowsIff(sub, stored, i, v.items[i], w.items[i]);
      }
      ItemsTyped(a, sub, w);
      hide FieldTyped, WellTyped;
    } else if !w.List? {
      NoList(a, sub, w);
    }
  }

  lemma NoList(a: Annotation, sub: Class, w: Value)
    requires Classify(a) == ModelList(sub) && !w.List?
    ensures FieldTyped(a, w) ==> w.Null?
  {
  }

  lemma StoredTyped(a: Annotation, sub: Class, c: Value)
    requires Classify(a) == ModelList(sub) && (c.Null? || FieldTyped(a, c))
    ensures forall item <- ItemsOr(c) :: WellTyped(sub, item)
  {
    hide WellTyped;
  }

  lemma ItemsTyped(a: Annotation, sub: Class, w: Value)
    requires Classify(a) == ModelList(sub) && w.List?
    ensures FieldTyped(a, w) <==> forall i | 0 <= i < |w.items| :: WellTyped(sub, w.items[i])
  {
    hide WellTyped;
  }

  lemma {:induction false} ItemFollowsIff(cls: Class, c: seq<Value>, i: nat, v: Value, w: Value)
    requires SchemaOk(cls) && forall item <- c :: WellTyped(cls, item)
    ensures (if v.Dict? then Conform(cls, Merge(cls, Existing(cls, c, i, v), v)) else Conform(cls, v)) == Some(w) <==>
            WellTyped(cls, w) && ItemFollows(cls, c, i, v, w)
    decreases v, 1
  {
    if v.Dict? {
      var e := Existing(cls, c, i, v);
      FollowsIff(cls, e, v, w);
      ExistingIsCounterpart(cls, c, i, v, e);
      forall other: Value | Counterpart(cls, c, i, v, other) ensures other == e {
        ExistingIsCounterpart(cls, c, i, v, other);
      }
    }
  }

  lemma EntriesConform(a: Annotation, sub: Class, v: Value, w: Value)
    requires Classify(a) == ModelMap(sub) && v.Dict?
    ensures ConformField(a, v) == Some(w) <==>
            w.Dict? && w.entries.Keys == v.entries.Keys && forall name <- v.entries :: ConformEntry(a, sub, v.entries[name]) == Some(w.entries[name])
  {
    hide ConformEntry;
    if ConformField(a, v).Some? && w.Dict? && w.entries.Keys == v.entries.Keys {
      SameEntries(ConformField(a, v).value.entries, w.entries);
    }
  }

  lemma EntriesTyped(a: Annotation, sub: Class, w: Value)
    requires Classify(a) == ModelMap(sub) && w.Dict?
    ensures FieldTyped(a, w) <==> forall name <- w.entries :: EntryTyped(a, sub, w.entries[name])
  {
    hide WellTyped;
  }

  ghost predicate EntryTyped(a: Annotation, sub: Class, w: Value) {
    if w.Null? then EntriesNullable(a) else WellTyped(sub, w)
  }

  lemma {:induction false} EntriesFollowIff(a: Annotation, sub: Class, c: Value, v: Value, w: Value)
    requires Classify(a) == ModelMap(sub) && SchemaOk(sub) && v.Dict? && (c.Null? || FieldTyped(a, c))
    ensures ConformField(a, MergeField(ModelMap(sub), c, v)) == Some(w) <==> FieldTyped(a, w) && FieldFollows(ModelMap(sub), c, v, w)
    decreases v, 0
  {
    hide ConformEntry, ConformField, EntryFollows, EntryTyped, SchemaOk;
    var merged := MergeField(ModelMap(sub), c, v);
    assert merged.Dict? && merged.entries.Keys == v.entries.Keys;
    EntriesConform(a, sub, merged, w);
    if w.Dict? && w.entries.Keys == v.entries.Keys {
      EntriesTyped(a, sub, w);
      forall name <- v.entries
        ensures ConformEntry(a, sub, merged.entries[name]) == Some(w.entries[name]) <==>
                EntryTyped(a, sub, w.entries[name]) && EntryFollows(sub, Get(c, name), v.entries[name], w.entries[name])
      {
        assert merged.entries[name] == MergeEntry(sub, Get(c, name), v.entries[name]);
        StoredEntry(a, sub, c, name);
        EntryFollowsIff(a, sub, Get(c, name), v.entries[name], w.entries[name]);
      }
      hide FieldTyped, MergeField;
    }
  }

  lemma StoredEntry(a: Annotation, sub: Class, c: Value, name: string)
    requires Classify(a) == ModelMap(sub) && (c.Null? || FieldTyped(a, c))
    ensures Get(c, name).Null? || WellTyped(sub, Get(c, name))
  {
    hide WellTyped;
  }

  lemma {:induction false} EntryFollowsIff(a: Annotation, cls: Class, c: Value, v: Value, w: Value)
    requires SchemaOk(cls) && (c.Null? || WellTyped(cls, c))
    ensures ConformEntry(a, cls, MergeEntry(cls, c, v)) == Some(w) <==> EntryTyped(a, cls, w) && EntryFollows(cls, c, v, w)
    decreases v, 1
  {
    if v.Dict? { FollowsIff(cls, DictOr(c), v, w); }
  }
}
