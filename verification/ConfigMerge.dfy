/** Stripping, masking and merging of configurations: config/service.py lines 109-248. */
module ConfigMerge {
  import opened Outcome
  import opened ConfigSchema

  const MASK := "**********"

  predicate Blank(v: Value) {
    v.Str? && (v.s == "" || v.s == MASK)
  }

  // ---------- strip_secrets ----------

  function Strip(cls: Class, data: Value): (out: Value)
    ensures data.Dict? <==> out.Dict?
    ensures data.List? <==> out.List?
    decreases data, 0
  {
    if !data.Dict? then data
    else
      Dict(map key | key in data.entries && !SecretKind(KindOf(cls, key)) ::
             StripField(KindOf(cls, key), data.entries[key]))
  }

  function StripField(k: Kind, v: Value): (out: Value)
    ensures v.Dict? <==> out.Dict?
    ensures v.List? <==> out.List?
    ensures k.Scalar? ==> out == v
    decreases v, 1
  {
    match k
    case Model(sub) => Strip(sub, v)
    case ModelList(sub) =>
      if v.List? then List(StripItems(sub, v.items)) else v
    case ModelMap(sub) =>
      if v.Dict? then Dict(map name | name in v.entries :: Strip(sub, v.entries[name])) else v
    case _ => v
  }

  function StripItems(cls: Class, items: seq<Value>): (out: seq<Value>)
    ensures |out| == |items|
    decreases items
  {
    seq(|items|, i requires 0 <= i < |items| => Strip(cls, items[i]))
  }

  // ---------- merge_updates ----------

  /** `_merge_list`'s index: the last entry that carries the identity. */
  function LastWith(current: seq<Value>, key: string, id: Value): Option<Value>
    ensures var r := LastWith(current, key, id);
            r.Some? ==> r.value in current && r.value.Dict? && Get(r.value, key) == id
  {
    if current == [] then None
    else
      var last := current[|current| - 1];
      if last.Dict? && Get(last, key) == id then Some(last)
      else LastWith(current[..|current| - 1], key, id)
  }

  /** The stored entry an update's entry is merged onto: by identity, else by position when neither
      side is identified, else nothing. */
  function Existing(cls: Class, current: seq<Value>, index: nat, item: Value): (existing: Value)
    ensures existing.Dict?
    ensures existing in current || existing == Dict(map[])
  {
    var id := IdentityOf(cls, item);
    var identified := if id.Null? then None else LastWith(current, IdentityKey(cls).value, id);
    if identified.Some? then identified.value
    else if index < |current| && current[index].Dict? && IdentityOf(cls, current[index]) == id then current[index]
    else Dict(map[])
  }

  function Merge(cls: Class, current: Value, updates: Value): (merged: Value)
    requires current.Dict? && updates.Dict?
    ensures merged.Dict?
    decreases updates, 0
  {
    Dict(map key | key in current.entries.Keys + updates.entries.Keys
                   && (key in current.entries || !Untouched(cls, key, updates)) ::
           if Untouched(cls, key, updates) then current.entries[key]
           else MergeField(KindOf(cls, key), Get(current, key), updates.entries[key]))
  }

  /** A key the update leaves alone: absent, or a secret submitted blank or masked. */
  predicate Untouched(cls: Class, key: string, updates: Value)
    requires updates.Dict?
  {
    key !in updates.entries || (KindOf(cls, key).Secret? && Blank(updates.entries[key]))
  }

  function MergeField(k: Kind, current: Value, v: Value): (merged: Value)
    ensures k.Scalar? || k.Secret? ==> merged == v
    decreases v, 1
  {
    match k
    case Model(sub) => if v.Dict? then Merge(sub, DictOr(current), v) else v
    case ModelList(sub) => if v.List? then List(MergeItems(sub, ItemsOr(current), v.items)) else v
    case ModelMap(sub) =>
      if v.Dict? then
        Dict(map name | name in v.entries :: MergeEntry(sub, Get(current, name), v.entries[name]))
      else v
    case SecretMap =>
      if v.Dict? then Dict(map name | name in v.entries :: MergeSecret(Get(current, name), v.entries[name])) else v
    case _ => v
  }

  /** An entry of a map of secrets: blank means unchanged, and unset when nothing is stored. */
  function MergeSecret(current: Value, v: Value): Value {
    if Blank(v) then if current.Str? then current else Str("")
    else v
  }

  function MergeEntry(cls: Class, current: Value, v: Value): (merged: Value)
    decreases v, 1
  {
    if v.Dict? then Merge(cls, DictOr(current), v) else MergeSecret(current, v)
  }

  function MergeItems(cls: Class, current: seq<Value>, updates: seq<Value>): (merged: seq<Value>)
    ensures |merged| == |updates|
    decreases updates
  {
    seq(|updates|, i requires 0 <= i < |updates| =>
      if updates[i].Dict? then Merge(cls, Existing(cls, current, i, updates[i]), updates[i]) else updates[i])
  }

  // ---------- model_dump(mode="json") ----------

  function MaskSecret(v: Value): Value {
    if v.Str? && v.s != "" then Str(MASK) else v
  }

  function Mask(cls: Class, model: Value): (dumped: Value)
    ensures model.Dict? ==> dumped.Dict? && dumped.entries.Keys == model.entries.Keys
    ensures !model.Dict? ==> dumped == model
    decreases model, 0
  {
    if !model.Dict? then model
    else Dict(map key | key in model.entries :: MaskField(KindOf(cls, key), model.entries[key]))
  }

  function MaskField(k: Kind, v: Value): (dumped: Value)
    ensures k.Scalar? ==> dumped == v
    decreases v, 1
  {
    match k
    case Scalar => v
    case Secret => MaskSecret(v)
    case SecretMap => if v.Dict? then Dict(map alias | alias in v.entries :: MaskSecret(v.entries[alias])) else v
    case Model(sub) => Mask(sub, v)
    case ModelList(sub) => if v.List? then List(MaskItems(sub, v.items)) else v
    case ModelMap(sub) => if v.Dict? then Dict(map name | name in v.entries :: Mask(sub, v.entries[name])) else v
  }

  function MaskItems(cls: Class, items: seq<Value>): (dumped: seq<Value>)
    ensures |dumped| == |items|
    decreases items
  {
    seq(|items|, i requires 0 <= i < |items| => Mask(cls, items[i]))
  }

  // ---------- stripping commutes with merging ----------

  /** Stripping cannot change which identity an entry carries. */
  lemma IdentityStripped(cls: Class, item: Value)
    requires SchemaOk(cls)
    ensures IdentityOf(cls, Strip(cls, item)) == IdentityOf(cls, item)
  {
  }

  lemma {:induction false} LastWithStripped(cls: Class, current: seq<Value>, id: Value)
    requires SchemaOk(cls) && IdentityKey(cls).Some?
    ensures LastWith(StripItems(cls, current), IdentityKey(cls).value, id) ==
            match LastWith(current, IdentityKey(cls).value, id)
            case Some(item) => Some(Strip(cls, item))
            case None => None
  {
    if current != [] {
      var last := current[|current| - 1];
      IdentityStripped(cls, last);
      assert StripItems(cls, current)[..|current| - 1] == StripItems(cls, current[..|current| - 1]);
      LastWithStripped(cls, current[..|current| - 1], id);
    }
  }

  lemma ExistingStripped(cls: Class, current: seq<Value>, index: nat, item: Value)
    requires SchemaOk(cls)
    ensures Existing(cls, StripItems(cls, current), index, Strip(cls, item)) ==
            Strip(cls, Existing(cls, current, index, item))
  {
    IdentityStripped(cls, item);
    if IdentityKey(cls).Some? { LastWithStripped(cls, current, IdentityOf(cls, item)); }
    if index < |current| { IdentityStripped(cls, current[index]); }
    assert Strip(cls, Dict(map[])) == Dict(map[]);
  }

  /** Main result: the non-secret part of a merge is the merge of the non-secret parts. */
  lemma {:induction false} StripMerge(cls: Class, c: Value, u: Value)
    requires SchemaOk(cls) && c.Dict? && u.Dict?
    ensures Strip(cls, Merge(cls, c, u)) == Merge(cls, Strip(cls, c), Strip(cls, u))
    decreases u, 0
  {
    var left, right := Strip(cls, Merge(cls, c, u)), Merge(cls, Strip(cls, c), Strip(cls, u));
    forall key | key in left.entries || key in right.entries
      ensures key in left.entries && key in right.entries && left.entries[key] == right.entries[key]
    {
      SubSchemaOk(cls, key);
      if key in u.entries {
        StripMergeField(KindOf(cls, key), Get(c, key), u.entries[key]);
      }
    }
    assert left.entries == right.entries;
  }

  lemma {:induction false} StripMergeField(k: Kind, c: Value, v: Value)
    requires !SecretKind(k)
    requires k.Model? || k.ModelList? || k.ModelMap? ==> SchemaOk(k.sub)
    ensures StripField(k, MergeField(k, c, v)) == MergeField(k, StripField(k, c), StripField(k, v))
    decreases v, 1
  {
    match k
    case Scalar =>
    case Model(sub) =>
      if v.Dict? {
        StripMerge(sub, DictOr(c), v);
        assert DictOr(Strip(sub, c)) == Strip(sub, DictOr(c));
      }
    case ModelList(sub) =>
      if v.List? {
        StripMergeItems(sub, ItemsOr(c), v.items);
      }
    case ModelMap(sub) =>
      if v.Dict? {
        var left, right := StripField(k, MergeField(k, c, v)), MergeField(k, StripField(k, c), StripField(k, v));
        forall name | name in v.entries
          ensures left.entries[name] == right.entries[name]
        {
          assert Get(StripField(k, c), name) == Strip(sub, Get(c, name));
          StripMergeEntry(sub, Get(c, name), v.entries[name]);
        }
        assert left.entries == right.entries;
      }
  }

  lemma {:induction false} StripMergeEntry(cls: Class, c: Value, v: Value)
    requires SchemaOk(cls)
    ensures Strip(cls, MergeEntry(cls, c, v)) == MergeEntry(cls, Strip(cls, c), Strip(cls, v))
    decreases v, 1
  {
    if v.Dict? {
      StripMerge(cls, DictOr(c), v);
      assert DictOr(Strip(cls, c)) == Strip(cls, DictOr(c));
    }
  }

  lemma {:induction false} StripMergeItems(cls: Class, c: seq<Value>, u: seq<Value>)
    requires SchemaOk(cls)
    ensures StripItems(cls, MergeItems(cls, c, u)) == MergeItems(cls, StripItems(cls, c), StripItems(cls, u))
    decreases u
  {
    forall i | 0 <= i < |u|
      ensures StripItems(cls, MergeItems(cls, c, u))[i] ==
              MergeItems(cls, StripItems(cls, c), StripItems(cls, u))[i]
    {
      if u[i].Dict? {
        ExistingStripped(cls, c, i, u[i]);
        StripMerge(cls, Existing(cls, c, i, u[i]), u[i]);
      }
    }
  }

  // ---------- restoring a snapshot ----------

  /** What a recorded snapshot looks like: every non-secret field is there, and nothing else. */
  ghost predicate Snapshot(cls: Class, s: Value)
    decreases s, 0
  {
    && s.Dict?
    && (forall key <- s.entries :: key in cls.fields && !SecretKind(KindOf(cls, key)))
    && (forall key <- cls.fields :: !SecretKind(KindOf(cls, key)) ==> key in s.entries)
    && (forall key <- s.entries :: SnapshotField(KindOf(cls, key), s.entries[key]))
  }

  ghost predicate SnapshotField(k: Kind, v: Value)
    decreases v, 1
  {
    match k
    case Model(sub) => v.Dict? ==> Snapshot(sub, v)
    case ModelList(sub) => v.List? ==> forall item <- v.items :: Snapshot(sub, item)
    case ModelMap(sub) => v.Dict? ==> forall name <- v.entries :: v.entries[name].Null? || Snapshot(sub, v.entries[name])
    case _ => true
  }

  lemma {:induction false} StripIsSnapshot(cls: Class, d: Value)
    requires SchemaOk(cls) && WellTyped(cls, d)
    ensures Snapshot(cls, Strip(cls, d))
    decreases d, 0
  {
    var s := Strip(cls, d);
    forall key | key in s.entries
      ensures SnapshotField(KindOf(cls, key), s.entries[key])
    {
      SubSchemaOk(cls, key);
      StripFieldIsSnapshot(cls.fields[key].annotation, d.entries[key]);
    }
  }

  lemma {:induction false} StripFieldIsSnapshot(a: Annotation, v: Value)
    requires FieldTyped(a, v)
    requires var k := Classify(a); k.Model? || k.ModelList? || k.ModelMap? ==> SchemaOk(k.sub)
    ensures SnapshotField(Classify(a), StripField(Classify(a), v))
    decreases v, 1
  {
    match Classify(a)
    case Model(sub) => if v.Dict? { StripIsSnapshot(sub, v); }
    case ModelList(sub) =>
      if v.List? {
        forall i | 0 <= i < |v.items| ensures Snapshot(sub, StripItems(sub, v.items)[i]) {
          StripIsSnapshot(sub, v.items[i]);
        }
      }
    case ModelMap(sub) =>
      if v.Dict? {
        forall name | name in v.entries && !v.entries[name].Null? ensures Snapshot(sub, Strip(sub, v.entries[name])) {
          StripIsSnapshot(sub, v.entries[name]);
        }
      }
    case _ =>
  }

  /** A value with no secret and no key its model does not declare. */
  ghost predicate Plain(cls: Class, v: Value)
    decreases v, 0
  {
    v.Dict? ==>
      && (forall key <- v.entries :: key in cls.fields && !SecretKind(KindOf(cls, key)))
      && (forall key <- v.entries :: PlainField(KindOf(cls, key), v.entries[key]))
  }

  ghost predicate PlainField(k: Kind, v: Value)
    decreases v, 1
  {
    match k
    case Model(sub) => Plain(sub, v)
    case ModelList(sub) => v.List? ==> forall item <- v.items :: Plain(sub, item)
    case ModelMap(sub) => v.Dict? ==> forall name <- v.entries :: Plain(sub, v.entries[name])
    case _ => true
  }

  lemma {:induction false} SnapshotIsPlain(cls: Class, s: Value)
    requires Snapshot(cls, s)
    ensures Plain(cls, s)
    decreases s
  {
    forall key | key in s.entries
      ensures PlainField(KindOf(cls, key), s.entries[key])
    {
      var v := s.entries[key];
      assert SnapshotField(KindOf(cls, key), v);
      match KindOf(cls, key)
      case Model(sub) => if v.Dict? { SnapshotIsPlain(sub, v); }
      case ModelList(sub) => if v.List? { forall item | item in v.items { SnapshotIsPlain(sub, item); } }
      case ModelMap(sub) =>
        if v.Dict? {
          forall name | name in v.entries && v.entries[name].Dict? { SnapshotIsPlain(sub, v.entries[name]); }
        }
      case _ =>
    }
  }

  /** Merging a snapshot onto secret-free values overwrites them completely. */
  lemma {:induction false} SnapshotOverwrites(cls: Class, a: Value, s: Value)
    requires a.Dict? && Plain(cls, a) && Snapshot(cls, s)
    ensures Merge(cls, a, s) == s
    decreases s, 0
  {
    var merged := Merge(cls, a, s);
    forall key | key in merged.entries || key in s.entries
      ensures key in merged.entries && key in s.entries && merged.entries[key] == s.entries[key]
    {
      assert key in s.entries;
      assert key in a.entries ==> PlainField(KindOf(cls, key), a.entries[key]);
      assert SnapshotField(KindOf(cls, key), s.entries[key]);
      SnapshotFieldOverwrites(KindOf(cls, key), Get(a, key), s.entries[key]);
    }
    assert merged.entries == s.entries;
  }

  lemma {:induction false} SnapshotFieldOverwrites(k: Kind, a: Value, v: Value)
    requires !SecretKind(k)
    requires PlainField(k, a) && SnapshotField(k, v)
    ensures MergeField(k, a, v) == v
    decreases v, 1
  {
    match k
    case Scalar =>
    case Model(sub) => if v.Dict? { SnapshotOverwrites(sub, DictOr(a), v); }
    case ModelList(sub) =>
      if v.List? {
        forall i | 0 <= i < |v.items|
          ensures MergeItems(sub, ItemsOr(a), v.items)[i] == v.items[i]
        {
          assert Snapshot(sub, v.items[i]);
          assert forall item <- ItemsOr(a) :: Plain(sub, item);
          SnapshotOverwrites(sub, Existing(sub, ItemsOr(a), i, v.items[i]), v.items[i]);
        }
        assert MergeItems(sub, ItemsOr(a), v.items) == v.items;
      }
    case ModelMap(sub) =>
      if v.Dict? {
        forall name | name in v.entries
          ensures MergeEntry(sub, Get(a, name), v.entries[name]) == v.entries[name]
        {
          if v.entries[name].Dict? { SnapshotOverwrites(sub, DictOr(Get(a, name)), v.entries[name]); }
        }
        assert MergeField(k, a, v).entries == v.entries;
      }
  }
}
