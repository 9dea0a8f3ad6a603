/**
 Where secrets live and where they can end up. A secret is addressed by the fields, the aliases
 and, inside a list of models, the identity of the entries that lead to it.
 */
module ConfigSecrets {
  import opened Outcome
  import opened ConfigSchema
  import opened ConfigMerge
  import opened ConfigLaws

  datatype Step = Field(name: string) | Entry(alias: string) | Owner(id: Value) | At(index: nat)

  type Path = seq<Step>

  /** An entry of a list is addressed by its identity, or by position when it has none. */
  function AddressOf(cls: Class, item: Value, index: nat): Step {
    if IdentityOf(cls, item) == Null then At(index) else Owner(IdentityOf(cls, item))
  }

  /** `v` holds the secret `s` at `path`. */
  ghost predicate HasSecret(cls: Class, v: Value, path: Path, s: Value)
    decreases |path|, 0
  {
    && v.Dict?
    && |path| >= 1 && path[0].Field? && path[0].name in v.entries
    && FieldHasSecret(KindOf(cls, path[0].name), v.entries[path[0].name], path[1..], s)
  }

  ghost predicate FieldHasSecret(k: Kind, v: Value, path: Path, s: Value)
    decreases |path|, 2
  {
    match k
    case Scalar => false
    case Secret => path == [] && v == s
    case SecretMap => |path| == 1 && path[0].Entry? && v.Dict? && path[0].alias in v.entries && v.entries[path[0].alias] == s
    case Model(sub) => path != [] && HasSecret(sub, v, path, s)
    case ModelMap(sub) =>
      && |path| >= 1 && path[0].Entry? && v.Dict? && path[0].alias in v.entries
      && HasSecret(sub, v.entries[path[0].alias], path[1..], s)
    case ModelList(sub) =>
      |path| >= 1 && v.List? && SomeItemHasSecret(sub, v.items, path, s)
  }

  ghost predicate SomeItemHasSecret(cls: Class, items: seq<Value>, path: Path, s: Value)
    requires |path| >= 1
    decreases |path|, 1
  {
    exists i :: 0 <= i < |items| && ItemHasSecret(cls, items[i], i, path, s)
  }

  ghost predicate ItemHasSecret(cls: Class, item: Value, i: nat, path: Path, s: Value)
    requires |path| >= 1
    decreases |path|, 0
  {
    AddressOf(cls, item, i) == path[0] && HasSecret(cls, item, path[1..], s)
  }

  // ---------- provenance ----------

  /** Main result: a secret in a merged configuration was already stored at the same address, or
      was typed in there by the update, or is a declared-but-unset entry of a secret map. No
      reordering, removal or insertion of accounts moves one to another owner. */
  lemma {:induction false} MergeKeepsOwners(cls: Class, c: Value, u: Value, path: Path, s: Value)
    requires SchemaOk(cls) && c.Dict? && u.Dict?
    requires HasSecret(cls, Merge(cls, c, u), path, s)
    ensures HasSecret(cls, c, path, s) || (HasSecret(cls, u, path, s) && !Blank(s)) || s == Str("")
    decreases |path|, 0
  {
    var key := path[0].name;
    SubSchemaOk(cls, key);
    if !Untouched(cls, key, u) && !KindOf(cls, key).Secret? {
      FieldKeepsOwners(KindOf(cls, key), Get(c, key), u.entries[key], path[1..], s);
    }
  }

  lemma {:induction false} FieldKeepsOwners(k: Kind, c: Value, v: Value, path: Path, s: Value)
    requires k.Model? || k.ModelList? || k.ModelMap? ==> SchemaOk(k.sub)
    requires !k.Secret? && FieldHasSecret(k, MergeField(k, c, v), path, s)
    ensures FieldHasSecret(k, c, path, s) || (FieldHasSecret(k, v, path, s) && !Blank(s)) || s == Str("")
    decreases |path|, 1
  {
    match k
    case SecretMap =>
    case Model(sub) => if v.Dict? { MergeKeepsOwners(sub, DictOr(c), v, path, s); }
    case ModelMap(sub) =>
      var entry := v.entries[path[0].alias];
      assert MergeField(k, c, v).entries[path[0].alias] == MergeEntry(sub, Get(c, path[0].alias), entry);
      if entry.Dict? { MergeKeepsOwners(sub, DictOr(Get(c, path[0].alias)), entry, path[1..], s); }
    case ModelList(sub) =>
      var i :| 0 <= i < |v.items| && ItemHasSecret(sub, MergeField(k, c, v).items[i], i, path, s);
      ItemKeepsOwners(sub, ItemsOr(c), v.items, i, path, s);
  }

  /** The entry an item is merged onto has the item's address in the stored list. */
  lemma ExistingAddress(cls: Class, c: seq<Value>, i: nat, item: Value)
    requires IdentityKey(cls).None? ==> IdentityOf(cls, item) == Null
    ensures var existing := Existing(cls, c, i, item);
            || existing == Dict(map[])
            || exists j :: 0 <= j < |c| && c[j] == existing && AddressOf(cls, c[j], j) == AddressOf(cls, item, i)
  {
    var existing := Existing(cls, c, i, item);
    if IdentityOf(cls, item) != Null && LastWith(c, IdentityKey(cls).value, IdentityOf(cls, item)).Some? {
      var j :| 0 <= j < |c| && c[j] == existing;
    }
  }

  lemma {:induction false} ItemKeepsOwners(cls: Class, c: seq<Value>, u: seq<Value>, i: nat, path: Path, s: Value)
    requires SchemaOk(cls) && i < |u| && |path| >= 1
    requires ItemHasSecret(cls, MergeItems(cls, c, u)[i], i, path, s)
    ensures || SomeItemHasSecret(cls, c, path, s)
            || (ItemHasSecret(cls, u[i], i, path, s) && !Blank(s))
            || s == Str("")
    decreases |path|, 0
  {
    if u[i].Dict? {
      var existing := Existing(cls, c, i, u[i]);
      IdentityMerged(cls, c, i, u[i]);
      MergeKeepsOwners(cls, existing, u[i], path[1..], s);
      ExistingAddress(cls, c, i, u[i]);
    }
  }

  // ---------- rollback keeps the secrets of everything it keeps ----------

  /** A stripped value holds no secret at all. */
  lemma {:induction false} StripHasNone(cls: Class, v: Value, path: Path, s: Value)
    ensures !HasSecret(cls, Strip(cls, v), path, s)
    decreases |path|, 0
  {
    if v.Dict? && |path| >= 1 && path[0].Field? && path[0].name in Strip(cls, v).entries {
      StripFieldHasNone(KindOf(cls, path[0].name), v.entries[path[0].name], path[1..], s);
    }
  }

  lemma {:induction false} StripFieldHasNone(k: Kind, v: Value, path: Path, s: Value)
    requires !SecretKind(k)
    ensures !FieldHasSecret(k, StripField(k, v), path, s)
    decreases |path|, 1
  {
    match k
    case Scalar =>
    case Model(sub) => StripHasNone(sub, v, path, s);
    case ModelMap(sub) =>
      if |path| >= 1 && path[0].Entry? && v.Dict? && path[0].alias in v.entries {
        StripHasNone(sub, v.entries[path[0].alias], path[1..], s);
      }
    case ModelList(sub) =>
      if |path| >= 1 && v.List? {
        forall i | 0 <= i < |v.items| ensures !ItemHasSecret(sub, StripItems(sub, v.items)[i], i, path, s) {
          StripHasNone(sub, v.items[i], path[1..], s);
        }
      }
  }

  /** `d` has the account, project or block that a secret at `path` belongs to. */
  ghost predicate HasOwner(cls: Class, d: Value, path: Path)
    decreases |path|, 0
  {
    && d.Dict?
    && |path| >= 1 && path[0].Field?
    && FieldHasOwner(KindOf(cls, path[0].name), Get(d, path[0].name), path[1..])
  }

  ghost predicate FieldHasOwner(k: Kind, v: Value, path: Path)
    decreases |path|, 2
  {
    match k
    case Scalar => false
    case Secret => path == []
    case SecretMap => |path| == 1 && path[0].Entry?
    case Model(sub) => path != [] && HasOwner(sub, v, path)
    case ModelMap(sub) => |path| >= 1 && path[0].Entry? && HasOwner(sub, Get(v, path[0].alias), path[1..])
    case ModelList(sub) =>
      |path| >= 1 && v.List? && SomeItemHasOwner(sub, v.items, path)
  }

  ghost predicate SomeItemHasOwner(cls: Class, items: seq<Value>, path: Path)
    requires |path| >= 1
    decreases |path|, 1
  {
    exists i :: 0 <= i < |items| && ItemHasOwner(cls, items[i], i, path)
  }

  ghost predicate ItemHasOwner(cls: Class, item: Value, i: nat, path: Path)
    requires |path| >= 1
    decreases |path|, 0
  {
    AddressOf(cls, item, i) == path[0] && HasOwner(cls, item, path[1..])
  }

  /** Main result: after rolling back to the snapshot of `d`, the secrets are exactly those of the
      current configuration whose owner the snapshot has; secret maps are kept whole. */
  lemma {:induction false} RollbackSecrets(cls: Class, c: Value, d: Value, path: Path, s: Value)
    requires SchemaOk(cls) && c.Dict? && DistinctIds(cls, c) && WellTyped(cls, d)
    ensures HasSecret(cls, Merge(cls, c, Strip(cls, d)), path, s) <==>
            HasSecret(cls, c, path, s) && HasOwner(cls, d, path)
    decreases |path|, 0
  {
    if |path| >= 1 && path[0].Field? {
      var key := path[0].name;
      if SecretKind(KindOf(cls, key)) {
        SecretFieldsKept(cls, c, d, key);
      } else if key in cls.fields {
        SubSchemaOk(cls, key);
        if key in c.entries { assert FieldDistinct(KindOf(cls, key), c.entries[key]); }
        RollbackFieldSecrets(cls.fields[key].annotation, Get(c, key), d.entries[key], path[1..], s);
        FieldRestored(cls, c, d, key);
      }
    }
  }

  lemma SecretFieldsKept(cls: Class, c: Value, d: Value, key: string)
    requires c.Dict? && WellTyped(cls, d) && SecretKind(KindOf(cls, key))
    ensures var merged := Merge(cls, c, Strip(cls, d));
            (key in merged.entries <==> key in c.entries) && Get(merged, key) == Get(c, key)
  {
  }

  lemma FieldRestored(cls: Class, c: Value, d: Value, key: string)
    requires c.Dict? && WellTyped(cls, d) && !SecretKind(KindOf(cls, key)) && key in cls.fields
    ensures var merged := Merge(cls, c, Strip(cls, d));
            && key in merged.entries
            && merged.entries[key] == MergeField(KindOf(cls, key), Get(c, key), StripField(KindOf(cls, key), d.entries[key]))
  {
  }

  lemma {:induction false} RollbackFieldSecrets(a: Annotation, c: Value, v: Value, path: Path, s: Value)
    requires var k := Classify(a);
             && !SecretKind(k) && FieldDistinct(k, c)
             && (k.Model? || k.ModelList? || k.ModelMap? ==> SchemaOk(k.sub))
    requires FieldTyped(a, v)
    ensures FieldHasSecret(Classify(a), MergeField(Classify(a), c, StripField(Classify(a), v)), path, s) <==>
            FieldHasSecret(Classify(a), c, path, s) && FieldHasOwner(Classify(a), v, path)
    decreases |path|, 3
  {
    match Classify(a)
    case Scalar =>
    case Model(sub) => if v.Dict? { RollbackSecrets(sub, DictOr(c), v, path, s); }
    case ModelMap(sub) => RollbackEntrySecrets(sub, c, v, path, s);
    case ModelList(sub) => RollbackListSecrets(sub, c, v, path, s);
  }

  lemma {:induction false} RollbackListSecrets(cls: Class, c: Value, v: Value, path: Path, s: Value)
    requires SchemaOk(cls) && FieldDistinct(ModelList(cls), c)
    requires v.List? ==> forall item <- v.items :: WellTyped(cls, item)
    ensures var k := ModelList(cls);
            FieldHasSecret(k, MergeField(k, c, StripField(k, v)), path, s) <==>
            FieldHasSecret(k, c, path, s) && FieldHasOwner(k, v, path)
    decreases |path|, 2
  {
    if |path| >= 1 && v.List? {
      RollbackItemSecrets(cls, ItemsOr(c), v.items, path, s);
      var merged := MergeItems(cls, ItemsOr(c), StripItems(cls, v.items));
      assert MergeField(ModelList(cls), c, StripField(ModelList(cls), v)) == List(merged);
    }
  }

  lemma {:induction false} RollbackEntrySecrets(cls: Class, c: Value, v: Value, path: Path, s: Value)
    requires SchemaOk(cls) && FieldDistinct(ModelMap(cls), c)
    requires v.Dict? ==> forall name <- v.entries :: v.entries[name].Null? || WellTyped(cls, v.entries[name])
    ensures var k := ModelMap(cls);
            FieldHasSecret(k, MergeField(k, c, StripField(k, v)), path, s) <==>
            FieldHasSecret(k, c, path, s) && FieldHasOwner(k, v, path)
    decreases |path|, 1
  {
    NothingInNull(cls, path, s);
    hide HasSecret, HasOwner;
    if |path| >= 1 && path[0].Entry? {
      var name := path[0].alias;
      EntryOfMap(cls, c, path, s);
      if v.Dict? && name in v.entries {
        var merged := MergeField(ModelMap(cls), c, StripField(ModelMap(cls), v));
        assert merged.entries[name] == MergeEntry(cls, Get(c, name), Strip(cls, v.entries[name]));
        EntryOfMap(cls, merged, path, s);
        RollbackEntry(cls, Get(c, name), v.entries[name], path[1..], s);
      }
    }
  }

  lemma NothingInNull(cls: Class, path: Path, s: Value)
    ensures |path| >= 1 ==> !HasSecret(cls, Null, path[1..], s) && !HasOwner(cls, Null, path[1..])
  {
  }

  lemma EntryOfMap(cls: Class, v: Value, path: Path, s: Value)
    requires |path| >= 1 && path[0].Entry?
    ensures FieldHasSecret(ModelMap(cls), v, path, s) <==> HasSecret(cls, Get(v, path[0].alias), path[1..], s)
  {
  }

  lemma {:induction false} RollbackEntry(cls: Class, existing: Value, entry: Value, path: Path, s: Value)
    requires SchemaOk(cls) && DistinctIds(cls, existing) && (entry.Null? || WellTyped(cls, entry))
    ensures HasSecret(cls, MergeEntry(cls, existing, Strip(cls, entry)), path, s) <==>
            HasSecret(cls, existing, path, s) && HasOwner(cls, entry, path)
    decreases |path|, 1
  {
    if entry.Dict? { RollbackSecrets(cls, DictOr(existing), entry, path, s); }
  }

  lemma {:induction false} RollbackItemSecrets(cls: Class, c: seq<Value>, items: seq<Value>, path: Path, s: Value)
    requires SchemaOk(cls) && UniqueIdentities(cls, c) && (forall item <- c :: DistinctIds(cls, item))
    requires |path| >= 1 && forall item <- items :: WellTyped(cls, item)
    ensures var merged := MergeItems(cls, c, StripItems(cls, items));
            SomeItemHasSecret(cls, merged, path, s) <==>
            SomeItemHasSecret(cls, c, path, s) && SomeItemHasOwner(cls, items, path)
    decreases |path|, 1
  {
    var merged := MergeItems(cls, c, StripItems(cls, items));
    forall i | 0 <= i < |items|
      ensures ItemHasSecret(cls, merged[i], i, path, s) <==>
              ItemHasOwner(cls, items[i], i, path) && SomeItemHasSecret(cls, c, path, s)
    {
      RollbackItem(cls, c, items, i, path, s);
    }
    if i :| 0 <= i < |items| && ItemHasSecret(cls, merged[i], i, path, s) {
      assert ItemHasOwner(cls, items[i], i, path);
    }
    if i :| 0 <= i < |items| && ItemHasOwner(cls, items[i], i, path) {
      assert SomeItemHasSecret(cls, c, path, s) ==> ItemHasSecret(cls, merged[i], i, path, s);
    }
  }

  lemma {:induction false} RollbackItem(cls: Class, c: seq<Value>, items: seq<Value>, i: nat, path: Path, s: Value)
    requires SchemaOk(cls) && UniqueIdentities(cls, c) && (forall item <- c :: DistinctIds(cls, item))
    requires |path| >= 1 && i < |items| && WellTyped(cls, items[i])
    ensures ItemHasSecret(cls, MergeItems(cls, c, StripItems(cls, items))[i], i, path, s) <==>
            ItemHasOwner(cls, items[i], i, path) && SomeItemHasSecret(cls, c, path, s)
    decreases |path|, 0
  {
    var item := Strip(cls, items[i]);
    var existing := Existing(cls, c, i, item);
    IdentityStripped(cls, items[i]);
    IdentityMerged(cls, c, i, item);
    ExistingAddress(cls, c, i, item);
    RollbackSecrets(cls, existing, items[i], path[1..], s);
    if j :| 0 <= j < |c| && ItemHasSecret(cls, c[j], j, path, s) && AddressOf(cls, item, i) == path[0] {
      assert HasSecret(cls, c[j], path[1..], s);
      SameAddress(cls, c, j, i, item);
    }
  }

  /** With distinct identities, the stored entry at an item's address is the one it is merged onto. */
  lemma SameAddress(cls: Class, c: seq<Value>, j: nat, i: nat, item: Value)
    requires UniqueIdentities(cls, c) && j < |c| && c[j].Dict?
    requires AddressOf(cls, c[j], j) == AddressOf(cls, item, i)
    ensures Existing(cls, c, i, item) == c[j]
  {
    if IdentityOf(cls, item) != Null { LastWithUnique(cls, c, j); }
  }
}
