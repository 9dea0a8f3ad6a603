/**
 What a merge depends on, and lists of entries that repeat an identity: config/service.py lines 145-248.
 */
module ConfigAgreement {
  import opened Outcome
  import opened ConfigSchema
  import opened ConfigMerge
  import opened ConfigLaws

  // ---------- what an update leaves alone ----------

  function Lookup(v: Value, key: string): Option<Value> {
    if v.Dict? && key in v.entries then Some(v.entries[key]) else None
  }

  /** What a map of secrets keeps under an alias that is submitted blank. */
  function Kept(c: Value): Value {
    if c.Str? then c else Str("")
  }

  /** `a` and `b` agree on everything the update leaves alone, at every level. */
  ghost predicate AgreeUnder(cls: Class, a: Value, b: Value, u: Value)
    requires a.Dict? && b.Dict? && u.Dict?
    decreases u, 0
  {
    forall key <- a.entries.Keys + b.entries.Keys + u.entries.Keys ::
      if Untouched(cls, key, u) then Lookup(a, key) == Lookup(b, key)
      else FieldsAgree(KindOf(cls, key), Get(a, key), Get(b, key), u.entries[key])
  }

  ghost predicate FieldsAgree(k: Kind, a: Value, b: Value, v: Value)
    decreases v, 1
  {
    match k
    case SecretMap => v.Dict? ==> forall alias <- v.entries :: AliasesAgree(Get(a, alias), Get(b, alias), v.entries[alias])
    case Model(sub) => v.Dict? ==> AgreeUnder(sub, DictOr(a), DictOr(b), v)
    case ModelList(sub) => v.List? ==> forall i | 0 <= i < |v.items| :: ItemsAgree(sub, ItemsOr(a), ItemsOr(b), i, v.items[i])
    case ModelMap(sub) => v.Dict? ==> forall name <- v.entries :: EntriesAgree(sub, Get(a, name), Get(b, name), v.entries[name])
    case _ => true
  }

  predicate AliasesAgree(a: Value, b: Value, v: Value) {
    Blank(v) ==> Kept(a) == Kept(b)
  }

  ghost predicate ItemsAgree(cls: Class, a: seq<Value>, b: seq<Value>, i: nat, v: Value)
    decreases v, 1
  {
    v.Dict? ==> AgreeUnder(cls, Existing(cls, a, i, v), Existing(cls, b, i, v), v)
  }

  ghost predicate EntriesAgree(cls: Class, a: Value, b: Value, v: Value)
    decreases v, 1
  {
    if v.Dict? then AgreeUnder(cls, DictOr(a), DictOr(b), v) else AliasesAgree(a, b, v)
  }

  lemma MergedAt(cls: Class, c: Value, u: Value, key: string)
    requires c.Dict? && u.Dict?
    ensures Lookup(Merge(cls, c, u), key) ==
            if Untouched(cls, key, u) then Lookup(c, key) else Some(MergeField(KindOf(cls, key), Get(c, key), u.entries[key]))
  {
  }

  lemma SameByKey(a: Value, b: Value, keys: set<string>)
    requires a.Dict? && b.Dict? && a.entries.Keys <= keys && b.entries.Keys <= keys
    ensures a == b <==> forall key <- keys :: Lookup(a, key) == Lookup(b, key)
  {
    if forall key <- keys :: Lookup(a, key) == Lookup(b, key) {
      forall key | key in a.entries || key in b.entries ensures key in a.entries && key in b.entries && a.entries[key] == b.entries[key] {
        assert Lookup(a, key) == Lookup(b, key);
      }
      assert a.entries == b.entries;
    }
  }

  /** Main result: an update makes two values the same exactly if they agree on everything it leaves alone. */
  lemma {:induction false} MergesAlikeIff(cls: Class, a: Value, b: Value, u: Value)
    requires a.Dict? && b.Dict? && u.Dict?
    ensures Merge(cls, a, u) == Merge(cls, b, u) <==> AgreeUnder(cls, a, b, u)
    decreases u, 0
  {
    hide Merge, MergeField;
    var keys := a.entries.Keys + b.entries.Keys + u.entries.Keys;
    forall key
      ensures Lookup(Merge(cls, a, u), key) == Lookup(Merge(cls, b, u), key) <==>
              if Untouched(cls, key, u) then Lookup(a, key) == Lookup(b, key)
              else FieldsAgree(KindOf(cls, key), Get(a, key), Get(b, key), u.entries[key])
      ensures key !in keys ==> Lookup(Merge(cls, a, u), key) == Lookup(Merge(cls, b, u), key) == None
    {
      MergedAt(cls, a, u, key);
      MergedAt(cls, b, u, key);
      if !Untouched(cls, key, u) { FieldsMergeAlikeIff(KindOf(cls, key), Get(a, key), Get(b, key), u.entries[key]); }
    }
    forall key | key in Merge(cls, a, u).entries || key in Merge(cls, b, u).entries ensures key in keys {
      assert Lookup(Merge(cls, a, u), key).Some? || Lookup(Merge(cls, b, u), key).Some?;
    }
    SameByKey(Merge(cls, a, u), Merge(cls, b, u), keys);
  }

  lemma {:induction false} FieldsMergeAlikeIff(k: Kind, a: Value, b: Value, v: Value)
    ensures MergeField(k, a, v) == MergeField(k, b, v) <==> FieldsAgree(k, a, b, v)
    decreases v, 1
  {
    hide Merge, AgreeUnder, MergeEntry, EntriesAgree, MergeSecret, AliasesAgree, ItemsAgree, Existing;
    match k
    case Scalar =>
    case Secret =>
    case SecretMap => if v.Dict? { AliasesMergeAlikeIff(a, b, v); }
    case Model(sub) => if v.Dict? { MergesAlikeIff(sub, DictOr(a), DictOr(b), v); }
    case ModelList(sub) => if v.List? { ItemsMergeAlikeIff(sub, ItemsOr(a), ItemsOr(b), v.items); }
    case ModelMap(sub) => if v.Dict? { EntriesMergeAlikeIff(sub, a, b, v); }
  }

  lemma AliasesMergeAlikeIff(a: Value, b: Value, v: Value)
    requires v.Dict?
    ensures MergeField(SecretMap, a, v) == MergeField(SecretMap, b, v) <==> FieldsAgree(SecretMap, a, b, v)
  {
    var ma, mb := MergeField(SecretMap, a, v), MergeField(SecretMap, b, v);
    forall alias <- v.entries
      ensures Lookup(ma, alias) == Lookup(mb, alias) <==> AliasesAgree(Get(a, alias), Get(b, alias), v.entries[alias])
    {
    }
    SameByKey(ma, mb, v.entries.Keys);
  }

  lemma MergedEntry(cls: Class, c: Value, v: Value, name: string)
    requires v.Dict? && name in v.entries
    ensures Lookup(MergeField(ModelMap(cls), c, v), name) == Some(MergeEntry(cls, Get(c, name), v.entries[name]))
  {
  }

  lemma MergedNames(cls: Class, c: Value, v: Value)
    requires v.Dict?
    ensures MergeField(ModelMap(cls), c, v).Dict? && MergeField(ModelMap(cls), c, v).entries.Keys == v.entries.Keys
  {
  }

  lemma {:induction false} EntriesMergeAlikeIff(cls: Class, a: Value, b: Value, v: Value)
    requires v.Dict?
    ensures MergeField(ModelMap(cls), a, v) == MergeField(ModelMap(cls), b, v) <==> FieldsAgree(ModelMap(cls), a, b, v)
    decreases v, 0
  {
    hide Merge, AgreeUnder, MergeField;
    var ma, mb := MergeField(ModelMap(cls), a, v), MergeField(ModelMap(cls), b, v);
    forall name <- v.entries
      ensures Lookup(ma, name) == Lookup(mb, name) <==> EntriesAgree(cls, Get(a, name), Get(b, name), v.entries[name])
    {
      MergedEntry(cls, a, v, name);
      MergedEntry(cls, b, v, name);
      if v.entries[name].Dict? { MergesAlikeIff(cls, DictOr(Get(a, name)), DictOr(Get(b, name)), v.entries[name]); }
    }
    MergedNames(cls, a, v);
    MergedNames(cls, b, v);
    SameByKey(ma, mb, v.entries.Keys);
  }

  lemma {:induction false} ItemsMergeAlikeIff(cls: Class, a: seq<Value>, b: seq<Value>, u: seq<Value>)
    ensures MergeItems(cls, a, u) == MergeItems(cls, b, u) <==> forall i | 0 <= i < |u| :: ItemsAgree(cls, a, b, i, u[i])
    decreases u
  {
    var ma, mb := MergeItems(cls, a, u), MergeItems(cls, b, u);
    forall i | 0 <= i < |u| ensures ma[i] == mb[i] <==> ItemsAgree(cls, a, b, i, u[i]) {
      if u[i].Dict? { MergesAlikeIff(cls, Existing(cls, a, i, u[i]), Existing(cls, b, i, u[i]), u[i]); }
    }
    assert ma == mb <==> forall i | 0 <= i < |u| :: ma[i] == mb[i];
  }

  // ---------- updates that list an identity twice ----------

  lemma LastSnoc(items: seq<Value>, n: nat, key: string, id: Value)
    requires 0 < n <= |items|
    ensures LastWith(items[..n], key, id) ==
            if items[n - 1].Dict? && Get(items[n - 1], key) == id then Some(items[n - 1]) else LastWith(items[..n - 1], key, id)
  {
    assert items[..n][..n - 1] == items[..n - 1];
  }

  /** The merge is made of an update's last entry with the identity. */
  lemma {:induction false} LastMerged(cls: Class, c: seq<Value>, u: seq<Value>, n: nat, id: Value)
    requires SchemaOk(cls) && IdentityKey(cls).Some? && id != Null && n <= |u|
    ensures var key := IdentityKey(cls).value;
            var later, last := LastWith(u[..n], key, id), LastWith(MergeItems(cls, c, u)[..n], key, id);
            && (last.Some? <==> later.Some?)
            && (last.Some? ==> last.value == Merge(cls, Stored(cls, c, id), later.value))
    decreases n
  {
    if n > 0 {
      LastMerged(cls, c, u, n - 1, id);
      MergedIdentities(cls, c, u);
      var merged, key := MergeItems(cls, c, u), IdentityKey(cls).value;
      LastSnoc(merged, n, key, id);
      LastSnoc(u, n, key, id);
      if u[n - 1].Dict? && IdentityOf(cls, u[n - 1]) == id { ExistingIsStored(cls, c, n - 1, u[n - 1]); }
      hide LastWith, Merge, Stored, Existing;
    }
  }

  /** The entry that is stored under an identity. */
  function Stored(cls: Class, c: seq<Value>, id: Value): (existing: Value)
    requires IdentityKey(cls).Some?
    ensures existing.Dict?
  {
    var last := LastWith(c, IdentityKey(cls).value, id);
    if last.Some? then last.value else Dict(map[])
  }

  lemma ExistingIsStored(cls: Class, c: seq<Value>, i: nat, item: Value)
    requires IdentityKey(cls).Some? && item.Dict? && IdentityOf(cls, item) != Null
    ensures Existing(cls, c, i, item) == Stored(cls, c, IdentityOf(cls, item))
  {
    var id := IdentityOf(cls, item);
    if i < |c| && c[i].Dict? && IdentityOf(cls, c[i]) == id { LastWithFinds(c, IdentityKey(cls).value, id, i); }
  }

  lemma {:induction false} LastWithFinds(c: seq<Value>, key: string, id: Value, i: nat)
    requires i < |c| && c[i].Dict? && Get(c[i], key) == id
    ensures LastWith(c, key, id).Some?
  {
    if i < |c| - 1 { LastWithFinds(c[..|c| - 1], key, id, i); }
  }

  /** The last entry of the update with the identity of entry `i`; an entry without one stands for itself. */
  function Latest(cls: Class, u: seq<Value>, i: nat): (latest: Value)
    requires i < |u| && u[i].Dict?
    ensures latest.Dict?
  {
    if IdentityOf(cls, u[i]) == Null then u[i]
    else
      var last := LastWith(u, IdentityKey(cls).value, IdentityOf(cls, u[i]));
      if last.Some? then last.value else u[i]
  }

  /** What entry `i` leaves alone, the last entry with its identity leaves as it is stored. */
  ghost predicate Absorbs(cls: Class, c: seq<Value>, u: seq<Value>, i: nat)
    requires i < |u|
  {
    u[i].Dict? ==>
      var stored := Existing(cls, c, i, u[i]);
      AgreeUnder(cls, Merge(cls, stored, Latest(cls, u, i)), stored, u[i])
  }

  /** Merging a list of entries twice is merging it once exactly if every entry absorbs the last one listed
      under its identity: a value that only the last one sets is grafted onto the others the second time. */
  lemma MergeItemsIdempotentIff(cls: Class, c: seq<Value>, u: seq<Value>)
    requires SchemaOk(cls)
    ensures MergeItems(cls, MergeItems(cls, c, u), u) == MergeItems(cls, c, u) <==> forall i | 0 <= i < |u| :: Absorbs(cls, c, u, i)
  {
    hide AgreeUnder, Latest, Merge, Existing;
    var once := MergeItems(cls, c, u);
    var twice := MergeItems(cls, once, u);
    forall i | 0 <= i < |u| ensures twice[i] == once[i] <==> Absorbs(cls, c, u, i) {
      if u[i].Dict? {
        SecondTime(cls, c, u, i);
        MergesAlikeIff(cls, Existing(cls, once, i, u[i]), Existing(cls, c, i, u[i]), u[i]);
      }
    }
    assert twice == once <==> forall i | 0 <= i < |u| :: twice[i] == once[i];
  }

  /** What the second merge finds for an entry is what the last one with its identity made of the stored one. */
  lemma SecondTime(cls: Class, c: seq<Value>, u: seq<Value>, i: nat)
    requires SchemaOk(cls) && i < |u| && u[i].Dict?
    ensures Existing(cls, MergeItems(cls, c, u), i, u[i]) == Merge(cls, Existing(cls, c, i, u[i]), Latest(cls, u, i))
  {
    hide AgreeUnder;
    var once, id := MergeItems(cls, c, u), IdentityOf(cls, u[i]);
    MergedIdentities(cls, c, u);
    if id == Null {
      assert Existing(cls, once, i, u[i]) == once[i];
    } else {
      LastMerged(cls, c, u, |u|, id);
      assert u[..|u|] == u && once[..|u|] == once;
      LastWithFinds(u, IdentityKey(cls).value, id, i);
      ExistingIsStored(cls, c, i, u[i]);
      ExistingIsStored(cls, once, i, u[i]);
    }
  }
}
