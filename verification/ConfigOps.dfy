/** The loops of config/service.py, each proved against the function that specifies it. */
module ConfigOps {
  import opened Outcome
  import opened ConfigSchema
  import opened ConfigMerge
  import opened ConfigDiff
  import Decimal
  import StringOrder

  // ---------- strip_secrets ----------

  method StripSecrets(cls: Class, data: Value) returns (out: Value)
    requires data.Dict?
    ensures out == Strip(cls, data)
    decreases data, 0
  {
    var stripped: map<string, Value> := map[];
    var keys := data.entries.Keys;
    while keys != {}
      invariant keys <= data.entries.Keys
      invariant stripped.Keys == set k | k in data.entries && k !in keys && !SecretKind(KindOf(cls, k))
      invariant forall k <- stripped :: stripped[k] == StripField(KindOf(cls, k), data.entries[k])
    {
      var key :| key in keys;
      keys := keys - {key};
      var kind := KindOf(cls, key);
      if SecretKind(kind) { continue; }
      var value := StripValue(kind, data.entries[key]);
      stripped := stripped[key := value];
    }
    assert stripped == Strip(cls, data).entries;
    out := Dict(stripped);
  }

  method StripValue(k: Kind, value: Value) returns (out: Value)
    requires !SecretKind(k)
    ensures out == StripField(k, value)
    decreases value, 1
  {
    out := value;
    if k.Model? && value.Dict? {
      out := StripSecrets(k.sub, value);
    } else if k.ModelList? && value.List? {
      var items: seq<Value> := [];
      for i := 0 to |value.items|
        invariant |items| == i
        invariant forall j :: 0 <= j < i ==> items[j] == Strip(k.sub, value.items[j])
      {
        var item := value.items[i];
        if item.Dict? { item := StripSecrets(k.sub, item); }
        items := items + [item];
      }
      out := List(items);
    } else if k.ModelMap? && value.Dict? {
      var entries: map<string, Value> := map[];
      var names := value.entries.Keys;
      while names != {}
        invariant names <= value.entries.Keys
        invariant entries.Keys == value.entries.Keys - names
        invariant forall n <- entries :: entries[n] == Strip(k.sub, value.entries[n])
      {
        var name :| name in names;
        names := names - {name};
        var entry := value.entries[name];
        if entry.Dict? { entry := StripSecrets(k.sub, entry); }
        entries := entries[name := entry];
      }
      out := Dict(entries);
      assert entries == StripField(k, value).entries;
    }
  }

  // ---------- merge_updates ----------

  /** Entries are indexed by identity in a dict, so an unhashable identity raises. */
  datatype MergeError = UnhashableIdentity

  predicate Hashable(v: Value) {
    !v.List? && !v.Dict?
  }

  predicate Raises(cls: Class, current: Value, updates: Value)
    decreases updates, 0
  {
    updates.Dict? && exists key <- updates.entries :: FieldRaises(KindOf(cls, key), Get(current, key), updates.entries[key])
  }

  predicate FieldRaises(k: Kind, c: Value, v: Value)
    decreases v, 1
  {
    match k
    case Model(sub) => Raises(sub, DictOr(c), v)
    case ModelList(sub) => v.List? && ListRaises(sub, ItemsOr(c), v.items)
    case ModelMap(sub) => v.Dict? && MapRaises(sub, DictOr(c), v)
    case _ => false
  }

  predicate MapRaises(cls: Class, c: Value, v: Value)
    requires v.Dict?
    decreases v, 0
  {
    exists name <- v.entries :: Raises(cls, DictOr(Get(c, name)), v.entries[name])
  }

  predicate ListRaises(cls: Class, c: seq<Value>, u: seq<Value>)
    decreases u
  {
    || (exists item <- c :: !Hashable(IdentityOf(cls, item)))
    || exists i :: 0 <= i < |u| && ItemRaises(cls, c, i, u[i])
  }

  predicate ItemRaises(cls: Class, c: seq<Value>, i: nat, item: Value)
    decreases item, 1
  {
    item.Dict? && (!Hashable(IdentityOf(cls, item)) || Raises(cls, Existing(cls, c, i, item), item))
  }

  method MergeUpdates(cls: Class, current: Value, updates: Value) returns (r: Result<Value, MergeError>)
    requires current.Dict? && updates.Dict?
    ensures r == if Raises(cls, current, updates) then Err(UnhashableIdentity) else Ok(Merge(cls, current, updates))
    decreases updates, 0
  {
    ghost var done := Merge(cls, current, updates).entries;
    var merged := current.entries;
    var keys := updates.entries.Keys;
    while keys != {}
      invariant keys <= updates.entries.Keys
      invariant forall k <- updates.entries :: k !in keys ==>
                  !FieldRaises(KindOf(cls, k), Get(current, k), updates.entries[k])
      invariant forall k <- keys :: (k in merged <==> k in current.entries) && (k in merged ==> merged[k] == current.entries[k])
      invariant forall k :: k !in keys ==> (k in merged <==> k in done) && (k in merged ==> merged[k] == done[k])
    {
      var key :| key in keys;
      var kind, value := KindOf(cls, key), updates.entries[key];
      keys := keys - {key};
      if kind.Secret? {
        if Blank(value) { continue; }
        merged := merged[key := value];
      } else {
        var field := MergeValue(kind, Get(current, key), value);
        if field.Err? { return Err(UnhashableIdentity); }
        merged := merged[key := field.value];
      }
    }
    assert merged == done;
    return Ok(Dict(merged));
  }

  method MergeValue(k: Kind, existing: Value, value: Value) returns (r: Result<Value, MergeError>)
    ensures r == if FieldRaises(k, existing, value) then Err(UnhashableIdentity) else Ok(MergeField(k, existing, value))
    decreases value, 2
  {
    if value.Dict? { MapsReadThrough(k, existing, value); }
    if k.Model? && value.Dict? {
      r := MergeUpdates(k.sub, DictOr(existing), value);
    } else if k.ModelList? && value.List? {
      var items := MergeList(k.sub, ItemsOr(existing), value);
      r := if items.Err? then Err(UnhashableIdentity) else Ok(List(items.value));
    } else if k.ModelMap? && value.Dict? {
      r := MergeMap(Some(k.sub), DictOr(existing), value);
    } else if k.SecretMap? && value.Dict? {
      r := MergeMap(None, DictOr(existing), value);
    } else {
      r := Ok(value);
    }
  }

  /** A stored value that is not a dict merges like an empty one. */
  lemma MapsReadThrough(k: Kind, existing: Value, value: Value)
    requires value.Dict?
    ensures k.ModelMap? || k.SecretMap? ==> MergeField(k, DictOr(existing), value) == MergeField(k, existing, value)
  {
    forall n ensures Get(DictOr(existing), n) == Get(existing, n) {}
    if k.ModelMap? {
      forall n | n in value.entries
        ensures MergeField(k, DictOr(existing), value).entries[n] == MergeField(k, existing, value).entries[n]
      {
      }
      assert MergeField(k, DictOr(existing), value).entries == MergeField(k, existing, value).entries;
    } else if k.SecretMap? {
      assert MergeField(k, DictOr(existing), value).entries == MergeField(k, existing, value).entries;
    }
  }

  method MergeMap(cls: Option<Class>, current: Value, updates: Value) returns (r: Result<Value, MergeError>)
    requires current.Dict? && updates.Dict?
    ensures cls.Some? ==> r == if MapRaises(cls.value, current, updates) then Err(UnhashableIdentity)
                               else Ok(MergeField(ModelMap(cls.value), current, updates))
    ensures cls.None? ==> r == Ok(MergeField(SecretMap, current, updates))
    decreases updates, 0
  {
    var merged: map<string, Value> := map[];
    var names := updates.entries.Keys;
    while names != {}
      invariant names <= updates.entries.Keys
      invariant merged.Keys == updates.entries.Keys - names
      invariant cls.Some? ==> forall n <- merged ::
                  && !Raises(cls.value, DictOr(Get(current, n)), updates.entries[n])
                  && merged[n] == MergeEntry(cls.value, Get(current, n), updates.entries[n])
      invariant cls.None? ==> forall n <- merged :: merged[n] == MergeSecret(Get(current, n), updates.entries[n])
    {
      var name :| name in names;
      names := names - {name};
      var value, existing := updates.entries[name], Get(current, name);
      if cls.Some? && value.Dict? {
        var nested := MergeUpdates(cls.value, DictOr(existing), value);
        if nested.Err? { return Err(UnhashableIdentity); }
        merged := merged[name := nested.value];
      } else if Blank(value) {
        merged := merged[name := if existing.Str? then existing else Str("")];
      } else {
        merged := merged[name := value];
      }
    }
    if cls.Some? {
      assert merged == MergeField(ModelMap(cls.value), current, updates).entries;
    } else {
      assert merged == MergeField(SecretMap, current, updates).entries;
    }
    return Ok(Dict(merged));
  }

  method IndexByIdentity(cls: Class, current: seq<Value>) returns (r: Result<map<Value, Value>, MergeError>)
    ensures r.Err? <==> exists item <- current :: !Hashable(IdentityOf(cls, item))
    ensures r.Ok? && IdentityKey(cls).Some? ==>
              forall id :: id != Null ==>
                             LastWith(current, IdentityKey(cls).value, id) == if id in r.value then Some(r.value[id]) else None
  {
    var byIdentity: map<Value, Value> := map[];
    var identity := IdentityKey(cls);
    if identity.Some? {
      for i := 0 to |current|
        invariant forall item <- current[..i] :: Hashable(IdentityOf(cls, item))
        invariant forall id :: id != Null ==>
                    LastWith(current[..i], identity.value, id) == if id in byIdentity then Some(byIdentity[id]) else None
      {
        var item := current[i];
        assert current[..i + 1][..i] == current[..i] && current[..i + 1] == current[..i] + [item];
        var id := IdentityOf(cls, item);
        if item.Dict? && id != Null {
          if !Hashable(id) { return Err(UnhashableIdentity); }
          byIdentity := byIdentity[id := item];
        }
      }
      assert current[..|current|] == current;
    }
    return Ok(byIdentity);
  }

  method MergeList(cls: Class, current: seq<Value>, updates: Value) returns (r: Result<seq<Value>, MergeError>)
    requires updates.List?
    ensures r == if ListRaises(cls, current, updates.items) then Err(UnhashableIdentity)
                 else Ok(MergeItems(cls, current, updates.items))
    decreases updates, 0
  {
    var identity := IdentityKey(cls);
    var index := IndexByIdentity(cls, current);
    if index.Err? { return Err(UnhashableIdentity); }
    var byIdentity := index.value;
    var items := updates.items;
    var merged: seq<Value> := [];
    for i := 0 to |items|
      invariant |merged| == i
      invariant forall j :: 0 <= j < i ==> !ItemRaises(cls, current, j, items[j])
      invariant forall j :: 0 <= j < i ==> merged[j] == MergeItems(cls, current, items)[j]
    {
      var item := items[i];
      if !item.Dict? {
        merged := merged + [item];
        continue;
      }
      var id := IdentityOf(cls, item);
      var existing := None;
      if identity.Some? && id != Null {
        if !Hashable(id) {
          assert ItemRaises(cls, current, i, item);
          return Err(UnhashableIdentity);
        }
        if id in byIdentity { existing := Some(byIdentity[id]); }
      }
      if existing.None? && i < |current| {
        var positional := current[i];
        if positional.Dict? && (identity.None? || IdentityOf(cls, positional) == id) {
          existing := Some(positional);
        }
      }
      var onto := if existing.Some? then existing.value else Dict(map[]);
      assert onto == Existing(cls, current, i, item);
      var result := MergeUpdates(cls, onto, item);
      if result.Err? {
        assert ItemRaises(cls, current, i, item);
        return Err(UnhashableIdentity);
      }
      merged := merged + [result.value];
    }
    assert merged == MergeItems(cls, current, items);
    return Ok(merged);
  }

  // ---------- _collect_changes ----------

  /** The list the caller passes in to be appended to. */
  class PathList {
    var items: seq<string>

    constructor ()
      ensures items == []
    {
      items := [];
    }

    method Append(path: string)
      modifies this
      ensures items == old(items) + [path]
    {
      items := items + [path];
    }
  }

  lemma KeyStep(cls: Class, before: Value, after: Value, prefix: string, keys: seq<string>, i: nat, acc: seq<string>)
    requires i < |keys|
    ensures acc + KeyChanges(cls, before, after, prefix, keys[i..]) ==
            acc + FieldChanges(KindOf(cls, keys[i]), before, after, keys[i], PathOf(prefix, keys[i]))
            + KeyChanges(cls, before, after, prefix, keys[i + 1..])
  {
    assert keys[i..][1..] == keys[i + 1..];
  }

  method CollectChanges(cls: Class, before: Value, after: Value, prefix: string, out: PathList)
    requires SchemaOk(cls)
    requires before.Null? || WellTyped(cls, before)
    requires after.Null? || WellTyped(cls, after)
    modifies out
    ensures out.items == old(out.items) + Changes(cls, before, after, prefix)
    decreases before, 2
  {
    if !before.Dict? || !after.Dict? {
      if before != after && prefix != "" { out.Append(prefix); }
      return;
    }
    var keys := StringOrder.Sort(before.entries.Keys + after.entries.Keys);
    assert keys == Keys(before, after);
    for i := 0 to |keys|
      invariant out.items + KeyChanges(cls, before, after, prefix, keys[i..]) ==
                old(out.items) + KeyChanges(cls, before, after, prefix, keys)
    {
      var key := keys[i];
      assert key in keys;
      ComparableFields(cls, before, after, key);
      KeyStep(cls, before, after, prefix, keys, i, out.items);
      CollectField(KindOf(cls, key), before, after, key, PathOf(prefix, key), out);
    }
    assert keys[|keys|..] == [];
  }

  lemma ComparableFields(cls: Class, before: Value, after: Value, key: string)
    requires SchemaOk(cls) && WellTyped(cls, before) && WellTyped(cls, after) && key in cls.fields
    ensures var k := KindOf(cls, key);
            && Comparable(k, before.entries[key]) && Comparable(k, after.entries[key])
            && (k.Model? || k.ModelList? || k.ModelMap? ==> SchemaOk(k.sub))
  {
    SubSchemaOk(cls, key);
    TypedIsComparable(cls.fields[key].annotation, before.entries[key]);
    TypedIsComparable(cls.fields[key].annotation, after.entries[key]);
  }

  method CollectField(k: Kind, before: Value, after: Value, key: string, path: string, out: PathList)
    requires before.Dict? && after.Dict? && key in before.entries && key in after.entries
    requires k.Model? || k.ModelList? || k.ModelMap? ==> SchemaOk(k.sub)
    requires Comparable(k, before.entries[key]) && Comparable(k, after.entries[key])
    modifies out
    ensures out.items == old(out.items) + FieldChanges(k, before, after, key, path)
    decreases before, 1
  {
    var was, now := before.entries[key], after.entries[key];
    match k
    case Scalar =>
      if was != now { out.Append(path); }
    case Secret =>
      if was != now { out.Append(path + " (secret)"); }
    case SecretMap => CollectAliases(was, now, path, out);
    case ModelMap(sub) => CollectEntries(sub, was, now, path, out);
    case Model(sub) => CollectChanges(sub, was, now, path, out);
    case ModelList(sub) =>
      if |ItemsOr(was)| != |ItemsOr(now)| {
        out.Append(path);
      } else if was.List? {
        CollectItems(sub, was, now, path, out);
      }
  }

  lemma ItemStep(cls: Class, was: Value, now: Value, path: string, i: nat, acc: seq<string>, next: seq<string>)
    requires was.List? && |was.items| == |ItemsOr(now)| && i < |was.items|
    requires next == acc + Changes(cls, was.items[i], now.items[i], path + "." + Decimal.Print(i))
    ensures acc + ItemChanges(cls, was, now, path, i) == next + ItemChanges(cls, was, now, path, i + 1)
  {
  }

  method CollectItems(cls: Class, was: Value, now: Value, path: string, out: PathList)
    requires SchemaOk(cls) && was.List? && |was.items| == |ItemsOr(now)|
    requires Comparable(ModelList(cls), was) && Comparable(ModelList(cls), now)
    modifies out
    ensures out.items == old(out.items) + ItemChanges(cls, was, now, path, 0)
    decreases was, 3
  {
    ghost var target := out.items + ItemChanges(cls, was, now, path, 0);
    for i := 0 to |was.items|
      invariant out.items + ItemChanges(cls, was, now, path, i) == target
    {
      ghost var before := out.items;
      CollectChanges(cls, was.items[i], now.items[i], path + "." + Decimal.Print(i), out);
      ItemStep(cls, was, now, path, i, before, out.items);
    }
  }

  lemma AliasStep(was: Value, now: Value, path: string, names: seq<string>, i: nat, acc: seq<string>, next: seq<string>)
    requires i < |names|
    requires next == acc + Differ(Get(was, names[i]) != Get(now, names[i]), path + "." + names[i] + " (secret)")
    ensures acc + AliasChanges(was, now, path, names[i..]) == next + AliasChanges(was, now, path, names[i + 1..])
  {
    assert names[i..][1..] == names[i + 1..];
  }

  method CollectAliases(was: Value, now: Value, path: string, out: PathList)
    modifies out
    ensures out.items == old(out.items) + AliasChanges(was, now, path, Keys(was, now))
  {
    var names := StringOrder.Sort(DictOr(was).entries.Keys + DictOr(now).entries.Keys);
    ghost var target := out.items + AliasChanges(was, now, path, names);
    for i := 0 to |names|
      invariant out.items + AliasChanges(was, now, path, names[i..]) == target
    {
      var name := names[i];
      ghost var before := out.items;
      if Get(was, name) != Get(now, name) { out.Append(path + "." + name + " (secret)"); }
      AliasStep(was, now, path, names, i, before, out.items);
    }
    assert names[|names|..] == [];
  }

  /** What the loop over the aliases appends. */
  ghost function EntryPaths(cls: Class, was: Value, now: Value, path: string, names: seq<string>): seq<string> {
    if was.Dict? then EntryChanges(cls, was, now, path, names) else AddedEntries(path, names)
  }

  lemma EntryStep(cls: Class, was: Value, now: Value, path: string, names: seq<string>, i: nat, acc: seq<string>)
    requires i < |names|
    ensures acc + EntryPaths(cls, was, now, path, names[i..]) ==
            acc + (if names[i] !in DictOr(was).entries || names[i] !in DictOr(now).entries then [path + "." + names[i]]
                   else Changes(cls, was.entries[names[i]], now.entries[names[i]], path + "." + names[i]))
            + EntryPaths(cls, was, now, path, names[i + 1..])
  {
    assert names[i..][1..] == names[i + 1..];
  }

  method CollectEntries(cls: Class, was: Value, now: Value, path: string, out: PathList)
    requires SchemaOk(cls) && Comparable(ModelMap(cls), was) && Comparable(ModelMap(cls), now)
    modifies out
    ensures out.items == old(out.items) + EntryPaths(cls, was, now, path, Keys(was, now))
    decreases was, 3
  {
    var names := StringOrder.Sort(DictOr(was).entries.Keys + DictOr(now).entries.Keys);
    assert names == Keys(was, now);
    for i := 0 to |names|
      invariant out.items + EntryPaths(cls, was, now, path, names[i..]) == old(out.items) + EntryPaths(cls, was, now, path, names)
    {
      var name := names[i];
      EntryStep(cls, was, now, path, names, i, out.items);
      if name !in DictOr(was).entries || name !in DictOr(now).entries {
        out.Append(path + "." + name);
        continue;
      }
      CollectChanges(cls, was.entries[name], now.entries[name], path + "." + name, out);
    }
    assert names[|names|..] == [];
  }

  method ChangedKeys(cls: Class, before: Value, after: Value) returns (changed: seq<string>)
    requires SchemaOk(cls) && WellTyped(cls, before) && WellTyped(cls, after)
    ensures changed == Changes(cls, before, after, "")
  {
    var out := new PathList();
    CollectChanges(cls, before, after, "", out);
    changed := out.items;
  }

  // ---------- _with_real_secrets ----------

  /** Re-attaching the real secrets to a masked dump gives the model's own values back. */
  method WithRealSecrets(cls: Class, model: Value, dumped: Value) returns (out: Value)
    requires WellTyped(cls, model) && dumped == Mask(cls, model)
    ensures out == model
    decreases model, 0
  {
    var entries := dumped.entries;
    var keys := cls.fields.Keys;
    while keys != {}
      invariant keys <= cls.fields.Keys
      invariant entries.Keys == model.entries.Keys
      invariant forall k <- model.entries :: entries[k] == if k in keys then dumped.entries[k] else model.entries[k]
    {
      var key :| key in keys;
      keys := keys - {key};
      var value := RealValue(cls.fields[key].annotation, model.entries[key], entries[key]);
      entries := entries[key := value];
    }
    assert entries == model.entries;
    out := Dict(entries);
  }

  method RealValue(a: Annotation, value: Value, dumped: Value) returns (out: Value)
    requires FieldTyped(a, value) && dumped == MaskField(Classify(a), value)
    ensures out == value
    decreases value, 1
  {
    out := dumped;
    match Classify(a)
    case Scalar =>
    case Secret =>
      if value.Str? { out := value; }
    case SecretMap =>
      if value.Dict? { out := value; }
    case Model(sub) =>
      if value.Dict? && dumped.Dict? { out := WithRealSecrets(sub, value, dumped); }
    case ModelList(sub) =>
      if value.List? && dumped.List? {
        var items: seq<Value> := [];
        for i := 0 to |value.items|
          invariant items == value.items[..i]
        {
          var item := WithRealSecrets(sub, value.items[i], dumped.items[i]);
          items := items + [item];
        }
        out := List(items);
      }
    case ModelMap(sub) =>
      if value.Dict? && dumped.Dict? {
        var entries: map<string, Value> := map[];
        var names := value.entries.Keys;
        while names != {}
          invariant names <= value.entries.Keys
          invariant entries.Keys == value.entries.Keys - names
          invariant forall n <- entries :: entries[n] == value.entries[n]
        {
          var name :| name in names;
          names := names - {name};
          var entry := dumped.entries[name];
          if value.entries[name].Dict? && entry.Dict? { entry := WithRealSecrets(sub, value.entries[name], entry); }
          entries := entries[name := entry];
        }
        assert entries == value.entries;
        out := Dict(entries);
      }
  }
}
