/** Which keys a write changed: config/service.py lines 293-347. */
module ConfigDiff {
  import opened ConfigSchema
  import Outcome
  import Decimal
  import StringOrder

  function PathOf(prefix: string, key: string): string {
    if prefix != "" then prefix + "." + key else key
  }

  function Differ(differ: bool, path: string): seq<string> {
    if differ then [path] else []
  }

  ghost function Changes(cls: Class, before: Value, after: Value, prefix: string): seq<string>
    decreases before, 4
  {
    if !before.Dict? || !after.Dict? then Differ(before != after && prefix != "", prefix)
    else KeyChanges(cls, before, after, prefix, Keys(before, after))
  }

  ghost function Keys(before: Value, after: Value): (keys: seq<string>)
    ensures forall k :: k in keys <==> k in DictOr(before).entries || k in DictOr(after).entries
  {
    StringOrder.Sorted(DictOr(before).entries.Keys + DictOr(after).entries.Keys)
  }

  ghost function KeyChanges(cls: Class, before: Value, after: Value, prefix: string, keys: seq<string>): seq<string>
    decreases before, 3, |keys|
  {
    if keys == [] then []
    else
      FieldChanges(KindOf(cls, keys[0]), before, after, keys[0], PathOf(prefix, keys[0]))
      + KeyChanges(cls, before, after, prefix, keys[1..])
  }

  ghost function FieldChanges(k: Kind, before: Value, after: Value, key: string, path: string): seq<string>
    decreases before, 2
  {
    var b, a := Get(before, key), Get(after, key);
    match k
    case Scalar => Differ(b != a, path)
    case Secret => Differ(b != a, path + " (secret)")
    case SecretMap => AliasChanges(b, a, path, Keys(b, a))
    case Model(sub) => if b.Dict? && a.Dict? then Changes(sub, b, a, path) else Differ(b != a && path != "", path)
    case ModelList(sub) =>
      if |ItemsOr(b)| != |ItemsOr(a)| then [path]
      else if b.List? then ItemChanges(sub, b, a, path, 0) else []
    case ModelMap(sub) => if b.Dict? then EntryChanges(sub, b, a, path, Keys(b, a)) else AddedEntries(path, Keys(b, a))
  }

  ghost function AliasChanges(b: Value, a: Value, path: string, names: seq<string>): seq<string> {
    if names == [] then []
    else
      Differ(Get(b, names[0]) != Get(a, names[0]), path + "." + names[0] + " (secret)")
      + AliasChanges(b, a, path, names[1..])
  }

  ghost function AddedEntries(path: string, names: seq<string>): seq<string> {
    if names == [] then [] else [path + "." + names[0]] + AddedEntries(path, names[1..])
  }

  ghost function EntryChanges(cls: Class, b: Value, a: Value, path: string, names: seq<string>): seq<string>
    requires b.Dict?
    decreases b, 5, |names|
  {
    if names == [] then []
    else
      var name := names[0];
      (if name !in b.entries || name !in DictOr(a).entries then [path + "." + name]
       else Changes(cls, b.entries[name], a.entries[name], path + "." + name))
      + EntryChanges(cls, b, a, path, names[1..])
  }

  ghost function ItemChanges(cls: Class, b: Value, a: Value, path: string, i: nat): seq<string>
    requires b.List? && |b.items| == |ItemsOr(a)| && i <= |b.items|
    decreases b, 5, |b.items| - i
  {
    if i == |b.items| then []
    else Changes(cls, b.items[i], a.items[i], path + "." + Decimal.Print(i)) + ItemChanges(cls, b, a, path, i + 1)
  }

  // ---------- the diff is empty exactly when nothing changed ----------

  /** What the diff looks at: `x or {}` and `x or []` read a missing container as an empty one, and
      an unset alias reads like an absent one. */
  function Coalesce(cls: Class, v: Value): (c: Value)
    ensures v.Dict? <==> c.Dict?
    ensures !v.Dict? ==> c == v
    decreases v, 0
  {
    if !v.Dict? then v
    else Dict(map key | key in v.entries :: CoalesceField(KindOf(cls, key), v.entries[key]))
  }

  function CoalesceField(k: Kind, v: Value): Value
    decreases v, 1
  {
    match k
    case Scalar => v
    case Secret => v
    case SecretMap => Dict(map alias | alias in DictOr(v).entries && v.entries[alias] != Null :: v.entries[alias])
    case Model(sub) => Coalesce(sub, v)
    case ModelList(sub) => if v.List? then List(CoalesceItems(sub, v.items)) else List([])
    case ModelMap(sub) =>
      if v.Dict? then Dict(map name | name in v.entries :: Coalesce(sub, v.entries[name])) else Dict(map[])
  }

  function CoalesceItems(cls: Class, items: seq<Value>): (c: seq<Value>)
    ensures |c| == |items|
    decreases items
  {
    seq(|items|, i requires 0 <= i < |items| => Coalesce(cls, items[i]))
  }

  /** A well-typed field, as far as the diff depends on it. */
  ghost predicate Comparable(k: Kind, v: Value) {
    match k
    case SecretMap => v.Dict? || v.Null?
    case Model(sub) => v.Null? || WellTyped(sub, v)
    case ModelList(sub) => v.Null? || (v.List? && forall item <- v.items :: WellTyped(sub, item))
    case ModelMap(sub) =>
      v.Null? || (v.Dict? && forall name <- v.entries :: v.entries[name].Null? || WellTyped(sub, v.entries[name]))
    case _ => true
  }

  lemma TypedIsComparable(a: Annotation, v: Value)
    requires FieldTyped(a, v)
    ensures Comparable(Classify(a), v)
  {
  }

  lemma {:induction false} AliasChangesEmpty(b: Value, a: Value, path: string, names: seq<string>)
    ensures AliasChanges(b, a, path, names) == [] <==> forall n <- names :: Get(b, n) == Get(a, n)
  {
    if names != [] { AliasChangesEmpty(b, a, path, names[1..]); }
  }

  /** Main result: on validated configurations the recorded keys are empty exactly when the two are
      equal as the diff reads them. */
  lemma {:induction false} DiffExact(cls: Class, before: Value, after: Value, prefix: string)
    requires SchemaOk(cls)
    requires before.Null? || WellTyped(cls, before)
    requires after.Null? || WellTyped(cls, after)
    requires prefix != "" || (before.Dict? && after.Dict?)
    ensures Changes(cls, before, after, prefix) == [] <==> Coalesce(cls, before) == Coalesce(cls, after)
    decreases before, 4
  {
    if before.Dict? && after.Dict? {
      KeyDiffExact(cls, before, after, prefix, Keys(before, after));
      CoalesceEqual(cls, before, after);
    }
  }

  lemma CoalesceEqual(cls: Class, before: Value, after: Value)
    requires before.Dict? && after.Dict? && before.entries.Keys == after.entries.Keys
    ensures Coalesce(cls, before) == Coalesce(cls, after) <==>
            forall k <- before.entries ::
              CoalesceField(KindOf(cls, k), before.entries[k]) == CoalesceField(KindOf(cls, k), after.entries[k])
  {
    var b, a := Coalesce(cls, before).entries, Coalesce(cls, after).entries;
    assert Coalesce(cls, before) == Dict(b) && Coalesce(cls, after) == Dict(a);
    assert forall k <- before.entries :: b[k] == CoalesceField(KindOf(cls, k), before.entries[k]);
    assert forall k <- before.entries :: a[k] == CoalesceField(KindOf(cls, k), after.entries[k]);
    SameEverywhere(b, a);
  }

  lemma SameEverywhere(b: map<string, Value>, a: map<string, Value>)
    requires b.Keys == a.Keys
    ensures b == a <==> forall k <- b :: b[k] == a[k]
  {
  }

  lemma {:induction false} KeyDiffExact(cls: Class, before: Value, after: Value, prefix: string, keys: seq<string>)
    requires SchemaOk(cls) && WellTyped(cls, before) && WellTyped(cls, after)
    requires forall k <- keys :: k in cls.fields
    ensures KeyChanges(cls, before, after, prefix, keys) == [] <==>
            forall k <- keys :: CoalesceField(KindOf(cls, k), before.entries[k]) == CoalesceField(KindOf(cls, k), after.entries[k])
    decreases before, 3, |keys|
  {
    if keys != [] {
      var key := keys[0];
      SubSchemaOk(cls, key);
      TypedIsComparable(cls.fields[key].annotation, before.entries[key]);
      TypedIsComparable(cls.fields[key].annotation, after.entries[key]);
      FieldDiffExact(KindOf(cls, key), before, after, key, PathOf(prefix, key));
      KeyDiffExact(cls, before, after, prefix, keys[1..]);
    }
  }

  lemma {:induction false} FieldDiffExact(k: Kind, before: Value, after: Value, key: string, path: string)
    requires before.Dict? && after.Dict? && key in before.entries && key in after.entries && path != ""
    requires k.Model? || k.ModelList? || k.ModelMap? ==> SchemaOk(k.sub)
    requires Comparable(k, before.entries[key]) && Comparable(k, after.entries[key])
    ensures FieldChanges(k, before, after, key, path) == [] <==>
            CoalesceField(k, before.entries[key]) == CoalesceField(k, after.entries[key])
    decreases before, 2
  {
    var b, a := before.entries[key], after.entries[key];
    match k
    case Scalar =>
    case Secret =>
    case SecretMap =>
      AliasChangesEmpty(b, a, path, Keys(b, a));
      AliasesEqual(b, a);
    case Model(sub) => if b.Dict? && a.Dict? { DiffExact(sub, b, a, path); }
    case ModelList(sub) =>
      if b.List? && |b.items| == |ItemsOr(a)| {
        ItemDiffExact(sub, b, a, path, 0);
        ItemsEqual(sub, b, a);
      }
    case ModelMap(sub) =>
      if b.Dict? {
        EntryDiffExact(sub, b, a, path, Keys(b, a));
        EntriesEqual(sub, b, a);
      } else if a.Dict? {
        EntriesEqual(sub, Dict(map[]), a);
      }
  }

  lemma ItemsEqual(cls: Class, b: Value, a: Value)
    requires b.List? && (a.List? || a.Null?) && |b.items| == |ItemsOr(a)|
    ensures CoalesceField(ModelList(cls), b) == CoalesceField(ModelList(cls), a) <==>
            forall j :: 0 <= j < |b.items| ==> Coalesce(cls, b.items[j]) == Coalesce(cls, a.items[j])
  {
    var items := ItemsOr(a);
    var cb, ca := CoalesceItems(cls, b.items), CoalesceItems(cls, items);
    assert CoalesceField(ModelList(cls), a) == List(ca) by {
      if a.Null? { assert ca == []; }
    }
    assert forall j :: 0 <= j < |items| ==> items[j] == a.items[j];
    assert forall j :: 0 <= j < |cb| ==> cb[j] == Coalesce(cls, b.items[j]) && ca[j] == Coalesce(cls, items[j]);
    SameItems(cb, ca);
  }

  lemma SameItems(b: seq<Value>, a: seq<Value>)
    requires |b| == |a|
    ensures b == a <==> forall j :: 0 <= j < |b| ==> b[j] == a[j]
  {
  }

  lemma AliasesEqual(b: Value, a: Value)
    requires (b.Dict? || b.Null?) && (a.Dict? || a.Null?)
    ensures CoalesceField(SecretMap, b) == CoalesceField(SecretMap, a) <==>
            forall n <- Keys(b, a) :: Get(b, n) == Get(a, n)
  {
    var cb, ca := CoalesceField(SecretMap, b).entries, CoalesceField(SecretMap, a).entries;
    forall n <- Keys(b, a)
      ensures Get(b, n) == (if n in cb then cb[n] else Null) && Get(a, n) == (if n in ca then ca[n] else Null)
    {
    }
    if forall n <- Keys(b, a) :: Get(b, n) == Get(a, n) {
      forall n | n in cb || n in ca
        ensures n in cb && n in ca && cb[n] == ca[n]
      {
        assert n in Keys(b, a);
      }
      assert cb == ca;
    }
  }

  ghost predicate SameEntry(cls: Class, b: Value, a: Value, name: string) {
    && name in DictOr(b).entries && name in DictOr(a).entries
    && Coalesce(cls, b.entries[name]) == Coalesce(cls, a.entries[name])
  }

  lemma EntriesEqual(cls: Class, b: Value, a: Value)
    requires b.Dict? && (a.Dict? || a.Null?)
    ensures CoalesceField(ModelMap(cls), b) == CoalesceField(ModelMap(cls), a) <==>
            forall n <- Keys(b, a) :: SameEntry(cls, b, a, n)
  {
    var cb, ca := CoalesceField(ModelMap(cls), b).entries, CoalesceField(ModelMap(cls), a).entries;
    assert cb.Keys == b.entries.Keys && ca.Keys == DictOr(a).entries.Keys;
    if cb == ca {
      forall n <- Keys(b, a) ensures SameEntry(cls, b, a, n) {
        assert cb[n] == ca[n];
      }
    }
    if forall n <- Keys(b, a) :: SameEntry(cls, b, a, n) {
      forall n | n in cb || n in ca
        ensures n in cb && n in ca && cb[n] == ca[n]
      {
        assert n in Keys(b, a);
      }
      assert cb == ca;
    }
  }

  lemma {:induction false} EntryDiffExact(cls: Class, b: Value, a: Value, path: string, names: seq<string>)
    requires SchemaOk(cls) && b.Dict? && Comparable(ModelMap(cls), b) && Comparable(ModelMap(cls), a)
    ensures EntryChanges(cls, b, a, path, names) == [] <==> forall n <- names :: SameEntry(cls, b, a, n)
    decreases b, 5, |names|
  {
    if names != [] {
      var name, at := names[0], path + "." + names[0];
      var first := if name !in b.entries || name !in DictOr(a).entries then [at]
                   else Changes(cls, b.entries[name], a.entries[name], at);
      if name in b.entries && name in DictOr(a).entries {
        DiffExact(cls, b.entries[name], a.entries[name], at);
      }
      assert first == [] <==> SameEntry(cls, b, a, name);
      assert EntryChanges(cls, b, a, path, names) == first + EntryChanges(cls, b, a, path, names[1..]);
      EntryDiffExact(cls, b, a, path, names[1..]);
      assert forall n :: n in names <==> n == name || n in names[1..];
    }
  }

  lemma {:induction false} ItemDiffExact(cls: Class, b: Value, a: Value, path: string, i: nat)
    requires SchemaOk(cls) && b.List? && |b.items| == |ItemsOr(a)| && i <= |b.items|
    requires Comparable(ModelList(cls), b) && Comparable(ModelList(cls), a)
    ensures ItemChanges(cls, b, a, path, i) == [] <==>
            forall j :: i <= j < |b.items| ==> Coalesce(cls, b.items[j]) == Coalesce(cls, a.items[j])
    decreases b, 5, |b.items| - i
  {
    if i < |b.items| {
      DiffExact(cls, b.items[i], a.items[i], path + "." + Decimal.Print(i));
      ItemDiffExact(cls, b, a, path, i + 1);
    }
  }

  function EmptyOf(k: Kind): Value {
    if k.ModelList? then List([]) else Dict(map[])
  }

  /** In classes that allow it, a container that is `None` can become an empty one without the diff noticing, in any
      configuration. */
  lemma DiffMissesNullContainer(cls: Class, before: Value, key: string)
    requires SchemaOk(cls) && WellTyped(cls, before) && key in cls.fields && before.entries[key] == Null
    requires var k := KindOf(cls, key); k.ModelList? || k.ModelMap? || k.SecretMap?
    ensures var after := Dict(before.entries[key := EmptyOf(KindOf(cls, key))]);
            WellTyped(cls, after) && before != after && Changes(cls, before, after, "") == []
  {
    var empty := EmptyOf(KindOf(cls, key));
    var after := Dict(before.entries[key := empty]);
    assert before.entries[key] != after.entries[key];
    assert FieldTyped(cls.fields[key].annotation, empty);
    forall k <- cls.fields
      ensures CoalesceField(KindOf(cls, k), before.entries[k]) == CoalesceField(KindOf(cls, k), after.entries[k])
    {
      if k == key {
        if KindOf(cls, key).ModelList? { assert CoalesceItems(KindOf(cls, key).sub, []) == []; }
      }
    }
    assert Coalesce(cls, before).entries == Coalesce(cls, after).entries;
    DiffExact(cls, before, after, "");
  }

  /** No container field is `None` and no alias is unset, at any level. */
  ghost predicate NoGaps(cls: Class, v: Value)
    decreases v, 0
  {
    v.Dict? ==> forall key <- v.entries :: NoFieldGaps(KindOf(cls, key), v.entries[key])
  }

  ghost predicate NoFieldGaps(k: Kind, v: Value)
    decreases v, 1
  {
    match k
    case SecretMap => v.Dict? && forall alias <- v.entries :: v.entries[alias] != Null
    case Model(sub) => NoGaps(sub, v)
    case ModelList(sub) => v.List? && forall item <- v.items :: NoGaps(sub, item)
    case ModelMap(sub) => v.Dict? && forall name <- v.entries :: NoGaps(sub, v.entries[name])
    case _ => true
  }

  lemma {:induction false} NoGapsCoalesced(cls: Class, v: Value)
    requires NoGaps(cls, v)
    ensures Coalesce(cls, v) == v
    decreases v
  {
    if v.Dict? {
      forall key <- v.entries
        ensures CoalesceField(KindOf(cls, key), v.entries[key]) == v.entries[key]
      {
        var field := v.entries[key];
        assert NoFieldGaps(KindOf(cls, key), field);
        match KindOf(cls, key)
        case SecretMap => assert CoalesceField(SecretMap, field).entries == field.entries;
        case Model(sub) => NoGapsCoalesced(sub, field);
        case ModelList(sub) =>
          forall item <- field.items { NoGapsCoalesced(sub, item); }
          assert CoalesceItems(sub, field.items) == field.items;
        case ModelMap(sub) =>
          forall name <- field.entries { NoGapsCoalesced(sub, field.entries[name]); }
          assert CoalesceField(ModelMap(sub), field).entries == field.entries;
        case _ =>
      }
      assert Coalesce(cls, v).entries == v.entries;
    }
  }

  /** No field of the model classes that holds a list or map may be `None`, and no alias of a secret map. */
  ghost predicate Gapless(cls: Class) {
    forall key <- cls.fields :: GaplessField(cls.fields[key].annotation) && GaplessBelow(cls.fields[key].annotation)
  }

  ghost predicate GaplessField(a: Annotation) {
    match Classify(a)
    case SecretMap => !Nullable(a) && !EntriesNullable(a)
    case ModelList(_) => !Nullable(a)
    case ModelMap(_) => !Nullable(a)
    case _ => true
  }

  ghost predicate GaplessBelow(a: Annotation) {
    match a
    case ModelType(cls) => Gapless(cls)
    case ListType(element) => GaplessBelow(element)
    case DictType(_, value) => GaplessBelow(value)
    case UnionType(branches) => forall b <- branches :: GaplessBelow(b)
    case _ => true
  }

  lemma UnwrapGapless(a: Annotation)
    requires GaplessBelow(a)
    ensures GaplessBelow(UnwrapOptional(a))
  {
    if a.UnionType? { NonNoneMembers(a.branches); }
  }

  lemma SubGapless(a: Annotation)
    requires GaplessBelow(a)
    ensures var k := Classify(a);
            k.Model? || k.ModelList? || k.ModelMap? ==> Gapless(k.sub)
  {
    UnwrapGapless(a);
    if UnwrapOptional(a).DictType? { UnwrapGapless(UnwrapOptional(a).value); }
  }

  /** Under such classes a validated configuration has no gaps. */
  lemma {:induction false} TypedHasNoGaps(cls: Class, v: Value)
    requires Gapless(cls) && WellTyped(cls, v)
    ensures NoGaps(cls, v)
    decreases v, 0
  {
    forall key <- v.entries ensures NoFieldGaps(KindOf(cls, key), v.entries[key]) {
      var a := cls.fields[key].annotation;
      assert GaplessField(a) && GaplessBelow(a) && FieldTyped(a, v.entries[key]);
      SubGapless(a);
      FieldHasNoGaps(a, v.entries[key]);
    }
  }

  lemma {:induction false} FieldHasNoGaps(a: Annotation, v: Value)
    requires GaplessField(a) && FieldTyped(a, v)
    requires var k := Classify(a); k.Model? || k.ModelList? || k.ModelMap? ==> Gapless(k.sub)
    ensures NoFieldGaps(Classify(a), v)
    decreases v, 1
  {
    match Classify(a)
    case Model(sub) => if !v.Null? { TypedHasNoGaps(sub, v); }
    case ModelList(sub) => forall item <- v.items { TypedHasNoGaps(sub, item); }
    case ModelMap(sub) =>
      forall name <- v.entries | !v.entries[name].Null? { TypedHasNoGaps(sub, v.entries[name]); }
    case _ =>
  }

  /** Main result: with such classes, the recorded keys are empty exactly when nothing changed at all. */
  lemma DiffComplete(cls: Class, before: Value, after: Value)
    requires SchemaOk(cls) && Gapless(cls) && WellTyped(cls, before) && WellTyped(cls, after)
    ensures Changes(cls, before, after, "") == [] <==> before == after
  {
    DiffExact(cls, before, after, "");
    TypedHasNoGaps(cls, before);
    TypedHasNoGaps(cls, after);
    NoGapsCoalesced(cls, before);
    NoGapsCoalesced(cls, after);
  }

  // ---------- the diff depends on secrets only through their equality ----------

  /** Rename every secret value, leaving unset ones unset. */
  function Rename(cls: Class, f: Value -> Value, v: Value): (r: Value)
    ensures v.Dict? <==> r.Dict?
    ensures v.Dict? ==> r.entries.Keys == v.entries.Keys
    ensures !v.Dict? ==> r == v
    decreases v, 0
  {
    if !v.Dict? then v
    else Dict(map key | key in v.entries :: RenameField(KindOf(cls, key), f, v.entries[key]))
  }

  function RenameField(k: Kind, f: Value -> Value, v: Value): Value
    decreases v, 1
  {
    match k
    case Scalar => v
    case Secret => f(v)
    case SecretMap => if v.Dict? then Dict(map alias | alias in v.entries :: f(v.entries[alias])) else v
    case Model(sub) => Rename(sub, f, v)
    case ModelList(sub) => if v.List? then List(RenameItems(sub, f, v.items)) else v
    case ModelMap(sub) => if v.Dict? then Dict(map name | name in v.entries :: Rename(sub, f, v.entries[name])) else v
  }

  function RenameItems(cls: Class, f: Value -> Value, items: seq<Value>): (r: seq<Value>)
    ensures |r| == |items|
    decreases items
  {
    seq(|items|, i requires 0 <= i < |items| => Rename(cls, f, items[i]))
  }

  ghost predicate Renaming(f: Value -> Value) {
    (forall v :: f(v) == Null <==> v == Null) && forall v, w :: f(v) == f(w) ==> v == w
  }

  /** A renaming cannot merge or split what is not secret. */
  lemma {:induction false} RenameInjective(cls: Class, f: Value -> Value, v: Value, w: Value)
    requires Renaming(f) && Rename(cls, f, v) == Rename(cls, f, w)
    ensures v == w
    decreases v, 0
  {
    if v.Dict? && w.Dict? {
      forall key <- v.entries
        ensures key in w.entries && v.entries[key] == w.entries[key]
      {
        assert key in Rename(cls, f, v).entries;
        assert RenameField(KindOf(cls, key), f, v.entries[key]) == Rename(cls, f, v).entries[key];
        assert RenameField(KindOf(cls, key), f, w.entries[key]) == Rename(cls, f, w).entries[key];
        RenameFieldInjective(KindOf(cls, key), f, v.entries[key], w.entries[key]);
      }
      assert w.entries.Keys == Rename(cls, f, w).entries.Keys == v.entries.Keys;
      assert v.entries == w.entries;
    }
  }

  lemma {:induction false} RenameFieldInjective(k: Kind, f: Value -> Value, v: Value, w: Value)
    requires Renaming(f) && RenameField(k, f, v) == RenameField(k, f, w)
    ensures v == w
    decreases v, 1
  {
    match k
    case Scalar =>
    case Secret =>
    case SecretMap =>
      if v.Dict? && w.Dict? {
        var rv, rw := RenameField(k, f, v).entries, RenameField(k, f, w).entries;
        assert v.entries.Keys == rv.Keys == rw.Keys == w.entries.Keys;
        forall alias <- v.entries ensures v.entries[alias] == w.entries[alias] { assert rv[alias] == rw[alias]; }
        assert v.entries == w.entries;
      }
    case Model(sub) => RenameInjective(sub, f, v, w);
    case ModelList(sub) =>
      if v.List? && w.List? {
        var rv, rw := RenameItems(sub, f, v.items), RenameItems(sub, f, w.items);
        forall i | 0 <= i < |v.items| ensures v.items[i] == w.items[i] {
          assert rv[i] == rw[i];
          RenameInjective(sub, f, v.items[i], w.items[i]);
        }
        assert v.items == w.items;
      }
    case ModelMap(sub) =>
      if v.Dict? && w.Dict? {
        var rv, rw := RenameField(k, f, v).entries, RenameField(k, f, w).entries;
        assert v.entries.Keys == rv.Keys == rw.Keys == w.entries.Keys;
        forall name <- v.entries ensures v.entries[name] == w.entries[name] {
          assert rv[name] == rw[name];
          RenameInjective(sub, f, v.entries[name], w.entries[name]);
        }
        assert v.entries == w.entries;
      }
  }

  /** Main result: renaming secret values consistently leaves the recorded keys as they were. */
  lemma {:induction false} DiffSeesOnlyEquality(cls: Class, f: Value -> Value, before: Value, after: Value, prefix: string)
    requires Renaming(f)
    ensures Changes(cls, Rename(cls, f, before), Rename(cls, f, after), prefix) == Changes(cls, before, after, prefix)
    decreases before, 4
  {
    if before.Dict? && after.Dict? {
      KeysSeeOnlyEquality(cls, f, before, after, prefix, Keys(before, after));
    } else if Rename(cls, f, before) == Rename(cls, f, after) {
      RenameInjective(cls, f, before, after);
    }
  }

  lemma {:induction false} KeysSeeOnlyEquality(cls: Class, f: Value -> Value, before: Value, after: Value, prefix: string, keys: seq<string>)
    requires Renaming(f) && before.Dict? && after.Dict?
    ensures KeyChanges(cls, Rename(cls, f, before), Rename(cls, f, after), prefix, keys) ==
            KeyChanges(cls, before, after, prefix, keys)
    decreases before, 3, |keys|
  {
    if keys != [] {
      FieldSeesOnlyEquality(cls, f, before, after, keys[0], PathOf(prefix, keys[0]));
      KeysSeeOnlyEquality(cls, f, before, after, prefix, keys[1..]);
    }
  }

  lemma {:induction false} FieldSeesOnlyEquality(cls: Class, f: Value -> Value, before: Value, after: Value, key: string, path: string)
    requires Renaming(f) && before.Dict? && after.Dict?
    ensures FieldChanges(KindOf(cls, key), Rename(cls, f, before), Rename(cls, f, after), key, path) ==
            FieldChanges(KindOf(cls, key), before, after, key, path)
    decreases before, 2
  {
    var k, b, a := KindOf(cls, key), Get(before, key), Get(after, key);
    var rb, ra := Get(Rename(cls, f, before), key), Get(Rename(cls, f, after), key);
    assert rb == RenameField(k, f, b) && ra == RenameField(k, f, a);
    match k
    case Scalar =>
    case Secret =>
    case SecretMap =>
      SameNames(k, f, b, a);
      AliasesSeeOnlyEquality(f, b, a, path, Keys(b, a));
    case Model(sub) =>
      if b.Dict? && a.Dict? {
        DiffSeesOnlyEquality(sub, f, b, a, path);
      } else if rb == ra {
        RenameInjective(sub, f, b, a);
      }
    case ModelList(sub) =>
      if b.List? && |b.items| == |ItemsOr(a)| { ItemsSeeOnlyEquality(sub, f, b, a, path, 0); }
    case ModelMap(sub) =>
      SameNames(k, f, b, a);
      if b.Dict? { EntriesSeeOnlyEquality(sub, f, b, a, path, Keys(b, a)); }
  }

  lemma SameNames(k: Kind, f: Value -> Value, b: Value, a: Value)
    requires k.SecretMap? || k.ModelMap?
    ensures Keys(RenameField(k, f, b), RenameField(k, f, a)) == Keys(b, a)
  {
    assert DictOr(RenameField(k, f, b)).entries.Keys == DictOr(b).entries.Keys;
    assert DictOr(RenameField(k, f, a)).entries.Keys == DictOr(a).entries.Keys;
  }

  lemma {:induction false} AliasesSeeOnlyEquality(f: Value -> Value, b: Value, a: Value, path: string, names: seq<string>)
    requires Renaming(f)
    ensures AliasChanges(RenameField(SecretMap, f, b), RenameField(SecretMap, f, a), path, names) ==
            AliasChanges(b, a, path, names)
  {
    if names != [] {
      AliasesSeeOnlyEquality(f, b, a, path, names[1..]);
      assert Get(RenameField(SecretMap, f, b), names[0]) == f(Get(b, names[0])) by { assert f(Null) == Null; }
      assert Get(RenameField(SecretMap, f, a), names[0]) == f(Get(a, names[0])) by { assert f(Null) == Null; }
    }
  }

  lemma {:induction false} EntriesSeeOnlyEquality(cls: Class, f: Value -> Value, b: Value, a: Value, path: string, names: seq<string>)
    requires Renaming(f) && b.Dict?
    ensures EntryChanges(cls, RenameField(ModelMap(cls), f, b), RenameField(ModelMap(cls), f, a), path, names) ==
            EntryChanges(cls, b, a, path, names)
    decreases b, 5, |names|
  {
    if names != [] {
      var name := names[0];
      if name in b.entries && name in DictOr(a).entries {
        DiffSeesOnlyEquality(cls, f, b.entries[name], a.entries[name], path + "." + name);
      }
      EntriesSeeOnlyEquality(cls, f, b, a, path, names[1..]);
    }
  }

  lemma {:induction false} ItemsSeeOnlyEquality(cls: Class, f: Value -> Value, b: Value, a: Value, path: string, i: nat)
    requires Renaming(f) && b.List? && |b.items| == |ItemsOr(a)| && i <= |b.items|
    ensures ItemChanges(cls, RenameField(ModelList(cls), f, b), RenameField(ModelList(cls), f, a), path, i) ==
            ItemChanges(cls, b, a, path, i)
    decreases b, 5, |b.items| - i
  {
    if i < |b.items| {
      DiffSeesOnlyEquality(cls, f, b.items[i], a.items[i], path + "." + Decimal.Print(i));
      ItemsSeeOnlyEquality(cls, f, b, a, path, i + 1);
    }
  }
}
