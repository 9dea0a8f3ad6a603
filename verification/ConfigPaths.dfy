/**
 Where the recorded paths of a change lead, said without reference to how the difference is computed: config/service.py
 lines 293-347. A place is named by the keys, and the positions in lists, that lead to it from the root.
 */
module ConfigPaths {
  import opened Outcome
  import opened ConfigSchema
  import opened ConfigMerge
  import opened ConfigDiff
  import Decimal

  function Child(v: Value, name: string): Option<Value> {
    if v.Dict? && name in v.entries then Some(v.entries[name])
    else if v.List? && Decimal.Parse(name).Some? && Decimal.Parse(name).value < |v.items| && Decimal.Print(Decimal.Parse(name).value) == name then
      Some(v.items[Decimal.Parse(name).value])
    else None
  }

  /** What is found at a place, if anything. */
  function At(v: Option<Value>, path: seq<string>): Option<Value>
    decreases |path|
  {
    if path == [] || v.None? then v else At(Child(v.value, path[0]), path[1..])
  }

  /** What kind of thing a place holds. */
  function KindAt(k: Kind, path: seq<string>): Kind
    decreases |path|
  {
    if path == [] then k else KindAt(ChildKind(k, path[0]), path[1..])
  }

  function ChildKind(k: Kind, name: string): Kind {
    match k
    case Model(sub) => KindOf(sub, name)
    case ModelList(sub) => Model(sub)
    case ModelMap(sub) => Model(sub)
    case SecretMap => Secret
    case _ => Scalar
  }

  function Dotted(path: seq<string>): string {
    if |path| == 0 then "" else if |path| == 1 then path[0] else path[0] + "." + Dotted(path[1..])
  }

  /** How a place is written in the record. */
  function Written(k: Kind, path: seq<string>): string {
    Dotted(path) + if KindAt(k, path).Secret? then " (secret)" else ""
  }

  /** Two values that are compared part by part: not plain ones, not a model that appears or disappears, not lists of
      different lengths. */
  predicate ByParts(k: Kind, b: Option<Value>, a: Option<Value>) {
    && b.Some? && a.Some?
    && match k
       case ModelList(_) => b.value.List? && a.value.List? && |b.value.items| == |a.value.items|
       case Scalar => false
       case Secret => false
       case _ => b.value.Dict? && a.value.Dict?
  }

  /** The two values differ at this place, and it is as far down as they are compared. */
  ghost predicate Changed(k: Kind, b: Option<Value>, a: Option<Value>, path: seq<string>) {
    && At(b, path) != At(a, path)
    && !ByParts(KindAt(k, path), At(b, path), At(a, path))
    && forall n | 0 <= n < |path| :: ByParts(KindAt(k, path[..n]), At(b, path[..n]), At(a, path[..n]))
  }

  lemma ChangedHere(k: Kind, b: Option<Value>, a: Option<Value>)
    ensures Changed(k, b, a, []) <==> b != a && !ByParts(k, b, a)
  {
  }

  lemma ChangedBelow(k: Kind, b: Value, a: Value, path: seq<string>)
    requires path != []
    ensures Changed(k, Some(b), Some(a), path) <==>
            ByParts(k, Some(b), Some(a)) && Changed(ChildKind(k, path[0]), Child(b, path[0]), Child(a, path[0]), path[1..])
  {
    var kc, bc, ac := ChildKind(k, path[0]), Child(b, path[0]), Child(a, path[0]);
    forall n | 0 < n <= |path|
      ensures KindAt(k, path[..n]) == KindAt(kc, path[1..][..n - 1])
      ensures At(Some(b), path[..n]) == At(bc, path[1..][..n - 1]) && At(Some(a), path[..n]) == At(ac, path[1..][..n - 1])
    {
      assert path[..n][0] == path[0] && path[..n][1..] == path[1..][..n - 1];
    }
    hide ByParts, Child;
    if Changed(k, Some(b), Some(a), path) {
      assert path[..0] == [];
      forall m | 0 <= m < |path[1..]| ensures ByParts(KindAt(kc, path[1..][..m]), At(bc, path[1..][..m]), At(ac, path[1..][..m])) {
        assert ByParts(KindAt(k, path[..m + 1]), At(Some(b), path[..m + 1]), At(Some(a), path[..m + 1]));
      }
    }
    if ByParts(k, Some(b), Some(a)) && Changed(kc, bc, ac, path[1..]) {
      forall n | 0 <= n < |path| ensures ByParts(KindAt(k, path[..n]), At(Some(b), path[..n]), At(Some(a), path[..n])) {
        if n > 0 { assert ByParts(KindAt(kc, path[1..][..n - 1]), At(bc, path[1..][..n - 1]), At(ac, path[1..][..n - 1])); }
      }
    }
  }

  // ---------- every difference is under, or above, a changed place ----------

  lemma {:induction false} FindChanged(k: Kind, b: Option<Value>, a: Option<Value>, path: seq<string>) returns (q: seq<string>)
    requires At(b, path) != At(a, path)
    ensures Changed(k, b, a, q) && (q <= path || path <= q)
    decreases b.Some?, if b.Some? then b.value else Null
  {
    if !ByParts(k, b, a) {
      q := [];
      ChangedHere(k, b, a);
    } else {
      var name := if path != [] then path[0] else "";
      if path == [] { name := DifferentChild(b.value, a.value); }
      var rest := FindChanged(ChildKind(k, name), Child(b.value, name), Child(a.value, name), if path != [] then path[1..] else []);
      q := [name] + rest;
      ChangedBelow(k, b.value, a.value, q);
    }
  }

  lemma DifferentChild(b: Value, a: Value) returns (name: string)
    requires b != a
    requires (b.Dict? && a.Dict?) || (b.List? && a.List? && |b.items| == |a.items|)
    ensures Child(b, name) != Child(a, name)
  {
    if b.Dict? {
      name :| (name in b.entries || name in a.entries) && Child(b, name) != Child(a, name);
    } else {
      var i :| 0 <= i < |b.items| && b.items[i] != a.items[i];
      name := Decimal.Print(i);
      Decimal.ParsePrint(i);
    }
  }

  // ---------- the recorded paths ----------

  /** `text` is how some changed place is written, seen from a place that is itself written `prefix`. */
  ghost predicate Named(k: Kind, b: Option<Value>, a: Option<Value>, prefix: string, text: string) {
    exists path :: Changed(k, b, a, path) && text == Extended(prefix, k, path)
  }

  function Extended(prefix: string, k: Kind, path: seq<string>): string {
    (if prefix == "" || path == [] then prefix + Dotted(path) else prefix + "." + Dotted(path))
    + if KindAt(k, path).Secret? then " (secret)" else ""
  }

  function Marked(prefix: string, k: Kind): string {
    if k.Secret? then prefix + " (secret)" else prefix
  }

  lemma NamedHere(k: Kind, b: Option<Value>, a: Option<Value>, prefix: string, text: string)
    requires !ByParts(k, b, a)
    ensures Named(k, b, a, prefix, text) <==> b != a && text == Marked(prefix, k)
  {
    ChangedHere(k, b, a);
    assert Extended(prefix, k, []) == Marked(prefix, k) by { assert prefix + "" == prefix; }
    hide ByParts, At, KindAt, Extended;
    if Named(k, b, a, prefix, text) {
      var path :| Changed(k, b, a, path) && text == Extended(prefix, k, path);
      if path != [] { RootByParts(k, b, a, path); }
    }
  }

  lemma RootByParts(k: Kind, b: Option<Value>, a: Option<Value>, path: seq<string>)
    requires Changed(k, b, a, path) && path != []
    ensures ByParts(k, b, a)
  {
    assert path[..0] == [];
  }

  ghost predicate ChildNamed(k: Kind, b: Value, a: Value, prefix: string, text: string, name: string) {
    Named(ChildKind(k, name), Child(b, name), Child(a, name), PathOf(prefix, name), text)
  }

  lemma ExtendedBelow(prefix: string, k: Kind, path: seq<string>)
    requires path != [] && (prefix != "" || path[0] != "")
    ensures Extended(prefix, k, path) == Extended(PathOf(prefix, path[0]), ChildKind(k, path[0]), path[1..])
  {
    var name, rest := path[0], path[1..];
    assert PathOf(prefix, name) != "";
    if rest == [] {
      assert Dotted(path) == name;
    } else {
      assert Dotted(path) == name + "." + Dotted(rest);
      assert (prefix + "." + name) + "." + Dotted(rest) == prefix + "." + (name + "." + Dotted(rest));
    }
  }

  lemma NamedByParts(k: Kind, b: Value, a: Value, prefix: string, text: string)
    requires ByParts(k, Some(b), Some(a))
    requires prefix != "" || (Child(b, "").None? && Child(a, "").None?)
    ensures Named(k, Some(b), Some(a), prefix, text) <==> exists name :: ChildNamed(k, b, a, prefix, text, name)
  {
    hide ByParts, Extended, Child, PathOf, ChildKind;
    if Named(k, Some(b), Some(a), prefix, text) {
      var path :| Changed(k, Some(b), Some(a), path) && text == Extended(prefix, k, path);
      if path == [] { ChangedHere(k, Some(b), Some(a)); }
      ChangedBelow(k, b, a, path);
      ExtendedBelow(prefix, k, path);
      assert ChildNamed(k, b, a, prefix, text, path[0]);
    }
    if exists name :: ChildNamed(k, b, a, prefix, text, name) {
      var name :| ChildNamed(k, b, a, prefix, text, name);
      var rest :| Changed(ChildKind(k, name), Child(b, name), Child(a, name), rest) && text == Extended(PathOf(prefix, name), ChildKind(k, name), rest);
      ChangedBelow(k, b, a, [name] + rest);
      ExtendedBelow(prefix, k, [name] + rest);
    }
  }

  lemma {:induction false} ChangesNamed(cls: Class, before: Value, after: Value, prefix: string, text: string)
    requires SchemaOk(cls)
    requires before.Null? || WellTyped(cls, before)
    requires after.Null? || WellTyped(cls, after)
    requires prefix != "" || (before.Dict? && after.Dict?)
    ensures text in Changes(cls, before, after, prefix) <==>
            Named(Model(cls), Some(Coalesce(cls, before)), Some(Coalesce(cls, after)), prefix, text)
    decreases before, 4
  {
    var b, a := Coalesce(cls, before), Coalesce(cls, after);
    if before.Dict? && after.Dict? {
      hide Named;
      KeysNamed(cls, before, after, prefix, Keys(before, after), text);
      assert Child(b, "").None? && Child(a, "").None?;
      NamedByParts(Model(cls), b, a, prefix, text);
      forall name | ChildNamed(Model(cls), b, a, prefix, text, name) ensures name in Keys(before, after) {
        hide ChildNamed, Changes, KeyChanges;
        NamedSomewhere(Model(cls), b, a, prefix, text, name);
      }
      hide Coalesce, KeyChanges, ChildNamed, SchemaOk, WellTyped;
    } else {
      hide SchemaOk;
      NamedHere(Model(cls), Some(b), Some(a), prefix, text);
    }
  }

  /** Where neither side has anything nothing is named. */
  lemma NamedSomewhere(k: Kind, b: Value, a: Value, prefix: string, text: string, name: string)
    requires ChildNamed(k, b, a, prefix, text, name)
    ensures Child(b, name).Some? || Child(a, name).Some?
  {
    hide Child, Extended, KindAt, ByParts;
    var path :| Changed(ChildKind(k, name), Child(b, name), Child(a, name), path);
  }

  lemma {:induction false} KeysNamed(cls: Class, before: Value, after: Value, prefix: string, keys: seq<string>, text: string)
    requires SchemaOk(cls) && WellTyped(cls, before) && WellTyped(cls, after)
    requires forall k <- keys :: k in cls.fields
    ensures text in KeyChanges(cls, before, after, prefix, keys) <==>
            exists key <- keys :: ChildNamed(Model(cls), Coalesce(cls, before), Coalesce(cls, after), prefix, text, key)
    decreases before, 3, |keys|
  {
    if keys != [] {
      var key := keys[0];
      SubSchemaOk(cls, key);
      TypedIsComparable(cls.fields[key].annotation, before.entries[key]);
      TypedIsComparable(cls.fields[key].annotation, after.entries[key]);
      FieldNamed(KindOf(cls, key), before, after, key, PathOf(prefix, key), text);
      KeysNamed(cls, before, after, prefix, keys[1..], text);
      assert ChildNamed(Model(cls), Coalesce(cls, before), Coalesce(cls, after), prefix, text, key) <==>
             text in FieldChanges(KindOf(cls, key), before, after, key, PathOf(prefix, key));
      hide ChildNamed, FieldChanges;
    }
  }

  lemma {:induction false} FieldNamed(k: Kind, before: Value, after: Value, key: string, path: string, text: string)
    requires before.Dict? && after.Dict? && key in before.entries && key in after.entries && path != ""
    requires k.Model? || k.ModelList? || k.ModelMap? ==> SchemaOk(k.sub)
    requires Comparable(k, before.entries[key]) && Comparable(k, after.entries[key])
    ensures text in FieldChanges(k, before, after, key, path) <==>
            Named(k, Some(CoalesceField(k, before.entries[key])), Some(CoalesceField(k, after.entries[key])), path, text)
    decreases before, 2
  {
    var b, a := before.entries[key], after.entries[key];
    match k
    case Scalar => NamedHere(k, Some(b), Some(a), path, text);
    case Secret => NamedHere(k, Some(b), Some(a), path, text);
    case SecretMap => AliasesNamed(b, a, path, text);
    case Model(sub) =>
      if b.Dict? && a.Dict? {
        ChangesNamed(sub, b, a, path, text);
      } else {
        NamedHere(k, Some(Coalesce(sub, b)), Some(Coalesce(sub, a)), path, text);
      }
    case ModelList(sub) => ItemsNamed(sub, b, a, path, text);
    case ModelMap(sub) => EntriesNamed(sub, b, a, path, text);
  }

  lemma {:induction false} AliasListed(b: Value, a: Value, path: string, names: seq<string>, text: string)
    ensures text in AliasChanges(b, a, path, names) <==>
            exists n <- names :: Get(b, n) != Get(a, n) && text == path + "." + n + " (secret)"
  {
    if names != [] { AliasListed(b, a, path, names[1..], text); }
  }

  lemma AliasesNamed(b: Value, a: Value, path: string, text: string)
    requires path != ""
    ensures text in AliasChanges(b, a, path, Keys(b, a)) <==>
            Named(SecretMap, Some(CoalesceField(SecretMap, b)), Some(CoalesceField(SecretMap, a)), path, text)
  {
    var cb, ca := CoalesceField(SecretMap, b), CoalesceField(SecretMap, a);
    AliasListed(b, a, path, Keys(b, a), text);
    NamedByParts(SecretMap, cb, ca, path, text);
    forall n ensures ChildNamed(SecretMap, cb, ca, path, text, n) <==> Get(b, n) != Get(a, n) && text == path + "." + n + " (secret)" {
      AliasChild(b, n);
      AliasChild(a, n);
      NamedHere(Secret, Child(cb, n), Child(ca, n), PathOf(path, n), text);
    }
    forall n | Get(b, n) != Get(a, n) ensures n in Keys(b, a) {
    }
    hide ChildNamed, Named, CoalesceField, AliasChanges;
  }

  lemma AliasChild(v: Value, n: string)
    ensures Child(CoalesceField(SecretMap, v), n) == if Get(v, n) != Null then Some(Get(v, n)) else None
  {
  }

  lemma {:induction false} ItemsNamed(cls: Class, b: Value, a: Value, path: string, text: string)
    requires SchemaOk(cls) && path != "" && Comparable(ModelList(cls), b) && Comparable(ModelList(cls), a)
    ensures text in (if |ItemsOr(b)| != |ItemsOr(a)| then [path] else if b.List? then ItemChanges(cls, b, a, path, 0) else []) <==>
            Named(ModelList(cls), Some(CoalesceField(ModelList(cls), b)), Some(CoalesceField(ModelList(cls), a)), path, text)
    decreases b, 6
  {
    var k := ModelList(cls);
    if |ItemsOr(b)| != |ItemsOr(a)| {
      NamedHere(k, Some(CoalesceField(k, b)), Some(CoalesceField(k, a)), path, text);
      hide Named, CoalesceField;
    } else {
      var cb, ca := List(CoalesceItems(cls, ItemsOr(b))), List(CoalesceItems(cls, ItemsOr(a)));
      assert CoalesceField(k, b) == cb && CoalesceField(k, a) == ca by {
        assert CoalesceItems(cls, []) == [];
      }
      hide Named, CoalesceField, Changes, ItemChanges;
      NamedByParts(k, cb, ca, path, text);
      forall name | ChildNamed(k, cb, ca, path, text, name)
        ensures exists j: nat :: j < |cb.items| && name == Decimal.Print(j)
      {
        NamedSomewhere(k, cb, ca, path, text, name);
      }
      forall j: nat | j < |cb.items|
        ensures text in Changes(cls, b.items[j], a.items[j], path + "." + Decimal.Print(j)) <==> ChildNamed(k, cb, ca, path, text, Decimal.Print(j))
      {
        ItemChild(cb, j);
        ItemChild(ca, j);
        ChangesNamed(cls, b.items[j], a.items[j], path + "." + Decimal.Print(j), text);
      }
      hide ChildNamed, Comparable;
      if b.List? { ItemListed(cls, b, a, path, 0, text); }
    }
  }

  lemma ItemChild(v: Value, j: nat)
    requires v.List? && j < |v.items|
    ensures Child(v, Decimal.Print(j)) == Some(v.items[j])
  {
    Decimal.ParsePrint(j);
  }

  lemma {:induction false} ItemListed(cls: Class, b: Value, a: Value, path: string, i: nat, text: string)
    requires b.List? && |b.items| == |ItemsOr(a)| && i <= |b.items|
    ensures text in ItemChanges(cls, b, a, path, i) <==>
            exists j: nat :: i <= j < |b.items| && text in Changes(cls, b.items[j], a.items[j], path + "." + Decimal.Print(j))
    decreases |b.items| - i
  {
    hide Changes;
    if i < |b.items| { ItemListed(cls, b, a, path, i + 1, text); }
  }

  ghost function EntryPart(cls: Class, b: Value, a: Value, path: string, name: string): seq<string> {
    if name !in DictOr(b).entries || name !in DictOr(a).entries then [path + "." + name]
    else Changes(cls, b.entries[name], a.entries[name], path + "." + name)
  }

  lemma {:induction false} EntryListed(cls: Class, b: Value, a: Value, path: string, names: seq<string>, text: string)
    ensures b.Dict? ==> (text in EntryChanges(cls, b, a, path, names) <==> exists n <- names :: text in EntryPart(cls, b, a, path, n))
    ensures !b.Dict? ==> (text in AddedEntries(path, names) <==> exists n <- names :: text in EntryPart(cls, b, a, path, n))
  {
    hide Changes;
    if names != [] {
      EntryListed(cls, b, a, path, names[1..], text);
      var part := EntryPart(cls, b, a, path, names[0]);
      if b.Dict? {
        assert EntryChanges(cls, b, a, path, names) == part + EntryChanges(cls, b, a, path, names[1..]);
      } else {
        assert AddedEntries(path, names) == part + AddedEntries(path, names[1..]);
      }
      hide EntryPart;
    }
  }

  lemma {:induction false} EntryNamed(cls: Class, b: Value, a: Value, path: string, text: string, name: string)
    requires SchemaOk(cls) && path != "" && Comparable(ModelMap(cls), b) && Comparable(ModelMap(cls), a) && name in Keys(b, a)
    ensures text in EntryPart(cls, b, a, path, name) <==>
            ChildNamed(ModelMap(cls), CoalesceField(ModelMap(cls), b), CoalesceField(ModelMap(cls), a), path, text, name)
    decreases b, 5
  {
    var cb, ca := CoalesceField(ModelMap(cls), b), CoalesceField(ModelMap(cls), a);
    hide Named, Changes;
    if name in DictOr(b).entries && name in DictOr(a).entries {
      ChangesNamed(cls, b.entries[name], a.entries[name], path + "." + name, text);
    } else {
      NamedHere(Model(cls), Child(cb, name), Child(ca, name), path + "." + name, text);
    }
  }

  lemma {:induction false} EntriesNamed(cls: Class, b: Value, a: Value, path: string, text: string)
    requires SchemaOk(cls) && path != "" && Comparable(ModelMap(cls), b) && Comparable(ModelMap(cls), a)
    ensures text in (if b.Dict? then EntryChanges(cls, b, a, path, Keys(b, a)) else AddedEntries(path, Keys(b, a))) <==>
            Named(ModelMap(cls), Some(CoalesceField(ModelMap(cls), b)), Some(CoalesceField(ModelMap(cls), a)), path, text)
    decreases b, 6
  {
    var k := ModelMap(cls);
    var cb, ca := CoalesceField(k, b), CoalesceField(k, a);
    EntryListed(cls, b, a, path, Keys(b, a), text);
    NamedByParts(k, cb, ca, path, text);
    forall name | ChildNamed(k, cb, ca, path, text, name) ensures name in Keys(b, a) {
      NamedSomewhere(k, cb, ca, path, text, name);
    }
    forall name <- Keys(b, a) ensures text in EntryPart(cls, b, a, path, name) <==> ChildNamed(k, cb, ca, path, text, name) {
      EntryNamed(cls, b, a, path, text, name);
    }
    hide Named, CoalesceField, EntryChanges, AddedEntries, EntryPart, ChildNamed;
  }

  // ---------- exactly the changed places ----------

  /** `text` is how a changed place is written. */
  ghost predicate Leads(cls: Class, before: Value, after: Value, text: string) {
    exists path :: Changed(Model(cls), Some(before), Some(after), path) && text == Written(Model(cls), path)
  }

  lemma RootWritten(k: Kind, path: seq<string>)
    ensures Extended("", k, path) == Written(k, path)
  {
    assert "" + Dotted(path) == Dotted(path);
  }

  lemma NamedLeads(cls: Class, b: Value, a: Value, text: string)
    ensures Named(Model(cls), Some(b), Some(a), "", text) <==> Leads(cls, b, a, text)
  {
    hide Changed, Extended, Written;
    forall path ensures Extended("", Model(cls), path) == Written(Model(cls), path) { RootWritten(Model(cls), path); }
  }

  /** Main result: the recorded paths are exactly the changed places, a missing container being read as an empty one. */
  lemma RecordedIff(cls: Class, before: Value, after: Value, text: string)
    requires SchemaOk(cls) && WellTyped(cls, before) && WellTyped(cls, after)
    ensures text in Changes(cls, before, after, "") <==> Leads(cls, Coalesce(cls, before), Coalesce(cls, after), text)
  {
    hide Leads, Named, Changes;
    ChangesNamed(cls, before, after, "", text);
    NamedLeads(cls, Coalesce(cls, before), Coalesce(cls, after), text);
  }

  /** For classes that have no missing containers, the changed places of the configurations themselves. */
  lemma RecordedExactly(cls: Class, before: Value, after: Value)
    requires SchemaOk(cls) && Gapless(cls) && WellTyped(cls, before) && WellTyped(cls, after)
    ensures forall text :: text in Changes(cls, before, after, "") <==> Leads(cls, before, after, text)
  {
    hide Leads, Changes, Coalesce;
    TypedHasNoGaps(cls, before);
    TypedHasNoGaps(cls, after);
    NoGapsCoalesced(cls, before);
    NoGapsCoalesced(cls, after);
    forall text ensures text in Changes(cls, before, after, "") <==> Leads(cls, before, after, text) {
      RecordedIff(cls, before, after, text);
    }
  }

  /** Main result: wherever two configurations differ, a place above or below it is recorded. */
  lemma DifferenceRecorded(cls: Class, before: Value, after: Value, path: seq<string>) returns (q: seq<string>)
    requires SchemaOk(cls) && Gapless(cls) && WellTyped(cls, before) && WellTyped(cls, after)
    requires At(Some(before), path) != At(Some(after), path)
    ensures At(Some(before), q) != At(Some(after), q) && (q <= path || path <= q)
    ensures Written(Model(cls), q) in Changes(cls, before, after, "")
  {
    hide Changes, Written;
    q := FindChanged(Model(cls), Some(before), Some(after), path);
    RecordedExactly(cls, before, after);
    assert Leads(cls, before, after, Written(Model(cls), q));
  }

  // ---------- what a snapshot shows ----------

  /** What cannot be told apart at a place that is no secret: the same plain value, or containers of the same kind
      and size. */
  ghost predicate ShowsAlike(k: Kind, v: Option<Value>, s: Option<Value>) {
    match k
    case Secret => true
    case SecretMap => true
    case Scalar => s == v
    case _ =>
      (v.Some? <==> s.Some?) && (v.Some? && !v.value.Dict? && !v.value.List? ==> s == v)
      && (v.Some? && v.value.List? ==> s.value.List? && |s.value.items| == |v.value.items|)
      && (v.Some? && v.value.Dict? ==> s.value.Dict?)
  }

  lemma SameAlike(k: Kind, v: Option<Value>)
    ensures ShowsAlike(k, v, v)
  {
  }

  lemma Nothing(path: seq<string>)
    ensures At(None, path) == None
  {
  }

  /** Main result: stripping takes nothing but the secrets away: everywhere else a snapshot shows what is stored. */
  lemma {:induction false} StripShows(cls: Class, v: Value, path: seq<string>)
    requires WellTyped(cls, v)
    ensures ShowsAlike(KindAt(Model(cls), path), At(Some(v), path), At(Some(Strip(cls, v)), path))
    decreases |path|, 1
  {
    if path != [] {
      var key, rest := path[0], path[1..];
      Nothing(rest);
      if key in v.entries {
        var a := cls.fields[key].annotation;
        if SecretKind(KindOf(cls, key)) {
          SecretShows(a, v.entries[key], rest);
        } else {
          FieldStripShows(a, v.entries[key], rest);
        }
      } else {
        SameAlike(KindAt(Model(cls), path), None);
      }
      hide ShowsAlike, WellTyped;
    }
  }

  lemma {:induction false} PlainBelow(k: Kind, path: seq<string>)
    requires k.Scalar?
    ensures KindAt(k, path).Scalar?
    decreases |path|
  {
    if path != [] { PlainBelow(ChildKind(k, path[0]), path[1..]); }
  }

  /** Below a secret there is nothing. */
  lemma SecretShows(a: Annotation, v: Value, path: seq<string>)
    requires FieldTyped(a, v) && SecretKind(Classify(a))
    ensures ShowsAlike(KindAt(Classify(a), path), At(Some(v), path), None)
  {
    var k := Classify(a);
    if path != [] {
      var child, rest := Child(v, path[0]), path[1..];
      Nothing(rest);
      assert KindAt(k, path) == KindAt(ChildKind(k, path[0]), rest);
      if k.Secret? {
        assert child.None?;
        PlainBelow(ChildKind(k, path[0]), rest);
      } else if rest == [] {
        assert KindAt(Secret, []) == Secret;
      } else {
        assert child.Some? ==> Child(child.value, rest[0]).None?;
        Nothing(rest[1..]);
        PlainBelow(ChildKind(Secret, rest[0]), rest[1..]);
        assert KindAt(k, path) == KindAt(Secret, rest) == KindAt(ChildKind(Secret, rest[0]), rest[1..]);
      }
    }
  }

  lemma {:induction false} FieldStripShows(a: Annotation, v: Value, path: seq<string>)
    requires FieldTyped(a, v) && !SecretKind(Classify(a))
    ensures ShowsAlike(KindAt(Classify(a), path), At(Some(v), path), At(Some(StripField(Classify(a), v)), path))
    decreases |path|, 2
  {
    var k := Classify(a);
    SameAlike(KindAt(k, path), At(Some(v), path));
    SameAlike(KindAt(k, path), None);
    match k
    case Scalar =>
    case Model(sub) => if v.Dict? { StripShows(sub, v, path); }
    case ModelList(sub) =>
      if path != [] && Child(v, path[0]).Some? {
        var item := Child(v, path[0]).value;
        assert item in v.items && Child(List(StripItems(sub, v.items)), path[0]) == Some(Strip(sub, item));
        StripShows(sub, item, path[1..]);
      } else if path != [] {
        NoChild(sub, v, path[0]);
        Nothing(path[1..]);
      }
    case ModelMap(sub) =>
      if path != [] && Child(v, path[0]).Some? {
        var entry := v.entries[path[0]];
        assert Child(StripField(k, v), path[0]) == Some(Strip(sub, entry));
        if entry.Null? {
          SameAlike(KindAt(Model(sub), path[1..]), At(Some(entry), path[1..]));
        } else {
          StripShows(sub, entry, path[1..]);
        }
      } else if path != [] {
        assert Child(StripField(k, v), path[0]).None?;
        Nothing(path[1..]);
      }
  }

  lemma NoChild(cls: Class, v: Value, name: string)
    requires (v.List? || v.Null?) && Child(v, name).None?
    ensures Child(StripField(ModelList(cls), v), name).None?
  {
  }
}
