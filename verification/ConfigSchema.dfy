/**
 Configuration values and the model classes that direct every operation on them:
 config/service.py lines 60-106.
 */
module ConfigSchema {
  import opened Outcome

  /** JSON values; `Null` is also what a missing key reads as (`dict.get`). */
  datatype Value =
    | Null
    | Bool(b: bool)
    | Num(n: int)
    | Str(s: string)
    | List(items: seq<Value>)
    | Dict(entries: map<string, Value>)

  datatype Annotation =
    | SecretType
    | NoneType
    | OtherType
    | ModelType(cls: Class)
    | ListType(element: Annotation)
    | DictType(key: Annotation, value: Annotation)
    | UnionType(branches: seq<Annotation>)

  datatype FieldInfo = FieldInfo(annotation: Annotation, default: Option<Value>)

  datatype Class = Class(fields: map<string, FieldInfo>)

  datatype Kind =
    | Scalar
    | Secret
    | SecretMap
    | Model(sub: Class)
    | ModelList(sub: Class)
    | ModelMap(sub: Class)

  function NonNone(branches: seq<Annotation>): seq<Annotation> {
    if branches == [] then []
    else (if branches[0].NoneType? then [] else [branches[0]]) + NonNone(branches[1..])
  }

  function UnwrapOptional(a: Annotation): Annotation {
    if a.UnionType? && |NonNone(a.branches)| == 1 then NonNone(a.branches)[0] else a
  }

  function Classify(annotation: Annotation): Kind {
    match UnwrapOptional(annotation)
    case SecretType => Secret
    case ModelType(cls) => Model(cls)
    case ListType(element) => if element.ModelType? then ModelList(element.cls) else Scalar
    case DictType(_, value) =>
      (match UnwrapOptional(value)
       case SecretType => SecretMap
       case ModelType(cls) => ModelMap(cls)
       case _ => Scalar)
    case _ => Scalar
  }

  /** The kind of a field; a key the model does not declare is passed through like a scalar. */
  function KindOf(cls: Class, key: string): Kind {
    if key in cls.fields then Classify(cls.fields[key].annotation) else Scalar
  }

  predicate Nullable(a: Annotation) {
    a.NoneType? || (a.UnionType? && NoneType in a.branches)
  }

  /** Whether the values of a map annotation may be `None`. */
  predicate EntriesNullable(a: Annotation) {
    UnwrapOptional(a).DictType? && Nullable(UnwrapOptional(a).value)
  }

  function IdentityKey(cls: Class): Option<string> {
    if "account_id" in cls.fields then Some("account_id")
    else if "id" in cls.fields then Some("id")
    else if "name" in cls.fields then Some("name")
    else None
  }

  function Get(v: Value, key: string): Value {
    if v.Dict? && key in v.entries then v.entries[key] else Null
  }

  function DictOr(v: Value): (d: Value)
    ensures d.Dict?
  {
    if v.Dict? then v else Dict(map[])
  }

  function ItemsOr(v: Value): seq<Value> {
    if v.List? then v.items else []
  }

  /** The identity an entry of a list of `cls` is matched by, if it has one. */
  function IdentityOf(cls: Class, item: Value): Value {
    match IdentityKey(cls)
    case Some(id) => Get(item, id)
    case None => Null
  }

  predicate SecretKind(k: Kind) {
    k.Secret? || k.SecretMap?
  }

  // ---------- what the model classes have to be like ----------

  /** Every field has a name, entries are matched by a plain field, at every level, and a default
      is a value of its field. */
  ghost predicate SchemaOk(cls: Class) {
    && "" !in cls.fields
    && (IdentityKey(cls).Some? ==> KindOf(cls, IdentityKey(cls).value).Scalar?)
    && (forall key <- cls.fields :: AnnotationOk(cls.fields[key].annotation) && DefaultOk(cls.fields[key]))
  }

  ghost predicate AnnotationOk(a: Annotation) {
    match a
    case ModelType(cls) => SchemaOk(cls)
    case ListType(element) => AnnotationOk(element)
    case DictType(_, value) => AnnotationOk(value)
    case UnionType(branches) => forall b <- branches :: AnnotationOk(b)
    case _ => true
  }

  ghost predicate DefaultOk(info: FieldInfo) {
    info.default.Some? ==> FieldTyped(info.annotation, info.default.value)
  }

  lemma {:induction false} NonNoneMembers(branches: seq<Annotation>)
    ensures forall b <- NonNone(branches) :: b in branches
  {
    if branches != [] { NonNoneMembers(branches[1..]); }
  }

  lemma {:induction false} NonNoneSize(branches: seq<Annotation>, i: nat)
    requires i < |branches| && !branches[i].NoneType?
    ensures |NonNone(branches)| >= 1
    ensures (forall k :: 0 <= k < |branches| && k != i ==> branches[k].NoneType?) ==> NonNone(branches) == [branches[i]]
    ensures (exists k :: 0 <= k < |branches| && k != i && !branches[k].NoneType?) ==> |NonNone(branches)| >= 2
  {
    var rest := branches[1..];
    if i > 0 {
      NonNoneSize(rest, i - 1);
      if k :| 0 <= k < |branches| && k != i && !branches[k].NoneType? {
        if k > 0 { assert !rest[k - 1].NoneType?; }
      }
      if forall k :: 0 <= k < |branches| && k != i ==> branches[k].NoneType? {
        assert branches[0].NoneType?;
        assert forall k :: 0 <= k < |rest| && k != i - 1 ==> rest[k] == branches[k + 1];
      }
    } else {
      if k :| 0 <= k < |branches| && k != i && !branches[k].NoneType? { NonNoneSize(rest, k - 1); }
      if forall k :: 0 <= k < |branches| && k != i ==> branches[k].NoneType? {
        AllNone(rest);
      }
    }
  }

  lemma {:induction false} AllNone(branches: seq<Annotation>)
    requires forall k :: 0 <= k < |branches| ==> branches[k].NoneType?
    ensures NonNone(branches) == []
  {
    if branches != [] { AllNone(branches[1..]); }
  }

  /** A field that may be `None` is of the kind it would be of otherwise; one with a choice of types is a plain one. */
  lemma OptionalKind(branches: seq<Annotation>, i: nat)
    requires i < |branches| && !branches[i].NoneType? && !branches[i].UnionType?
    ensures Classify(UnionType(branches)) ==
            if forall k :: 0 <= k < |branches| && k != i ==> branches[k].NoneType? then Classify(branches[i]) else Scalar
  {
    NonNoneSize(branches, i);
  }

  lemma UnwrapOk(a: Annotation)
    requires AnnotationOk(a)
    ensures AnnotationOk(UnwrapOptional(a))
  {
    if a.UnionType? { NonNoneMembers(a.branches); }
  }

  /** Being well formed passes to every class a field leads to. */
  lemma SubSchemaOk(cls: Class, key: string)
    requires SchemaOk(cls)
    ensures var k := KindOf(cls, key);
            k.Model? || k.ModelList? || k.ModelMap? ==> SchemaOk(k.sub)
  {
    if key in cls.fields {
      var a := cls.fields[key].annotation;
      UnwrapOk(a);
      if UnwrapOptional(a).DictType? { UnwrapOk(UnwrapOptional(a).value); }
    }
  }

  // ---------- well-typed values ----------

  ghost predicate WellTyped(cls: Class, v: Value)
    decreases v, 0
  {
    && v.Dict?
    && v.entries.Keys == cls.fields.Keys
    && forall key <- v.entries :: FieldTyped(cls.fields[key].annotation, v.entries[key])
  }

  /** A validated field: `Null` only where the annotation allows it, otherwise what its kind says. */
  ghost predicate FieldTyped(a: Annotation, v: Value)
    decreases v, 1
  {
    if v.Null? then Nullable(a)
    else
      match Classify(a)
      case Scalar => true
      case Secret => v.Str?
      case SecretMap =>
        v.Dict? && forall alias <- v.entries :: if v.entries[alias].Null? then EntriesNullable(a) else v.entries[alias].Str?
      case Model(sub) => WellTyped(sub, v)
      case ModelList(sub) => v.List? && forall item <- v.items :: WellTyped(sub, item)
      case ModelMap(sub) =>
        v.Dict? && forall name <- v.entries ::
          if v.entries[name].Null? then EntriesNullable(a) else WellTyped(sub, v.entries[name])
  }

  /** No two entries of any list of models carry the same identity. */
  ghost predicate DistinctIds(cls: Class, v: Value)
    decreases v, 0
  {
    v.Dict? ==> forall key <- v.entries :: FieldDistinct(KindOf(cls, key), v.entries[key])
  }

  ghost predicate FieldDistinct(k: Kind, v: Value)
    decreases v, 1
  {
    match k
    case Model(sub) => DistinctIds(sub, v)
    case ModelList(sub) =>
      v.List? ==> UniqueIdentities(sub, v.items) && forall item <- v.items :: DistinctIds(sub, item)
    case ModelMap(sub) => v.Dict? ==> forall name <- v.entries :: DistinctIds(sub, v.entries[name])
    case _ => true
  }

  ghost predicate UniqueIdentities(cls: Class, items: seq<Value>) {
    forall i, j :: 0 <= i < j < |items| && IdentityOf(cls, items[i]) != Null ==>
                     IdentityOf(cls, items[i]) != IdentityOf(cls, items[j])
  }
}
