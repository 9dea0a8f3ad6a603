/**
 What a reader of the configuration sees of its secrets: config/service.py lines 271-290. Every secret that is set
 is shown as the mask, and nothing else is changed.
 */
module ConfigMask {
  import opened Outcome
  import opened ConfigSchema
  import opened ConfigMerge
  import opened ConfigLaws
  import opened ConfigSecrets

  /** A secret that is set. */
  predicate IsSet(v: Value) {
    v.Str? && v.s != ""
  }

  const STARS := "**********"

  /** Main result: whatever a masked configuration holds where a secret belongs is the mask, or says that none is set. */
  lemma {:induction false} MaskHides(cls: Class, v: Value, path: Path, s: Value)
    requires WellTyped(cls, v) && HasSecret(cls, Mask(cls, v), path, s)
    ensures s in {Str(STARS), Str(""), Null}
    decreases |path|, 0
  {
    var key := path[0].name;
    MaskFieldHides(cls.fields[key].annotation, v.entries[key], path[1..], s);
  }

  lemma {:induction false} MaskFieldHides(a: Annotation, v: Value, path: Path, s: Value)
    requires FieldTyped(a, v) && FieldHasSecret(Classify(a), MaskField(Classify(a), v), path, s)
    ensures s in {Str(STARS), Str(""), Null}
    decreases |path|, 1
  {
    match Classify(a)
    case Scalar => assert false;
    case Secret =>
    case SecretMap =>
    case Model(sub) => if v.Dict? { MaskHides(sub, v, path, s); }
    case ModelMap(sub) => if v.Dict? { MaskHides(sub, v.entries[path[0].alias], path[1..], s); }
    case ModelList(sub) =>
      if v.List? {
        var i :| 0 <= i < |v.items| && ItemHasSecret(sub, MaskItems(sub, v.items)[i], i, path, s);
        MaskHides(sub, v.items[i], path[1..], s);
      }
  }

  lemma AddressMasked(cls: Class, item: Value, i: nat)
    requires SchemaOk(cls)
    ensures AddressOf(cls, Mask(cls, item), i) == AddressOf(cls, item, i)
  {
    IdentityMasked(cls, item);
  }

  /** Main result: and it shows the mask wherever a secret is set. */
  lemma {:induction false} MaskShows(cls: Class, v: Value, path: Path, s: Value)
    requires SchemaOk(cls) && HasSecret(cls, v, path, s)
    ensures HasSecret(cls, Mask(cls, v), path, if IsSet(s) then Str(STARS) else s)
    decreases |path|, 0
  {
    SubSchemaOk(cls, path[0].name);
    MaskFieldShows(KindOf(cls, path[0].name), v.entries[path[0].name], path[1..], s);
  }

  lemma {:induction false} MaskFieldShows(k: Kind, v: Value, path: Path, s: Value)
    requires k.Model? || k.ModelList? || k.ModelMap? ==> SchemaOk(k.sub)
    requires FieldHasSecret(k, v, path, s)
    ensures FieldHasSecret(k, MaskField(k, v), path, if IsSet(s) then Str(STARS) else s)
    decreases |path|, 1
  {
    match k
    case Secret =>
    case SecretMap =>
    case Model(sub) => MaskShows(sub, v, path, s);
    case ModelMap(sub) => MaskShows(sub, v.entries[path[0].alias], path[1..], s);
    case ModelList(sub) =>
      var i :| 0 <= i < |v.items| && ItemHasSecret(sub, v.items[i], i, path, s);
      AddressMasked(sub, v.items[i], i);
      MaskShows(sub, v.items[i], path[1..], s);
      assert ItemHasSecret(sub, MaskItems(sub, v.items)[i], i, path, if IsSet(s) then Str(STARS) else s);
  }

  // ---------- what is not hidden ----------

  /** Two values that are the same up to which secrets are set to what. */
  ghost predicate SameUpToSet(cls: Class, v: Value, w: Value)
    decreases v, 0
  {
    if v.Dict? && w.Dict? then
      v.entries.Keys == w.entries.Keys && forall key <- v.entries :: SameField(KindOf(cls, key), v.entries[key], w.entries[key])
    else v == w
  }

  ghost predicate SameField(k: Kind, v: Value, w: Value)
    decreases v, 1
  {
    match k
    case Scalar => v == w
    case Secret => SameSecret(v, w)
    case SecretMap =>
      if v.Dict? && w.Dict? then v.entries.Keys == w.entries.Keys && forall alias <- v.entries :: SameSecret(v.entries[alias], w.entries[alias])
      else v == w
    case Model(sub) => SameUpToSet(sub, v, w)
    case ModelList(sub) =>
      if v.List? && w.List? then |v.items| == |w.items| && forall i | 0 <= i < |v.items| :: SameUpToSet(sub, v.items[i], w.items[i])
      else v == w
    case ModelMap(sub) =>
      if v.Dict? && w.Dict? then v.entries.Keys == w.entries.Keys && forall name <- v.entries :: SameUpToSet(sub, v.entries[name], w.entries[name])
      else v == w
  }

  predicate SameSecret(v: Value, w: Value) {
    v == w || (IsSet(v) && IsSet(w))
  }

  lemma SameByEntries(v: Value, w: Value, mv: map<string, Value>, mw: map<string, Value>)
    requires v.Dict? && w.Dict? && mv.Keys == v.entries.Keys && mw.Keys == w.entries.Keys
    ensures mv == mw <==> v.entries.Keys == w.entries.Keys && forall key <- v.entries :: mv[key] == mw[key]
  {
  }

  /** Main result: two configurations look the same exactly if they are the same up to which secrets are set to
      what, so a reader learns everything else and nothing more. */
  lemma {:induction false} LooksTheSameIff(cls: Class, v: Value, w: Value)
    ensures Mask(cls, v) == Mask(cls, w) <==> SameUpToSet(cls, v, w)
    decreases v, 0
  {
    if v.Dict? && w.Dict? {
      forall key | key in v.entries && key in w.entries
        ensures Mask(cls, v).entries[key] == Mask(cls, w).entries[key] <==> SameField(KindOf(cls, key), v.entries[key], w.entries[key])
      {
        FieldLooksTheSameIff(KindOf(cls, key), v.entries[key], w.entries[key]);
      }
      SameByEntries(v, w, Mask(cls, v).entries, Mask(cls, w).entries);
    }
  }

  lemma {:induction false} FieldLooksTheSameIff(k: Kind, v: Value, w: Value)
    ensures MaskField(k, v) == MaskField(k, w) <==> SameField(k, v, w)
    decreases v, 1
  {
    match k
    case Scalar =>
    case Secret => SecretsLookTheSame(v, w);
    case SecretMap => if v.Dict? && w.Dict? { AliasesLookTheSame(v, w); }
    case Model(sub) => LooksTheSameIff(sub, v, w);
    case ModelList(sub) => if v.List? && w.List? { ItemsLookTheSame(sub, v.items, w.items); }
    case ModelMap(sub) => if v.Dict? && w.Dict? { EntriesLookTheSame(sub, v, w); }
  }

  lemma SecretsLookTheSame(v: Value, w: Value)
    ensures MaskSecret(v) == MaskSecret(w) <==> SameSecret(v, w)
  {
  }

  lemma AliasesLookTheSame(v: Value, w: Value)
    requires v.Dict? && w.Dict?
    ensures MaskField(SecretMap, v) == MaskField(SecretMap, w) <==> SameField(SecretMap, v, w)
  {
    forall alias | alias in v.entries && alias in w.entries
      ensures MaskSecret(v.entries[alias]) == MaskSecret(w.entries[alias]) <==> SameSecret(v.entries[alias], w.entries[alias])
    {
      SecretsLookTheSame(v.entries[alias], w.entries[alias]);
    }
    SameByEntries(v, w, MaskField(SecretMap, v).entries, MaskField(SecretMap, w).entries);
  }

  lemma {:induction false} EntriesLookTheSame(cls: Class, v: Value, w: Value)
    requires v.Dict? && w.Dict?
    ensures MaskField(ModelMap(cls), v) == MaskField(ModelMap(cls), w) <==> SameField(ModelMap(cls), v, w)
    decreases v, 0
  {
    forall name | name in v.entries && name in w.entries
      ensures Mask(cls, v.entries[name]) == Mask(cls, w.entries[name]) <==> SameUpToSet(cls, v.entries[name], w.entries[name])
    {
      LooksTheSameIff(cls, v.entries[name], w.entries[name]);
    }
    SameByEntries(v, w, MaskField(ModelMap(cls), v).entries, MaskField(ModelMap(cls), w).entries);
  }

  lemma {:induction false} ItemsLookTheSame(cls: Class, v: seq<Value>, w: seq<Value>)
    ensures MaskItems(cls, v) == MaskItems(cls, w) <==> |v| == |w| && forall i | 0 <= i < |v| :: SameUpToSet(cls, v[i], w[i])
    decreases v
  {
    if |v| == |w| {
      forall i | 0 <= i < |v| ensures MaskItems(cls, v)[i] == MaskItems(cls, w)[i] <==> SameUpToSet(cls, v[i], w[i]) {
        LooksTheSameIff(cls, v[i], w[i]);
      }
      assert MaskItems(cls, v) == MaskItems(cls, w) <==> forall i | 0 <= i < |v| :: MaskItems(cls, v)[i] == MaskItems(cls, w)[i];
    }
  }
}
