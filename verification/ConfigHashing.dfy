/**
 When a request is refused because an identity in it cannot be looked up: config/service.py lines 196-248. Entries are
 indexed by identity in a dictionary, so an identity that is a list or a dictionary raises.
 */
module ConfigHashing {
  import opened Outcome
  import opened ConfigSchema
  import opened ConfigMerge
  import opened ConfigOps
  import opened ConfigUpdates

  /** Some entry of some list of models, at any level, has a list or a dictionary for its identity. */
  ghost predicate Carries(cls: Class, v: Value)
    decreases v, 0
  {
    v.Dict? && exists key <- v.entries :: FieldCarries(KindOf(cls, key), v.entries[key])
  }

  ghost predicate FieldCarries(k: Kind, v: Value)
    decreases v, 1
  {
    match k
    case Model(sub) => Carries(sub, v)
    case ModelList(sub) => v.List? && exists item <- v.items :: IdentityOf(sub, item).List? || IdentityOf(sub, item).Dict? || Carries(sub, item)
    case ModelMap(sub) => v.Dict? && exists name <- v.entries :: Carries(sub, v.entries[name])
    case _ => false
  }

  lemma CarriedBelow(cls: Class, v: Value, key: string)
    requires !Carries(cls, v)
    ensures !FieldCarries(KindOf(cls, key), Get(v, key))
  {
  }

  /** Main result: onto a configuration whose identities are all right, an update raises exactly if one of its own is
      not. */
  lemma {:induction false} RaisesIff(cls: Class, c: Value, u: Value)
    requires !Carries(cls, c)
    ensures Raises(cls, c, u) <==> Carries(cls, u)
    decreases u, 0
  {
    if u.Dict? {
      forall key <- u.entries ensures FieldRaises(KindOf(cls, key), Get(c, key), u.entries[key]) <==> FieldCarries(KindOf(cls, key), u.entries[key]) {
        CarriedBelow(cls, c, key);
        FieldRaisesIff(KindOf(cls, key), Get(c, key), u.entries[key]);
      }
      hide FieldRaises, FieldCarries;
    }
  }

  lemma {:induction false} FieldRaisesIff(k: Kind, c: Value, v: Value)
    requires !FieldCarries(k, c)
    ensures FieldRaises(k, c, v) <==> FieldCarries(k, v)
    decreases v, 1
  {
    match k
    case Model(sub) =>
      NothingCarried(sub, c);
      RaisesIff(sub, DictOr(c), v);
    case ModelList(sub) => if v.List? { ListRaisesIff(sub, c, v.items); }
    case ModelMap(sub) => if v.Dict? { MapRaisesIff(sub, c, v); }
    case _ =>
  }

  lemma NothingCarried(cls: Class, c: Value)
    requires !Carries(cls, c)
    ensures !Carries(cls, DictOr(c))
  {
  }

  lemma {:induction false} MapRaisesIff(cls: Class, c: Value, v: Value)
    requires v.Dict? && !FieldCarries(ModelMap(cls), c)
    ensures FieldRaises(ModelMap(cls), c, v) <==> FieldCarries(ModelMap(cls), v)
    decreases v, 0
  {
    forall name <- v.entries ensures Raises(cls, DictOr(Get(DictOr(c), name)), v.entries[name]) <==> Carries(cls, v.entries[name]) {
      NothingCarried(cls, Get(c, name));
      RaisesIff(cls, DictOr(Get(DictOr(c), name)), v.entries[name]);
    }
    hide Raises, Carries;
  }

  lemma ItemsHashable(cls: Class, c: Value)
    requires !FieldCarries(ModelList(cls), c)
    ensures forall item <- ItemsOr(c) :: Hashable(IdentityOf(cls, item)) && !Carries(cls, item)
  {
  }

  lemma ExistingCarries(cls: Class, c: seq<Value>, i: nat, item: Value)
    requires forall e <- c :: !Carries(cls, e)
    ensures !Carries(cls, Existing(cls, c, i, item))
  {
    hide Carries;
    var e := Existing(cls, c, i, item);
    if e in c {
      assert !Carries(cls, e);
    } else {
      EmptyCarries(cls);
      ExistingAmong(cls, c, i, item);
    }
  }

  lemma EmptyCarries(cls: Class)
    ensures !Carries(cls, Dict(map[]))
  {
  }

  lemma ExistingAmong(cls: Class, c: seq<Value>, i: nat, item: Value)
    ensures Existing(cls, c, i, item) in c || Existing(cls, c, i, item) == Dict(map[])
  {
  }

  lemma {:induction false} ListRaisesIff(cls: Class, c: Value, u: seq<Value>)
    requires !FieldCarries(ModelList(cls), c)
    ensures ListRaises(cls, ItemsOr(c), u) <==> FieldCarries(ModelList(cls), List(u))
    decreases u
  {
    var stored := ItemsOr(c);
    ItemsHashable(cls, c);
    forall i: nat | i < |u|
      ensures ItemRaises(cls, stored, i, u[i]) <==> IdentityOf(cls, u[i]).List? || IdentityOf(cls, u[i]).Dict? || Carries(cls, u[i])
    {
      if u[i].Dict? {
        ExistingCarries(cls, stored, i, u[i]);
        RaisesIff(cls, Existing(cls, stored, i, u[i]), u[i]);
      }
    }
    hide ItemRaises, Carries, IdentityOf;
  }

  /** What an update gives for an identity is what comes of it, so a bad one stays bad. */
  lemma {:induction false} BadStaysBad(cls: Class, c: Value, u: Value, w: Value)
    requires SchemaOk(cls) && c.Dict? && u.Dict? && Follows(cls, c, u, w) && Carries(cls, u)
    ensures Carries(cls, w)
    decreases u, 0
  {
    var key :| key in u.entries && FieldCarries(KindOf(cls, key), u.entries[key]);
    SubSchemaOk(cls, key);
    FieldStaysBad(KindOf(cls, key), Get(c, key), u.entries[key], w.entries[key]);
  }

  lemma {:induction false} FieldStaysBad(k: Kind, c: Value, v: Value, w: Value)
    requires k.Model? || k.ModelList? || k.ModelMap? ==> SchemaOk(k.sub)
    requires FieldFollows(k, c, v, w) && FieldCarries(k, v)
    ensures FieldCarries(k, w)
    decreases v, 1
  {
    hide SchemaOk, Follows, Counterpart;
    match k
    case Model(sub) => BadStaysBad(sub, DictOr(c), v, w);
    case ModelList(sub) =>
      var i :| 0 <= i < |v.items| && (IdentityOf(sub, v.items[i]).List? || IdentityOf(sub, v.items[i]).Dict? || Carries(sub, v.items[i]));
      assert ItemFollows(sub, ItemsOr(c), i, v.items[i], w.items[i]);
      ItemStaysBad(sub, ItemsOr(c), i, v.items[i], w.items[i]);
      assert w.items[i] in w.items;
    case ModelMap(sub) =>
      var name :| name in v.entries && Carries(sub, v.entries[name]);
      BadStaysBad(sub, DictOr(Get(c, name)), v.entries[name], w.entries[name]);
  }

  lemma {:induction false} ItemStaysBad(cls: Class, c: seq<Value>, i: nat, v: Value, w: Value)
    requires SchemaOk(cls) && ItemFollows(cls, c, i, v, w)
    requires IdentityOf(cls, v).List? || IdentityOf(cls, v).Dict? || Carries(cls, v)
    ensures IdentityOf(cls, w).List? || IdentityOf(cls, w).Dict? || Carries(cls, w)
    decreases v, 1
  {
    hide Follows, Counterpart, Carries, SchemaOk, IdentityOf;
    var e: Value :| e.Dict? && Counterpart(cls, c, i, v, e) && Follows(cls, e, v, w);
    if Carries(cls, v) {
      BadStaysBad(cls, e, v, w);
    } else {
      IdentityFollows(cls, e, v, w);
    }
  }

  lemma IdentityFollows(cls: Class, c: Value, u: Value, w: Value)
    requires SchemaOk(cls) && c.Dict? && u.Dict? && Follows(cls, c, u, w) && IdentityOf(cls, u) != Null
    ensures IdentityOf(cls, w) == IdentityOf(cls, u)
  {
    hide AnnotationOk, DefaultOk;
    var id := IdentityKey(cls).value;
    assert id in cls.fields && id in u.entries && KindOf(cls, id).Scalar?;
    assert !LeavesAlone(KindOf(cls, id), u.entries[id]);
    assert FieldFollows(Scalar, Get(c, id), u.entries[id], w.entries[id]);
  }
}
