/** The order `sorted` puts strings in, and sets of strings listed in it. */
module StringOrder {

  predicate AtMost(a: string, b: string) {
    a == "" || (b != "" && (a[0] < b[0] || (a[0] == b[0] && AtMost(a[1..], b[1..]))))
  }

  lemma {:induction false} Total(a: string, b: string)
    ensures AtMost(a, b) || AtMost(b, a)
  {
    if a != "" && b != "" { Total(a[1..], b[1..]); }
  }

  lemma {:induction false} Antisymmetric(a: string, b: string)
    requires AtMost(a, b) && AtMost(b, a)
    ensures a == b
  {
    if a != "" {
      Antisymmetric(a[1..], b[1..]);
      assert a == [a[0]] + a[1..] && b == [b[0]] + b[1..];
    }
  }

  lemma {:induction false} Transitive(a: string, b: string, c: string)
    requires AtMost(a, b) && AtMost(b, c)
    ensures AtMost(a, c)
  {
    if a != "" && a[0] == b[0] == c[0] { Transitive(a[1..], b[1..], c[1..]); }
  }

  ghost predicate Least(m: string, keys: set<string>) {
    m in keys && forall k <- keys :: AtMost(m, k)
  }

  lemma {:induction false} LeastExists(keys: set<string>)
    requires keys != {}
    ensures exists m :: Least(m, keys)
    decreases |keys|
  {
    var k :| k in keys;
    var rest := keys - {k};
    Total(k, k);
    if rest == {} {
      assert keys == {k};
      assert Least(k, keys);
    } else {
      LeastExists(rest);
      var m :| Least(m, rest);
      Total(k, m);
      if AtMost(k, m) {
        forall x | x in rest ensures AtMost(k, x) { Transitive(k, m, x); }
        assert Least(k, keys);
      } else {
        assert Least(m, keys);
      }
    }
  }

  ghost function Sorted(keys: set<string>): (list: seq<string>)
    ensures forall k :: k in list <==> k in keys
    decreases |keys|
  {
    if keys == {} then []
    else
      LeastExists(keys);
      var m :| Least(m, keys);
      [m] + Sorted(keys - {m})
  }

  lemma SortedTakesLeast(keys: set<string>, m: string)
    requires Least(m, keys)
    ensures Sorted(keys) == [m] + Sorted(keys - {m})
  {
    LeastExists(keys);
    var s :| Least(s, keys) && Sorted(keys) == [s] + Sorted(keys - {s});
    Antisymmetric(m, s);
  }

  lemma {:induction false} SortedInOrder(keys: set<string>)
    ensures forall i, j :: 0 <= i < j < |Sorted(keys)| ==> AtMost(Sorted(keys)[i], Sorted(keys)[j]) && Sorted(keys)[i] != Sorted(keys)[j]
    decreases |keys|
  {
    if keys != {} {
      LeastExists(keys);
      var m :| Least(m, keys) && Sorted(keys) == [m] + Sorted(keys - {m});
      SortedInOrder(keys - {m});
    }
  }

  /** `sorted(keys)`: repeatedly take the least remaining key. */
  method Sort(keys: set<string>) returns (list: seq<string>)
    ensures list == Sorted(keys)
  {
    list := [];
    var rest := keys;
    while rest != {}
      invariant list + Sorted(rest) == Sorted(keys)
      decreases |rest|
    {
      var m := TakeLeast(rest);
      SortedTakesLeast(rest, m);
      list := list + [m];
      rest := rest - {m};
    }
  }

  method TakeLeast(keys: set<string>) returns (m: string)
    requires keys != {}
    ensures Least(m, keys)
  {
    m :| m in keys;
    var rest := keys - {m};
    Total(m, m);
    while rest != {}
      invariant m in keys && rest <= keys
      invariant forall k <- keys - rest :: AtMost(m, k)
      decreases |rest|
    {
      var k :| k in rest;
      rest := rest - {k};
      Total(k, m);
      Total(k, k);
      if !AtMost(m, k) {
        forall x | x in keys - rest ensures AtMost(k, x) {
          if x != k { Transitive(k, m, x); }
        }
        m := k;
      }
    }
  }
}
