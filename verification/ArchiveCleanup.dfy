/**
 Removing the empty folders below the archive root, deepest first: db/archive.py lines 265-352.
 */
module ArchiveCleanup {
  import opened Outcome
  import opened Mailboxes
  import opened ImapClient
  import opened ArchivePaths

  // ---------- folder names ----------

  /** Where the last delimiter is, or -1. */
  function LastIndex(name: string, d: char): (i: int)
    ensures -1 <= i < |name|
    ensures i >= 0 ==> name[i] == d
    ensures forall j :: i < j < |name| ==> name[j] != d
  {
    if name == [] then -1
    else if name[|name| - 1] == d then |name| - 1
    else LastIndex(name[..|name| - 1], d)
  }

  function Parent(name: string, d: char): (p: Option<string>)
    ensures p.Some? ==> |p.value| < |name|
  {
    var i := LastIndex(name, d);
    if i < 0 then None else Some(name[..i])
  }

  function Count(name: string, d: char): nat {
    if name == [] then 0 else Count(name[..|name| - 1], d) + if name[|name| - 1] == d then 1 else 0
  }

  lemma {:induction false} ParentIsShallower(name: string, d: char)
    requires Parent(name, d).Some?
    ensures Count(name, d) == Count(Parent(name, d).value, d) + 1
  {
    if name[|name| - 1] != d {
      var shorter := name[..|name| - 1];
      assert shorter[..LastIndex(shorter, d)] == name[..LastIndex(shorter, d)];
      ParentIsShallower(shorter, d);
    }
  }

  predicate Inside(name: string, folder: string, d: char) {
    folder + [d] <= name
  }

  predicate Archived(name: string, root: string, d: char) {
    name == root || Inside(name, root, d)
  }

  /** Going up from `name` through listed parents leads to `top`. */
  predicate Linked(names: set<string>, d: char, name: string, top: string)
    decreases |name|
  {
    name == top || (Parent(name, d).Some? && Parent(name, d).value in names && Linked(names, d, Parent(name, d).value, top))
  }

  ghost predicate ParentClosed(names: set<string>, root: string, d: char) {
    forall n <- names :: n != root ==> Parent(n, d).Some? && Parent(n, d).value in names
  }

  lemma InsideParent(name: string, folder: string, d: char)
    requires Inside(name, folder, d)
    ensures Parent(name, d).Some? && (Parent(name, d).value == folder || Inside(Parent(name, d).value, folder, d))
  {
    var i := LastIndex(name, d);
    assert name[|folder|] == d;
    assert |folder| <= i;
    assert name[..|folder|] == folder;
    if i > |folder| { assert folder + [d] <= name[..i]; }
  }

  lemma ParentIsOutside(name: string, d: char)
    requires Parent(name, d).Some?
    ensures Inside(name, Parent(name, d).value, d)
  {
    var i := LastIndex(name, d);
    assert name[..i] + [d] == name[..i + 1];
  }

  lemma InsideTwice(name: string, mid: string, top: string, d: char)
    requires Inside(name, mid, d) && Inside(mid, top, d)
    ensures Inside(name, top, d)
  {
    assert name[..|top| + 1] == mid[..|top| + 1];
  }

  /** In a listing that contains every parent, the links are the hierarchy the names spell out. */
  lemma {:induction false} LinksAreSubtrees(names: set<string>, root: string, d: char, name: string, top: string)
    requires ParentClosed(names, root, d) && name in names && top in names && Archived(top, root, d)
    ensures Linked(names, d, name, top) <==> name == top || Inside(name, top, d)
    decreases |name|
  {
    if name != top && Parent(name, d).Some? && Parent(name, d).value in names {
      var p := Parent(name, d).value;
      LinksAreSubtrees(names, root, d, p, top);
      ParentIsOutside(name, d);
      if Inside(name, top, d) { InsideParent(name, top, d); }
      if Inside(p, top, d) { InsideTwice(name, p, top, d); }
    }
    if name != top && Inside(name, top, d) {
      InsideParent(name, top, d);
      assert |top| >= |root|;
    }
  }

  // ---------- folder names, segment by segment ----------

  lemma {:induction false} NoDelimiter(name: string, d: char)
    ensures Split(name, d) == [name] <==> d !in name
    ensures |Split(name, d)| == 1 <==> d !in name
  {
    if name != [] {
      NoDelimiter(name[1..], d);
      assert name == [name[0]] + name[1..];
    }
  }

  lemma LastSegment(name: string, d: char)
    ensures match Parent(name, d)
            case None => Split(name, d) == [name]
            case Some(p) => Split(name, d) == Split(p, d) + [name[|p| + 1..]] && p == name[..|p|]
  {
    var i := LastIndex(name, d);
    if i < 0 {
      NoDelimiter(name, d);
    } else {
      assert name == name[..i] + [d] + name[i + 1..];
      SplitConcat(name[..i], name[i + 1..], d);
      NoDelimiter(name[i + 1..], d);
    }
  }

  /** The folder above is the one with all segments but the last. */
  lemma ParentSegments(name: string, d: char)
    ensures Parent(name, d) == if |Split(name, d)| == 1 then None else Some(Join(Split(name, d)[..|Split(name, d)| - 1], d))
  {
    LastSegment(name, d);
    if Parent(name, d).Some? {
      var p := Parent(name, d).value;
      assert Split(name, d)[..|Split(name, d)| - 1] == Split(p, d);
      JoinSplit(p, d);
    }
  }

  /** Lying inside a folder is having its segments in front of one's own. */
  lemma {:induction false} InsideSegments(name: string, folder: string, d: char)
    ensures Inside(name, folder, d) <==> Split(folder, d) < Split(name, d)
    decreases |name|
  {
    if Inside(name, folder, d) {
      var rest := name[|folder| + 1..];
      assert name == folder + [d] + rest;
      SplitConcat(folder, rest, d);
    } else if Split(folder, d) < Split(name, d) {
      LastSegment(name, d);
      assert |Split(name, d)| > 1;
      var p := Parent(name, d).value;
      ParentIsOutside(name, d);
      if Split(folder, d) == Split(p, d) {
        JoinSplit(folder, d);
        JoinSplit(p, d);
      } else {
        assert Split(folder, d) < Split(p, d);
        InsideSegments(p, folder, d);
        InsideTwice(name, p, folder, d);
      }
    }
  }

  /** Being archived is having the segments of the root in front of one's own, or being the root. */
  lemma ArchivedSegments(name: string, root: string, d: char)
    ensures Archived(name, root, d) <==> Split(root, d) <= Split(name, d)
  {
    InsideSegments(name, root, d);
    if Split(root, d) == Split(name, d) {
      JoinSplit(name, d);
      JoinSplit(root, d);
    }
  }

  // ---------- which folders go ----------

  predicate Bare(boxes: Boxes, noselect: set<string>, name: string) {
    name in boxes && boxes[name].slots == map[] && name !in noselect
  }

  /** The folder and everything linked below it can be opened and holds no message. */
  predicate Barren(boxes: Boxes, noselect: set<string>, names: set<string>, d: char, name: string) {
    forall m <- names :: Linked(names, d, m, name) ==> Bare(boxes, noselect, m)
  }

  predicate IsChild(d: char, child: string, name: string) {
    Parent(child, d) == Some(name)
  }

  /** The last link of a chain that reaches `top` from further down. */
  lemma {:induction false} ChildOnTheWay(names: set<string>, d: char, m: string, top: string) returns (c: string)
    requires Linked(names, d, m, top) && m != top && m in names
    ensures c in names && IsChild(d, c, top) && Linked(names, d, m, c)
    decreases |m|
  {
    var p := Parent(m, d).value;
    if p == top {
      c := m;
    } else {
      c := ChildOnTheWay(names, d, p, top);
    }
  }

  lemma {:induction false} LinkedThrough(names: set<string>, d: char, m: string, mid: string, top: string)
    requires Linked(names, d, m, mid) && Linked(names, d, mid, top)
    ensures Linked(names, d, m, top)
    decreases |m|
  {
    if m != mid { LinkedThrough(names, d, Parent(m, d).value, mid, top); }
  }

  /** A folder is barren exactly when it is bare and its children are barren. */
  lemma BarrenByChildren(boxes: Boxes, noselect: set<string>, names: set<string>, d: char, name: string)
    requires name in names
    ensures Barren(boxes, noselect, names, d, name) <==>
            Bare(boxes, noselect, name) && forall c <- names :: IsChild(d, c, name) ==> Barren(boxes, noselect, names, d, c)
  {
    if Barren(boxes, noselect, names, d, name) {
      forall c <- names | IsChild(d, c, name) ensures Barren(boxes, noselect, names, d, c) {
        forall m <- names | Linked(names, d, m, c) ensures Bare(boxes, noselect, m) {
          LinkedThrough(names, d, m, c, name);
        }
      }
    } else if Bare(boxes, noselect, name) {
      var m :| m in names && Linked(names, d, m, name) && !Bare(boxes, noselect, m);
      var c := ChildOnTheWay(names, d, m, name);
      assert !Barren(boxes, noselect, names, d, c);
    }
  }

  /** What holds at every moment: all that has gone is bare folders below the root, each after its
      listed children. */
  ghost predicate Sound(before: Boxes, now: Boxes, noselect: set<string>, names: set<string>, root: string, d: char) {
    && now.Keys <= before.Keys && (forall n <- now :: now[n] == before[n])
    && (forall n <- before.Keys - now.Keys :: MayGo(before, now, noselect, names, root, d, n))
  }

  ghost predicate MayGo(before: Boxes, now: Boxes, noselect: set<string>, names: set<string>, root: string, d: char, n: string) {
    n in names && n != root && Bare(before, noselect, n) && forall c <- names :: IsChild(d, c, n) ==> c !in now
  }

  ghost predicate AllSound(before: Boxes, states: seq<Boxes>, from: nat, noselect: set<string>, names: set<string>, root: string, d: char) {
    forall k :: from <= k < |states| ==> Sound(before, states[k], noselect, names, root, d)
  }

  // ---------- the walk ----------

  /** Every listed folder, the deeper ones first. */
  ghost predicate DeepestFirst(order: seq<string>, d: char) {
    forall i, j :: 0 <= i < j < |order| ==> Count(order[i], d) >= Count(order[j], d)
  }

  ghost predicate Lists(order: seq<string>, names: set<string>) {
    forall n :: n in order <==> n in names
  }

  lemma {:induction false} SomeDeepest(names: set<string>, d: char) returns (n: string)
    requires names != {}
    ensures n in names && forall m <- names :: Count(m, d) <= Count(n, d)
    decreases |names|
  {
    var m :| m in names;
    if names == {m} { return m; }
    n := SomeDeepest(names - {m}, d);
    assert forall k <- names :: k == m || k in names - {m};
    if Count(n, d) < Count(m, d) { n := m; }
  }

  method SortByDepth(names: set<string>, d: char) returns (order: seq<string>)
    ensures Lists(order, names) && |order| == |names|
    ensures Distinct(order) && DeepestFirst(order, d)
  {
    order := [];
    var rest := names;
    while rest != {}
      invariant rest <= names && Lists(order, names - rest) && |order| + |rest| == |names|
      invariant Distinct(order) && DeepestFirst(order, d)
      invariant forall n <- order, m <- rest :: Count(n, d) >= Count(m, d)
      decreases |rest|
    {
      ghost var deepest := SomeDeepest(rest, d);
      var n :| n in rest && forall m <- rest :: Count(m, d) <= Count(n, d);
      ghost var sorted := order;
      order, rest := order + [n], rest - {n};
      assert forall i :: 0 <= i < |sorted| ==> order[i] == sorted[i] && sorted[i] in sorted;
      assert forall k <- order :: k in sorted || k == n;
      assert n == order[|sorted|];
    }
  }

  /** Delete one folder if it can be opened and holds nothing. */
  method RemoveIfEmpty(client: Client, name: string) returns (ok: bool)
    requires client.Valid()
    modifies client
    ensures client.Valid() && old(client.tick) <= client.tick && old(client.trace) <= client.trace
    ensures client.boxes == old(client.boxes) || client.boxes == old(client.boxes) - {name}
    ensures client.boxes != old(client.boxes) ==> Bare(old(client.boxes), client.noselect, name)
    ensures ok ==> client.boxes == old(client.boxes) - {name} && name in old(client.boxes)
    ensures forall k :: |old(client.trace)| <= k < |client.trace| ==>
              client.trace[k] == old(client.boxes) || client.trace[k] == client.boxes
    ensures Smooth(client.answers, old(client.tick), client.tick) ==>
              ok == Bare(old(client.boxes), client.noselect, name) && (!ok ==> client.boxes == old(client.boxes))
  {
    var count := client.SelectFolder(name);
    if count.Err? || count.value > 0 { return false; }
    assert client.boxes[name].slots == map[];
    ok := client.DeleteFolder(name);
    assert client.boxes != old(client.boxes) ==> name in old(client.boxes);
  }

  /** The folders the walk looks at. */
  function Subfolders(names: set<string>, root: string): set<string> {
    names - {root}
  }

  function ArchiveNames(names: set<string>, root: string, d: char): set<string> {
    set n | n in names && Archived(n, root, d)
  }

  function Children(names: set<string>, d: char, gone: set<string>): (left: map<string, set<string>>)
    ensures left.Keys == names
  {
    map n | n in names :: set c | c in names && IsChild(d, c, n) && c !in gone
  }

  lemma ChildrenAfter(names: set<string>, d: char, gone: set<string>, name: string)
    requires name in names
    ensures var before := Children(names, d, gone);
            var p := Parent(name, d);
            Children(names, d, gone + {name}) ==
            if p.Some? && p.value in names then before[p.value := before[p.value] - {name}] else before
  {
    var before, after, p := Children(names, d, gone), Children(names, d, gone + {name}), Parent(name, d);
    forall n <- names ensures after[n] == if p == Some(n) then before[n] - {name} else before[n] {
    }
  }

  /** A deletion of a bare folder below the root whose children have all gone keeps things sound. */
  lemma SoundStep(before: Boxes, now: Boxes, next: Boxes, noselect: set<string>, names: set<string>, root: string, d: char, name: string)
    requires Sound(before, now, noselect, names, root, d)
    requires next == now || (next == now - {name} && Bare(now, noselect, name))
    requires name in names && name != root && forall c <- names :: IsChild(d, c, name) ==> c !in now
    ensures Sound(before, next, noselect, names, root, d)
  {
    forall n <- before.Keys - next.Keys ensures MayGo(before, next, noselect, names, root, d, n) {
      if n != name { assert MayGo(before, now, noselect, names, root, d, n); }
    }
  }

  /** Children come before their parents. */
  lemma ChildrenFirst(order: seq<string>, i: nat, root: string, names: set<string>, d: char, c: string)
    requires DeepestFirst(order, d) && i < |order| && Lists(order, Subfolders(names, root))
    requires forall n <- names :: Archived(n, root, d)
    requires c in names && IsChild(d, c, order[i])
    ensures c in order[..i]
  {
    ParentIsShallower(c, d);
    assert order[i] in order;
    assert Archived(order[i], root, d) && |order[i]| > |root|;
    assert c in order;
    var k :| 0 <= k < |order| && order[k] == c;
    assert order[..i][k] == c;
  }

  ghost predicate Exactly(before: Boxes, noselect: set<string>, names: set<string>, d: char, looked: seq<string>, gone: set<string>) {
    forall n <- looked :: n in gone <==> Barren(before, noselect, names, d, n)
  }

  /** Looking at the next folder: it goes exactly when it is barren. */
  lemma ExactStep(before: Boxes, noselect: set<string>, names: set<string>, root: string, d: char, order: seq<string>, i: nat,
                  gone: set<string>, ok: bool)
    requires DeepestFirst(order, d) && Distinct(order) && i < |order| && Lists(order, Subfolders(names, root))
    requires forall n <- names :: Archived(n, root, d)
    requires Exactly(before, noselect, names, d, order[..i], gone) && forall n <- gone :: n in order[..i]
    requires ok <==> (forall c <- names :: IsChild(d, c, order[i]) ==> c in gone) && Bare(before, noselect, order[i])
    ensures Exactly(before, noselect, names, d, order[..i + 1], if ok then gone + {order[i]} else gone)
  {
    var name := order[i];
    assert name in order;
    BarrenByChildren(before, noselect, names, d, name);
    forall c <- names | IsChild(d, c, name)
      ensures c in gone <==> Barren(before, noselect, names, d, c)
    {
      ChildrenFirst(order, i, root, names, d, c);
    }
    assert ok <==> Barren(before, noselect, names, d, name);
    assert order[..i + 1] == order[..i] + [name];
    assert name !in order[..i];
  }

  lemma AllSoundStep(before: Boxes, states: seq<Boxes>, more: seq<Boxes>, from: nat, now: Boxes, next: Boxes,
                     noselect: set<string>, names: set<string>, root: string, d: char)
    requires from <= |states| && states <= more && AllSound(before, states, from, noselect, names, root, d)
    requires Sound(before, now, noselect, names, root, d) && Sound(before, next, noselect, names, root, d)
    requires forall k :: |states| <= k < |more| ==> more[k] == now || more[k] == next
    ensures AllSound(before, more, from, noselect, names, root, d)
  {
    hide Sound;
    forall k | from <= k < |more| ensures Sound(before, more[k], noselect, names, root, d) {
      assert k < |states| ==> more[k] == states[k];
    }
  }

  lemma ChildrenGone(names: set<string>, d: char, gone: set<string>, name: string)
    requires name in names
    ensures Children(names, d, gone)[name] == {} <==> forall c <- names :: IsChild(d, c, name) ==> c in gone
  {
    var left := Children(names, d, gone)[name];
    forall c <- names ensures c in left <==> IsChild(d, c, name) && c !in gone {
    }
  }

  /** The folders below the root whose whole subtree holds no message. */
  function ToGo(boxes: Boxes, noselect: set<string>, names: set<string>, root: string, d: char): set<string> {
    set n | n in names && n != root && Barren(boxes, noselect, names, d, n)
  }

  /** What a finished walk has established. */
  ghost predicate Cleaned(before: Boxes, now: Boxes, noselect: set<string>, root: string, d: char, counts: (nat, nat), smooth: bool) {
    var names, gone := ArchiveNames(before.Keys, root, d), before.Keys - now.Keys;
    && Sound(before, now, noselect, names, root, d)
    && counts.0 + counts.1 == |Subfolders(names, root)|
    && counts.0 <= |gone|
    && (smooth ==> counts.0 == |gone| && gone == ToGo(before, noselect, names, root, d))
  }

  lemma WalkDone(before: Boxes, now: Boxes, noselect: set<string>, names: set<string>, root: string, d: char, order: seq<string>,
                 gone: set<string>, counts: (nat, nat), smooth: bool)
    requires names == ArchiveNames(before.Keys, root, d)
    requires Walkable(names, root, d, order) && |order| == |Subfolders(names, root)|
    requires counts.0 == |gone| && counts.0 + counts.1 == |order|
    requires Progress(before, now, noselect, names, root, d, order, |order|, gone, smooth)
    ensures Cleaned(before, now, noselect, root, d, counts, smooth)
  {
    hide *;
    Lost(before, now, noselect, names, root, d, order, gone, smooth);
    CleanedWhen(before, now, noselect, names, root, d, gone, counts, smooth);
  }

  lemma CleanedWhen(before: Boxes, now: Boxes, noselect: set<string>, names: set<string>, root: string, d: char,
                    gone: set<string>, counts: (nat, nat), smooth: bool)
    requires names == ArchiveNames(before.Keys, root, d) && Sound(before, now, noselect, names, root, d)
    requires counts.0 == |gone| && counts.0 + counts.1 == |Subfolders(names, root)|
    requires gone <= before.Keys - now.Keys
    requires smooth ==> gone == before.Keys - now.Keys && gone == ToGo(before, noselect, names, root, d)
    ensures Cleaned(before, now, noselect, root, d, counts, smooth)
  {
    hide Sound, ToGo, ArchiveNames, Subfolders;
    Included(gone, before.Keys - now.Keys);
  }

  lemma Lost(before: Boxes, now: Boxes, noselect: set<string>, names: set<string>, root: string, d: char, order: seq<string>,
             gone: set<string>, smooth: bool)
    requires Walkable(names, root, d, order)
    requires Progress(before, now, noselect, names, root, d, order, |order|, gone, smooth)
    ensures Sound(before, now, noselect, names, root, d) && gone <= before.Keys - now.Keys
    ensures smooth ==> gone == before.Keys - now.Keys && gone == ToGo(before, noselect, names, root, d)
  {
    hide Sound, Barren, Subfolders, DeepestFirst, Distinct;
    assert order[..|order|] == order;
    if smooth {
      assert now.Keys == before.Keys - gone;
      BarrenOnes(before, noselect, names, root, d, order, gone);
    }
  }

  lemma BarrenOnes(before: Boxes, noselect: set<string>, names: set<string>, root: string, d: char, order: seq<string>, gone: set<string>)
    requires Lists(order, Subfolders(names, root)) && (forall n <- gone :: n in order)
    requires Exactly(before, noselect, names, d, order, gone)
    ensures gone == ToGo(before, noselect, names, root, d)
  {
    hide Barren;
    forall n ensures n in gone <==> n in ToGo(before, noselect, names, root, d) {
      assert n in order <==> n in Subfolders(names, root);
    }
  }

  lemma OneMore(some: set<string>, n: string)
    requires n !in some
    ensures |some + {n}| == |some| + 1
  {
  }

  lemma {:induction false} Included(some: set<string>, all: set<string>)
    requires some <= all
    ensures |some| <= |all|
    decreases |some|
  {
    if n :| n in some { Included(some - {n}, all - {n}); }
  }

  lemma NotYet(order: seq<string>, i: nat)
    requires Distinct(order) && i < |order|
    ensures order[i] !in order[..i]
  {
  }

  /** One turn of a walk without failures. */
  lemma SmoothTurn(before: Boxes, now: Boxes, next: Boxes, noselect: set<string>, names: set<string>, root: string, d: char,
                   order: seq<string>, i: nat, gone: set<string>, ok: bool)
    requires DeepestFirst(order, d) && Distinct(order) && i < |order| && Lists(order, Subfolders(names, root))
    requires forall n <- names :: Archived(n, root, d)
    requires Exactly(before, noselect, names, d, order[..i], gone) && forall n <- gone :: n in order[..i]
    requires forall c <- names :: IsChild(d, c, order[i]) ==> c in gone
    requires now == before - gone && ok == Bare(now, noselect, order[i])
    requires next == if ok then now - {order[i]} else now
    ensures next == before - (if ok then gone + {order[i]} else gone)
    ensures Exactly(before, noselect, names, d, order[..i + 1], if ok then gone + {order[i]} else gone)
  {
    assert order[i] !in order[..i];
    assert Bare(now, noselect, order[i]) == Bare(before, noselect, order[i]);
    ExactStep(before, noselect, names, root, d, order, i, gone, ok);
  }

  /** Where a walk stands after `i` folders, `gone` of them deleted with the server's word for it. */
  ghost predicate Progress(before: Boxes, now: Boxes, noselect: set<string>, names: set<string>, root: string, d: char,
                           order: seq<string>, i: nat, gone: set<string>, smooth: bool)
    requires i <= |order|
  {
    && (forall n <- gone :: n in order[..i]) && gone <= before.Keys && gone !! now.Keys
    && Sound(before, now, noselect, names, root, d)
    && (smooth ==> now == before - gone && Exactly(before, noselect, names, d, order[..i], gone))
  }

  ghost predicate Walkable(names: set<string>, root: string, d: char, order: seq<string>) {
    && DeepestFirst(order, d) && Distinct(order) && Lists(order, Subfolders(names, root))
    && (forall n <- names :: Archived(n, root, d))
  }

  lemma ProgressKept(before: Boxes, now: Boxes, noselect: set<string>, names: set<string>, root: string, d: char,
                     order: seq<string>, i: nat, gone: set<string>, smooth: bool)
    requires i < |order| && Walkable(names, root, d, order) && order[i] in names
    requires Progress(before, now, noselect, names, root, d, order, i, gone, smooth)
    requires Children(names, d, gone)[order[i]] != {}
    ensures Progress(before, now, noselect, names, root, d, order, i + 1, gone, smooth)
  {
    hide Sound;
    ChildrenGone(names, d, gone, order[i]);
    assert order[..i + 1] == order[..i] + [order[i]];
    if smooth { ExactStep(before, noselect, names, root, d, order, i, gone, false); }
  }

  lemma ProgressMade(before: Boxes, now: Boxes, next: Boxes, noselect: set<string>, names: set<string>, root: string, d: char,
                     order: seq<string>, i: nat, gone: set<string>, was: bool, smooth: bool, ok: bool)
    requires i < |order| && Walkable(names, root, d, order) && order[i] in names
    requires Progress(before, now, noselect, names, root, d, order, i, gone, was) && (smooth ==> was)
    requires Children(names, d, gone)[order[i]] == {}
    requires next == now || (next == now - {order[i]} && Bare(now, noselect, order[i]))
    requires ok ==> next == now - {order[i]} && order[i] in now
    requires smooth ==> ok == Bare(now, noselect, order[i]) && (!ok ==> next == now)
    ensures Progress(before, next, noselect, names, root, d, order, i + 1, if ok then gone + {order[i]} else gone, smooth)
    ensures order[i] !in gone
    ensures Sound(before, next, noselect, names, root, d)
  {
    ChildrenGone(names, d, gone, order[i]);
    assert order[i] in order && order[..i + 1] == order[..i] + [order[i]];
    SoundStep(before, now, next, noselect, names, root, d, order[i]);
    hide Sound, Bare, Exactly;
    NotYet(order, i);
    if smooth { SmoothTurn(before, now, next, noselect, names, root, d, order, i, gone, ok); }
  }

  /** Visit the folders in order, striking each deleted one off its parent's children. */
  method Walk(client: Client, names: set<string>, root: string, d: char, order: seq<string>) returns (deleted: nat, skipped: nat)
    requires client.Valid() && names == ArchiveNames(client.boxes.Keys, root, d)
    requires Walkable(names, root, d, order) && |order| == |Subfolders(names, root)|
    modifies client
    ensures client.Valid() && old(client.tick) <= client.tick && old(client.trace) <= client.trace
    ensures Cleaned(old(client.boxes), client.boxes, client.noselect, root, d, (deleted, skipped),
                    Smooth(client.answers, old(client.tick), client.tick))
    ensures AllSound(old(client.boxes), client.trace, |old(client.trace)|, client.noselect, names, root, d)
  {
    hide *;
    ghost var before, mark, start := client.boxes, |client.trace|, client.tick;
    ghost var gone: set<string> := {};
    Starting(before, client.trace, mark, client.noselect, names, root, d, order, Smooth(client.answers, start, start));
    var children := Children(names, d, {});
    deleted, skipped := 0, 0;
    var i := 0;
    while i < |order|
      invariant client.Valid() && start <= client.tick && old(client.trace) <= client.trace
      invariant 0 <= i <= |order| && deleted == |gone| && deleted + skipped == i
      invariant children == Children(names, d, gone)
      invariant Progress(before, client.boxes, client.noselect, names, root, d, order, i, gone,
                         Smooth(client.answers, start, client.tick))
      invariant Sound(before, client.boxes, client.noselect, names, root, d)
      invariant AllSound(before, client.trace, mark, client.noselect, names, root, d)
    {
      var name := order[i];
      if children[name] != {} {
        ProgressKept(before, client.boxes, client.noselect, names, root, d, order, i, gone, Smooth(client.answers, start, client.tick));
        i, skipped := i + 1, skipped + 1;
        continue;
      }
      ghost var now, states, from := client.boxes, client.trace, client.tick;
      var ok := RemoveIfEmpty(client, name);
      SmoothSplits(client.answers, start, from, client.tick);
      ProgressMade(before, now, client.boxes, client.noselect, names, root, d, order, i, gone,
                   Smooth(client.answers, start, from), Smooth(client.answers, start, client.tick), ok);
      AllSoundStep(before, states, client.trace, mark, now, client.boxes, client.noselect, names, root, d);
      i := i + 1;
      if !ok {
        skipped := skipped + 1;
        continue;
      }
      deleted := deleted + 1;
      ChildrenAfter(names, d, gone, name);
      OneMore(gone, name);
      gone := gone + {name};
      var p := Parent(name, d);
      if p.Some? && p.value in children {
        children := children[p.value := children[p.value] - {name}];
      }
    }
    WalkDone(before, client.boxes, client.noselect, names, root, d, order, gone, (deleted, skipped),
             Smooth(client.answers, start, client.tick));
  }

  // ---------- what that means for the folders, segment by segment ----------

  /** A folder below the root that holds no message, and no folder below it does, as far as all of them can be opened. */
  ghost predicate EmptySubtree(boxes: Boxes, noselect: set<string>, root: string, d: char, name: string) {
    && name in boxes && Split(root, d) < Split(name, d)
    && forall m <- boxes :: Split(name, d) <= Split(m, d) ==> boxes[m].slots == map[] && m !in noselect
  }

  /** Every folder below the root has the folder above it. */
  ghost predicate ParentsExist(boxes: Boxes, root: string, d: char) {
    forall n <- boxes :: Split(root, d) < Split(n, d) ==> Join(Split(n, d)[..|Split(n, d)| - 1], d) in boxes
  }

  lemma ClosedByParents(boxes: Boxes, root: string, d: char)
    requires ParentsExist(boxes, root, d)
    ensures ParentClosed(ArchiveNames(boxes.Keys, root, d), root, d)
  {
    var names := ArchiveNames(boxes.Keys, root, d);
    forall n <- names | n != root ensures Parent(n, d).Some? && Parent(n, d).value in names {
      ArchivedSegments(n, root, d);
      InsideSegments(n, root, d);
      ParentSegments(n, d);
      InsideParent(n, root, d);
    }
  }

  /** Main result: when every parent exists, a cleanup without failures removes precisely the folders below the root
      whose whole subtree, as the segments spell it out, holds no message. */
  lemma EmptySubtreesGo(boxes: Boxes, noselect: set<string>, root: string, d: char, name: string)
    requires ParentsExist(boxes, root, d)
    ensures name in ToGo(boxes, noselect, ArchiveNames(boxes.Keys, root, d), root, d) <==> EmptySubtree(boxes, noselect, root, d, name)
  {
    var names := ArchiveNames(boxes.Keys, root, d);
    ClosedByParents(boxes, root, d);
    forall m ensures Archived(m, root, d) <==> Split(root, d) <= Split(m, d) { ArchivedSegments(m, root, d); }
    forall m ensures Archived(m, name, d) <==> Split(name, d) <= Split(m, d) { ArchivedSegments(m, name, d); }
    InsideSegments(name, root, d);
    hide Split, Linked, ParentClosed;
    if name in names && name != root {
      forall m <- names ensures Linked(names, d, m, name) <==> Split(name, d) <= Split(m, d) {
        LinksAreSubtrees(names, root, d, m, name);
      }
    }
  }

  /** At every moment, whatever fails, only bare folders below the root are gone. */
  lemma OnlyBelowRoot(before: Boxes, now: Boxes, noselect: set<string>, root: string, d: char)
    requires Sound(before, now, noselect, ArchiveNames(before.Keys, root, d), root, d)
    ensures forall n <- before.Keys - now.Keys :: Split(root, d) < Split(n, d) && before[n].slots == map[]
  {
    forall n <- before.Keys - now.Keys ensures Split(root, d) < Split(n, d) && before[n].slots == map[] {
      assert MayGo(before, now, noselect, ArchiveNames(before.Keys, root, d), root, d, n);
      InsideSegments(n, root, d);
    }
  }

  ghost predicate AllBelowRoot(before: Boxes, states: seq<Boxes>, from: nat, root: string, d: char) {
    forall k :: from <= k < |states| ==> forall n <- before.Keys - states[k].Keys :: Split(root, d) < Split(n, d) && before[n].slots == map[]
  }

  lemma SoundIsBelow(before: Boxes, states: seq<Boxes>, from: nat, noselect: set<string>, root: string, d: char)
    requires AllSound(before, states, from, noselect, ArchiveNames(before.Keys, root, d), root, d)
    ensures AllBelowRoot(before, states, from, root, d)
  {
    hide Sound, Split;
    forall k | from <= k < |states| ensures forall n <- before.Keys - states[k].Keys :: Split(root, d) < Split(n, d) && before[n].slots == map[] {
      OnlyBelowRoot(before, states[k], noselect, root, d);
    }
  }

  lemma CleanedMeans(before: Boxes, now: Boxes, noselect: set<string>, root: string, d: char, counts: (nat, nat))
    requires Cleaned(before, now, noselect, root, d, counts, true) && ParentsExist(before, root, d)
    ensures forall n <- before :: n !in now <==> EmptySubtree(before, noselect, root, d, n)
  {
    hide Sound, ToGo, EmptySubtree;
    forall n <- before ensures n !in now <==> EmptySubtree(before, noselect, root, d, n) {
      EmptySubtreesGo(before, noselect, root, d, n);
    }
  }

  // ---------- the cleanup ----------

  method Cleanup(client: Client, root: string) returns (r: Result<(nat, nat), ImapError>)
    requires client.Valid()
    modifies client
    ensures client.Valid() && old(client.tick) < client.tick && old(client.trace) <= client.trace
    ensures r.Ok? <==> AnswerTo(client.answers, old(client.tick)).Works?
    ensures r.Err? ==> client.boxes == old(client.boxes)
    ensures r.Ok? ==>
              Cleaned(old(client.boxes), client.boxes, client.noselect, root, client.Separator(), r.value,
                      Smooth(client.answers, old(client.tick), client.tick))
    ensures AllSound(old(client.boxes), client.trace, |old(client.trace)|, client.noselect,
                     ArchiveNames(old(client.boxes).Keys, root, client.Separator()), root, client.Separator())
    ensures AllBelowRoot(old(client.boxes), client.trace, |old(client.trace)|, root, client.Separator())
    ensures Smooth(client.answers, old(client.tick), client.tick) && ParentsExist(old(client.boxes), root, client.Separator()) ==>
              forall n <- old(client.boxes) ::
                n !in client.boxes <==> EmptySubtree(old(client.boxes), client.noselect, root, client.Separator(), n)
  {
    hide Sound, AllSound, Cleaned, AllBelowRoot, ParentsExist, EmptySubtree;
    ghost var before, sofar := client.boxes, |client.trace|;
    var listed := client.ListFolders();
    ghost var inside := ArchiveNames(before.Keys, root, client.Separator());
    Untouched(before, client.trace, sofar, client.noselect, inside, root, client.Separator());
    SoundIsBelow(before, client.trace, sofar, client.noselect, root, client.Separator());
    SmoothOnce(client.answers, old(client.tick));
    if listed.Err? { return Err(listed.error); }
    var d := DelimiterOf(listed.value);
    var names := ArchiveNames(Names(listed.value), root, d);
    if names == {} || names == {root} {
      NothingBelow(before, client.noselect, root, client.Separator());
      if ParentsExist(before, root, client.Separator()) {
        CleanedMeans(before, before, client.noselect, root, client.Separator(), (0, 0));
      }
      return Ok((0, 0));
    }
    var order := SortByDepth(Subfolders(names, root), d);
    ghost var states, from := client.trace, client.tick;
    var deleted, skipped := Walk(client, names, root, d, order);
    SmoothSplits(client.answers, old(client.tick), from, client.tick);
    AllSoundJoins(before, states, client.trace, sofar, client.noselect, names, root, d);
    SoundIsBelow(before, client.trace, sofar, client.noselect, root, d);
    if Smooth(client.answers, old(client.tick), client.tick) && ParentsExist(before, root, d) {
      CleanedMeans(before, client.boxes, client.noselect, root, d, (deleted, skipped));
    }
    return Ok((deleted, skipped));
  }

  lemma AllSoundJoins(before: Boxes, states: seq<Boxes>, more: seq<Boxes>, from: nat,
                      noselect: set<string>, names: set<string>, root: string, d: char)
    requires from <= |states| && states <= more && AllSound(before, states, from, noselect, names, root, d)
    requires AllSound(before, more, |states|, noselect, names, root, d)
    ensures AllSound(before, more, from, noselect, names, root, d)
  {
    hide Sound;
    forall k | from <= k < |more| ensures Sound(before, more[k], noselect, names, root, d) {
      assert k < |states| ==> more[k] == states[k];
    }
  }

  lemma Starting(before: Boxes, states: seq<Boxes>, from: nat, noselect: set<string>, names: set<string>, root: string, d: char,
                 order: seq<string>, smooth: bool)
    requires from == |states| && Walkable(names, root, d, order)
    ensures Progress(before, before, noselect, names, root, d, order, 0, {}, smooth)
    ensures AllSound(before, states, from, noselect, names, root, d)
    ensures forall n <- order :: n in names
  {
    assert order[..0] == [];
    Untouched(before, states, from, noselect, names, root, d);
  }

  lemma Untouched(before: Boxes, states: seq<Boxes>, from: nat, noselect: set<string>, names: set<string>, root: string, d: char)
    requires forall k :: from <= k < |states| ==> states[k] == before
    ensures Sound(before, before, noselect, names, root, d)
    ensures AllSound(before, states, from, noselect, names, root, d)
  {
  }

  lemma NothingBelow(before: Boxes, noselect: set<string>, root: string, d: char)
    requires ArchiveNames(before.Keys, root, d) <= {root}
    ensures Cleaned(before, before, noselect, root, d, (0, 0), true)
  {
    assert Subfolders(ArchiveNames(before.Keys, root, d), root) == {};
  }
}
