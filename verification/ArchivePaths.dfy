/**
 Where an archived message goes, and creating the folders on the way there: server/adapters.py
 lines 220-253.
 */
module ArchivePaths {
  import opened Outcome
  import opened Text
  import opened Mailboxes
  import opened ImapClient

  function Split(s: string, d: char): (parts: seq<string>)
    ensures parts != []
  {
    if s == [] then [[]]
    else
      var rest := Split(s[1..], d);
      if s[0] == d then [[]] + rest else [[s[0]] + rest[0]] + rest[1..]
  }

  function Join(parts: seq<string>, d: char): string
    requires parts != []
  {
    if |parts| == 1 then parts[0] else parts[0] + [d] + Join(parts[1..], d)
  }

  lemma {:induction false} JoinSplit(s: string, d: char)
    ensures Join(Split(s, d), d) == s
  {
    if s != [] {
      JoinSplit(s[1..], d);
      var rest := Split(s[1..], d);
      var parts := Split(s, d);
      if s[0] == d {
        assert parts[1..] == rest;
      } else {
        assert parts[1..] == rest[1..];
        assert Join(parts, d) == [s[0]] + Join(rest, d);
      }
    }
  }

  function Destination(root: string, subfolder: string, d: char): Option<string> {
    var dest := if subfolder != [] then root + [d] + Replace(subfolder, '/', d) else root;
    if dest != root && !(root + [d] <= dest) then None
    else if ".." in Split(dest, d) then None
    else Some(dest)
  }

  lemma {:induction false} SplitConcat(a: string, b: string, d: char)
    ensures Split(a + [d] + b, d) == Split(a, d) + Split(b, d)
  {
    if a == [] {
      assert ([] + [d] + b)[1..] == b;
    } else {
      assert (a + [d] + b)[1..] == a[1..] + [d] + b;
      SplitConcat(a[1..], b, d);
    }
  }

  lemma {:induction false} SplitParts(s: string, d: char)
    ensures forall p <- Split(s, d) :: d !in p
  {
    if s != [] { SplitParts(s[1..], d); }
  }

  /** The segments of a path as it is typed: cut at slashes and at the server's delimiter. */
  function Cut(s: string, d: char): (parts: seq<string>)
    ensures parts != []
  {
    if s == [] then [[]]
    else
      var rest := Cut(s[1..], d);
      if s[0] == '/' || s[0] == d then [[]] + rest else [[s[0]] + rest[0]] + rest[1..]
  }

  lemma {:induction false} CutTranslated(s: string, d: char)
    ensures Split(Replace(s, '/', d), d) == Cut(s, d)
  {
    if s != [] {
      assert Replace(s, '/', d)[1..] == Replace(s[1..], '/', d);
      CutTranslated(s[1..], d);
    }
  }

  /** Mail filed under a subfolder goes to the folder below the root with its segments, and to the root itself
      without one. */
  ghost predicate FiledUnder(dest: string, root: string, subfolder: string, d: char) {
    && (dest == root <==> subfolder == "")
    && (subfolder != "" ==> Split(dest, d) == Split(root, d) + Cut(subfolder, d))
  }

  /** Main result: the destination is the folder that was asked for. */
  lemma DestinationFiles(root: string, subfolder: string, d: char)
    ensures var dest := Destination(root, subfolder, d);
            && (dest.Some? ==> FiledUnder(dest.value, root, subfolder, d))
            && (dest.None? <==> ".." in Split(root, d) || (subfolder != "" && ".." in Cut(subfolder, d)))
  {
    DestinationStaysInside(root, subfolder, d);
    CutTranslated(subfolder, d);
    SplitConcat(root, Replace(subfolder, '/', d), d);
  }

  /** Different segments, different folders. */
  lemma FiledApart(root: string, a: string, b: string, d: char)
    requires Destination(root, a, d).Some? && Destination(root, a, d) == Destination(root, b, d)
    ensures a == b == "" || (a != "" && b != "" && Cut(a, d) == Cut(b, d))
  {
    DestinationFiles(root, a, d);
    DestinationFiles(root, b, d);
    if a != "" {
      var n := |Split(root, d)|;
      assert (Split(root, d) + Cut(a, d))[n..] == Cut(a, d);
      assert (Split(root, d) + Cut(b, d))[n..] == Cut(b, d);
    }
  }

  /** A destination is refused exactly when the root or the translated subfolder has a ".." segment;
      otherwise it lies at or below the root. The prefix test never decides. */
  lemma DestinationStaysInside(root: string, subfolder: string, d: char)
    ensures Destination(root, subfolder, d) == None <==>
            ".." in Split(root, d) || (subfolder != [] && ".." in Split(Replace(subfolder, '/', d), d))
    ensures var dest := Destination(root, subfolder, d);
            dest.Some? ==> (dest.value == root || root + [d] <= dest.value) && ".." !in Split(dest.value, d)
  {
    if subfolder != [] {
      SplitConcat(root, Replace(subfolder, '/', d), d);
    }
  }

  /** The folder at level `i` on the way to the destination. */
  function Ancestor(dest: string, d: char, i: nat): string
    requires 1 <= i <= |Split(dest, d)|
  {
    Join(Split(dest, d)[..i], d)
  }

  ghost predicate OnTheWay(dest: string, d: char, n: nat, name: string)
    requires n <= |Split(dest, d)|
  {
    exists i :: 1 <= i <= n && name == Ancestor(dest, d, i)
  }

  /** Folders were only added, all of them empty and on the way to `dest`. */
  ghost predicate OnlyAdded(before: Boxes, now: Boxes, dest: string, d: char) {
    && (forall n <- before :: n in now && now[n] == before[n])
    && (forall n <- now :: n in before || (now[n].slots == map[] && OnTheWay(dest, d, |Split(dest, d)|, n)))
  }

  ghost predicate AllOnlyAdded(before: Boxes, states: seq<Boxes>, from: nat, dest: string, d: char) {
    forall k :: from <= k < |states| ==> OnlyAdded(before, states[k], dest, d)
  }

  method EnsureHierarchy(client: Client, dest: string, d: char) returns (ok: bool)
    requires client.Valid()
    modifies client
    ensures client.Valid() && client.selected == old(client.selected) && client.hollow == old(client.hollow)
    ensures old(client.tick) <= client.tick && old(client.trace) <= client.trace
    ensures ok ==> dest in client.boxes && forall i :: 1 <= i <= |Split(dest, d)| ==> Ancestor(dest, d, i) in client.boxes
    ensures Smooth(client.answers, old(client.tick), client.tick) ==> ok
    ensures OnlyAdded(old(client.boxes), client.boxes, dest, d)
    ensures AllOnlyAdded(old(client.boxes), client.trace, |old(client.trace)|, dest, d)
  {
    var parts := Split(dest, d);
    ghost var before := client.boxes;
    var i := 1;
    while i <= |parts|
      invariant 1 <= i <= |parts| + 1 && client.Valid() && client.selected == old(client.selected) && client.hollow == old(client.hollow)
      invariant old(client.tick) <= client.tick && old(client.trace) <= client.trace
      invariant forall j :: 1 <= j < i ==> Ancestor(dest, d, j) in client.boxes
      invariant OnlyAdded(before, client.boxes, dest, d)
      invariant AllOnlyAdded(before, client.trace, |old(client.trace)|, dest, d)
    {
      assert OnTheWay(dest, d, |parts|, Ancestor(dest, d, i));
      ghost var mark, states := client.tick, client.trace;
      ok := client.CreateFolder(Join(parts[..i], d));
      SmoothSplits(client.answers, old(client.tick), mark, client.tick);
      assert forall k :: 0 <= k < |states| ==> client.trace[k] == states[k];
      if !ok { return; }
      i := i + 1;
    }
    assert parts[..|parts|] == parts;
    JoinSplit(dest, d);
    assert dest == Ancestor(dest, d, |parts|);
    ok := true;
  }
}
