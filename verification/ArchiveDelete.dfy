/**
 Deleting an archive folder on request, by force with everything below it:
 server/_archive_service.py lines 467-553.
 */
module ArchiveDelete {
  import opened Outcome
  import opened Text
  import opened Mailboxes
  import opened ChunkedMoves
  import opened ImapClient
  import opened ArchiveCleanup
  import opened ArchivePaths

  datatype Reply = BadRequest | Escapes | Deleted | NotFound | NotEmpty | HasChildren | Failed

  predicate Below(name: string, folder: string, d: char) {
    name == folder || Inside(name, folder, d)
  }

  function Subtree(names: set<string>, folder: string, d: char): set<string> {
    set n | n in names && Below(n, folder, d)
  }

  function Elements(order: seq<string>): set<string> {
    set n | n in order
  }

  /** Nothing outside the subtree changed, and no folder is gone while one inside it remains. */
  ghost predicate Trimmed(before: Boxes, now: Boxes, folder: string, d: char) {
    && now.Keys <= before.Keys
    && (forall n <- before :: !Below(n, folder, d) ==> n in now && now[n] == before[n])
    && (forall n <- before.Keys - now.Keys, m <- now :: !Inside(m, n, d))
  }

  ghost predicate AllTrimmed(before: Boxes, states: seq<Boxes>, from: nat, folder: string, d: char) {
    forall k :: from <= k < |states| ==> Trimmed(before, states[k], folder, d)
  }

  lemma {:induction false} CountJoins(a: string, b: string, d: char)
    ensures Count(a + b, d) == Count(a, d) + Count(b, d)
    decreases |b|
  {
    if b == "" {
      assert a + b == a;
    } else {
      var s := a + b;
      assert s[|s| - 1] == b[|b| - 1] && s[..|s| - 1] == a + b[..|b| - 1];
      CountJoins(a, b[..|b| - 1], d);
    }
  }

  lemma InsideIsDeeper(name: string, folder: string, d: char)
    requires Inside(name, folder, d)
    ensures Count(name, d) > Count(folder, d)
  {
    assert name == folder + [d] + name[|folder| + 1..];
    CountJoins(folder, [d], d);
    CountJoins(folder + [d], name[|folder| + 1..], d);
    assert [d][..0] == "";
  }

  lemma InsideTheSubtree(m: string, n: string, folder: string, d: char)
    requires Inside(m, n, d) && Below(n, folder, d)
    ensures Inside(m, folder, d)
  {
    if n != folder { InsideTwice(m, n, folder, d); }
  }

  /** Empty one folder of the subtree and delete it, the folders inside it having gone before. */
  method EmptyAndDelete(client: Client, name: string, ghost before: Boxes, ghost folder: string, ghost d: char) returns (ok: bool)
    requires client.Valid() && Below(name, folder, d) && Trimmed(before, client.boxes, folder, d)
    requires forall m <- client.boxes :: !Inside(m, name, d)
    modifies client
    ensures client.Valid() && old(client.tick) <= client.tick && old(client.trace) <= client.trace
    ensures Trimmed(before, client.boxes, folder, d) && AllTrimmed(before, client.trace, |old(client.trace)|, folder, d)
    ensures ok ==> name !in client.boxes && client.boxes.Keys == old(client.boxes.Keys) - {name}
    ensures client.boxes.Keys == old(client.boxes.Keys) || client.boxes.Keys == old(client.boxes.Keys) - {name}
    ensures Smooth(client.answers, old(client.tick), client.tick) && name in old(client.boxes) && name !in client.noselect ==> ok
  {
    hide Trimmed, Smooth, Search, DeleteAll, Below, DeletedOnly, AllDeletedOnly;
    ghost var was, start, sofar := client.boxes, client.tick, client.trace;
    TrimmedSofar(before, sofar, folder, d);
    var selected := client.SelectFolder(name);
    TrimmedNext(before, sofar, client.trace, |sofar|, was, folder, d);
    SmoothOnce(client.answers, start);
    if selected.Err? { return false; }
    ghost var mark, states := client.tick, client.trace;
    SmoothSplits(client.answers, start, mark, mark);
    var uids := client.SearchUids(All);
    SmoothSplits(client.answers, start, mark, client.tick);
    SmoothOnce(client.answers, mark);
    TrimmedNext(before, states, client.trace, |sofar|, was, folder, d);
    if uids.Err? { return false; }
    if uids.value != [] {
      mark, states := client.tick, client.trace;
      var deleted := client.DeleteMessages(uids.value);
      SmoothSplits(client.answers, start, mark, client.tick);
      TrimmedByDeletion(before, was, client.boxes, name, folder, d, Seen(uids.value));
      TrimmedByDeletions(before, was, states, client.trace, |sofar|, name, folder, d, Seen(uids.value));
      if deleted.Err? { return false; }
    }
    ghost var emptied := client.boxes;
    mark, states := client.tick, client.trace;
    assert emptied.Keys == was.Keys by { SameKeys(was, emptied, name, Seen(uids.value), uids.value == []); }
    ok := client.DeleteFolder(name);
    SmoothSplits(client.answers, start, mark, client.tick);
    SmoothOnce(client.answers, mark);
    TrimmedByRemoval(before, emptied, name, folder, d);
    TrimmedNext(before, states, client.trace, |sofar|, client.boxes, folder, d);
  }

  lemma SameKeys(was: Boxes, now: Boxes, name: string, uids: set<nat>, same: bool)
    requires if same then now == was else name in was && DeletedOnly(was, now, name, uids)
    ensures now.Keys == was.Keys
  {
  }

  lemma TrimmedSofar(before: Boxes, states: seq<Boxes>, folder: string, d: char)
    ensures AllTrimmed(before, states, |states|, folder, d)
  {
  }

  lemma TrimmedNext(before: Boxes, states: seq<Boxes>, more: seq<Boxes>, from: nat, now: Boxes, folder: string, d: char)
    requires more == states + [now] && AllTrimmed(before, states, from, folder, d) && Trimmed(before, now, folder, d)
    ensures AllTrimmed(before, more, from, folder, d)
  {
    hide Trimmed;
  }

  lemma TrimmedByDeletion(before: Boxes, was: Boxes, now: Boxes, name: string, folder: string, d: char, uids: set<nat>)
    requires Trimmed(before, was, folder, d) && Below(name, folder, d) && name in was && DeletedOnly(was, now, name, uids)
    ensures Trimmed(before, now, folder, d)
  {
    hide ShrunkTo, Below;
    assert now.Keys == was.Keys;
  }

  lemma TrimmedByDeletions(before: Boxes, was: Boxes, states: seq<Boxes>, more: seq<Boxes>, from: nat, name: string, folder: string, d: char,
                           uids: set<nat>)
    requires Trimmed(before, was, folder, d) && Below(name, folder, d) && name in was && states <= more
    requires AllTrimmed(before, states, from, folder, d) && AllDeletedOnly(was, more, |states|, name, uids)
    ensures AllTrimmed(before, more, from, folder, d)
  {
    hide Trimmed, DeletedOnly, Below;
    forall k | from <= k < |more| ensures Trimmed(before, more[k], folder, d) {
      if k < |states| {
        assert more[k] == states[k];
      } else {
        TrimmedByDeletion(before, was, more[k], name, folder, d, uids);
      }
    }
  }

  lemma TrimmedByRemoval(before: Boxes, was: Boxes, name: string, folder: string, d: char)
    requires Trimmed(before, was, folder, d) && Below(name, folder, d) && forall m <- was :: !Inside(m, name, d)
    ensures Trimmed(before, was, folder, d) && Trimmed(before, was - {name}, folder, d)
  {
    hide Below, Inside;
  }

  lemma NoneInside(before: Boxes, now: Boxes, order: seq<string>, i: nat, folder: string, d: char)
    requires i < |order| && DeepestFirst(order, d) && Below(order[i], folder, d)
    requires forall n <- before :: Inside(n, folder, d) ==> n in order
    requires now.Keys == before.Keys - Elements(order[..i])
    ensures forall m <- now :: !Inside(m, order[i], d)
  {
    forall m <- before | Inside(m, order[i], d) ensures m in order[..i] {
      InsideTheSubtree(m, order[i], folder, d);
      InsideIsDeeper(m, order[i], d);
      var k :| 0 <= k < |order| && order[k] == m;
      assert order[..i][k] == m;
    }
  }

  /** The folders inside, deepest first, and then the folder itself. */
  method ForceDelete(client: Client, folder: string, names: set<string>, d: char) returns (ok: bool)
    requires client.Valid() && names == client.boxes.Keys && folder in names
    modifies client
    ensures client.Valid() && old(client.tick) <= client.tick && old(client.trace) <= client.trace
    ensures Trimmed(old(client.boxes), client.boxes, folder, d)
    ensures AllTrimmed(old(client.boxes), client.trace, |old(client.trace)|, folder, d)
    ensures ok ==> client.boxes == old(client.boxes) - Subtree(names, folder, d)
    ensures Smooth(client.answers, old(client.tick), client.tick) && Subtree(names, folder, d) !! client.noselect ==> ok
  {
    ghost var before, start, sofar := client.boxes, client.tick, client.trace;
    var inside := set n | n in names && Inside(n, folder, d);
    var order := SortByDepth(inside, d);
    assert forall n <- order :: n in inside;
    UntouchedIsTrimmed(before, folder, d);
    InsideIsBelow(folder, d);
    SubtreeIs(names, order, folder, d);
    hide Trimmed, Smooth, Inside, DeepestFirst, Distinct, Subtree, Below, AllTrimmed;
    TrimmedSofar(before, sofar, folder, d);
    NothingSent(client.answers, start);
    var i := 0;
    while i < |order|
      invariant client.Valid() && 0 <= i <= |order| && start <= client.tick && sofar <= client.trace
      invariant Trimmed(before, client.boxes, folder, d) && AllTrimmed(before, client.trace, |sofar|, folder, d)
      invariant client.boxes.Keys == before.Keys - Elements(order[..i])
    {
      ghost var mark, states := client.tick, client.trace;
      assert order[i] in order && Below(order[i], folder, d);
      NoneInside(before, client.boxes, order, i, folder, d);
      NotBefore(order, i);
      ok := EmptyAndDelete(client, order[i], before, folder, d);
      SmoothSplits(client.answers, start, mark, client.tick);
      AllTrimmedJoins(before, states, client.trace, |sofar|, folder, d);
      if !ok { return; }
      OneMoreGone(order, i);
      i := i + 1;
    }
    assert order[..i] == order;
    ghost var mark, states := client.tick, client.trace;
    FolderRemains(before, client.boxes, order, folder, d);
    ok := EmptyAndDelete(client, folder, before, folder, d);
    SmoothSplits(client.answers, start, mark, client.tick);
    AllTrimmedJoins(before, states, client.trace, |sofar|, folder, d);
    if ok { ExactlyTheSubtree(before, client.boxes, order, folder, d); }
  }

  lemma UntouchedIsTrimmed(before: Boxes, folder: string, d: char)
    ensures Trimmed(before, before, folder, d)
  {
  }

  lemma InsideIsBelow(folder: string, d: char)
    ensures Below(folder, folder, d) && forall n: string :: Inside(n, folder, d) ==> Below(n, folder, d)
  {
  }

  lemma SubtreeIs(names: set<string>, order: seq<string>, folder: string, d: char)
    requires folder in names && forall n <- order :: n in names && Inside(n, folder, d)
    ensures folder in Subtree(names, folder, d) && forall n <- order :: n in Subtree(names, folder, d)
  {
  }

  lemma OneMoreGone(order: seq<string>, i: nat)
    requires i < |order|
    ensures Elements(order[..i + 1]) == Elements(order[..i]) + {order[i]}
  {
    assert order[..i + 1] == order[..i] + [order[i]];
    assert forall n :: n in order[..i + 1] <==> n in order[..i] || n == order[i];
  }

  lemma NotBefore(order: seq<string>, i: nat)
    requires Distinct(order) && i < |order|
    ensures order[i] !in order[..i]
  {
  }

  lemma AllTrimmedJoins(before: Boxes, states: seq<Boxes>, more: seq<Boxes>, from: nat, folder: string, d: char)
    requires from <= |states| && states <= more && AllTrimmed(before, states, from, folder, d) && AllTrimmed(before, more, |states|, folder, d)
    ensures AllTrimmed(before, more, from, folder, d)
  {
    hide Trimmed;
    forall k | from <= k < |more| ensures Trimmed(before, more[k], folder, d) {
      assert k < |states| ==> more[k] == states[k];
    }
  }

  lemma FolderRemains(before: Boxes, now: Boxes, order: seq<string>, folder: string, d: char)
    requires folder in before && forall n :: n in order <==> n in before && Inside(n, folder, d)
    requires now.Keys == before.Keys - Elements(order)
    ensures folder in now && forall m <- now :: !Inside(m, folder, d)
  {
  }

  lemma ExactlyTheSubtree(before: Boxes, now: Boxes, order: seq<string>, folder: string, d: char)
    requires forall n :: n in order <==> n in before && Inside(n, folder, d)
    requires now.Keys == before.Keys - Elements(order) - {folder} && Trimmed(before, now, folder, d)
    ensures now == before - Subtree(before.Keys, folder, d)
  {
    hide Inside;
    assert now.Keys == before.Keys - Subtree(before.Keys, folder, d);
  }

  /** The folder a request names, in the server's own hierarchy. */
  function Target(root: string, subfolder: string, d: char): string {
    Replace(root + "/" + subfolder, '/', d)
  }

  /** It always lies inside the archive root, so the source's prefix test never refuses anything. */
  lemma TargetInside(root: string, subfolder: string, d: char)
    ensures Inside(Target(root, subfolder, d), Replace(root, '/', d), d)
  {
    assert Target(root, subfolder, d) == Replace(root, '/', d) + [d] + Replace(subfolder, '/', d);
  }

  /** It has the segments of the root and then those of the request. */
  lemma TargetSegments(root: string, subfolder: string, d: char)
    ensures Split(Target(root, subfolder, d), d) == Cut(root, d) + Cut(subfolder, d)
  {
    assert Target(root, subfolder, d) == Replace(root, '/', d) + [d] + Replace(subfolder, '/', d);
    SplitConcat(Replace(root, '/', d), Replace(subfolder, '/', d), d);
    CutTranslated(root, d);
    CutTranslated(subfolder, d);
  }

  /** With the folders listed: without force only an empty folder without folders inside is deleted. */
  method DeleteListed(client: Client, folder: string, names: set<string>, d: char, force: bool) returns (r: Reply)
    requires client.Valid() && names == client.boxes.Keys
    modifies client
    ensures client.Valid() && old(client.tick) <= client.tick
    ensures r in {Deleted, NotFound, NotEmpty, HasChildren, Failed}
    ensures r == Deleted ==> folder in names && client.boxes == old(client.boxes) - Subtree(names, folder, d)
    ensures r == Deleted && !force ==> old(client.boxes)[folder].slots == map[] && Subtree(names, folder, d) == {folder}
    ensures r == NotFound ==> folder !in client.boxes && client.boxes == old(client.boxes)
    ensures r == NotEmpty ==> !force && folder in client.boxes && client.boxes[folder].slots != map[] && client.boxes == old(client.boxes)
    ensures r == HasChildren ==>
              && !force && folder in client.boxes && client.boxes[folder].slots == map[] && client.boxes == old(client.boxes)
              && exists n <- client.boxes :: Inside(n, folder, d)
    ensures Trimmed(old(client.boxes), client.boxes, folder, d)
    ensures Smooth(client.answers, old(client.tick), client.tick) && Subtree(names, folder, d) !! client.noselect ==> r != Failed
  {
    ghost var before, start := client.boxes, client.tick;
    assert Trimmed(before, before, folder, d);
    hide Trimmed, Smooth, Inside;
    if folder !in names { return NotFound; }
    if !force {
      var count := client.SelectFolder(folder);
      SmoothOnce(client.answers, start);
      assert folder in Subtree(names, folder, d);
      if count.Err? { return Failed; }
      if count.value > 0 { return NotEmpty; }
      if exists n <- names :: Inside(n, folder, d) { return HasChildren; }
      assert client.boxes[folder].slots == map[];
      assert Subtree(names, folder, d) == {folder};
      ghost var mark := client.tick;
      var ok := client.DeleteFolder(folder);
      SmoothSplits(client.answers, start, mark, client.tick);
      SmoothOnce(client.answers, mark);
      TrimmedByRemoval(before, before, folder, folder, d);
      return if ok then Deleted else Failed;
    }
    var ok := ForceDelete(client, folder, names, d);
    return if ok then Deleted else Failed;
  }

  /** The whole request. It is refused before any command is sent if it is incomplete or has a ".." segment;
      otherwise only the named folder inside the archive root, and what is inside it, can be affected. */
  method DeleteFolderOnRequest(client: Client, root: string, subfolder: string, confirm: bool, force: bool) returns (r: Reply)
    requires client.Valid()
    modifies client
    ensures client.Valid() && old(client.tick) <= client.tick
    ensures r == BadRequest <==> subfolder == "" || !confirm
    ensures r == Escapes <==> subfolder != "" && confirm && ".." in Split(subfolder, '/')
    ensures r == BadRequest || r == Escapes ==> client.boxes == old(client.boxes) && client.tick == old(client.tick)
    ensures var folder, d := Target(root, subfolder, client.Separator()), client.Separator();
            && (r == Deleted ==> folder in old(client.boxes) && client.boxes == old(client.boxes) - Subtree(old(client.boxes.Keys), folder, d))
            && (r == Deleted && !force ==> old(client.boxes)[folder].slots == map[] && Subtree(old(client.boxes.Keys), folder, d) == {folder})
            && (r == NotFound ==> folder !in client.boxes && client.boxes == old(client.boxes))
            && (r == NotEmpty ==> !force && folder in client.boxes && client.boxes[folder].slots != map[] && client.boxes == old(client.boxes))
            && (r == HasChildren ==>
                  && !force && folder in client.boxes && client.boxes[folder].slots == map[] && client.boxes == old(client.boxes)
                  && exists n <- client.boxes :: Inside(n, folder, d))
            && Trimmed(old(client.boxes), client.boxes, folder, d) && Inside(folder, Replace(root, '/', d), d)
            && Split(folder, d) == Cut(root, d) + Cut(subfolder, d)
            && (Smooth(client.answers, old(client.tick), client.tick) && Subtree(old(client.boxes.Keys), folder, d) !! client.noselect ==>
                  r != Failed)
  {
    ghost var before, start := client.boxes, client.tick;
    assert Trimmed(before, before, Target(root, subfolder, client.Separator()), client.Separator());
    TargetInside(root, subfolder, client.Separator());
    TargetSegments(root, subfolder, client.Separator());
    hide Trimmed, Smooth, Inside, DelimiterOf, Names, Target, Split, Subtree;
    if subfolder == "" || !confirm { return BadRequest; }
    if ".." in Split(subfolder, '/') { return Escapes; }
    var listed := client.ListFolders();
    SmoothOnce(client.answers, start);
    if listed.Err? { return Failed; }
    var d, names := DelimiterOf(listed.value), Names(listed.value);
    var folder := Target(root, subfolder, d);
    PrefixTest(root, subfolder, d);
    if folder != Replace(root, '/', d) && !(Replace(root, '/', d) + [d] <= folder) { return Escapes; }
    if folder !in names { return NotFound; }
    ghost var mark := client.tick;
    r := DeleteListed(client, folder, names, d, force);
    SmoothSplits(client.answers, start, mark, client.tick);
  }

  lemma PrefixTest(root: string, subfolder: string, d: char)
    ensures Replace(root, '/', d) + [d] <= Target(root, subfolder, d)
  {
    TargetInside(root, subfolder, d);
  }
}
