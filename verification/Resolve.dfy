/**
 Finding a message again after its identifier went stale: imap/mailbox.py lines 138-164 and 196-257.
 Which folders count as waste is given.
 */
module Resolve {
  import opened Outcome
  import opened Mailboxes
  import opened ImapClient

  /** The lowest message of the folder with this Message-ID. */
  function FirstWith(box: Mailbox, id: string): (u: Option<nat>)
    ensures box.Valid() ==> (u.Some? <==> exists v <- box.slots :: box.slots[v].mail.messageId == id)
    ensures u.Some? ==> u.value in box.slots && box.slots[u.value].mail.messageId == id
    ensures u.Some? && box.Valid() ==> forall v <- box.slots :: box.slots[v].mail.messageId == id ==> u.value <= v
  {
    var found := Search(box, HasMessageId(id));
    assert forall u: nat :: u in found <==> u < box.next && Matches(box, HasMessageId(id), u);
    assert found != [] ==> found[0] in found;
    assert forall v <- box.slots :: box.Valid() && box.slots[v].mail.messageId == id ==> v in found;
    if found == [] then None else Some(found[0])
  }

  /** The stored identifier is trusted if the folder has any message under it; the Message-ID is only
      consulted otherwise. */
  method ResolveUidWithFallback(client: Client, folder: string, uid: nat, id: string) returns (r: Result<nat, ImapError>)
    requires client.Valid()
    modifies client
    ensures client.Valid() && client.boxes == old(client.boxes) && client.hollow == old(client.hollow)
    ensures old(client.tick) < client.tick && old(client.trace) <= client.trace
    ensures Still(client.trace, |old(client.trace)|, client.boxes)
    ensures r.Ok? ==> client.Ready() && client.selected == Some(folder) && r.value in client.boxes[folder].slots
    ensures r.Ok? ==> r.value == uid || (uid !in client.boxes[folder].slots && FirstWith(client.boxes[folder], id) == Some(r.value))
    ensures r == Err(MessageNotFound) ==>
              folder in client.boxes && uid !in client.boxes[folder].slots && FirstWith(client.boxes[folder], id).None?
    ensures Smooth(client.answers, old(client.tick), client.tick) && folder in client.boxes && folder !in client.noselect ==>
              r.Ok? || r.error == MessageNotFound
  {
    var selected := client.SelectFolder(folder);
    if selected.Err? { return Err(selected.error); }
    var live := client.SearchUids(UidSet({uid}));
    if live.Err? { return Err(live.error); }
    SearchFinds(client.boxes[folder], {uid});
    assert Live(client.boxes[folder], {uid}) == if uid in client.boxes[folder].slots then {uid} else {};
    if live.value != [] { return Ok(uid); }
    var found := client.SearchUids(HasMessageId(id));
    if found.Err? { return Err(found.error); }
    if found.value == [] { return Err(MessageNotFound); }
    assert FirstWith(client.boxes[folder], id) == Some(found.value[0]);
    return Ok(found.value[0]);
  }

  /** The folder can be opened and searched, two commands from now on. */
  ghost predicate Looked(boxes: Boxes, noselect: set<string>, answers: Script, tick: nat, folder: string) {
    folder in boxes && folder !in noselect && AnswerTo(answers, tick).Works? && AnswerTo(answers, tick + 1).Works?
  }

  /** How many commands have been answered when such a look is over, whether it came off or not. */
  ghost function LookedUntil(boxes: Boxes, noselect: set<string>, answers: Script, tick: nat, folder: string): nat {
    if folder in boxes && folder !in noselect && AnswerTo(answers, tick).Works? then tick + 2 else tick + 1
  }

  ghost predicate Still(states: seq<Boxes>, from: nat, boxes: Boxes) {
    forall k :: from <= k < |states| ==> states[k] == boxes
  }

  /** Open a folder and search it for the Message-ID. */
  method LookInto(client: Client, folder: string, id: string) returns (r: Result<Option<nat>, ImapError>)
    requires client.Valid()
    modifies client
    ensures client.Valid() && client.boxes == old(client.boxes) && client.hollow == old(client.hollow)
    ensures old(client.tick) < client.tick <= old(client.tick) + 2 && old(client.trace) <= client.trace
    ensures client.tick == LookedUntil(client.boxes, client.noselect, client.answers, old(client.tick), folder)
    ensures Still(client.trace, |old(client.trace)|, client.boxes)
    ensures r.Ok? <==> Looked(client.boxes, client.noselect, client.answers, old(client.tick), folder)
    ensures r.Ok? ==> r.value == FirstWith(client.boxes[folder], id)
    ensures Smooth(client.answers, old(client.tick), client.tick) && folder in client.boxes && folder !in client.noselect ==> r.Ok?
  {
    var selected := client.SelectFolder(folder);
    if selected.Err? { return Err(selected.error); }
    var uids := client.SearchUids(HasMessageId(id));
    if uids.Err? { return Err(uids.error); }
    return Ok(if uids.value == [] then None else Some(uids.value[0]));
  }

  predicate Searchable(info: MailboxInfo, waste: set<string>, source: Option<string>) {
    info.name !in waste && !info.noselect && source != Some(info.name)
  }

  /** Look into every other folder that may hold the message, in the order listed: the first that does is the answer. */
  method SearchOthers(client: Client, id: string, source: Option<string>, waste: set<string>)
    returns (r: Result<Option<(string, nat)>, ImapError>, ghost listing: seq<MailboxInfo>)
    requires client.Valid()
    modifies client
    ensures client.Valid() && client.boxes == old(client.boxes) && client.hollow == old(client.hollow)
    ensures old(client.tick) < client.tick && old(client.trace) <= client.trace
    ensures Still(client.trace, |old(client.trace)|, client.boxes)
    ensures r.Ok? && r.value.Some? ==>
              var (f, u) := r.value.value;
              && f in client.boxes && f !in client.noselect && FirstWith(client.boxes[f], id) == Some(u) && source != Some(f)
              && f !in waste && exists k :: 0 <= k < |listing| && listing[k].name == f && NoneSofar(client.boxes, listing, k, waste, source, id)
    ensures r.Ok? ==> Names(listing) == client.boxes.Keys
    ensures r == Ok(None) ==>
              forall f <- client.boxes :: f !in waste && f !in client.noselect && source != Some(f) ==> FirstWith(client.boxes[f], id).None?
    ensures Smooth(client.answers, old(client.tick), client.tick) ==> r.Ok?
  {
    hide Search, FirstWith, Smooth, Names;
    ghost var mark := client.tick;
    var listed := client.ListFolders();
    SmoothOnce(client.answers, mark);
    if listed.Err? { return Err(listed.error), []; }
    var i := 0;
    while i < |listed.value|
      invariant client.Valid() && client.boxes == old(client.boxes) && client.hollow == old(client.hollow) && 0 <= i <= |listed.value|
      invariant mark < client.tick && old(client.trace) <= client.trace
      invariant Still(client.trace, |old(client.trace)|, client.boxes)
      invariant NoneSofar(client.boxes, listed.value, i, waste, source, id)
    {
      var folder := listed.value[i];
      ListedExists(client.boxes, listed.value, i);
      i := i + 1;
      if !Searchable(folder, waste, source) { continue; }
      ghost var from := client.tick;
      var found := LookInto(client, folder.name, id);
      SmoothSplits(client.answers, mark, from, client.tick);
      if found.Err? { return Err(found.error), listed.value; }
      if found.value.Some? { return Ok(Some((folder.name, found.value.value))), listed.value; }
    }
    NowhereElse(client.boxes, client.noselect, listed.value, waste, source, id);
    return Ok(None), listed.value;
  }

  /** A failure while looking at the source folder is swallowed, and the folder is then passed over: so
      the answer names it exactly when it could be looked at and holds the message. Only what fails
      afterwards is reported. */
  method CrossFolderResolve(client: Client, id: string, source: Option<string>, waste: set<string>)
    returns (r: Result<Option<(string, nat)>, ImapError>)
    requires client.Valid()
    modifies client
    ensures client.Valid() && client.boxes == old(client.boxes) && client.hollow == old(client.hollow)
    ensures old(client.tick) < client.tick && old(client.trace) <= client.trace
    ensures Still(client.trace, |old(client.trace)|, client.boxes)
    ensures r.Ok? && r.value.Some? ==>
              var (f, u) := r.value.value;
              && f in client.boxes && f !in client.noselect && FirstWith(client.boxes[f], id) == Some(u)
              && (f in waste ==> source == Some(f))
    ensures source.Some? ==> old(client.tick) + 2 <= client.tick
    ensures source.Some? ==>
              LookedUntil(client.boxes, client.noselect, client.answers, old(client.tick), source.value) <= client.tick
    ensures source.Some? ==>
              Smooth(client.answers, LookedUntil(client.boxes, client.noselect, client.answers, old(client.tick), source.value), client.tick) ==> r.Ok?
    ensures source.Some? ==>
              ((r.Ok? && r.value.Some? && r.value.value.0 == source.value) <==>
               Looked(client.boxes, client.noselect, client.answers, old(client.tick), source.value)
               && FirstWith(client.boxes[source.value], id).Some?)
    ensures r == Ok(None) ==>
              forall f <- client.boxes :: f !in waste && f !in client.noselect && source != Some(f) ==> FirstWith(client.boxes[f], id).None?
    ensures Smooth(client.answers, old(client.tick), client.tick) ==> r.Ok?
  {
    hide Search, FirstWith, Smooth;
    ghost var start := client.tick;
    if source.Some? {
      var here := LookInto(client, source.value, id);
      if here.Ok? && here.value.Some? { return Ok(Some((source.value, here.value.value))); }
    }
    ghost var mark := client.tick;
    ghost var listing;
    r, listing := SearchOthers(client, id, source, waste);
    SmoothSplits(client.answers, start, mark, client.tick);
  }

  ghost predicate NoneSofar(boxes: Boxes, infos: seq<MailboxInfo>, n: nat, waste: set<string>, source: Option<string>, id: string) {
    forall j :: 0 <= j < n <= |infos| && infos[j].name in boxes && Searchable(infos[j], waste, source) ==>
      FirstWith(boxes[infos[j].name], id).None?
  }

  lemma ListedExists(boxes: Boxes, infos: seq<MailboxInfo>, i: nat)
    requires Names(infos) == boxes.Keys && i < |infos|
    ensures infos[i] in infos && infos[i].name in boxes
  {
    assert infos[i].name in Names(infos);
  }

  lemma NowhereElse(boxes: Boxes, noselect: set<string>, infos: seq<MailboxInfo>, waste: set<string>, source: Option<string>, id: string)
    requires Names(infos) == boxes.Keys && forall i <- infos :: i.noselect == (i.name in noselect)
    requires NoneSofar(boxes, infos, |infos|, waste, source, id)
    ensures forall f <- boxes :: f !in waste && f !in noselect && source != Some(f) ==> FirstWith(boxes[f], id).None?
  {
    forall f <- boxes | f !in waste && f !in noselect && source != Some(f) ensures FirstWith(boxes[f], id).None? {
      assert f in Names(infos);
      var info :| info in infos && info.name == f;
      var j :| 0 <= j < |infos| && infos[j] == info;
      assert Searchable(infos[j], waste, source);
    }
  }
}
