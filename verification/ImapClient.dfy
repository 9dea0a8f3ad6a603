/**
 The client's commands against a server on which any of them may fail: imap/client.py lines
 356-380, 617-652 and 782-948. A command that fails may already have taken effect on some of the
 messages it names.
 */
module ImapClient {
  import opened Outcome
  import opened Mailboxes
  import opened ChunkedMoves

  /** How the server answers a command: it works, or it fails after reaching only some of the messages. A
      COPY that works may say in its COPYUID code that it copied nothing, whatever it did copy. */
  datatype Answer = Works(denied: Option<set<nat>>) | Fails(reached: set<nat>)

  function Copied(a: Answer, uids: set<nat>): set<nat> {
    match a
    case Works(denied) => if denied.Some? then uids * denied.value else uids
    case Fails(reached) => uids * reached
  }

  /** What the server answers to the first command, the second, and so on. */
  type Script = nat -> Answer

  function AnswerTo(script: Script, t: nat): Answer {
    script(t)
  }

  ghost predicate Smooth(script: Script, from: nat, to: nat) {
    forall t: nat :: from <= t < to ==> AnswerTo(script, t).Works?
  }

  lemma SmoothJoins(script: Script, from: nat, mid: nat, to: nat)
    requires from <= mid <= to && Smooth(script, from, mid)
    ensures Smooth(script, from, to) <==> Smooth(script, mid, to)
  {
  }

  lemma SmoothSplits(script: Script, from: nat, mid: nat, to: nat)
    requires from <= mid <= to
    ensures Smooth(script, from, to) <==> Smooth(script, from, mid) && Smooth(script, mid, to)
  {
  }

  lemma NothingSent(script: Script, t: nat)
    ensures Smooth(script, t, t)
  {
  }

  lemma SmoothOnce(script: Script, t: nat)
    ensures Smooth(script, t, t + 1) <==> AnswerTo(script, t).Works?
  {
  }

  lemma TwoCommands(script: Script, t: nat)
    ensures Smooth(script, t, t + 2) <==> AnswerTo(script, t).Works? && AnswerTo(script, t + 1).Works?
    ensures AllHollow(script, t, t + 2) ==> AnswerTo(script, t + 1) == Works(Some({}))
  {
  }

  /** Whatever the commands are, every COPY among them copies nothing and says so. */
  ghost predicate AllHollow(script: Script, from: nat, to: nat) {
    forall t: nat :: from <= t < to ==> AnswerTo(script, t) == Works(Some({}))
  }

  lemma HollowSplits(script: Script, from: nat, mid: nat, to: nat)
    requires from <= mid <= to
    ensures AllHollow(script, from, to) <==> AllHollow(script, from, mid) && AllHollow(script, mid, to)
    ensures AllHollow(script, from, to) ==> Smooth(script, from, to)
  {
  }

  datatype ImapError = Refused | MessageNotFound

  datatype Criteria = All | UidSet(uids: set<nat>) | From(low: nat) | HasMessageId(id: string)

  predicate Matches(box: Mailbox, c: Criteria, u: nat) {
    u in box.slots &&
    match c
    case All => true
    case UidSet(uids) => u in uids
    case From(low) => low <= u || forall w <- box.slots :: w <= u
    case HasMessageId(id) => box.slots[u].mail.messageId == id
  }

  /** The answer to UID SEARCH: the matching identifiers below `n`, in ascending order. */
  function Listing(box: Mailbox, c: Criteria, n: nat): (uids: seq<nat>)
    ensures forall u: nat :: u in uids <==> u < n && Matches(box, c, u)
    ensures forall i, j :: 0 <= i < j < |uids| ==> uids[i] < uids[j]
  {
    if n == 0 then []
    else
      var below := Listing(box, c, n - 1);
      assert forall i :: 0 <= i < |below| ==> below[i] in below;
      if Matches(box, c, n - 1) then below + [n - 1] else below
  }

  function Search(box: Mailbox, c: Criteria): seq<nat> {
    Listing(box, c, box.next)
  }

  lemma SearchFinds(box: Mailbox, uids: set<nat>)
    requires box.Valid()
    ensures forall u: nat :: u in Search(box, UidSet(uids)) <==> u in Live(box, uids)
    ensures Search(box, UidSet(uids)) == [] <==> Live(box, uids) == {}
  {
    var found := Search(box, UidSet(uids));
    forall u: nat ensures u in found <==> u in Live(box, uids) {
      assert u in found <==> u < box.next && Matches(box, UidSet(uids), u);
    }
    assert found != [] ==> found[0] in found;
  }

  ghost predicate AllValid(boxes: Boxes) {
    forall n <- boxes :: boxes[n].Valid()
  }

  /** Only `folder` changed, and only by losing or flagging messages that were listed or already
      flagged. */
  ghost predicate DeletedOnly(before: Boxes, now: Boxes, folder: string, uids: set<nat>)
    requires folder in before
  {
    && folder in now && now == before[folder := now[folder]]
    && ShrunkTo(before[folder], now[folder], uids)
  }

  ghost predicate ShrunkTo(before: Mailbox, now: Mailbox, uids: set<nat>) {
    && now.validity == before.validity && now.next == before.next
    && (forall u <- now.slots :: u in before.slots && now.slots[u].mail == before.slots[u].mail)
    && (forall u <- before.slots :: u in now.slots || u in uids || before.slots[u].deleted)
    && (forall u <- now.slots :: now.slots[u].deleted ==> u in uids || before.slots[u].deleted)
  }

  lemma DeletedTwice(a: Boxes, b: Boxes, c: Boxes, folder: string, fewer: set<nat>, uids: set<nat>)
    requires folder in a && DeletedOnly(a, b, folder, uids) && DeletedOnly(b, c, folder, fewer) && fewer <= uids
    ensures DeletedOnly(a, c, folder, uids)
  {
  }

  /** Every state in `states` from `from` on differs from `before` by deletions only. */
  ghost predicate AllDeletedOnly(before: Boxes, states: seq<Boxes>, from: nat, folder: string, uids: set<nat>)
    requires folder in before
  {
    forall k :: from <= k < |states| ==> DeletedOnly(before, states[k], folder, uids)
  }

  lemma DeletionsCompose(a: Boxes, b: Boxes, states: seq<Boxes>, from: nat, mid: nat, folder: string, fewer: set<nat>, uids: set<nat>)
    requires folder in a && folder in b && fewer <= uids && from <= mid <= |states|
    requires DeletedOnly(a, b, folder, uids)
    requires AllDeletedOnly(a, states[..mid], from, folder, uids)
    requires AllDeletedOnly(b, states, mid, folder, fewer)
    ensures AllDeletedOnly(a, states, from, folder, uids)
  {
    forall k | from <= k < |states|
      ensures DeletedOnly(a, states[k], folder, uids)
    {
      if k < mid {
        assert DeletedOnly(a, states[..mid][k], folder, uids);
      } else {
        DeletedTwice(a, b, states[k], folder, fewer, uids);
      }
    }
  }

  // ---------- moving ----------

  /** The identifiers of a chunk that the search found, duplicates kept. */
  function Those(chunk: seq<nat>, found: seq<nat>): (valid: seq<nat>)
    ensures forall u :: u in valid <==> u in chunk && u in found
  {
    if chunk == [] then []
    else (if chunk[0] in found then [chunk[0]] else []) + Those(chunk[1..], found)
  }

  /** Deleting what was found of a chunk is deleting the chunk. */
  lemma DeleteThose(box: Mailbox, chunk: seq<nat>, valid: seq<nat>)
    requires Seen(valid) == Live(box, Seen(chunk))
    ensures DeleteAll(box, valid) == DeleteChunk(box, chunk)
  {
    DeleteRefines(box, valid);
    DeleteChunkIsWithout(box, chunk);
    assert Live(box, Seen(valid)) == Live(box, Seen(chunk));
    assert Without(box, Seen(valid)).slots == Without(box, Seen(chunk)).slots;
  }

  /** The account of a move: every original is still there or has a copy of its own, whatever is
      flagged already has one, and the destination kept what it held. */
  ghost predicate Account(source: Mailbox, dest: Mailbox, t: Transfer) {
    && (forall u <- t.source.slots :: u in source.slots && t.source.slots[u].mail == source.slots[u].mail)
    && (forall u <- source.slots :: u in t.source.slots || u in t.ledger)
    && Flagged(t.source) <= t.ledger.Keys
    && (forall v <- dest.slots :: v in t.dest.slots && t.dest.slots[v] == dest.slots[v])
    && dest.next <= t.dest.next
    && AllCopies(source, dest, t.dest, t.ledger)
    && OneEach(t.ledger)
  }

  /** The account holds for the move from `source` to `dest`, and no other folder is touched. */
  ghost predicate Kept(before: Boxes, now: Boxes, source: string, dest: string, ledger: map<nat, nat>)
    requires source in before && dest in before
  {
    && now.Keys == before.Keys && AllValid(now)
    && (forall n <- before :: n != source && n != dest ==> now[n] == before[n])
    && Account(before[source], before[dest], Transfer(now[source], now[dest], ledger))
  }

  ghost predicate Safe(before: Boxes, now: Boxes, source: string, dest: string)
    requires source in before && dest in before
  {
    exists ledger :: Kept(before, now, source, dest, ledger)
  }

  ghost predicate AllSafe(before: Boxes, states: seq<Boxes>, from: nat, source: string, dest: string)
    requires source in before && dest in before
  {
    forall k :: from <= k < |states| ==> Safe(before, states[k], source, dest)
  }

  lemma KeptAtStart(before: Boxes, source: string, dest: string)
    requires source in before && dest in before && AllValid(before) && Flagged(before[source]) == {}
    ensures Kept(before, before, source, dest, map[])
  {
  }

  lemma AccountAfterCopy(source: Mailbox, dest: Mailbox, t: Transfer, reached: set<nat>)
    requires t.dest.Valid() && Account(source, dest, t) && Flagged(source) == {} == Flagged(t.source)
    requires forall u <- reached :: u in t.source.slots
    ensures Account(source, dest, AfterCopy(t, reached))
  {
    forall u <- reached ensures u in source.slots && t.source.slots[u] == source.slots[u] {
      assert source.slots[u].deleted ==> u in Flagged(source);
      assert t.source.slots[u].deleted ==> u in Flagged(t.source);
    }
    CopiesAreCopies(source, dest, t, reached);
    assert forall u <- t.ledger :: IsCopy(source, dest, t.dest, u, t.ledger[u]);
    CopiesDiffer(t, reached);
    CopiedSlots(t.dest, t.source, reached);
    hide IsCopy, AllCopies, OneEach;
  }

  lemma KeptByCopy(before: Boxes, now: Boxes, source: string, dest: string, ledger: map<nat, nat>, reached: set<nat>)
    requires source in before && dest in before && source != dest && AllValid(before)
    requires Kept(before, now, source, dest, ledger) && Flagged(before[source]) == {} == Flagged(now[source])
    requires forall u <- reached :: u in now[source].slots
    ensures Kept(before, now[dest := Copy(now[dest], now[source], reached)], source, dest, ledger + Copies(now[dest], reached))
  {
    hide Account, Copy, Copies, Flagged;
    var t := Transfer(now[source], now[dest], ledger);
    AccountAfterCopy(before[source], before[dest], t, reached);
    GrownIsValid(now, dest, AfterCopy(t, reached).dest);
  }

  lemma GrownIsValid(now: Boxes, folder: string, box: Mailbox)
    requires AllValid(now) && box.Valid()
    ensures AllValid(now[folder := box])
  {
  }

  lemma AccountAfterDelete(source: Mailbox, dest: Mailbox, t: Transfer, now: Mailbox, uids: set<nat>)
    requires Account(source, dest, t) && uids <= t.ledger.Keys && ShrunkTo(t.source, now, uids)
    ensures Account(source, dest, t.(source := now))
  {
    hide IsCopy, AllCopies, OneEach;
    forall u <- source.slots ensures u in now.slots || u in t.ledger {
      assert u in t.source.slots && t.source.slots[u].deleted ==> u in Flagged(t.source);
    }
    forall u <- Flagged(now) ensures u in t.ledger {
      assert u in uids || u in Flagged(t.source);
    }
  }

  lemma KeptByDelete(before: Boxes, now: Boxes, after: Boxes, source: string, dest: string, ledger: map<nat, nat>, uids: set<nat>)
    requires source in before && dest in before && source != dest
    requires Kept(before, now, source, dest, ledger) && uids <= ledger.Keys
    requires DeletedOnly(now, after, source, uids)
    ensures Kept(before, after, source, dest, ledger)
  {
    ShrunkIsValid(now, after, source, uids);
    AccountAfterDelete(before[source], before[dest], Transfer(now[source], now[dest], ledger), after[source], uids);
    hide Account, ShrunkTo;
  }

  lemma ShrunkIsValid(now: Boxes, after: Boxes, folder: string, uids: set<nat>)
    requires folder in now && AllValid(now) && DeletedOnly(now, after, folder, uids)
    ensures AllValid(after)
  {
    forall n <- after ensures after[n].Valid() {
      assert now[n].Valid();
    }
  }

  /** The copies are on the books before the originals go, so every state on the way is safe. */
  lemma SafeAfterDelete(before: Boxes, now: Boxes, after: Boxes, sofar: seq<Boxes>, states: seq<Boxes>, from: nat, source: string, dest: string,
                        ledger: map<nat, nat>, uids: set<nat>)
    requires source in before && dest in before && source != dest && from <= |sofar| && sofar <= states
    requires Kept(before, now, source, dest, ledger) && uids <= ledger.Keys
    requires AllSafe(before, sofar, from, source, dest)
    requires AllDeletedOnly(now, states, |sofar|, source, uids)
    requires DeletedOnly(now, after, source, uids)
    ensures AllSafe(before, states, from, source, dest)
    ensures Kept(before, after, source, dest, ledger)
  {
    hide Kept, DeletedOnly;
    KeptByDelete(before, now, after, source, dest, ledger, uids);
    forall k | from <= k < |states| ensures Safe(before, states[k], source, dest) {
      if k < |sofar| {
        assert Safe(before, sofar[k], source, dest);
      } else {
        KeptByDelete(before, now, states[k], source, dest, ledger, uids);
      }
    }
  }

  lemma SafetyJoins(before: Boxes, sofar: seq<Boxes>, states: seq<Boxes>, from: nat, source: string, dest: string)
    requires source in before && dest in before && from <= |sofar| && sofar <= states
    requires AllSafe(before, sofar, from, source, dest)
    requires AllSafe(before, states, |sofar|, source, dest)
    ensures AllSafe(before, states, from, source, dest)
  {
    forall k | from <= k < |states| ensures Safe(before, states[k], source, dest) {
      assert k < |sofar| ==> sofar[k] == states[k];
    }
  }

  lemma SafeSoFar(before: Boxes, states: seq<Boxes>, source: string, dest: string)
    requires source in before && dest in before
    ensures AllSafe(before, states, |states|, source, dest)
  {
  }

  lemma SafeStep(before: Boxes, states: seq<Boxes>, now: Boxes, from: nat, source: string, dest: string, ledger: map<nat, nat>)
    requires source in before && dest in before && from <= |states|
    requires AllSafe(before, states, from, source, dest)
    requires Kept(before, now, source, dest, ledger)
    ensures AllSafe(before, states + [now], from, source, dest)
  {
    hide Kept;
    assert Safe(before, now, source, dest);
    forall k | from <= k <= |states| ensures Safe(before, (states + [now])[k], source, dest) {
      assert k < |states| ==> (states + [now])[k] == states[k];
    }
  }

  lemma SafeStart(before: Boxes, states: seq<Boxes>, source: string, dest: string)
    requires Watched(before, source, dest)
    ensures Safe(before, before, source, dest) && AllSafe(before, states + [before], |states|, source, dest)
  {
    KeptAtStart(before, source, dest);
    SafeSoFar(before, states, source, dest);
    SafeStep(before, states, before, |states|, source, dest, map[]);
  }

  lemma SafeFirstCopy(before: Boxes, states: seq<Boxes>, source: string, dest: string, reached: set<nat>)
    requires Watched(before, source, dest) && forall u <- reached :: u in before[source].slots
    requires states != [] && AllSafe(before, states, |states| - 1, source, dest)
    ensures var after := before[dest := Copy(before[dest], before[source], reached)];
            && Kept(before, after, source, dest, Copies(before[dest], reached))
            && Safe(before, after, source, dest)
            && AllSafe(before, states + [after], |states| - 1, source, dest)
  {
    KeptAtStart(before, source, dest);
    KeptByCopy(before, before, source, dest, map[], reached);
    assert map[] + Copies(before[dest], reached) == Copies(before[dest], reached);
    var after := before[dest := Copy(before[dest], before[source], reached)];
    SafeStep(before, states, after, |states| - 1, source, dest, Copies(before[dest], reached));
  }

  /** A copy and then a deletion, command by command, are one chunk of the move. */
  lemma ChunkMoved(now: Boxes, after: Boxes, source: string, dest: string, chunk: seq<nat>, valid: seq<nat>)
    requires source in now && dest in now && source != dest
    requires Seen(valid) == Live(now[source], Seen(chunk)) && valid != []
    requires var copied := now[dest := Copy(now[dest], now[source], Seen(valid))];
             && DeletedOnly(copied, after, source, Seen(valid))
             && after[source] == DeleteAll(copied[source], valid)
    ensures var t := MoveChunk(Begin(now[source], now[dest]), chunk);
            after == now[source := t.source][dest := t.dest]
  {
    hide Copy, DeleteChunk, DeleteAll, ShrunkTo;
    assert valid[0] in Seen(valid);
    DeleteThose(now[source], chunk, valid);
  }

  lemma DeleteOne(box: Mailbox, uid: nat)
    ensures DeleteAll(box, [uid]) == DeleteChunk(box, [uid])
    ensures uid !in DeleteChunk(box, [uid]).slots
  {
    DeleteChunkIsWithout(box, [uid]);
    assert uid in box.slots ==> uid in Live(box, Seen([uid]));
    hide DeleteChunk;
    assert Head([uid]) == [uid] && Tail([uid]) == [];
  }

  lemma NothingMoved(now: Boxes, source: string, dest: string, chunk: seq<nat>)
    requires source in now && dest in now && source != dest && Live(now[source], Seen(chunk)) == {}
    ensures var t := MoveChunk(Begin(now[source], now[dest]), chunk);
            now == now[source := t.source][dest := t.dest]
  {
  }

  // ---------- what a move leaves alone, and what it delivers ----------

  /** Only the listed messages were touched: any other unflagged message of the source is where it was,
      the destination kept what it held, and whatever is new there is a copy of a listed message. */
  ghost predicate Contained(before: Boxes, now: Boxes, source: string, dest: string, uids: set<nat>)
    requires source in before
    ensures Contained(before, now, source, dest, uids) ==> now.Keys == before.Keys
  {
    && now.Keys == before.Keys && AllValid(now)
    && (forall f <- before :: f != source && f != dest ==> now[f] == before[f])
    && (forall f <- before :: before[f].next <= now[f].next)
    && (forall u <- before[source].slots :: u !in uids && !before[source].slots[u].deleted ==> Holds(now[source], u, before[source].slots[u]))
    && (dest in before && dest != source ==> forall v <- before[dest].slots :: Holds(now[dest], v, before[dest].slots[v]))
    && (dest != source ==> forall v <- now[source].slots :: FromBefore(before[source], now[source], v))
    && (dest in before ==> forall v <- now[dest].slots :: Explained(before, now, source, dest, uids, v))
  }

  predicate Holds(box: Mailbox, u: nat, slot: Slot) {
    u in box.slots && box.slots[u] == slot
  }

  predicate FromBefore(before: Mailbox, now: Mailbox, v: nat) {
    v in now.slots && v in before.slots && now.slots[v].mail == before.slots[v].mail
  }

  /** The message was there, or it is new and its mail is that of a listed message of the source. */
  ghost predicate Explained(before: Boxes, now: Boxes, source: string, dest: string, uids: set<nat>, v: nat)
    requires source in before && dest in before && dest in now
  {
    || FromBefore(before[dest], now[dest], v)
    || (v in now[dest].slots && before[dest].next <= v && IsListed(before[source], uids, now[dest].slots[v].mail))
  }

  ghost predicate IsListed(source: Mailbox, uids: set<nat>, mail: Mail) {
    exists u <- uids :: u in source.slots && source.slots[u].mail == mail
  }

  lemma ContainedAtFirst(boxes: Boxes, source: string, dest: string, uids: set<nat>)
    requires AllValid(boxes) && source in boxes
    ensures Contained(boxes, boxes, source, dest, uids)
  {
  }

  lemma ContainedCopy(boxes: Boxes, source: string, dest: string, uids: set<nat>, copied: set<nat>)
    requires AllValid(boxes) && source in boxes && dest in boxes && copied <= uids
    requires forall u <- copied :: u in boxes[source].slots
    ensures Contained(boxes, boxes[dest := Copy(boxes[dest], boxes[source], copied)], source, dest, uids)
  {
    var after := boxes[dest := Copy(boxes[dest], boxes[source], copied)];
    CopiedSlots(boxes[dest], boxes[source], copied);
    assert boxes[dest].Valid() && boxes[source].Valid();
    forall v <- after[dest].slots ensures Explained(boxes, after, source, dest, uids, v) {
      if v !in boxes[dest].slots {
        var u :| u in copied && v == CopyUid(boxes[dest], u);
        assert u in uids;
      }
    }
    GrownIsValid(boxes, dest, after[dest]);
  }

  lemma ContainedDelete(boxes: Boxes, now: Boxes, source: string, dest: string, uids: set<nat>, some: set<nat>)
    requires AllValid(boxes) && source in boxes
    requires some <= uids && DeletedOnly(boxes, now, source, some)
    ensures Contained(boxes, now, source, dest, uids)
  {
    ShrunkIsValid(boxes, now, source, some);
  }

  lemma ContainedTwice(a: Boxes, b: Boxes, c: Boxes, source: string, dest: string, first: set<nat>, second: set<nat>)
    requires source in a && Contained(a, b, source, dest, first) && Contained(b, c, source, dest, second)
    ensures Contained(a, c, source, dest, first + second)
  {
    hide IsListed;
    forall u <- a[source].slots | u !in first + second && !a[source].slots[u].deleted ensures Holds(c[source], u, a[source].slots[u]) {
      assert Holds(b[source], u, a[source].slots[u]);
    }
    if dest in a {
      forall v <- c[dest].slots ensures Explained(a, c, source, dest, first + second, v) {
        ExplainedTwice(a, b, c, source, dest, first, second, v);
      }
    }
    if dest != source {
      forall v <- c[source].slots ensures FromBefore(a[source], c[source], v) {
        assert FromBefore(b[source], c[source], v) && FromBefore(a[source], b[source], v);
      }
      if dest in a {
        forall v <- a[dest].slots ensures Holds(c[dest], v, a[dest].slots[v]) {
          assert Holds(b[dest], v, a[dest].slots[v]);
        }
      }
    }
  }

  lemma ExplainedTwice(a: Boxes, b: Boxes, c: Boxes, source: string, dest: string, first: set<nat>, second: set<nat>, v: nat)
    requires source in a && Contained(a, b, source, dest, first) && Contained(b, c, source, dest, second)
    requires dest in a && v in c[dest].slots
    ensures Explained(a, c, source, dest, first + second, v)
  {
    assert Explained(b, c, source, dest, second, v);
    if FromBefore(b[dest], c[dest], v) {
      assert Explained(a, b, source, dest, first, v);
      if !FromBefore(a[dest], b[dest], v) {
        var u :| u in first && u in a[source].slots && a[source].slots[u].mail == c[dest].slots[v].mail;
        assert u in first + second;
      }
    } else {
      var u :| u in second && u in b[source].slots && b[source].slots[u].mail == c[dest].slots[v].mail;
      if FromBefore(a[source], b[source], u) {
        assert u in first + second;
      } else {
        assert Explained(a, b, source, dest, first, u);
        var w :| w in first && w in a[source].slots && a[source].slots[w].mail == b[source].slots[u].mail;
        assert w in first + second;
      }
    }
  }

  /** The mail has arrived, unflagged, under an identifier of at least `next`. */
  ghost predicate Delivered(mail: Mail, box: Mailbox, next: nat) {
    exists v :: next <= v && Holds(box, v, Slot(mail, false))
  }

  ghost predicate AllDelivered(source: Mailbox, dest: Mailbox, next: nat, uids: set<nat>) {
    forall u <- uids :: u in source.slots ==> Delivered(source.slots[u].mail, dest, next)
  }

  /** The messages that were there unflagged and are now gone or flagged. */
  ghost function Lost(before: Mailbox, now: Mailbox): set<nat> {
    set u | u in before.slots && !before.slots[u].deleted && !Holds(now, u, before.slots[u])
  }

  /** From identifier `next` on, whatever is flagged carries the mail of a message flagged in `box`. */
  ghost predicate FlagsFrom(box: Mailbox, now: Mailbox, next: nat) {
    forall v <- now.slots :: next <= v && now.slots[v].deleted ==> HasFlagged(box, now.slots[v].mail)
  }

  ghost predicate HasFlagged(box: Mailbox, mail: Mail) {
    exists u <- box.slots :: box.slots[u] == Slot(mail, true)
  }

  /** No unflagged message of the source is gone or flagged without an unflagged copy having arrived, and
      whatever arrived flagged was flagged in the source. */
  ghost predicate Backed(before: Boxes, now: Boxes, source: string, dest: string)
    requires source in before
  {
    if source in now && dest in before && dest in now then
      && AllDelivered(before[source], now[dest], before[dest].next, Lost(before[source], now[source]))
      && FlagsFrom(before[source], now[dest], before[dest].next)
    else now == before
  }

  lemma BackedAtFirst(boxes: Boxes, source: string, dest: string)
    requires AllValid(boxes) && source in boxes
    ensures Backed(boxes, boxes, source, dest) && FlagsFrom(boxes[source], boxes[source], 0)
  {
    if dest in boxes { assert boxes[dest].Valid(); }
  }

  lemma BackedCopy(boxes: Boxes, source: string, dest: string, copied: set<nat>)
    requires AllValid(boxes) && source in boxes && dest in boxes
    requires forall u <- copied :: u in boxes[source].slots
    ensures Backed(boxes, boxes[dest := Copy(boxes[dest], boxes[source], copied)], source, dest)
  {
    CopiedSlots(boxes[dest], boxes[source], copied);
    CopiedFlags(boxes[dest], boxes[source], copied);
  }

  lemma CopiedFlags(dest: Mailbox, source: Mailbox, copied: set<nat>)
    requires dest.Valid() && forall u <- copied :: u in source.slots
    ensures FlagsFrom(source, Copy(dest, source, copied), dest.next)
  {
    var after := Copy(dest, source, copied);
    CopiedSlots(dest, source, copied);
    forall v <- after.slots | dest.next <= v && after.slots[v].deleted ensures HasFlagged(source, after.slots[v].mail) {
      var u :| u in copied && v == CopyUid(dest, u);
      assert source.slots[u] == Slot(after.slots[v].mail, true);
    }
  }

  /** A copy followed by the deletion of no more than the originals. */
  lemma BackedMove(boxes: Boxes, now: Boxes, source: string, dest: string, uids: set<nat>)
    requires AllValid(boxes) && source in boxes && dest in boxes
    requires forall u <- uids :: u in boxes[source].slots
    requires DeletedOnly(boxes[dest := Copy(boxes[dest], boxes[source], uids)], now, source, uids)
    ensures Backed(boxes, now, source, dest)
  {
    var copied := boxes[dest := Copy(boxes[dest], boxes[source], uids)];
    CopiedSlots(boxes[dest], boxes[source], uids);
    CopiedFlags(boxes[dest], boxes[source], uids);
    assert boxes[source].Valid() && boxes[dest].Valid();
    forall u <- Lost(boxes[source], now[source]) ensures Delivered(boxes[source].slots[u].mail, now[dest], boxes[dest].next) {
      assert Holds(copied[source], u, boxes[source].slots[u]);
      assert u in uids;
      var v := CopyUid(boxes[dest], u);
      assert Holds(copied[dest], v, boxes[source].slots[u]);
      assert source == dest ==> v !in uids;
      assert Holds(now[dest], v, boxes[source].slots[u]);
    }
  }

  lemma FlagsTwice(a: Mailbox, b: Mailbox, c: Mailbox, next: nat)
    requires FlagsFrom(a, b, 0) && FlagsFrom(b, c, next)
    ensures FlagsFrom(a, c, next)
  {
    forall v <- c.slots | next <= v && c.slots[v].deleted ensures HasFlagged(a, c.slots[v].mail) {
      assert HasFlagged(b, c.slots[v].mail);
    }
  }

  lemma BackedTwice(a: Boxes, b: Boxes, c: Boxes, source: string, dest: string, done: set<nat>, chunk: set<nat>)
    requires source in a && Contained(a, b, source, dest, done) && Contained(b, c, source, dest, chunk)
    requires Backed(a, b, source, dest) && Backed(b, c, source, dest) && FlagsFrom(a[source], b[source], 0)
    requires dest in a && source == dest ==> forall u <- chunk :: u < a[dest].next
    ensures Backed(a, c, source, dest)
  {
    if dest in a {
      DeliveredTwice(a, b, c, source, dest, done, chunk);
      FlagsTwice(a[source], b[source], c[dest], b[dest].next);
      forall v <- c[dest].slots | a[dest].next <= v && c[dest].slots[v].deleted ensures HasFlagged(a[source], c[dest].slots[v].mail) {
        if v < b[dest].next {
          assert Explained(b, c, source, dest, chunk, v);
          assert FromBefore(b[dest], c[dest], v);
          assert Holds(c[dest], v, b[dest].slots[v]) || b[dest].slots[v].deleted;
        }
      }
    }
  }

  lemma DeliveredTwice(a: Boxes, b: Boxes, c: Boxes, source: string, dest: string, done: set<nat>, chunk: set<nat>)
    requires source in a && dest in a && Contained(a, b, source, dest, done) && Contained(b, c, source, dest, chunk)
    requires Backed(a, b, source, dest) && Backed(b, c, source, dest)
    requires source == dest ==> forall u <- chunk :: u < a[dest].next
    ensures AllDelivered(a[source], c[dest], a[dest].next, Lost(a[source], c[source]))
  {
    StaysDelivered(b, c, source, dest, chunk, a[source], a[dest].next, Lost(a[source], b[source]));
    forall u <- Lost(a[source], c[source]) ensures Delivered(a[source].slots[u].mail, c[dest], a[dest].next) {
      if u !in Lost(a[source], b[source]) {
        assert u in Lost(b[source], c[source]);
        assert Delivered(b[source].slots[u].mail, c[dest], b[dest].next);
        var v :| b[dest].next <= v && Holds(c[dest], v, Slot(b[source].slots[u].mail, false));
      } else {
        assert Delivered(a[source].slots[u].mail, c[dest], a[dest].next);
      }
    }
  }

  lemma ContainedMore(before: Boxes, now: Boxes, source: string, dest: string, some: set<nat>, uids: set<nat>)
    requires source in before && Contained(before, now, source, dest, some) && some <= uids
    ensures Contained(before, now, source, dest, uids)
  {
    if dest in before {
      forall v <- now[dest].slots ensures Explained(before, now, source, dest, uids, v) {
        assert Explained(before, now, source, dest, some, v);
      }
    }
  }

  /** A later chunk does not touch what an earlier one delivered. */
  lemma StaysDelivered(before: Boxes, now: Boxes, source: string, dest: string, uids: set<nat>, original: Mailbox, next: nat, done: set<nat>)
    requires source in before && dest in before && Contained(before, now, source, dest, uids)
    requires AllDelivered(original, before[dest], next, done) && (source == dest ==> forall u <- uids :: u < next)
    ensures AllDelivered(original, now[dest], next, done)
  {
    forall u <- done | u in original.slots ensures Delivered(original.slots[u].mail, now[dest], next) {
      var v :| next <= v && Holds(before[dest], v, Slot(original.slots[u].mail, false));
      assert Holds(now[dest], v, Slot(original.slots[u].mail, false));
    }
  }

  /** What holds of a batch move after every chunk, when the chunks so far named `done`. */
  ghost predicate Underway(before: Boxes, now: Boxes, source: string, dest: string, done: set<nat>, named: bool)
    requires source in before
  {
    && Contained(before, now, source, dest, done) && FlagsFrom(before[source], now[source], 0)
    && (named ==> Backed(before, now, source, dest))
  }

  lemma UnderwayAtFirst(boxes: Boxes, source: string, dest: string, named: bool)
    requires AllValid(boxes) && source in boxes
    ensures Underway(boxes, boxes, source, dest, {}, named)
  {
    ContainedAtFirst(boxes, source, dest, {});
    BackedAtFirst(boxes, source, dest);
  }

  lemma TurnContained(before: Boxes, now: Boxes, after: Boxes, source: string, dest: string, done: set<nat>, chunk: set<nat>, uids: seq<nat>,
                      named: bool, ok: bool)
    requires source in before && Underway(before, now, source, dest, done, named)
    requires Contained(now, after, source, dest, chunk) && Backed(now, after, source, dest)
    requires done + chunk <= Seen(uids) && (named && source == dest ==> forall u <- uids :: u < before[source].next)
    requires ok ==> FlagsFrom(now[source], after[source], 0)
    ensures Contained(before, after, source, dest, Seen(uids))
    ensures named ==> Backed(before, after, source, dest)
    ensures ok ==> Underway(before, after, source, dest, done + chunk, named)
  {
    hide Contained, Backed, FlagsFrom;
    ContainedTwice(before, now, after, source, dest, done, chunk);
    ContainedMore(before, after, source, dest, done + chunk, Seen(uids));
    if named { BackedTwice(before, now, after, source, dest, done, chunk); }
    if ok { FlagsTwice(before[source], now[source], after[source], 0); }
  }

  // ---------- what a move leaves behind ----------

  ghost predicate Distinct<T>(items: seq<T>) {
    forall i, j :: 0 <= i < j < |items| ==> items[i] != items[j]
  }

  lemma DistinctHeadTail(uids: seq<nat>)
    requires Distinct(uids)
    ensures Distinct(Tail(uids)) && Seen(Head(uids)) !! Seen(Tail(uids))
  {
    assert forall j :: 0 <= j < |Tail(uids)| ==> Tail(uids)[j] == uids[|Head(uids)| + j];
  }

  /** The source after a move of `done`, when the server claimed to have copied none of `left`: those
      stay, and if that was all, no expunge happened and whatever was flagged stays too. */
  function Stripped(box: Mailbox, done: set<nat>, left: set<nat>): Mailbox {
    if left == Live(box, done) then box else Without(box, done - left)
  }

  lemma StrippedMore(box: Mailbox, done: set<nat>, left: set<nat>, chunk: set<nat>, more: set<nat>)
    requires left <= Live(box, done) && chunk !! done
    requires more == {} || more == Live(Stripped(box, done, left), chunk)
    ensures left + more <= Live(box, done + chunk)
    ensures Stripped(Stripped(box, done, left), chunk, more) == Stripped(box, done + chunk, left + more)
  {
    var now := Stripped(box, done, left);
    var all := Live(box, done + chunk);
    assert all == Live(box, done) + Live(box, chunk);
    if left == Live(box, done) {
      assert left + more == all <==> more == Live(box, chunk);
      assert Without(box, chunk - more).slots == Without(box, done + chunk - (left + more)).slots || more == Live(box, chunk);
    } else {
      var w :| w in Live(box, done) && w !in left;
      assert w in all && w !in left + more;
      assert Without(now, chunk - more).slots == Without(box, done + chunk - (left + more)).slots;
      if more == Live(now, chunk) { assert now.slots == Without(box, done + chunk - (left + more)).slots; }
    }
  }

  /** A move under way: `done` is dealt with, `rest` is still to come. */
  ghost predicate Leaves(box: Mailbox, now: Mailbox, rest: seq<nat>, done: set<nat>, left: set<nat>) {
    Distinct(rest) && Seen(rest) !! done && left <= Live(box, done) && now == Stripped(box, done, left)
  }

  lemma LeavesAtFirst(box: Mailbox, uids: seq<nat>)
    requires Distinct(uids)
    ensures Leaves(box, box, uids, {}, {})
  {
  }

  lemma LeavesAtLast(box: Mailbox, now: Mailbox, done: set<nat>, left: set<nat>)
    requires Leaves(box, now, [], done, left)
    ensures left <= Live(box, done) && now == Stripped(box, done, left)
  {
  }

  lemma LeavesMore(box: Mailbox, now: Mailbox, after: Mailbox, rest: seq<nat>, done: set<nat>, left: set<nat>, more: set<nat>)
    requires Leaves(box, now, rest, done, left)
    requires more == {} || more == Live(now, Seen(Head(rest)))
    requires after == Stripped(now, Seen(Head(rest)), more)
    ensures Leaves(box, after, Tail(rest), done + Seen(Head(rest)), left + more)
  {
    DistinctHeadTail(rest);
    HeadTail(rest);
    StrippedMore(box, done, left, Seen(Head(rest)), more);
    hide Stripped, Distinct, Head, Tail, Live;
  }

  lemma ChunkStripped(box: Mailbox, chunk: seq<nat>, valid: seq<nat>)
    requires Seen(valid) == Live(box, Seen(chunk)) != {}
    ensures DeleteAll(box, valid) == Stripped(box, Seen(chunk), {})
  {
    DeleteThose(box, chunk, valid);
    DeleteChunkIsWithout(box, chunk);
  }

  /** A deletion leaves nothing flagged. */
  lemma SweptFlags(original: Mailbox, box: Mailbox, now: Mailbox, uids: seq<nat>)
    requires now == DeleteAll(box, uids) && Live(box, Seen(uids)) != {}
    ensures FlagsFrom(original, now, 0)
  {
    DeleteRefines(box, uids);
  }

  lemma StillLive(boxes: Boxes, source: string, dest: string, uids: set<nat>, u: nat)
    requires source in boxes && dest in boxes && AllValid(boxes)
    requires u in uids && forall w <- uids :: w in boxes[source].slots
    ensures Live(boxes[dest := Copy(boxes[dest], boxes[source], uids)][source], uids) != {}
  {
    CopiedSlots(boxes[dest], boxes[source], uids);
    assert u in Live(boxes[dest := Copy(boxes[dest], boxes[source], uids)][source], uids);
  }

  lemma CopyFlags(boxes: Boxes, source: string, dest: string, copied: set<nat>)
    requires AllValid(boxes) && source in boxes && dest in boxes && forall u <- copied :: u in boxes[source].slots
    ensures FlagsFrom(boxes[source], boxes[dest := Copy(boxes[dest], boxes[source], copied)][source], 0)
  {
    var after := boxes[dest := Copy(boxes[dest], boxes[source], copied)][source];
    assert boxes[source].Valid() && boxes[dest].Valid();
    CopiedSlots(boxes[dest], boxes[source], copied);
    CopiedFlags(boxes[dest], boxes[source], copied);
    forall v <- after.slots | after.slots[v].deleted ensures HasFlagged(boxes[source], after.slots[v].mail) {
      assert v in boxes[source].slots || boxes[source].next <= v;
      if v in boxes[source].slots { assert boxes[source].slots[v] == Slot(after.slots[v].mail, true); }
    }
  }

  lemma StaysUnflagged(box: Mailbox, now: Mailbox)
    requires Flagged(box) == {} && FlagsFrom(box, now, 0)
    ensures Flagged(now) == {}
  {
    assert forall u <- box.slots :: box.slots[u].deleted ==> u in Flagged(box);
    assert forall v <- now.slots :: now.slots[v].deleted ==> HasFlagged(box, now.slots[v].mail);
  }

  /** Every mailbox holds exactly what it held. */
  ghost predicate SameMail(before: Boxes, now: Boxes) {
    now.Keys == before.Keys && forall f <- before :: now[f].slots == before[f].slots
  }

  lemma SameAtFirst(boxes: Boxes)
    ensures SameMail(boxes, boxes)
  {
  }

  lemma SameTwice(a: Boxes, b: Boxes, c: Boxes)
    requires SameMail(a, b) && SameMail(b, c)
    ensures SameMail(a, c)
  {
  }

  lemma SameByCopy(boxes: Boxes, source: string, dest: string)
    requires source in boxes && dest in boxes
    ensures SameMail(boxes, boxes[dest := Copy(boxes[dest], boxes[source], {})])
  {
    assert Copy(boxes[dest], boxes[source], {}).slots == boxes[dest].slots;
  }

  lemma TurnRefines(before: Boxes, now: Boxes, after: Boxes, source: string, dest: string, t: Transfer, chunk: seq<nat>)
    requires source in before && dest in before && source != dest
    requires now == before[source := t.source][dest := t.dest]
    requires var u := MoveChunk(Begin(now[source], now[dest]), chunk); after == now[source := u.source][dest := u.dest]
    ensures var u := MoveChunk(t, chunk); after == before[source := u.source][dest := u.dest]
  {
    SameChunk(t, Begin(now[source], now[dest]), chunk);
    hide MoveChunk;
  }

  lemma MoveAllStep(t: Transfer, uids: seq<nat>)
    requires uids != []
    ensures MoveAll(t, uids) == MoveAll(MoveChunk(t, Head(uids)), Tail(uids))
  {
  }

  lemma MoveAllDone(t: Transfer)
    ensures MoveAll(t, []) == t && Seen([]) == {}
  {
  }

  /** What a chunk does to the mailboxes does not depend on the ledger. */
  lemma SameChunk(t: Transfer, u: Transfer, chunk: seq<nat>)
    requires t.source == u.source && t.dest == u.dest
    ensures MoveChunk(t, chunk).source == MoveChunk(u, chunk).source && MoveChunk(t, chunk).dest == MoveChunk(u, chunk).dest
  {
  }

  /** The conditions under which a move is followed: another folder that exists, nothing flagged. */
  ghost predicate Watched(before: Boxes, source: string, dest: string)
    ensures Watched(before, source, dest) ==> source in before && dest in before && source != dest
  {
    && AllValid(before) && source in before && dest in before && source != dest
    && Flagged(before[source]) == {}
  }

  ghost predicate Watching(before: Boxes, now: Boxes, source: string, dest: string, ledger: map<nat, nat>)
    ensures Watching(before, now, source, dest, ledger) ==> source in before && dest in before && source != dest
  {
    && AllValid(before) && source in before && dest in before && source != dest
    && source in now && dest in now && Kept(before, now, source, dest, ledger)
    && Flagged(before[source]) == {} == Flagged(now[source])
  }

  lemma DeletedWatching(before: Boxes, current: Boxes, between: Boxes, after: Boxes, sofar: seq<Boxes>, states: seq<Boxes>, from: nat, source: string,
                        dest: string, ledger: map<nat, nat>, grown: map<nat, nat>, uids: set<nat>)
    requires Watching(before, current, source, dest, ledger) && Kept(before, between, source, dest, grown) && uids <= grown.Keys
    requires from <= |sofar| && sofar <= states && AllSafe(before, sofar, from, source, dest)
    requires source in between && AllDeletedOnly(between, states, |sofar|, source, uids) && DeletedOnly(between, after, source, uids)
    ensures Kept(before, after, source, dest, grown) && AllSafe(before, states, from, source, dest)
  {
    hide Kept, AllSafe, AllDeletedOnly, DeletedOnly;
    SafeAfterDelete(before, between, after, sofar, states, from, source, dest, grown, uids);
  }

  lemma WatchedAtFirst(before: Boxes, states: seq<Boxes>, source: string, dest: string)
    requires Watched(before, source, dest)
    ensures Kept(before, before, source, dest, map[]) && AllSafe(before, states, |states|, source, dest)
  {
    KeptAtStart(before, source, dest);
    SafeSoFar(before, states, source, dest);
  }

  lemma LongerTrace(a: seq<Boxes>, b: seq<Boxes>, c: seq<Boxes>)
    requires a <= b <= c
    ensures a <= c
  {
  }

  /** The state of a batch move of `uids` between two chunks. */
  datatype Stage = Stage(rest: seq<nat>, done: set<nat>, left: set<nat>, t: Transfer)

  function Started(before: Boxes, source: string, dest: string, uids: seq<nat>): Stage
    requires source in before
  {
    Stage(uids, {}, {}, Begin(before[source], if dest in before then before[dest] else before[source]))
  }

  /** `named`: a move within one folder names only identifiers the folder has assigned. `candid`: no COPY
      claimed to have copied nothing. */
  ghost predicate Along(before: Boxes, now: Boxes, source: string, dest: string, uids: seq<nat>, g: Stage, named: bool, candid: bool) {
    && source in before && g.done + Seen(g.rest) == Seen(uids)
    && (named && source == dest ==> forall u <- uids :: u < before[source].next)
    && now.Keys == before.Keys && (dest !in before ==> now == before)
    && (source != dest && dest in before && candid ==>
          && now == before[source := g.t.source][dest := g.t.dest]
          && MoveAll(Begin(before[source], before[dest]), uids) == MoveAll(g.t, g.rest))
    && (source != dest && Distinct(uids) ==> Leaves(before[source], now[source], g.rest, g.done, g.left))
    && Underway(before, now, source, dest, g.done, named)
  }

  lemma AlongAtFirst(before: Boxes, source: string, dest: string, uids: seq<nat>, named: bool)
    requires AllValid(before) && source in before && (named && source == dest ==> forall u <- uids :: u < before[source].next)
    ensures Along(before, before, source, dest, uids, Started(before, source, dest, uids), named, true)
  {
    UnderwayAtFirst(before, source, dest, named);
    hide Underway, MoveAll;
    if Distinct(uids) { LeavesAtFirst(before[source], uids); }
  }

  lemma StartedIs(before: Boxes, source: string, dest: string, uids: seq<nat>)
    requires source in before
    ensures Started(before, source, dest, uids).rest == uids && Started(before, source, dest, uids).left == {}
  {
  }

  function Onward(g: Stage, more: set<nat>): Stage {
    Stage(Tail(g.rest), g.done + Seen(Head(g.rest)), g.left + more, MoveChunk(g.t, Head(g.rest)))
  }

  lemma AlongMore(before: Boxes, now: Boxes, after: Boxes, source: string, dest: string, uids: seq<nat>, g: Stage, named: bool, candid: bool,
                  more: set<nat>, clean: bool)
    requires Along(before, now, source, dest, uids, g, named, candid) && g.rest != []
    requires Contained(now, after, source, dest, Seen(Head(g.rest))) && Backed(now, after, source, dest) && FlagsFrom(now[source], after[source], 0)
    requires dest !in now ==> after == now
    requires more == {} || more == Live(now[source], Seen(Head(g.rest)))
    requires source != dest ==> after[source] == Stripped(now[source], Seen(Head(g.rest)), more)
    requires clean && dest in now && source != dest ==>
               var t := MoveChunk(Begin(now[source], now[dest]), Head(g.rest)); after == now[source := t.source][dest := t.dest]
    ensures Along(before, after, source, dest, uids, Onward(g, more), named, candid && clean)
  {
    hide Contained, Backed, FlagsFrom, Underway, Leaves, MoveAll, MoveChunk, Stripped, Live, Distinct, Head, Tail;
    HeadTail(g.rest);
    TurnContained(before, now, after, source, dest, g.done, Seen(Head(g.rest)), uids, named, true);
    if source != dest && Distinct(uids) { LeavesMore(before[source], now[source], after[source], g.rest, g.done, g.left, more); }
    MoveAllStep(g.t, g.rest);
    if source != dest && dest in before && candid && clean { TurnRefines(before, now, after, source, dest, g.t, Head(g.rest)); }
  }

  /** Where a move stands when it stops at a failing chunk. */
  lemma AlongFails(before: Boxes, now: Boxes, after: Boxes, source: string, dest: string, uids: seq<nat>, g: Stage, named: bool, candid: bool)
    requires Along(before, now, source, dest, uids, g, named, candid)
    requires Contained(now, after, source, dest, Seen(Head(g.rest))) && Backed(now, after, source, dest)
    requires dest !in now ==> after == now
    ensures Contained(before, after, source, dest, Seen(uids)) && (named ==> Backed(before, after, source, dest))
    ensures dest !in before ==> after == before
  {
    hide Contained, Backed, FlagsFrom, Underway, Leaves, MoveAll, Head, Tail;
    HeadTail(g.rest);
    TurnContained(before, now, after, source, dest, g.done, Seen(Head(g.rest)), uids, named, false);
  }

  lemma AlongAtLast(before: Boxes, now: Boxes, source: string, dest: string, uids: seq<nat>, g: Stage, named: bool, candid: bool)
    requires Along(before, now, source, dest, uids, g, named, candid) && g.rest == []
    ensures Contained(before, now, source, dest, Seen(uids)) && (named ==> Backed(before, now, source, dest))
    ensures dest !in before ==> now == before
    ensures source != dest && Distinct(uids) ==> g.left <= Live(before[source], Seen(uids)) && now[source] == Stripped(before[source], Seen(uids), g.left)
    ensures source != dest && dest in before && candid ==>
              var t := MoveAll(Begin(before[source], before[dest]), uids); now == before[source := t.source][dest := t.dest]
  {
    hide Backed, Contained, Live, Stripped;
    MoveAllDone(g.t);
    assert g.done == Seen(uids) by { assert Seen(g.rest) == {}; }
    if source != dest && Distinct(uids) { LeavesAtLast(before[source], now[source], g.done, g.left); }
  }

  lemma StillWatching(before: Boxes, now: Boxes, source: string, dest: string, ledger: map<nat, nat>, uids: seq<nat>, g: Stage, named: bool,
                      candid: bool)
    requires Watched(before, source, dest)
    requires Kept(before, now, source, dest, ledger) && Along(before, now, source, dest, uids, g, named, candid)
    ensures Watching(before, now, source, dest, ledger)
  {
    StaysUnflagged(before[source], now[source]);
  }

  datatype MailboxInfo = MailboxInfo(name: string, noselect: bool, delimiter: Option<char>)

  function Names(infos: seq<MailboxInfo>): set<string> {
    set i | i in infos :: i.name
  }

  /** The hierarchy delimiter the callers go by: the first one listed, or a slash. */
  function DelimiterOf(infos: seq<MailboxInfo>): char {
    if infos == [] then '/'
    else if infos[0].delimiter.Some? then infos[0].delimiter.value
    else DelimiterOf(infos[1..])
  }

  lemma NoNames()
    ensures Names([]) == {}
  {
  }

  lemma SomeName(boxes: Boxes, infos: seq<MailboxInfo>)
    requires Names(infos) == boxes.Keys && boxes != map[]
    ensures infos != []
  {
    var n :| n in boxes.Keys;
    assert n in Names(infos);
    var i :| i in infos && i.name == n;
  }

  lemma NamesSnoc(infos: seq<MailboxInfo>, info: MailboxInfo)
    ensures Names(infos + [info]) == Names(infos) + {info.name}
  {
    assert forall i :: i in infos + [info] <==> i in infos || i == info;
  }

  lemma {:induction false} OneDelimiter(infos: seq<MailboxInfo>, delimiter: Option<char>)
    requires infos != [] && forall i <- infos :: i.delimiter == delimiter
    ensures DelimiterOf(infos) == if delimiter.Some? then delimiter.value else '/'
  {
    assert infos[0] in infos;
    if |infos| > 1 { OneDelimiter(infos[1..], delimiter); }
  }

  method Describe(names: set<string>, noselect: set<string>, delimiter: Option<char>) returns (infos: seq<MailboxInfo>)
    ensures Names(infos) == names
    ensures forall i <- infos :: i.noselect == (i.name in noselect) && i.delimiter == delimiter
  {
    hide Names;
    infos := [];
    var rest := names;
    NoNames();
    while rest != {}
      invariant rest <= names && Names(infos) == names - rest
      invariant forall i <- infos :: i.noselect == (i.name in noselect) && i.delimiter == delimiter
      decreases |rest|
    {
      var n :| n in rest;
      NamesSnoc(infos, MailboxInfo(n, n in noselect, delimiter));
      infos, rest := infos + [MailboxInfo(n, n in noselect, delimiter)], rest - {n};
    }
  }

  class Client {
    var boxes: Boxes
    var selected: Option<string>
    const noselect: set<string>
    const delimiter: Option<char>
    /** How many commands the server has answered, and its answers in order. */
    var tick: nat
    const answers: Script
    /** The mail store as every command left it. */
    ghost var trace: seq<Boxes>
    /** How many COPY commands claimed to have copied nothing. */
    ghost var hollow: nat

    ghost predicate Valid()
      reads this
    {
      AllValid(boxes)
    }

    /** A folder is selected and still exists. */
    ghost predicate Ready()
      reads this
    {
      Valid() && selected.Some? && selected.value in boxes
    }

    ghost function Box(): Mailbox
      requires Ready()
      reads this
    {
      boxes[selected.value]
    }

    constructor (boxes: Boxes, noselect: set<string>, delimiter: Option<char>, answers: Script)
      requires AllValid(boxes)
      ensures Valid() && this.boxes == boxes && this.answers == answers
      ensures this.noselect == noselect && this.delimiter == delimiter
      ensures selected == None && tick == 0 && trace == [] && hollow == 0
    {
      this.boxes, this.noselect, this.delimiter, this.answers := boxes, noselect, delimiter, answers;
      selected, tick, trace, hollow := None, 0, [], 0;
    }

    function Separator(): char {
      if delimiter.Some? then delimiter.value else '/'
    }

    method ListFolders() returns (r: Result<seq<MailboxInfo>, ImapError>)
      requires Valid()
      modifies this
      ensures Valid() && boxes == old(boxes) && selected == old(selected) && hollow == old(hollow)
      ensures tick == old(tick) + 1 && trace == old(trace) + [boxes]
      ensures r.Ok? <==> AnswerTo(answers, old(tick)).Works?
      ensures r.Ok? ==> Names(r.value) == boxes.Keys
      ensures r.Ok? ==> forall i <- r.value :: i.noselect == (i.name in noselect) && i.delimiter == delimiter
      ensures r.Ok? && boxes != map[] ==> DelimiterOf(r.value) == Separator()
    {
      var a := AnswerTo(answers, tick);
      tick, trace := tick + 1, trace + [boxes];
      if a.Fails? { return Err(Refused); }
      var infos := Describe(boxes.Keys, noselect, delimiter);
      if boxes != map[] {
        SomeName(boxes, infos);
        OneDelimiter(infos, delimiter);
      }
      return Ok(infos);
    }

    /** CREATE, idempotently: a folder that turns out to exist already is as good as created. */
    method CreateFolder(name: string) returns (ok: bool)
      requires Valid()
      modifies this
      ensures Valid() && selected == old(selected) && old(tick) < tick && old(trace) <= trace && hollow == old(hollow)
      ensures boxes == old(boxes) || (name !in old(boxes) && boxes == old(boxes)[name := Mailbox(old(tick), 1, map[])])
      ensures ok ==> name in boxes
      ensures Smooth(answers, old(tick), tick) ==> ok
      ensures forall k :: |old(trace)| <= k < |trace| ==> trace[k] == boxes
    {
      var a := AnswerTo(answers, tick);
      if name !in boxes && (a.Works? || a.reached != {}) {
        boxes := boxes[name := Mailbox(tick, 1, map[])];
      }
      tick, trace := tick + 1, trace + [boxes];
      if a.Works? { return true; }
      var listed := ListFolders();
      return listed.Ok? && name in Names(listed.value);
    }

    /** DELETE; the server is not relied on to refuse a folder that is in use, and a failure may come
        after the folder is gone. */
    method DeleteFolder(name: string) returns (ok: bool)
      requires Valid()
      modifies this
      ensures Valid() && (boxes == old(boxes) || boxes == old(boxes) - {name}) && hollow == old(hollow)
      ensures tick == old(tick) + 1 && trace == old(trace) + [boxes]
      ensures ok <==> AnswerTo(answers, old(tick)).Works? && name in old(boxes)
      ensures ok ==> boxes == old(boxes) - {name}
    {
      var a := AnswerTo(answers, tick);
      ok := a.Works? && name in boxes;
      if ok || (a.Fails? && a.reached != {}) {
        boxes := boxes - {name};
        if selected == Some(name) { selected := None; }
      }
      tick, trace := tick + 1, trace + [boxes];
    }

    method SelectFolder(name: string) returns (r: Result<nat, ImapError>)
      requires Valid()
      modifies this
      ensures Valid() && boxes == old(boxes) && hollow == old(hollow)
      ensures tick == old(tick) + 1 && trace == old(trace) + [boxes]
      ensures r.Ok? <==> name in boxes && name !in noselect && AnswerTo(answers, old(tick)).Works?
      ensures r.Ok? ==> selected == Some(name) && r.value == |boxes[name].slots|
      ensures r.Err? ==> selected == None && r.error == Refused
    {
      var a := AnswerTo(answers, tick);
      tick, trace := tick + 1, trace + [boxes];
      if a.Fails? || name !in boxes || name in noselect {
        selected := None;
        return Err(Refused);
      }
      selected := Some(name);
      return Ok(|boxes[name].slots|);
    }

    /** SELECT, and the validity the server reports with it. */
    method SelectFolderAndUidvalidity(name: string) returns (r: Result<(nat, nat), ImapError>)
      requires Valid()
      modifies this
      ensures Valid() && boxes == old(boxes) && hollow == old(hollow)
      ensures tick == old(tick) + 1 && trace == old(trace) + [boxes]
      ensures r.Ok? <==> name in boxes && name !in noselect && AnswerTo(answers, old(tick)).Works?
      ensures r.Ok? ==> selected == Some(name) && r.value == (|boxes[name].slots|, boxes[name].validity)
      ensures r.Err? ==> selected == None && r.error == Refused
    {
      var count := SelectFolder(name);
      if count.Err? { return Err(count.error); }
      return Ok((count.value, boxes[name].validity));
    }

    /** UID FETCH; no command is sent for an empty list. */
    method FetchMessages(uids: seq<nat>) returns (r: Result<seq<Fetched>, ImapError>)
      requires Ready()
      modifies this
      ensures Ready() && boxes == old(boxes) && selected == old(selected) && hollow == old(hollow)
      ensures old(tick) <= tick && old(trace) <= trace
      ensures r.Ok? <==> Smooth(answers, old(tick), tick)
      ensures r.Ok? ==> r.value == FetchFrom(Box(), uids)
    {
      if uids == [] { return Ok([]); }
      var a := AnswerTo(answers, tick);
      tick, trace := tick + 1, trace + [boxes];
      return if a.Works? then Ok(FetchFrom(boxes[selected.value], uids)) else Err(Refused);
    }

    method SearchUids(c: Criteria) returns (r: Result<seq<nat>, ImapError>)
      requires Ready()
      modifies this
      ensures Valid() && boxes == old(boxes) && selected == old(selected) && hollow == old(hollow)
      ensures tick == old(tick) + 1 && trace == old(trace) + [boxes]
      ensures r == if AnswerTo(answers, old(tick)).Works? then Ok(Search(Box(), c)) else Err(Refused)
    {
      var a := AnswerTo(answers, tick);
      tick, trace := tick + 1, trace + [boxes];
      return if a.Works? then Ok(Search(boxes[selected.value], c)) else Err(Refused);
    }

    method StoreDeleted(uids: set<nat>) returns (ok: bool)
      requires Ready()
      modifies this
      ensures Ready() && selected == old(selected) && hollow == old(hollow)
      ensures tick == old(tick) + 1 && trace == old(trace) + [boxes]
      ensures ok == AnswerTo(answers, old(tick)).Works?
      ensures boxes == old(boxes)[selected.value := Box()]
      ensures Box() == Flag(old(Box()), if ok then uids else uids * AnswerTo(answers, old(tick)).reached)
    {
      var a := AnswerTo(answers, tick);
      var box := boxes[selected.value];
      boxes := boxes[selected.value := Flag(box, if a.Works? then uids else uids * a.reached)];
      tick, trace := tick + 1, trace + [boxes];
      return a.Works?;
    }

    method ExpungeDeleted() returns (ok: bool)
      requires Ready()
      modifies this
      ensures Ready() && selected == old(selected) && hollow == old(hollow)
      ensures tick == old(tick) + 1 && trace == old(trace) + [boxes]
      ensures ok == AnswerTo(answers, old(tick)).Works?
      ensures boxes == old(boxes)[selected.value := Box()]
      ensures Box() == Expunge(old(Box()), if ok then old(Box()).slots.Keys else AnswerTo(answers, old(tick)).reached)
    {
      var a := AnswerTo(answers, tick);
      var box := boxes[selected.value];
      boxes := boxes[selected.value := Expunge(box, if a.Works? then box.slots.Keys else a.reached)];
      tick, trace := tick + 1, trace + [boxes];
      return a.Works?;
    }

    /** UID COPY to `dest`; a destination that does not exist is refused. */
    method CopyTo(uids: set<nat>, dest: string) returns (ok: bool, emptyCopyUid: bool)
      requires Ready() && forall u <- uids :: u in Box().slots
      modifies this
      ensures Ready() && selected == old(selected)
      ensures tick == old(tick) + 1 && trace == old(trace) + [boxes]
      ensures ok == (AnswerTo(answers, old(tick)).Works? && dest in old(boxes))
      ensures ok ==> (emptyCopyUid <==> AnswerTo(answers, old(tick)).denied.Some?)
      ensures hollow == old(hollow) + if ok && emptyCopyUid then 1 else 0
      ensures dest !in old(boxes) ==> boxes == old(boxes)
      ensures dest in old(boxes) ==>
                boxes == old(boxes)[dest := Copy(old(boxes)[dest], old(Box()), Copied(AnswerTo(answers, old(tick)), uids))]
    {
      var a := AnswerTo(answers, tick);
      if dest in boxes {
        boxes := boxes[dest := Copy(boxes[dest], boxes[selected.value], Copied(a, uids))];
      }
      tick, trace := tick + 1, trace + [boxes];
      ok := a.Works? && dest in boxes;
      emptyCopyUid := a.Works? && a.denied.Some?;
      if ok && emptyCopyUid { hollow := hollow + 1; }
    }

    /** The two destructive commands of one chunk. */
    method StoreAndExpunge(uids: set<nat>) returns (ok: bool)
      requires Ready()
      modifies this
      ensures Ready() && selected == old(selected) && old(tick) <= tick && old(trace) <= trace && hollow == old(hollow)
      ensures ok <==> Smooth(answers, old(tick), tick)
      ensures ok ==> Box() == Expunge(Flag(old(Box()), uids), old(Box()).slots.Keys)
      ensures DeletedOnly(old(boxes), boxes, selected.value, uids)
      ensures AllDeletedOnly(old(boxes), trace, |old(trace)|, selected.value, uids)
    {
      ok := StoreDeleted(uids);
      if ok {
        ok := ExpungeDeleted();
      }
    }

    /** One turn of the batch loop: look which identifiers still exist, then delete those. */
    method DeleteOneChunk(chunk: seq<nat>) returns (ok: bool)
      requires Ready()
      modifies this
      ensures Ready() && selected == old(selected) && old(tick) <= tick && old(trace) <= trace && hollow == old(hollow)
      ensures ok <==> Smooth(answers, old(tick), tick)
      ensures ok ==> Box() == DeleteChunk(old(Box()), chunk)
      ensures DeletedOnly(old(boxes), boxes, selected.value, Seen(chunk))
      ensures AllDeletedOnly(old(boxes), trace, |old(trace)|, selected.value, Seen(chunk))
    {
      hide Search;
      ghost var box := Box();
      var found := SearchUids(UidSet(Seen(chunk)));
      if found.Err? { return false; }
      SearchFinds(box, Seen(chunk));
      var valid := set u | u in chunk && u in found.value;
      assert valid == Live(box, Seen(chunk));
      ok := true;
      if valid != {} {
        ok := StoreAndExpunge(valid);
      }
    }

    method DeleteMessages(uids: seq<nat>) returns (r: Result<(), ImapError>)
      requires Ready()
      modifies this
      ensures Ready() && selected == old(selected) && old(tick) <= tick && old(trace) <= trace && hollow == old(hollow)
      ensures r.Ok? <==> Smooth(answers, old(tick), tick)
      ensures r.Ok? ==> Box() == DeleteAll(old(Box()), uids)
      ensures r.Err? ==> r.error == Refused
      ensures DeletedOnly(old(boxes), boxes, selected.value, Seen(uids))
      ensures AllDeletedOnly(old(boxes), trace, |old(trace)|, selected.value, Seen(uids))
    {
      ghost var before, folder := boxes, selected.value;
      var rest := uids;
      while rest != []
        invariant Ready() && selected == Some(folder) && old(tick) <= tick && old(trace) <= trace && hollow == old(hollow)
        invariant Smooth(answers, old(tick), tick)
        invariant DeleteAll(before[folder], uids) == DeleteAll(Box(), rest)
        invariant DeletedOnly(before, boxes, folder, Seen(uids))
        invariant Seen(rest) <= Seen(uids)
        invariant AllDeletedOnly(before, trace, |old(trace)|, folder, Seen(uids))
        decreases |rest|
      {
        var chunk := Head(rest);
        ghost var current, mark := boxes, |trace|;
        HeadTail(rest);
        rest := Tail(rest);
        var ok := DeleteOneChunk(chunk);
        DeletedTwice(before, current, boxes, folder, Seen(chunk), Seen(uids));
        DeletionsCompose(before, current, trace, |old(trace)|, mark, folder, Seen(chunk), Seen(uids));
        if !ok { return Err(Refused); }
      }
      return Ok(());
    }

    method DeleteMessage(uid: nat) returns (r: Result<(), ImapError>)
      requires Ready()
      modifies this
      ensures Ready() && selected == old(selected) && old(tick) <= tick && old(trace) <= trace && hollow == old(hollow)
      ensures r.Ok? <==> Smooth(answers, old(tick), tick) && uid in old(Box()).slots
      ensures r.Ok? ==> Box() == DeleteChunk(old(Box()), [uid])
      ensures r == Err(MessageNotFound) <==> Smooth(answers, old(tick), tick) && uid !in old(Box()).slots
      ensures r == Err(MessageNotFound) ==> boxes == old(boxes)
      ensures DeletedOnly(old(boxes), boxes, selected.value, {uid})
      ensures AllDeletedOnly(old(boxes), trace, |old(trace)|, selected.value, {uid})
    {
      hide Search;
      ghost var box := Box();
      var found := SearchUids(UidSet({uid}));
      if found.Err? { return Err(Refused); }
      SearchFinds(Box(), {uid});
      assert Live(Box(), {uid}) == if uid in Box().slots then {uid} else {};
      if found.value == [] { return Err(MessageNotFound); }
      assert Seen([uid]) == {uid};
      var ok := StoreAndExpunge({uid});
      return if ok then Ok(()) else Err(Refused);
    }

    /** The first half of a move: check that the message exists and copy it. */
    method CopyMessage(uid: nat, dest: string) returns (r: Result<(), ImapError>)
      requires Ready()
      modifies this
      ensures Ready() && selected == old(selected) && old(tick) <= tick && old(trace) <= trace && old(hollow) <= hollow
      ensures r.Ok? ==> Smooth(answers, old(tick), tick) && uid in old(Box()).slots && uid in Box().slots && dest in old(boxes)
      ensures r.Ok? ==> hollow == old(hollow) && !AllHollow(answers, old(tick), tick)
      ensures Smooth(answers, old(tick), tick) && hollow == old(hollow) && uid in old(Box()).slots && dest in old(boxes) ==> r.Ok?
      ensures dest !in old(boxes) ==> boxes == old(boxes)
      ensures r.Ok? ==> boxes == old(boxes)[dest := Copy(old(boxes)[dest], old(Box()), {uid})]
      ensures Watched(old(boxes), selected.value, dest) ==>
                Safe(old(boxes), boxes, selected.value, dest) && AllSafe(old(boxes), trace, |old(trace)|, selected.value, dest)
      ensures Watched(old(boxes), selected.value, dest) && r.Ok? ==>
                Kept(old(boxes), boxes, selected.value, dest, Copies(old(boxes)[dest], {uid}))
      ensures Contained(old(boxes), boxes, selected.value, dest, {uid}) && Backed(old(boxes), boxes, selected.value, dest)
      ensures AllHollow(answers, old(tick), tick) ==> SameMail(old(boxes), boxes)
    {
      hide Contained, Backed, Kept, Account, Copy, Copies, AllSafe, Search, Watched, SameMail, Smooth, AllHollow;
      ghost var before, source, start := boxes, selected.value, tick;
      ghost var watched := Watched(before, source, dest);
      if watched { SafeStart(before, trace, source, dest); }
      ContainedAtFirst(before, source, dest, {uid});
      BackedAtFirst(before, source, dest);
      SameAtFirst(before);
      var found := SearchUids(UidSet({uid}));
      SmoothOnce(answers, start);
      if found.Err? { return Err(Refused); }
      SearchFinds(Box(), {uid});
      assert Live(Box(), {uid}) == if uid in Box().slots then {uid} else {};
      if found.value == [] { return Err(MessageNotFound); }
      ghost var copied := Copied(AnswerTo(answers, tick), {uid});
      var ok, empty := CopyTo({uid}, dest);
      if watched { SafeFirstCopy(before, old(trace) + [before], source, dest, copied); }
      if dest in before {
        ContainedCopy(before, source, dest, {uid}, copied);
        BackedCopy(before, source, dest, copied);
      }
      if dest in before && copied == {} { SameByCopy(before, source, dest); }
      TwoCommands(answers, start);
      if !ok { return Err(Refused); }
      if empty { return Err(MessageNotFound); }
      CopiedSlots(before[dest], before[source], copied);
      return Ok(());
    }

    method MoveMessage(uid: nat, dest: string) returns (r: Result<(), ImapError>)
      requires Ready()
      modifies this
      ensures Ready() && selected == old(selected) && old(tick) <= tick && old(trace) <= trace && old(hollow) <= hollow
      ensures r.Ok? ==> Smooth(answers, old(tick), tick) && uid in old(Box()).slots && dest in old(boxes)
      ensures Smooth(answers, old(tick), tick) && hollow == old(hollow) && uid in old(Box()).slots && dest in old(boxes) ==> r.Ok?
      ensures r.Ok? && dest != selected.value ==>
                var t := MoveChunk(Begin(old(Box()), old(boxes)[dest]), [uid]);
                boxes == old(boxes)[selected.value := t.source][dest := t.dest]
      ensures dest !in old(boxes) ==> boxes == old(boxes)
      ensures Watched(old(boxes), selected.value, dest) ==>
                Safe(old(boxes), boxes, selected.value, dest) && AllSafe(old(boxes), trace, |old(trace)|, selected.value, dest)
      ensures Contained(old(boxes), boxes, selected.value, dest, {uid}) && Backed(old(boxes), boxes, selected.value, dest)
      ensures r.Ok? ==> dest in boxes && hollow == old(hollow) && uid !in Box().slots
      ensures AllHollow(answers, old(tick), tick) ==> SameMail(old(boxes), boxes)
    {
      hide Contained, Backed, Kept, Account, Copy, Copies, DeleteChunk, MoveChunk, DeletedOnly, AllDeletedOnly, AllSafe, DeleteAll, ShrunkTo, Watched,
           SameMail;
      ghost var before, source := boxes, selected.value;
      r := CopyMessage(uid, dest);
      if r.Err? { return; }
      ghost var between, sofar, from := boxes, trace, tick;
      r := DeleteMessage(uid);
      SmoothJoins(answers, old(tick), from, tick);
      HollowSplits(answers, old(tick), from, tick);
      assert Seen([uid]) == {uid};
      if r.Ok? {
        DeleteOne(between[source], uid);
        if dest != source { ChunkMoved(before, boxes, source, dest, [uid], [uid]); }
      }
      ContainedDelete(between, boxes, source, dest, {uid}, {uid});
      ContainedTwice(before, between, boxes, source, dest, {uid}, {uid});
      assert {uid} + {uid} == {uid};
      BackedMove(before, boxes, source, dest, {uid});
      if Watched(before, source, dest) {
        SafeAfterDelete(before, between, boxes, sofar, trace, |old(trace)|, source, dest, Copies(before[dest], {uid}), {uid});
      }
    }

    /** The first half of a chunk: look which identifiers still exist and copy those. What is returned is to
        be deleted next; it is empty if nothing existed or the server claimed to have copied nothing. */
    method CopyChunk(chunk: seq<nat>, dest: string, ghost before: Boxes, ghost ledger: map<nat, nat>)
      returns (r: Result<seq<nat>, ImapError>, ghost grown: map<nat, nat>, ghost left: set<nat>)
      requires Ready()
      modifies this
      ensures Ready() && selected == old(selected) && old(tick) <= tick && old(trace) <= trace && old(hollow) <= hollow
      ensures r.Ok? ==> Smooth(answers, old(tick), tick)
      ensures Smooth(answers, old(tick), tick) && dest in old(boxes) ==> r.Ok?
      ensures (left == {} || left == Live(old(Box()), Seen(chunk))) && (left == {} <==> hollow == old(hollow))
      ensures r.Ok? && r.value != [] ==>
                && Seen(r.value) == Live(old(Box()), Seen(chunk)) && left == {} && dest in old(boxes)
                && boxes == old(boxes)[dest := Copy(old(boxes)[dest], old(Box()), Seen(r.value))]
                && !AllHollow(answers, old(tick), tick)
      ensures r.Ok? && r.value == [] ==>
                && left == Live(old(Box()), Seen(chunk)) && (left == {} ==> boxes == old(boxes))
                && (dest != selected.value ==> Box() == old(Box())) && FlagsFrom(old(Box()), Box(), 0)
      ensures dest !in old(boxes) ==> boxes == old(boxes)
      ensures Watching(before, old(boxes), selected.value, dest, ledger) ==>
                && Kept(before, boxes, selected.value, dest, grown) && AllSafe(before, trace, |old(trace)|, selected.value, dest)
                && (r.Ok? ==> Seen(r.value) <= grown.Keys)
      ensures Contained(old(boxes), boxes, selected.value, dest, Seen(chunk)) && Backed(old(boxes), boxes, selected.value, dest)
      ensures AllHollow(answers, old(tick), tick) ==> SameMail(old(boxes), boxes)
    {
      hide Contained, Backed, Kept, Account, Copy, Copies, AllSafe, Search, Those, SameMail, Smooth, AllHollow, Safe, Flagged;
      ghost var box, current, source, start := Box(), boxes, selected.value, tick;
      ghost var watched := Watching(before, boxes, source, dest, ledger);
      grown, left := ledger, {};
      ContainedAtFirst(current, source, dest, Seen(chunk));
      BackedAtFirst(current, source, dest);
      SameAtFirst(current);
      if watched {
        SafeSoFar(before, trace, source, dest);
        SafeStep(before, trace, boxes, |trace|, source, dest, ledger);
      }
      var found := SearchUids(UidSet(Seen(chunk)));
      SmoothOnce(answers, start);
      if found.Err? { return Err(Refused), grown, left; }
      var valid := Those(chunk, found.value);
      SearchFinds(box, Seen(chunk));
      assert Seen(valid) == Live(box, Seen(chunk));
      if valid == [] {
        assert Seen(valid) == {};
        return Ok([]), grown, left;
      }
      assert valid[0] in Seen(valid);
      ghost var copied := Copied(AnswerTo(answers, tick), Seen(valid));
      var ok, empty := CopyTo(Seen(valid), dest);
      if watched {
        KeptByCopy(before, current, source, dest, ledger, copied);
        grown := ledger + Copies(current[dest], copied);
        SafeStep(before, old(trace) + [current], boxes, |old(trace)|, source, dest, grown);
      }
      if dest in current {
        ContainedCopy(current, source, dest, Seen(chunk), copied);
        BackedCopy(current, source, dest, copied);
      }
      if dest in current && copied == {} { SameByCopy(current, source, dest); }
      TwoCommands(answers, start);
      if !ok { return Err(Refused), grown, left; }
      if empty {
        CopyFlags(current, source, dest, copied);
        left := Seen(valid);
        return Ok([]), grown, left;
      }
      return Ok(valid), grown, left;
    }

    /** One turn of the batch loop: copy the messages of the chunk that still exist, then delete them.
        `left` are those the server claimed not to have copied. */
    method MoveOneChunk(chunk: seq<nat>, dest: string, ghost before: Boxes, ghost ledger: map<nat, nat>)
      returns (r: Result<(), ImapError>, ghost grown: map<nat, nat>, ghost left: set<nat>)
      requires Ready()
      modifies this
      ensures Ready() && selected == old(selected) && old(tick) <= tick && old(trace) <= trace && old(hollow) <= hollow
      ensures r.Ok? ==> Smooth(answers, old(tick), tick)
      ensures Smooth(answers, old(tick), tick) && dest in old(boxes) ==> r.Ok?
      ensures r.Ok? && hollow == old(hollow) && dest in old(boxes) && dest != selected.value ==>
                var t := MoveChunk(Begin(old(Box()), old(boxes)[dest]), chunk);
                boxes == old(boxes)[selected.value := t.source][dest := t.dest]
      ensures (left == {} || left == Live(old(Box()), Seen(chunk))) && (left == {} <==> hollow == old(hollow))
      ensures r.Ok? && dest != selected.value ==> Box() == Stripped(old(Box()), Seen(chunk), left)
      ensures dest !in old(boxes) ==> boxes == old(boxes)
      ensures Watching(before, old(boxes), selected.value, dest, ledger) ==>
                Kept(before, boxes, selected.value, dest, grown) && AllSafe(before, trace, |old(trace)|, selected.value, dest)
      ensures Contained(old(boxes), boxes, selected.value, dest, Seen(chunk)) && Backed(old(boxes), boxes, selected.value, dest)
      ensures r.Ok? ==> FlagsFrom(old(Box()), Box(), 0)
      ensures AllHollow(answers, old(tick), tick) ==> SameMail(old(boxes), boxes)
    {
      hide Contained, Backed, FlagsFrom, Kept, Account, Copy, Copies, DeleteChunk, MoveChunk, DeleteAll, DeletedOnly, AllDeletedOnly, AllSafe,
           SameMail, Smooth, AllHollow, Flagged, Watching;
      ghost var box, current, source, start := Box(), boxes, selected.value, tick;
      ghost var watched := Watching(before, boxes, source, dest, ledger);
      var valid;
      valid, grown, left := CopyChunk(chunk, dest, before, ledger);
      if valid.Err? { return Err(Refused), grown, left; }
      if valid.value == [] {
        if left == {} && dest in boxes && dest != source { NothingMoved(boxes, source, dest, chunk); }
        return Ok(()), grown, left;
      }
      ghost var between, sofar, from, uids := boxes, trace, tick, Seen(valid.value);
      assert valid.value[0] in uids;
      r := DeleteMessages(valid.value);
      LongerTrace(old(trace), sofar, trace);
      HollowSplits(answers, start, from, tick);
      SmoothSplits(answers, start, from, tick);
      if watched { DeletedWatching(before, current, between, boxes, sofar, trace, |old(trace)|, source, dest, ledger, grown, uids); }
      ContainedDelete(between, boxes, source, dest, Seen(chunk), uids);
      ContainedTwice(current, between, boxes, source, dest, Seen(chunk), Seen(chunk));
      assert Seen(chunk) + Seen(chunk) == Seen(chunk);
      BackedMove(current, boxes, source, dest, uids);
      if r.Ok? {
        StillLive(current, source, dest, uids, valid.value[0]);
        SweptFlags(box, between[source], boxes[source], valid.value);
        if dest != source {
          ChunkMoved(current, boxes, source, dest, chunk, valid.value);
          ChunkStripped(box, chunk, valid.value);
        }
      }
    }

    /** The batch move. Whatever fails, at every command boundary no mail of an unflagged source is lost,
        and afterwards no unflagged message is gone or flagged without an unflagged copy in the destination.
        `left` are the messages the server claimed not to have copied; success leaves exactly those. */
    method MoveMessages(uids: seq<nat>, dest: string) returns (r: Result<(), ImapError>, ghost left: set<nat>)
      requires Ready()
      modifies this
      ensures Ready() && selected == old(selected) && old(tick) <= tick && old(trace) <= trace && old(hollow) <= hollow
      ensures r.Ok? ==> Smooth(answers, old(tick), tick)
      ensures Smooth(answers, old(tick), tick) && dest in old(boxes) ==> r.Ok?
      ensures r.Ok? && hollow == old(hollow) && dest in old(boxes) && dest != selected.value ==>
                var t := MoveAll(Begin(old(Box()), old(boxes)[dest]), uids);
                boxes == old(boxes)[selected.value := t.source][dest := t.dest]
      ensures left == {} <==> hollow == old(hollow)
      ensures r.Ok? && dest != selected.value && Distinct(uids) ==>
                left <= Live(old(Box()), Seen(uids)) && Box() == Stripped(old(Box()), Seen(uids), left)
      ensures dest !in old(boxes) ==> boxes == old(boxes)
      ensures Watched(old(boxes), selected.value, dest) ==>
                Safe(old(boxes), boxes, selected.value, dest) && AllSafe(old(boxes), trace, |old(trace)|, selected.value, dest)
      ensures Contained(old(boxes), boxes, selected.value, dest, Seen(uids))
      ensures (dest == selected.value ==> forall u <- uids :: u < old(Box()).next) ==> Backed(old(boxes), boxes, selected.value, dest)
      ensures AllHollow(answers, old(tick), tick) ==> SameMail(old(boxes), boxes)
    {
      hide Contained, Backed, FlagsFrom, Smooth, AllHollow, MoveAll, Head, Tail, Kept, Account, MoveChunk, AllSafe, SameMail, Distinct, Stripped, Live, Leaves,
           Along, Watched, Seen, Started;
      ghost var before, source, named := boxes, selected.value, dest == selected.value ==> forall u <- uids :: u < Box().next;
      ghost var watched := Watched(before, source, dest);
      ghost var ledger: map<nat, nat> := map[];
      ghost var g := Started(before, source, dest, uids);
      if watched { WatchedAtFirst(before, trace, source, dest); }
      AlongAtFirst(before, source, dest, uids, named);
      SameAtFirst(before);
      NothingSent(answers, tick);
      StartedIs(before, source, dest, uids);
      var rest := uids;
      while rest != []
        invariant Ready() && selected == Some(source) && old(tick) <= tick && old(trace) <= trace && old(hollow) <= hollow
        invariant Smooth(answers, old(tick), tick) && rest == g.rest
        invariant g.left == {} <==> hollow == old(hollow)
        invariant Along(before, boxes, source, dest, uids, g, named, hollow == old(hollow))
        invariant watched ==> Kept(before, boxes, source, dest, ledger) && AllSafe(before, trace, |old(trace)|, source, dest)
        invariant AllHollow(answers, old(tick), tick) ==> SameMail(before, boxes)
        decreases |rest|
      {
        ghost var current, sofar, from, candid := boxes, trace, tick, hollow == old(hollow);
        if watched { StillWatching(before, current, source, dest, ledger, uids, g, named, candid); }
        ghost var more;
        r, ledger, more := MoveOneChunk(Head(rest), dest, before, ledger);
        LongerTrace(old(trace), sofar, trace);
        HollowSplits(answers, old(tick), from, tick);
        SmoothSplits(answers, old(tick), from, tick);
        if AllHollow(answers, old(tick), tick) { SameTwice(before, current, boxes); }
        if watched { SafetyJoins(before, sofar, trace, |old(trace)|, source, dest); }
        left := g.left + more;
        if r.Err? {
          AlongFails(before, current, boxes, source, dest, uids, g, named, candid);
          return;
        }
        AlongMore(before, current, boxes, source, dest, uids, g, named, candid, more, more == {});
        g := Onward(g, more);
        rest := Tail(rest);
      }
      AlongAtLast(before, boxes, source, dest, uids, g, named, hollow == old(hollow));
      return Ok(()), g.left;
    }
  }
}
