/** What the chunked batch operations of imap/client.py lines 858-948 amount to when no command fails. */
module ChunkedMoves {
  import opened Mailboxes

  const CHUNK := 100

  function Head(uids: seq<nat>): seq<nat> {
    if |uids| <= CHUNK then uids else uids[..CHUNK]
  }

  function Tail(uids: seq<nat>): (t: seq<nat>)
    ensures uids != [] ==> |t| < |uids|
    ensures uids == Head(uids) + t
  {
    if |uids| <= CHUNK then [] else uids[CHUNK..]
  }

  lemma HeadTail(uids: seq<nat>)
    ensures Seen(uids) == Seen(Head(uids)) + Seen(Tail(uids))
  {
  }

  lemma NoneLive(box: Mailbox, uids: set<nat>)
    requires Live(box, uids) == {}
    ensures forall u <- box.slots :: u !in uids
  {
    forall u <- box.slots ensures u !in uids {
      assert u in uids ==> u in Live(box, uids);
    }
  }

  // ---------- delete_messages ----------

  function DeleteChunk(box: Mailbox, chunk: seq<nat>): (r: Mailbox)
    ensures box.Valid() ==> r.Valid()
  {
    if Live(box, Seen(chunk)) == {} then box
    else Expunge(Flag(box, Live(box, Seen(chunk))), box.slots.Keys)
  }

  function DeleteAll(box: Mailbox, uids: seq<nat>): Mailbox
    decreases |uids|
  {
    if uids == [] then box else DeleteAll(DeleteChunk(box, Head(uids)), Tail(uids))
  }

  /** The set operation: every listed message goes, and with it everything that was already flagged. */
  function Without(box: Mailbox, uids: set<nat>): Mailbox {
    box.(slots := map u | u in box.slots && u !in uids && !box.slots[u].deleted :: box.slots[u])
  }

  lemma WithoutIsUnflagged(box: Mailbox, uids: set<nat>)
    ensures Flagged(Without(box, uids)) == {}
  {
  }

  lemma WithoutTwice(box: Mailbox, head: set<nat>, tail: set<nat>)
    ensures Without(Without(box, head), tail) == Without(box, head + tail)
  {
    assert Without(Without(box, head), tail).slots == Without(box, head + tail).slots;
  }

  lemma WithoutStrangers(box: Mailbox, head: set<nat>, tail: set<nat>)
    requires Live(box, head) == {}
    ensures Without(box, tail) == Without(box, head + tail)
    ensures Live(box, tail) == Live(box, head + tail)
  {
    NoneLive(box, head);
    assert Without(box, tail).slots == Without(box, head + tail).slots;
  }

  lemma DeleteChunkIsWithout(box: Mailbox, chunk: seq<nat>)
    ensures DeleteChunk(box, chunk) == if Live(box, Seen(chunk)) == {} then box else Without(box, Seen(chunk))
  {
    if Live(box, Seen(chunk)) != {} {
      assert DeleteChunk(box, chunk).slots == Without(box, Seen(chunk)).slots;
    }
  }

  /** Main result: chunking, duplicates and stale identifiers make no difference. The one thing they
      decide is whether an expunge happens at all: it does exactly when a listed message exists. */
  lemma {:induction false} DeleteRefines(box: Mailbox, uids: seq<nat>)
    ensures DeleteAll(box, uids) == if Live(box, Seen(uids)) == {} then box else Without(box, Seen(uids))
    decreases |uids|
  {
    if uids != [] {
      var first := DeleteChunk(box, Head(uids));
      DeleteChunkIsWithout(box, Head(uids));
      DeleteRefines(first, Tail(uids));
      HeadTail(uids);
      if Live(box, Seen(Head(uids))) == {} {
        WithoutStrangers(box, Seen(Head(uids)), Seen(Tail(uids)));
      } else {
        assert Live(box, Seen(uids)) >= Live(box, Seen(Head(uids)));
        WithoutTwice(box, Seen(Head(uids)), Seen(Tail(uids)));
        if Live(first, Seen(Tail(uids))) == {} { NothingMore(box, Seen(Head(uids)), Seen(Tail(uids))); }
      }
    }
  }

  lemma NothingMore(box: Mailbox, head: set<nat>, tail: set<nat>)
    requires Live(Without(box, head), tail) == {}
    ensures Without(box, head) == Without(box, head + tail)
  {
    NoneLive(Without(box, head), tail);
    assert Without(box, head).slots == Without(box, head + tail).slots;
  }

  // ---------- move_messages ----------

  /** Both mailboxes of a move, and which copy stands for which original. */
  datatype Transfer = Transfer(source: Mailbox, dest: Mailbox, ledger: map<nat, nat>)

  function Copies(dest: Mailbox, uids: set<nat>): (ledger: map<nat, nat>)
    ensures ledger.Keys == uids
  {
    map u | u in uids :: CopyUid(dest, u)
  }

  function MoveChunk(t: Transfer, chunk: seq<nat>): Transfer {
    var valid := Live(t.source, Seen(chunk));
    if valid == {} then t
    else Transfer(DeleteChunk(t.source, chunk), Copy(t.dest, t.source, valid), t.ledger + Copies(t.dest, valid))
  }

  function MoveAll(t: Transfer, uids: seq<nat>): Transfer
    decreases |uids|
  {
    if uids == [] then t else MoveAll(MoveChunk(t, Head(uids)), Tail(uids))
  }

  lemma {:induction false} MoveSource(t: Transfer, uids: seq<nat>)
    ensures MoveAll(t, uids).source == DeleteAll(t.source, uids)
    decreases |uids|
  {
    if uids != [] { MoveSource(MoveChunk(t, Head(uids)), Tail(uids)); }
  }

  /** The copies are exactly accounted for: each stands for one original, is new to the destination,
      carries its mail and flag, and the destination gained nothing else. */
  ghost predicate Balanced(source: Mailbox, dest: Mailbox, t: Transfer) {
    && t.source.Valid() && t.dest.Valid() && dest.next <= t.dest.next
    && (forall u <- t.source.slots :: u in source.slots && t.source.slots[u] == source.slots[u])
    && AllCopies(source, dest, t.dest, t.ledger)
    && OneEach(t.ledger)
    && OnlyCopiesGained(dest, t.dest, t.ledger)
  }

  ghost predicate AllCopies(source: Mailbox, dest: Mailbox, now: Mailbox, ledger: map<nat, nat>) {
    forall u <- ledger :: IsCopy(source, dest, now, u, ledger[u])
  }

  ghost predicate IsCopy(source: Mailbox, dest: Mailbox, now: Mailbox, u: nat, v: nat) {
    u in source.slots && dest.next <= v && v in now.slots && now.slots[v] == source.slots[u]
  }

  ghost predicate OneEach(ledger: map<nat, nat>) {
    forall u, w :: u in ledger && w in ledger && u != w ==> ledger[u] != ledger[w]
  }

  ghost predicate OnlyCopiesGained(dest: Mailbox, now: Mailbox, ledger: map<nat, nat>) {
    && (forall v <- dest.slots :: v in now.slots && now.slots[v] == dest.slots[v])
    && (forall v <- now.slots :: v in dest.slots || StandsFor(ledger, v))
  }

  ghost predicate StandsFor(ledger: map<nat, nat>, v: nat) {
    exists u <- ledger :: ledger[u] == v
  }

  function AfterCopy(t: Transfer, valid: set<nat>): Transfer
    requires forall u <- valid :: u in t.source.slots
  {
    Transfer(t.source, Copy(t.dest, t.source, valid), t.ledger + Copies(t.dest, valid))
  }

  lemma CopiesAreCopies(source: Mailbox, dest: Mailbox, t: Transfer, valid: set<nat>)
    requires t.dest.Valid() && dest.next <= t.dest.next && AllCopies(source, dest, t.dest, t.ledger)
    requires forall u <- valid :: u in t.source.slots && u in source.slots && t.source.slots[u] == source.slots[u]
    ensures AllCopies(source, dest, AfterCopy(t, valid).dest, AfterCopy(t, valid).ledger)
  {
    var after := AfterCopy(t, valid);
    CopiedSlots(t.dest, t.source, valid);
    forall u <- after.ledger
      ensures IsCopy(source, dest, after.dest, u, after.ledger[u])
    {
      if u in valid {
        assert after.ledger[u] == CopyUid(t.dest, u);
      } else {
        assert IsCopy(source, dest, t.dest, u, t.ledger[u]);
      }
    }
  }

  lemma CopiesDiffer(t: Transfer, valid: set<nat>)
    requires OneEach(t.ledger) && forall u <- t.ledger :: t.ledger[u] < t.dest.next
    ensures OneEach(t.ledger + Copies(t.dest, valid))
  {
    var ledger := t.ledger + Copies(t.dest, valid);
    assert forall u <- ledger :: ledger[u] == if u in valid then CopyUid(t.dest, u) else t.ledger[u];
  }

  lemma GainAccountedFor(source: Mailbox, dest: Mailbox, t: Transfer, valid: set<nat>)
    requires dest.Valid() && Balanced(source, dest, t)
    requires forall u <- valid :: u in t.source.slots && u !in t.ledger
    ensures OnlyCopiesGained(dest, AfterCopy(t, valid).dest, AfterCopy(t, valid).ledger)
  {
    var after := AfterCopy(t, valid);
    CopiedSlots(t.dest, t.source, valid);
    forall v <- after.dest.slots
      ensures v in dest.slots || StandsFor(after.ledger, v)
    {
      if v !in t.dest.slots {
        var u :| u in valid && v == CopyUid(t.dest, u);
        assert u in after.ledger && after.ledger[u] == v;
      } else if v !in dest.slots {
        var u :| u in t.ledger && t.ledger[u] == v;
        assert u in after.ledger && after.ledger[u] == v;
      }
    }
  }

  /** Copying further messages keeps the account, as long as none of them has a copy yet. */
  lemma CopyKeepsBalance(source: Mailbox, dest: Mailbox, t: Transfer, valid: set<nat>)
    requires dest.Valid() && Balanced(source, dest, t)
    requires forall u <- valid :: u in t.source.slots && u !in t.ledger
    ensures Balanced(source, dest, AfterCopy(t, valid))
  {
    CopiesAreCopies(source, dest, t, valid);
    assert forall u <- t.ledger :: IsCopy(source, dest, t.dest, u, t.ledger[u]);
    CopiesDiffer(t, valid);
    GainAccountedFor(source, dest, t, valid);
  }

  /** Nothing that has a copy is still in the source. */
  ghost predicate Apart(t: Transfer) {
    forall u <- t.ledger :: u !in t.source.slots
  }

  lemma MoveChunkKeepsBalance(source: Mailbox, dest: Mailbox, t: Transfer, chunk: seq<nat>)
    requires dest.Valid() && Balanced(source, dest, t) && Apart(t)
    ensures var t' := MoveChunk(t, chunk);
            Balanced(source, dest, t') && Apart(t')
  {
    var valid := Live(t.source, Seen(chunk));
    if valid != {} {
      CopyKeepsBalance(source, dest, t, valid);
      DeleteChunkIsWithout(t.source, chunk);
    }
  }

  lemma {:induction false} MoveKeepsBalance(source: Mailbox, dest: Mailbox, t: Transfer, uids: seq<nat>)
    requires dest.Valid() && Balanced(source, dest, t) && Apart(t)
    ensures Balanced(source, dest, MoveAll(t, uids)) && Apart(MoveAll(t, uids))
    decreases |uids|
  {
    if uids != [] {
      MoveChunkKeepsBalance(source, dest, t, Head(uids));
      MoveKeepsBalance(source, dest, MoveChunk(t, Head(uids)), Tail(uids));
    }
  }

  lemma {:induction false} CopiedWhenUnflagged(t: Transfer, uids: seq<nat>)
    requires Live(t.source, Seen(uids)) * Flagged(t.source) == {}
    ensures MoveAll(t, uids).ledger.Keys == t.ledger.Keys + Live(t.source, Seen(uids))
    decreases |uids|
  {
    if uids != [] {
      var next := MoveChunk(t, Head(uids));
      var head, tail := Seen(Head(uids)), Seen(Tail(uids));
      HeadTail(uids);
      DeleteChunkIsWithout(t.source, Head(uids));
      LiveAfterChunk(t.source, head, tail);
      assert Live(next.source, tail) * Flagged(next.source) == {};
      CopiedWhenUnflagged(next, Tail(uids));
    }
  }

  /** What a chunk leaves of the messages listed after it, when none of them was flagged. */
  lemma LiveAfterChunk(box: Mailbox, head: set<nat>, tail: set<nat>)
    requires Live(box, head + tail) * Flagged(box) == {}
    ensures Live(box, head + tail) == Live(box, head) + Live(box, tail)
    ensures Live(box, head) + Live(Without(box, head), tail) == Live(box, head + tail)
    ensures Flagged(Without(box, head)) == {}
  {
    forall u | u in Live(box, tail)
      ensures u in Live(box, head) || u in Live(Without(box, head), tail)
    {
      assert u in Live(box, head + tail);
      assert box.slots[u].deleted ==> u in Live(box, head + tail) * Flagged(box);
    }
  }

  function Begin(source: Mailbox, dest: Mailbox): Transfer {
    Transfer(source, dest, map[])
  }

  /** Main result: with no listed message flagged beforehand, the chunked move is one set operation.
      The source loses the listed messages and whatever else was flagged; the destination gains one
      copy of each listed message that existed, and nothing else. */
  lemma MoveRefines(source: Mailbox, dest: Mailbox, uids: seq<nat>)
    requires source.Valid() && dest.Valid()
    requires Live(source, Seen(uids)) * Flagged(source) == {}
    ensures var t := MoveAll(Begin(source, dest), uids);
            && t.source == (if Live(source, Seen(uids)) == {} then source else Without(source, Seen(uids)))
            && t.ledger.Keys == Live(source, Seen(uids))
            && Balanced(source, dest, t)
  {
    MoveSource(Begin(source, dest), uids);
    DeleteRefines(source, uids);
    CopiedWhenUnflagged(Begin(source, dest), uids);
    MoveKeepsBalance(source, dest, Begin(source, dest), uids);
  }

  // ---------- when a move loses mail ----------

  /** Every original is still there or has its own copy. */
  ghost predicate NothingLost(source: Mailbox, t: Transfer) {
    forall u <- source.slots :: u in t.source.slots || u in t.ledger
  }

  /** The first chunk that names a message that exists: its expunge sweeps every flagged one. */
  function FirstEffective(source: Mailbox, uids: seq<nat>): seq<nat>
    decreases |uids|
  {
    if uids == [] then []
    else if Live(source, Seen(Head(uids))) != {} then Head(uids)
    else FirstEffective(source, Tail(uids))
  }

  lemma {:induction false} KeepsWhenUnflagged(source: Mailbox, t: Transfer, uids: seq<nat>)
    requires Flagged(t.source) == {} && NothingLost(source, t)
    ensures NothingLost(source, MoveAll(t, uids))
    decreases |uids|
  {
    if uids != [] {
      var next := MoveChunk(t, Head(uids));
      DeleteChunkIsWithout(t.source, Head(uids));
      forall u <- source.slots ensures u in next.source.slots || u in next.ledger {
        if u in t.source.slots { assert t.source.slots[u].deleted ==> u in Flagged(t.source); }
      }
      WithoutIsUnflagged(t.source, Seen(Head(uids)));
      KeepsWhenUnflagged(source, next, Tail(uids));
    }
  }

  lemma {:induction false} GoneStaysGone(t: Transfer, uids: seq<nat>, u: nat)
    requires u !in t.source.slots && u !in t.ledger
    ensures u !in MoveAll(t, uids).source.slots && u !in MoveAll(t, uids).ledger
    decreases |uids|
  {
    if uids != [] {
      DeleteChunkIsWithout(t.source, Head(uids));
      GoneStaysGone(MoveChunk(t, Head(uids)), Tail(uids), u);
    }
  }

  /** Main result: a move loses mail exactly when a message flagged beforehand is missing from the
      first chunk that takes effect, since that chunk's expunge removes it uncopied. */
  lemma {:induction false} MoveLosesNothingIff(source: Mailbox, dest: Mailbox, uids: seq<nat>)
    ensures NothingLost(source, MoveAll(Begin(source, dest), uids)) <==>
            Live(source, Seen(uids)) == {} || Flagged(source) <= Seen(FirstEffective(source, uids))
    decreases |uids|
  {
    var t := Begin(source, dest);
    if uids != [] {
      HeadTail(uids);
      var head := Live(source, Seen(Head(uids)));
      assert Live(source, Seen(uids)) == head + Live(source, Seen(Tail(uids)));
      if head == {} {
        MoveLosesNothingIff(source, dest, Tail(uids));
      } else {
        var next := MoveChunk(t, Head(uids));
        DeleteChunkIsWithout(source, Head(uids));
        if Flagged(source) <= Seen(Head(uids)) {
          WithoutIsUnflagged(source, Seen(Head(uids)));
          forall u <- source.slots ensures u in next.source.slots || u in next.ledger {
            if source.slots[u].deleted { assert u in Flagged(source); }
          }
          KeepsWhenUnflagged(source, next, Tail(uids));
        } else {
          var u :| u in Flagged(source) && u !in Seen(Head(uids));
          GoneStaysGone(next, Tail(uids), u);
        }
      }
    }
  }
}
