/**
 What archiving may do to the mail store: mail of other Message-IDs stays where it is, and the mail being
 archived is never without an unflagged copy. The steps are those of imap/client.py lines 813-948 and
 server/adapters.py lines 244-253.
 */
module Custody {
  import opened Outcome
  import opened Mailboxes
  import opened ChunkedMoves
  import opened ImapClient
  import opened ArchivePaths
  import opened BatchRecords
  import opened BatchDelete

  const NO_BOX := Mailbox(0, 0, map[])

  function BoxOf(boxes: Boxes, f: string): Mailbox {
    if f in boxes then boxes[f] else NO_BOX
  }

  // ---------- other mail ----------

  /** Unflagged mail outside `ids` is untouched, and what is new belongs to `ids` and has a new identifier. */
  ghost predicate OnlyMail(before: Boxes, now: Boxes, ids: set<string>) {
    && AllValid(now) && before.Keys <= now.Keys
    && (forall f <- before :: before[f].next <= now[f].next)
    && (forall f <- before :: OthersHeld(before[f], now[f], ids))
    && (forall f <- now :: NewBelongs(BoxOf(before, f), now[f], ids))
  }

  ghost predicate NewBelongs(before: Mailbox, now: Mailbox, ids: set<string>) {
    forall v <- now.slots :: FromBefore(before, now, v) || (before.next <= v && now.slots[v].mail.messageId in ids)
  }

  lemma OnlyMailAtFirst(boxes: Boxes, ids: set<string>)
    requires AllValid(boxes)
    ensures OnlyMail(boxes, boxes, ids)
  {
  }

  lemma OnlyMailTwice(a: Boxes, b: Boxes, c: Boxes, first: set<string>, second: set<string>)
    requires OnlyMail(a, b, first) && OnlyMail(b, c, second)
    ensures OnlyMail(a, c, first + second)
  {
    hide AllValid;
    forall f <- a ensures OthersHeld(a[f], c[f], first + second) {
      HeldTwice(a[f], b[f], c[f], first, second);
    }
    forall f <- c ensures NewBelongs(BoxOf(a, f), c[f], first + second) {
      if f in b {
        assert NewBelongs(BoxOf(a, f), b[f], first) && NewBelongs(b[f], c[f], second);
        BelongsTwice(BoxOf(a, f), b[f], c[f], first, second);
      }
    }
  }

  lemma HeldTwice(a: Mailbox, b: Mailbox, c: Mailbox, first: set<string>, second: set<string>)
    requires OthersHeld(a, b, first) && OthersHeld(b, c, second)
    ensures OthersHeld(a, c, first + second)
  {
    forall u <- a.slots | a.slots[u].mail.messageId !in first + second && !a.slots[u].deleted ensures Holds(c, u, a.slots[u]) {
      assert Holds(b, u, a.slots[u]);
    }
  }

  lemma BelongsTwice(a: Mailbox, b: Mailbox, c: Mailbox, first: set<string>, second: set<string>)
    requires NewBelongs(a, b, first) && NewBelongs(b, c, second) && a.next <= b.next
    ensures NewBelongs(a, c, first + second)
  {
    forall v <- c.slots ensures FromBefore(a, c, v) || (a.next <= v && c.slots[v].mail.messageId in first + second) {
      assert FromBefore(b, c, v) ==> FromBefore(a, b, v) || (a.next <= v && b.slots[v].mail.messageId in first);
    }
  }

  lemma OnlyMailMore(before: Boxes, now: Boxes, some: set<string>, ids: set<string>)
    requires OnlyMail(before, now, some) && some <= ids
    ensures OnlyMail(before, now, ids)
  {
    forall f <- before ensures OthersHeld(before[f], now[f], ids) {
      assert OthersHeld(before[f], now[f], some);
    }
    forall f <- now ensures NewBelongs(BoxOf(before, f), now[f], ids) {
      assert NewBelongs(BoxOf(before, f), now[f], some);
    }
  }

  lemma OnlyMailOn(a: Boxes, b: Boxes, c: Boxes, some: set<string>, ids: set<string>)
    requires OnlyMail(a, b, ids) && OnlyMail(b, c, some) && some <= ids
    ensures OnlyMail(a, c, ids)
  {
    hide OnlyMail;
    OnlyMailTwice(a, b, c, ids, some);
    assert ids + some == ids;
  }

  /** A move touches the mail of the messages it names. */
  lemma MoveTouchesOwn(before: Boxes, now: Boxes, source: string, dest: string, uids: set<nat>, ids: set<string>)
    requires AllValid(before) && source in before && Contained(before, now, source, dest, uids)
    requires forall u <- uids :: u in before[source].slots ==> before[source].slots[u].mail.messageId in ids
    ensures OnlyMail(before, now, ids)
  {
    forall f <- before ensures OthersHeld(before[f], now[f], ids) {
    }
    forall f <- now ensures NewBelongs(before[f], now[f], ids) {
      forall v <- now[f].slots ensures FromBefore(before[f], now[f], v) || (before[f].next <= v && now[f].slots[v].mail.messageId in ids) {
        if f == dest { assert Explained(before, now, source, dest, uids, v); }
      }
    }
  }

  lemma CreationTouchesNone(before: Boxes, now: Boxes, dest: string, d: char)
    requires AllValid(now) && OnlyAdded(before, now, dest, d)
    ensures OnlyMail(before, now, {})
  {
    forall f <- before ensures OthersHeld(before[f], now[f], {}) {
    }
  }

  /** No mail moved at all; folders may have been created. */
  ghost predicate Unmoved(before: Boxes, now: Boxes) {
    before.Keys <= now.Keys && forall f <- now :: now[f].slots == BoxOf(before, f).slots
  }

  lemma UnmovedAtFirst(boxes: Boxes)
    ensures Unmoved(boxes, boxes)
  {
  }

  lemma UnmovedOn(before: Boxes, made: Boxes, now: Boxes, dest: string, d: char)
    requires OnlyAdded(before, made, dest, d)
    ensures Unmoved(before, made)
    ensures SameMail(made, now) ==> Unmoved(before, now)
  {
  }

  /** Every message of the mailbox is where it was, flag included. */
  ghost predicate KeptWhole(before: Mailbox, now: Mailbox) {
    forall u <- before.slots :: Holds(now, u, before.slots[u])
  }

  lemma WholeAtFirst(box: Mailbox)
    ensures KeptWhole(box, box)
  {
  }

  lemma WholeTwice(a: Mailbox, b: Mailbox, c: Mailbox)
    requires KeptWhole(a, b) && KeptWhole(b, c)
    ensures KeptWhole(a, c)
  {
    forall u <- a.slots ensures Holds(c, u, a.slots[u]) {
      assert Holds(b, u, a.slots[u]);
    }
  }

  /** A move leaves every mailbox whole but its source. */
  lemma OthersWhole(before: Boxes, made: Boxes, now: Boxes, source: string, dest: string, d: char, uids: set<nat>)
    requires OnlyAdded(before, made, dest, d) && source in made && Contained(made, now, source, dest, uids)
    ensures forall f <- before :: f != source ==> f in now && KeptWhole(before[f], now[f])
  {
    forall f <- before | f != source ensures f in now && KeptWhole(before[f], now[f]) {
      assert made[f] == before[f];
    }
  }

  lemma CreationWhole(before: Boxes, made: Boxes, dest: string, d: char)
    requires OnlyAdded(before, made, dest, d)
    ensures forall f <- before :: f in made && KeptWhole(before[f], made[f])
  {
  }

  // ---------- the mail being archived ----------

  /** The folder holds an unflagged message with this Message-ID. */
  ghost predicate Has(boxes: Boxes, folder: string, id: string) {
    folder in boxes && exists v <- boxes[folder].slots :: boxes[folder].slots[v].mail.messageId == id && !boxes[folder].slots[v].deleted
  }

  ghost predicate OwnUnflagged(box: Mailbox, id: string) {
    forall u <- box.slots :: box.slots[u].mail.messageId == id ==> !box.slots[u].deleted
  }

  ghost predicate OwnOnce(box: Mailbox, id: string) {
    forall u, v :: u in box.slots && v in box.slots && box.slots[u].mail.messageId == id == box.slots[v].mail.messageId ==> u == v
  }

  /** The mail is there only where it was before. */
  ghost predicate OwnComes(before: Mailbox, now: Mailbox, id: string) {
    forall u <- now.slots :: now.slots[u].mail.messageId == id ==> u in before.slots && before.slots[u].mail.messageId == id
  }

  /** What any run, interrupted or not, leaves: if a message with this Message-ID is flagged, the destination
      has an unflagged copy; and every other folder holds the message at most once. */
  ghost predicate Tidy(boxes: Boxes, id: string, dest: string) {
    && (Has(boxes, dest, id) || forall f <- boxes :: OwnUnflagged(boxes[f], id))
    && (forall f <- boxes :: f != dest ==> OwnOnce(boxes[f], id))
  }

  /** Wherever an unflagged copy was, one is still there or in the destination. */
  ghost predicate Survives(before: Boxes, now: Boxes, id: string, dest: string) {
    forall f <- before :: Has(before, f, id) ==> Has(now, f, id) || Has(now, dest, id)
  }

  ghost predicate HasMail(boxes: Boxes, folder: string, mail: Mail) {
    folder in boxes && exists v :: Holds(boxes[folder], v, Slot(mail, false))
  }

  /** The same, for the very message and not just its Message-ID. */
  ghost predicate MailSurvives(before: Boxes, now: Boxes, id: string, dest: string) {
    forall f <- before, u <- before[f].slots :: before[f].slots[u].mail.messageId == id && !before[f].slots[u].deleted ==>
      HasMail(now, f, before[f].slots[u].mail) || HasMail(now, dest, before[f].slots[u].mail)
  }

  /** The mail arrives nowhere but in the destination. */
  ghost predicate ArrivesOnly(before: Boxes, now: Boxes, id: string, dest: string) {
    forall f <- now :: f != dest ==> OwnComes(BoxOf(before, f), now[f], id)
  }

  ghost predicate Carried(before: Boxes, now: Boxes, id: string, dest: string) {
    && Survives(before, now, id, dest)
    && MailSurvives(before, now, id, dest)
    && ArrivesOnly(before, now, id, dest)
    && (Tidy(before, id, dest) ==> Tidy(now, id, dest))
  }

  lemma CarriedAtFirst(boxes: Boxes, id: string, dest: string)
    ensures Carried(boxes, boxes, id, dest)
  {
    forall f <- boxes, u <- boxes[f].slots | !boxes[f].slots[u].deleted ensures HasMail(boxes, f, boxes[f].slots[u].mail) {
      assert Holds(boxes[f], u, Slot(boxes[f].slots[u].mail, false));
    }
  }

  lemma MailTwice(a: Boxes, b: Boxes, c: Boxes, id: string, dest: string)
    requires MailSurvives(a, b, id, dest) && MailSurvives(b, c, id, dest)
    ensures MailSurvives(a, c, id, dest)
  {
    forall f <- a, u <- a[f].slots | a[f].slots[u].mail.messageId == id && !a[f].slots[u].deleted
      ensures HasMail(c, f, a[f].slots[u].mail) || HasMail(c, dest, a[f].slots[u].mail)
    {
      var mail := a[f].slots[u].mail;
      var g := if HasMail(b, f, mail) then f else dest;
      assert HasMail(b, g, mail);
      var v :| Holds(b[g], v, Slot(mail, false));
      assert b[g].slots[v].mail == mail;
    }
  }

  lemma HeldSurvives(before: Boxes, now: Boxes, id: string, dest: string, ids: set<string>)
    requires OnlyMail(before, now, ids) && id !in ids
    ensures MailSurvives(before, now, id, dest)
  {
    forall f <- before, u <- before[f].slots | before[f].slots[u].mail.messageId == id && !before[f].slots[u].deleted
      ensures HasMail(now, f, before[f].slots[u].mail)
    {
      assert OthersHeld(before[f], now[f], ids);
      assert Holds(now[f], u, before[f].slots[u]);
    }
  }

  lemma CarriedTwice(a: Boxes, b: Boxes, c: Boxes, id: string, dest: string)
    requires Carried(a, b, id, dest) && Carried(b, c, id, dest)
    ensures Carried(a, c, id, dest)
  {
    hide Tidy, MailSurvives;
    MailTwice(a, b, c, id, dest);
    forall f <- a | Has(a, f, id) ensures Has(c, f, id) || Has(c, dest, id) {
      assert Has(b, f, id) || Has(b, dest, id);
    }
    forall f <- c | f != dest ensures OwnComes(BoxOf(a, f), c[f], id) {
      assert OwnComes(BoxOf(b, f), c[f], id);
      if f in b { assert OwnComes(BoxOf(a, f), b[f], id); }
    }
  }

  lemma OnceStays(before: Boxes, now: Boxes, id: string, dest: string)
    requires ArrivesOnly(before, now, id, dest) && forall f <- before :: f != dest ==> OwnOnce(before[f], id)
    ensures forall f <- now :: f != dest ==> OwnOnce(now[f], id)
  {
    forall f <- now | f != dest ensures OwnOnce(now[f], id) {
      assert OwnComes(BoxOf(before, f), now[f], id);
      assert OwnOnce(BoxOf(before, f), id);
    }
  }

  /** Work on other mail carries this mail, whatever its destination. */
  lemma CarriedByOthers(before: Boxes, now: Boxes, id: string, dest: string, ids: set<string>)
    requires OnlyMail(before, now, ids) && id !in ids
    ensures Carried(before, now, id, dest)
    ensures forall f <- before :: Has(before, f, id) ==> Has(now, f, id)
    ensures forall f <- now :: OwnUnflagged(BoxOf(before, f), id) ==> OwnUnflagged(now[f], id)
  {
    hide MailSurvives;
    HeldSurvives(before, now, id, dest, ids);
    forall f <- before | Has(before, f, id) ensures Has(now, f, id) {
      var v :| v in before[f].slots && before[f].slots[v].mail.messageId == id && !before[f].slots[v].deleted;
      assert OthersHeld(before[f], now[f], ids);
      assert Holds(now[f], v, before[f].slots[v]);
    }
    forall f <- now ensures OwnComes(BoxOf(before, f), now[f], id) && (OwnUnflagged(BoxOf(before, f), id) ==> OwnUnflagged(now[f], id)) {
      OthersCome(BoxOf(before, f), now[f], id, ids) by {
        assert NewBelongs(BoxOf(before, f), now[f], ids);
        assert OthersHeld(BoxOf(before, f), now[f], ids);
      }
    }
    if Tidy(before, id, dest) {
      OnceStays(before, now, id, dest);
      assert dest in before || !Has(before, dest, id);
    }
  }

  lemma OthersCome(before: Mailbox, now: Mailbox, id: string, ids: set<string>)
    requires NewBelongs(before, now, ids) && OthersHeld(before, now, ids) && id !in ids
    ensures OwnComes(before, now, id) && (OwnUnflagged(before, id) ==> OwnUnflagged(now, id))
  {
    forall u <- now.slots | now.slots[u].mail.messageId == id
      ensures u in before.slots && before.slots[u].mail.messageId == id && (before.slots[u].deleted || !now.slots[u].deleted)
    {
      assert FromBefore(before, now, u);
      assert before.slots[u].deleted || Holds(now, u, before.slots[u]);
    }
  }

  /** A move, complete or cut short anywhere, carries every message, named or not. */
  lemma CarriedByMove(before: Boxes, now: Boxes, source: string, dest: string, uids: set<nat>, id: string)
    requires AllValid(before) && source in before && Contained(before, now, source, dest, uids) && Backed(before, now, source, dest)
    ensures Carried(before, now, id, dest)
  {
    if dest in before {
      hide AllDelivered, FlagsFrom, Explained, MailSurvives;
      MovedSurvives(before, now, source, dest, uids, id);
      MoveSurvives(before, now, source, dest, uids, id);
      forall f <- now | f != dest ensures OwnComes(BoxOf(before, f), now[f], id) {
        if f == source { assert forall v <- now[f].slots :: FromBefore(before[f], now[f], v); }
      }
      if Tidy(before, id, dest) {
        OnceStays(before, now, id, dest);
        if !Has(now, dest, id) {
          assert !Has(before, dest, id);
          MoveUnflagged(before, now, source, dest, uids, id);
        }
      }
    } else {
      CarriedAtFirst(before, id, dest);
    }
  }

  lemma MoveSurvives(before: Boxes, now: Boxes, source: string, dest: string, uids: set<nat>, id: string)
    requires source in before && dest in before && Contained(before, now, source, dest, uids) && Backed(before, now, source, dest)
    ensures Survives(before, now, id, dest)
  {
    hide FlagsFrom, Explained;
    forall f <- before | Has(before, f, id) ensures Has(now, f, id) || Has(now, dest, id) {
      var v :| v in before[f].slots && before[f].slots[v].mail.messageId == id && !before[f].slots[v].deleted;
      if f == source {
        if v in Lost(before[source], now[source]) {
          LostArrives(before[source], now, dest, before[dest].next, v);
        } else {
          assert Holds(now[f], v, before[f].slots[v]);
        }
      } else if f == dest {
        assert Holds(now[f], v, before[f].slots[v]);
      }
    }
  }

  lemma MovedSurvives(before: Boxes, now: Boxes, source: string, dest: string, uids: set<nat>, id: string)
    requires source in before && dest in before && Contained(before, now, source, dest, uids) && Backed(before, now, source, dest)
    ensures MailSurvives(before, now, id, dest)
  {
    hide FlagsFrom, Explained;
    forall f <- before, u <- before[f].slots | before[f].slots[u].mail.messageId == id && !before[f].slots[u].deleted
      ensures HasMail(now, f, before[f].slots[u].mail) || HasMail(now, dest, before[f].slots[u].mail)
    {
      if f == source && u in Lost(before[source], now[source]) {
        assert Delivered(before[source].slots[u].mail, now[dest], before[dest].next);
      } else {
        assert Holds(now[f], u, before[f].slots[u]);
      }
    }
  }

  lemma LostArrives(original: Mailbox, now: Boxes, dest: string, next: nat, v: nat)
    requires dest in now && v in original.slots && Delivered(original.slots[v].mail, now[dest], next)
    ensures Has(now, dest, original.slots[v].mail.messageId)
  {
    var w :| next <= w && Holds(now[dest], w, Slot(original.slots[v].mail, false));
  }

  /** If the destination did not get the message, nothing of it was flagged either. */
  lemma MoveUnflagged(before: Boxes, now: Boxes, source: string, dest: string, uids: set<nat>, id: string)
    requires AllValid(before) && source in before && dest in before
    requires Contained(before, now, source, dest, uids) && Backed(before, now, source, dest)
    requires (forall f <- before :: OwnUnflagged(before[f], id)) && !Has(now, dest, id)
    ensures forall f <- now :: OwnUnflagged(now[f], id)
  {
    forall f <- now ensures OwnUnflagged(now[f], id) {
      forall w <- now[f].slots | now[f].slots[w].mail.messageId == id ensures !now[f].slots[w].deleted {
        assert OwnUnflagged(before[f], id) && OwnUnflagged(before[source], id);
        if (f == source || f == dest) && (f != dest || w < before[dest].next) {
          if f == dest { assert Explained(before, now, source, dest, uids, w); }
          assert FromBefore(before[f], now[f], w);
          if f == source && w in Lost(before[source], now[source]) {
            LostArrives(before[source], now, dest, before[dest].next, w);
          } else {
            assert Holds(now[f], w, before[f].slots[w]);
          }
        }
      }
    }
  }

  // ---------- looking for it ----------

  ghost predicate Lacks(box: Mailbox, id: string) {
    forall v <- box.slots :: box.slots[v].mail.messageId != id
  }

  /** Neither the record's folder nor any folder the worker searches holds the message. */
  ghost predicate Unfindable(boxes: Boxes, noselect: set<string>, waste: set<string>, r: Record) {
    forall f <- boxes :: f == r.folder || (f !in waste && f !in noselect) ==> Lacks(boxes[f], r.id)
  }

  /** The message is in the destination, or was nowhere to be found to begin with. */
  ghost predicate Settled(before: Boxes, now: Boxes, noselect: set<string>, waste: set<string>, r: Record, dest: string) {
    Has(now, dest, r.id) || Unfindable(before, noselect, waste, r)
  }

  /** What cannot be found after work on other mail could not be found before, or is in the destination. */
  lemma LookBack(before: Boxes, now: Boxes, noselect: set<string>, waste: set<string>, r: Record, dest: string, ids: set<string>)
    requires OnlyMail(before, now, ids) && r.id !in ids && Tidy(before, r.id, dest)
    requires Unfindable(now, noselect, waste, r)
    ensures Has(now, dest, r.id) || Unfindable(before, noselect, waste, r)
  {
    CarriedByOthers(before, now, r.id, dest, ids);
    if !Has(before, dest, r.id) {
      forall f <- before | f == r.folder || (f !in waste && f !in noselect) ensures Lacks(before[f], r.id) {
        forall v <- before[f].slots ensures before[f].slots[v].mail.messageId != r.id {
          assert Lacks(now[f], r.id) && OwnUnflagged(before[f], r.id);
          assert before[f].slots[v].mail.messageId == r.id ==> Has(before, f, r.id);
        }
      }
    }
  }

  lemma SettledSince(before: Boxes, mid: Boxes, now: Boxes, noselect: set<string>, waste: set<string>, r: Record, dest: string, ids: set<string>)
    requires OnlyMail(before, mid, ids) && r.id !in ids && Tidy(before, r.id, dest)
    requires Carried(mid, now, r.id, dest) && Settled(mid, now, noselect, waste, r, dest)
    ensures Settled(before, now, noselect, waste, r, dest)
  {
    hide OnlyMail, Tidy;
    if !Has(now, dest, r.id) {
      LookBack(before, mid, noselect, waste, r, dest, ids);
      assert dest in mid ==> (Has(mid, dest, r.id) ==> Has(now, dest, r.id));
    }
  }

  lemma SettledStays(before: Boxes, mid: Boxes, now: Boxes, noselect: set<string>, waste: set<string>, r: Record, dest: string)
    requires Settled(before, mid, noselect, waste, r, dest) && Carried(mid, now, r.id, dest)
    ensures Settled(before, now, noselect, waste, r, dest)
  {
    if Has(mid, dest, r.id) { assert dest in mid; }
  }

  /** Once gone from a folder that is not the destination, gone for good. */
  lemma GoneStays(before: Boxes, now: Boxes, folder: string, id: string, dest: string)
    requires Gone(before, folder, id) && folder != dest && ArrivesOnly(before, now, id, dest)
    ensures Gone(now, folder, id)
  {
    if folder in now { assert OwnComes(BoxOf(before, folder), now[folder], id); }
  }
}
