/**
 The mail store a server keeps, and what the commands the client sends do to it (sections 6.4 and
 2.3.1.1 of RFC 3501).
 */
module Mailboxes {
  import opened Outcome

  datatype Mail = Mail(messageId: string, raw: string)

  datatype Slot = Slot(mail: Mail, deleted: bool)

  /** Unique identifiers are assigned upwards from 1 within one validity. */
  datatype Mailbox = Mailbox(validity: nat, next: nat, slots: map<nat, Slot>) {
    predicate Valid() {
      1 <= next && forall u <- slots :: 1 <= u < next
    }
  }

  datatype Fetched = Fetched(uid: nat, mail: Mail)

  /** The answer to FETCH: the bodies of those messages that still exist. */
  function FetchFrom(box: Mailbox, uids: seq<nat>): (messages: seq<Fetched>)
    ensures forall m <- messages :: m.uid in uids && m.uid in box.slots && m.mail == box.slots[m.uid].mail
    ensures forall u <- uids :: u in box.slots ==> Fetched(u, box.slots[u].mail) in messages
  {
    if uids == [] then []
    else (if uids[0] in box.slots then [Fetched(uids[0], box.slots[uids[0]].mail)] else []) + FetchFrom(box, uids[1..])
  }

  type Boxes = map<string, Mailbox>

  function Seen(uids: seq<nat>): set<nat> {
    set u | u in uids
  }

  function Live(box: Mailbox, uids: set<nat>): set<nat> {
    set u | u in uids && u in box.slots
  }

  function Flagged(box: Mailbox): set<nat> {
    set u | u in box.slots && box.slots[u].deleted
  }

  /** STORE +FLAGS (\Deleted); identifiers that name no message are ignored. */
  function Flag(box: Mailbox, uids: set<nat>): (r: Mailbox)
    ensures box.Valid() ==> r.Valid()
    ensures r.slots.Keys == box.slots.Keys
  {
    box.(slots := map u | u in box.slots :: if u in uids then Slot(box.slots[u].mail, true) else box.slots[u])
  }

  /** EXPUNGE, or the part of it that took place: flagged messages disappear. */
  function Expunge(box: Mailbox, reached: set<nat>): (r: Mailbox)
    ensures box.Valid() ==> r.Valid()
  {
    box.(slots := map u | u in box.slots && !(u in reached && box.slots[u].deleted) :: box.slots[u])
  }

  /** Where COPY puts the message `u`: above everything the destination has ever held. */
  function CopyUid(dest: Mailbox, u: nat): nat {
    dest.next + u
  }

  /** COPY of the messages `uids` of `source`; flags are preserved (section 6.4.7). */
  function Copy(dest: Mailbox, source: Mailbox, uids: set<nat>): (r: Mailbox)
    requires forall u <- uids :: u in source.slots
    ensures dest.Valid() && source.Valid() ==> r.Valid()
  {
    var copies := map u | u in uids :: CopyUid(dest, u) := source.slots[u];
    dest.(next := dest.next + source.next, slots := dest.slots + copies)
  }

  lemma CopiedSlots(dest: Mailbox, source: Mailbox, uids: set<nat>)
    requires forall u <- uids :: u in source.slots
    requires dest.Valid()
    ensures var r := Copy(dest, source, uids);
            && (forall v <- dest.slots :: v in r.slots && r.slots[v] == dest.slots[v])
            && (forall u <- uids :: CopyUid(dest, u) in r.slots && r.slots[CopyUid(dest, u)] == source.slots[u])
            && (forall v <- r.slots :: v in dest.slots || exists u <- uids :: v == CopyUid(dest, u))
  {
  }
}
