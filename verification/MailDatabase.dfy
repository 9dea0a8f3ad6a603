/**
 The local datastore: mail rows under their Message-ID, the decisions that refer to them, and the
 watermark table. db/queries.py lines 133-181, 310-331, 355-373 and 463-595.
 */
module MailDatabase {
  import opened Outcome
  import opened Mailboxes

  datatype Row = Row(folder: string, uid: Option<nat>, mail: Mail)

  type Rows = map<string, Row>

  /** The UPDATE behind update_record_source: rows that do not exist are not created. */
  function Relocated(rows: Rows, id: string, folder: string, uid: Option<nat>): Rows {
    if id in rows then rows[id := rows[id].(folder := folder, uid := uid)] else rows
  }

  predicate GoesThrough(goes: nat -> bool, t: nat) {
    goes(t)
  }

  /** Every write from the one to the other goes through. */
  ghost predicate NoFault(goes: nat -> bool, from: nat, to: nat) {
    forall t: nat :: from <= t < to ==> GoesThrough(goes, t)
  }

  lemma FaultsSplit(goes: nat -> bool, from: nat, mid: nat, to: nat)
    requires from <= mid <= to
    ensures NoFault(goes, from, to) <==> NoFault(goes, from, mid) && NoFault(goes, mid, to)
  {
  }

  lemma NoneYet(goes: nat -> bool, t: nat)
    ensures NoFault(goes, t, t)
  {
  }

  lemma OneMore(goes: nat -> bool, from: nat, t: nat)
    requires from <= t
    ensures NoFault(goes, from, t + 1) <==> NoFault(goes, from, t) && GoesThrough(goes, t)
  {
  }

  /** The decisions that went are those of the rows that went. */
  ghost predicate DecisionsGo(before: map<string, string>, now: map<string, string>, was: Rows, rows: Rows) {
    rows.Keys <= was.Keys && now == before - (was.Keys - rows.Keys)
  }

  lemma DecisionsTwice(a: map<string, string>, b: map<string, string>, c: map<string, string>, first: Rows, second: Rows, third: Rows)
    requires DecisionsGo(a, b, first, second) && DecisionsGo(b, c, second, third)
    ensures DecisionsGo(a, c, first, third)
  {
  }

  lemma DecisionsDropped(before: map<string, string>, rows: Rows, ids: set<string>)
    requires before.Keys <= rows.Keys
    ensures DecisionsGo(before, before - ids, rows, rows - ids)
  {
  }

  lemma DecisionsStay(decisions: map<string, string>, was: Rows, rows: Rows)
    requires rows.Keys == was.Keys
    ensures DecisionsGo(decisions, decisions, was, rows)
  {
  }

  class Database {
    var rows: Rows
    var decisions: map<string, string>
    var marks: map<string, string>
    /** How many writes the batch workers have attempted, and which of them go through: one that does not
        raises before it takes effect. */
    var writes: nat
    const goes: nat -> bool
    /** Every value ever written to the watermark table, in order. */
    ghost var written: seq<(string, string)>

    /** Every decision refers to a row. */
    ghost predicate Valid()
      reads this
    {
      decisions.Keys <= rows.Keys
    }

    constructor (goes: nat -> bool)
      ensures Valid() && rows == map[] && decisions == map[] && marks == map[] && writes == 0 && written == []
      ensures this.goes == goes
    {
      rows, decisions, marks, writes, written, this.goes := map[], map[], map[], 0, [], goes;
    }

    method Attempt() returns (ok: bool)
      modifies this`writes
      ensures writes == old(writes) + 1 && (ok <==> GoesThrough(goes, old(writes)))
    {
      ok := GoesThrough(goes, writes);
      writes := writes + 1;
    }

    predicate RecordExists(id: string)
      reads this
    {
      id in rows
    }

    /** Reports whether the row was new; an existing row is left alone. */
    method InsertRecord(id: string, row: Row) returns (inserted: bool)
      requires Valid()
      modifies this`rows
      ensures Valid()
      ensures inserted <==> id !in old(rows)
      ensures rows == if inserted then old(rows)[id := row] else old(rows)
    {
      inserted := id !in rows;
      if inserted { rows := rows[id := row]; }
    }

    method UpdateRecordSource(id: string, folder: string, uid: Option<nat>) returns (updated: bool)
      requires Valid()
      modifies this`rows
      ensures Valid()
      ensures updated <==> id in old(rows)
      ensures rows == Relocated(old(rows), id, folder, uid)
    {
      updated := id in rows;
      if updated { rows := rows[id := rows[id].(folder := folder, uid := uid)]; }
    }

    /** The decision goes with the row. */
    method DeleteRecord(id: string) returns (deleted: bool)
      requires Valid()
      modifies this`rows, this`decisions
      ensures Valid()
      ensures deleted <==> id in old(rows)
      ensures rows == old(rows) - {id} && decisions == old(decisions) - {id}
    {
      deleted := id in rows;
      decisions := decisions - {id};
      rows := rows - {id};
    }

    function GetWatermark(key: string): Option<string>
      reads this
    {
      if key in marks then Some(marks[key]) else None
    }

    method SetWatermark(key: string, value: string)
      modifies this`marks, this`written
      ensures marks == old(marks)[key := value] && written == old(written) + [(key, value)]
    {
      marks, written := marks[key := value], written + [(key, value)];
    }

    method DeleteWatermark(key: string)
      modifies this`marks
      ensures marks == old(marks) - {key}
    {
      marks := marks - {key};
    }
  }
}
