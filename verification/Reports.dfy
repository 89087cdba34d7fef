/** Replacing the reports of a document: identity by report number, and rewriting rows under a uniqueness
constraint that has to hold after every single row write. */
module Reports {
  import opened Rows

  datatype Report = Report(number: string, title: string, body: string, hash: string, context: string)
  datatype Row = Row(document: int, position: int, report: Report)
  datatype Incoming = Incoming(position: int, report: Report)

  datatype Status = Inserted | Updated | Unchanged | Removed
  /** `id` is 0 for a report without a row. */
  datatype Change = Change(id: int, position: int, number: string, status: Status)

  type Table = map<int, Row>

  // ----- the constraints of the table -----

  /** Positions are not negative, and no two reports of a document share one. */
  ghost predicate Constrained(rows: Table) {
    && (forall id | id in rows :: rows[id].position >= 0)
    && (forall a, b | a in rows && b in rows && rows[a].document == rows[b].document && rows[a].position == rows[b].position :: a == b)
  }

  function RowsOf(rows: Table, document: int): set<int> { set id | id in rows && rows[id].document == document }

  ghost predicate HasNumber(rows: Table, document: int, id: int, number: string) {
    id in rows && rows[id].document == document && rows[id].report.number == number
  }

  ghost predicate NumbersDiffer(rows: Table, document: int) {
    forall a, b, number | HasNumber(rows, document, a, number) && HasNumber(rows, document, b, number) :: a == b
  }

  // ----- documentIncidentChanges -----

  function ByPosition(rows: Table): (int, int) -> bool {
    (a: int, b: int) => a in rows && b in rows && rows[a].position < rows[b].position
  }

  lemma ByPositionIsTotal(rows: Table, document: int)
    requires Constrained(rows)
    ensures StrictOrder(RowsOf(rows, document), ByPosition(rows))
  {
  }

  ghost predicate Incomings(incoming: seq<Incoming>) {
    && (forall i | 0 <= i < |incoming| ::
          0 <= incoming[i].position < |incoming| && (incoming[i].report.number == "" ==> |incoming| == 1))
    && (forall i, j | 0 <= i < j < |incoming| ::
          incoming[i].report.number != incoming[j].report.number && incoming[i].position != incoming[j].position)
  }

  /** A standalone release stays standalone and a numbered bundle stays numbered, judged by the row of least position. */
  ghost predicate SameKind(rows: Table, document: int, incoming: seq<Incoming>) {
    incoming != [] ==>
      forall id | IsLeast(rows, document, id) :: (rows[id].report.number == "") == (incoming[0].report.number == "")
  }

  ghost predicate IsLeast(rows: Table, document: int, id: int) {
    && id in rows && rows[id].document == document
    && forall other | other in rows && rows[other].document == document && other != id :: rows[id].position < rows[other].position
  }

  ghost predicate Acceptable(rows: Table, document: int, incoming: seq<Incoming>) {
    incoming != [] && NumbersDiffer(rows, document) && Incomings(incoming) && SameKind(rows, document, incoming)
  }

  /** What is said about an incoming report: new if no row has its number, else unchanged exactly if the row with its
  number has its text and its context. */
  ghost predicate ChangeFor(rows: Table, document: int, incoming: Incoming, c: Change) {
    && c.position == incoming.position && c.number == incoming.report.number
    && (c.id != 0 ==>
          && HasNumber(rows, document, c.id, c.number) && c.status in {Unchanged, Updated}
          && (c.status == Unchanged <==> rows[c.id].report.hash == incoming.report.hash && rows[c.id].report.context == incoming.report.context))
    && (c.id == 0 ==> c.status == Inserted && forall id :: !HasNumber(rows, document, id, c.number))
  }

  ghost predicate Expected(incoming: seq<Incoming>, number: string) {
    exists i | 0 <= i < |incoming| :: incoming[i].report.number == number
  }

  ghost function MissingRows(rows: Table, document: int, incoming: seq<Incoming>): set<int> {
    set id | id in rows && rows[id].document == document && !Expected(incoming, rows[id].report.number)
  }

  /** The changes from `start` on are in the order of their positions, no two at one position. */
  ghost predicate Ascending(changes: seq<Change>, start: nat) {
    forall i, j | start <= i < j < |changes| :: changes[i].position < changes[j].position
  }

  /** First one change per incoming report, in their order; then every row without one as removed, once, by position. */
  ghost predicate IsChanges(rows: Table, document: int, incoming: seq<Incoming>, changes: seq<Change>) {
    && |changes| >= |incoming|
    && (forall i | 0 <= i < |incoming| :: ChangeFor(rows, document, incoming[i], changes[i]))
    && (forall i | |incoming| <= i < |changes| :: RemovedRow(rows, document, incoming, changes[i]))
    && Ascending(changes, |incoming|)
    && (forall id | id in MissingRows(rows, document, incoming) :: exists i | |incoming| <= i < |changes| :: changes[i].id == id)
  }

  // ----- the writes -----

  /** Positions of the document's rows in `done` are moved out of the way. */
  function Parked(rows: Table, done: set<int>, offset: int): Table {
    map id | id in rows :: if id in done then rows[id].(position := rows[id].position + offset) else rows[id]
  }

  /** The table while positions are parked, whichever rows were moved first, satisfies the constraints. */
  lemma ParkedIsConstrained(rows: Table, document: int, done: set<int>, offset: int)
    requires Constrained(rows) && done <= RowsOf(rows, document)
    requires forall id | id in RowsOf(rows, document) :: rows[id].position < offset
    ensures Constrained(Parked(rows, done, offset))
  {
  }

  ghost predicate IsIncoming(row: Row, document: int, incoming: seq<Incoming>) {
    exists i | 0 <= i < |incoming| :: row == Row(document, incoming[i].position, incoming[i].report)
  }

  ghost predicate IsStored(rows: Table, document: int, incoming: Incoming) {
    exists id | id in rows :: rows[id] == Row(document, incoming.position, incoming.report)
  }

  /** What the replacement leaves behind. */
  ghost predicate IsReplaced(before: Table, next: int, after: Table, document: int, incoming: seq<Incoming>) {
    && Constrained(after)
    // exactly the incoming reports
    && (forall id | id in after && after[id].document == document :: IsIncoming(after[id], document, incoming))
    && (forall i | 0 <= i < |incoming| :: IsStored(after, document, incoming[i]))
    // under the IDs of the rows with their numbers, or under new ones
    && (forall id | id in before && before[id].document == document ::
          (id in after <==> Expected(incoming, before[id].report.number)) &&
          (id in after ==> after[id].document == document && after[id].report.number == before[id].report.number))
    && (forall id | id in after && id !in before :: id >= next)
    // and nothing else changes
    && (forall id | id in before && before[id].document != document :: id in after && after[id] == before[id])
    && (forall id | id in after && after[id].document != document :: id in before)
  }

  class Store {
    var rows: Table
    var next: int
    var hashes: map<int, string>

    ghost predicate Valid()
      reads this
    {
      Constrained(rows) && next > 0 && forall id | id in rows :: 0 < id < next
    }

    constructor (documents: map<int, string>)
      ensures Valid() && rows == map[] && hashes == documents
    {
      rows, next, hashes := map[], 1, documents;
    }

    // Single row writes: the database checks the constraints at each of them.

    method UpdateRow(id: int, row: Row)
      requires Valid() && id in rows && Constrained(rows[id := row])
      modifies this`rows
      ensures Valid() && rows == old(rows)[id := row]
    {
      rows := rows[id := row];
    }

    method InsertRow(row: Row)
      requires Valid() && Constrained(rows[next := row])
      modifies this`rows, this`next
      ensures Valid() && rows == old(rows)[old(next) := row] && next == old(next) + 1
    {
      rows, next := rows[next := row], next + 1;
    }

    method DeleteRow(id: int)
      requires Valid() && id in rows
      modifies this`rows
      ensures Valid() && rows == old(rows) - {id}
    {
      rows := rows - {id};
    }

    /** byNumber; two rows with one number make the document ambiguous. */
    method IndexRows(document: int, ids: seq<int>) returns (index: Option<map<string, int>>)
      requires Lists(rows, document, ids)
      ensures index.Some? <==> NumbersDiffer(rows, document)
      ensures index.Some? ==> IsIndex(rows, document, index.value)
    {
      var byNumber: map<string, int> := map[];
      for i := 0 to |ids|
        invariant forall number | number in byNumber ::
          exists k | 0 <= k < i :: ids[k] == byNumber[number] && HasNumber(rows, document, ids[k], number)
        invariant forall k | 0 <= k < i :: rows[ids[k]].report.number in byNumber && byNumber[rows[ids[k]].report.number] == ids[k]
      {
        var number := rows[ids[i]].report.number;
        if number in byNumber {
          SeenBefore(rows, document, ids, byNumber, i);
          return None;
        }
        byNumber := byNumber[number := ids[i]];
      }
      IndexedIsUnique(rows, document, ids, byNumber);
      index := Some(byNumber);
    }

    method CompareReports(document: int, byNumber: map<string, int>, incoming: seq<Incoming>) returns (list: seq<Change>, ok: bool)
      requires Valid() && IsIndex(rows, document, byNumber)
      ensures ok <==> Incomings(incoming)
      ensures ok ==> |list| == |incoming| && forall k | 0 <= k < |list| :: ChangeFor(rows, document, incoming[k], list[k])
    {
      list := [];
      for i := 0 to |incoming|
        invariant |list| == i && WellFormedUpTo(incoming, i)
        invariant forall k | 0 <= k < i :: ChangeFor(rows, document, incoming[k], list[k])
      {
        if !Fits(incoming, i) {
          return list, false;
        }
        var number := incoming[i].report.number;
        var p := if number in byNumber then byNumber[number] else 0;
        assert number in byNumber ==> HasNumber(rows, document, byNumber[number], number);
        var status := Inserted;
        if p != 0 {
          var stored, now := rows[p].report, incoming[i].report;
          status := if stored.hash == now.hash && stored.context == now.context then Unchanged else Updated;
        }
        list := list + [Change(p, incoming[i].position, number, status)];
      }
      ok := true;
    }

    method ListRemoved(document: int, ids: seq<int>, incoming: seq<Incoming>) returns (removed: seq<Change>)
      requires Lists(rows, document, ids) && forall i, j | 0 <= i < j < |ids| :: rows[ids[i]].position < rows[ids[j]].position
      ensures Ascending(removed, 0)
      ensures forall c | c in removed :: RemovedRow(rows, document, incoming, c)
      ensures forall id | id in MissingRows(rows, document, incoming) :: exists c :: c in removed && c.id == id
    {
      removed := [];
      var seen := set i | 0 <= i < |incoming| :: incoming[i].report.number;
      for i := 0 to |ids|
        invariant forall c | c in removed :: RemovedRow(rows, document, incoming, c)
        invariant Ascending(removed, 0) && forall m, k | 0 <= m < |removed| && i <= k < |ids| :: removed[m].position < rows[ids[k]].position
        invariant forall k | 0 <= k < i && ids[k] in MissingRows(rows, document, incoming) :: exists c :: c in removed && c.id == ids[k]
      {
        assert Expected(incoming, rows[ids[i]].report.number) <==> rows[ids[i]].report.number in seen;
        if rows[ids[i]].report.number !in seen {
          var c := Change(ids[i], rows[ids[i]].position, rows[ids[i]].report.number, Removed);
          ghost var before := removed;
          removed := removed + [c];
          assert c in removed && forall d | d in before :: d in removed;
        }
      }
      forall id | id in MissingRows(rows, document, incoming) ensures exists c :: c in removed && c.id == id {
        assert id in RowsOf(rows, document);
        var k :| 0 <= k < |ids| && ids[k] == id;
      }
    }

    method DocumentIncidentChanges(document: int, incoming: seq<Incoming>) returns (changes: Option<seq<Change>>)
      requires Valid()
      ensures changes.Some? <==> Acceptable(rows, document, incoming)
      ensures changes.Some? ==> IsChanges(rows, document, incoming, changes.value)
    {
      if incoming == [] {
        return None;
      }
      ByPositionIsTotal(rows, document);
      var ids := Sorted(RowsOf(rows, document), ByPosition(rows));
      SortedLists(rows, document, ids);
      assert forall i, j | 0 <= i < j < |ids| :: ByPosition(rows)(ids[i], ids[j]);
      var index := IndexRows(document, ids);
      if index.None? {
        return None;
      }
      var list, ok := CompareReports(document, index.value, incoming);
      if !ok {
        return None;
      }
      NoneIsLeast(rows, document, ids);
      if |ids| > 0 {
        FirstOfSorted(rows, document, ids);
        if (rows[ids[0]].report.number == "") != (incoming[0].report.number == "") {
          return None;
        }
      }
      var removed := ListRemoved(document, ids, incoming);
      ChangesInOrder(rows, document, incoming, list, removed);
      changes := Some(list + removed);
    }

    /** Every position of the document is raised by the offset, row by row in any order. */
    method ParkPositions(document: int, offset: int)
      requires Valid() && forall id | id in RowsOf(rows, document) :: rows[id].position < offset
      modifies this`rows
      ensures Valid() && rows == Parked(old(rows), RowsOf(old(rows), document), offset)
    {
      var rest := RowsOf(rows, document);
      ghost var all := rest;
      ParkedNothing(rows, offset);
      while rest != {}
        invariant rest <= all && next == old(next) && Valid() && rows == Parked(old(rows), all - rest, offset)
        decreases |rest|
      {
        var id := Pick(rest);
        ParkStep(old(rows), document, all, rest, id, offset);
        UpdateRow(id, rows[id].(position := rows[id].position + offset));
        rest := rest - {id};
      }
    }

    /** The loop over the incoming reports: each gets the row of its number, or a new one. */
    method WriteReports(document: int, incoming: seq<Incoming>, changes: seq<Change>, ghost parked: Table, ghost offset: int)
      returns (ghost where: seq<int>)
      requires Valid() && rows == parked && Incomings(incoming) && |changes| >= |incoming| && offset >= |incoming|
      requires forall k | 0 <= k < |incoming| && changes[k].id != 0 :: HasNumber(parked, document, changes[k].id, incoming[k].report.number)
      requires forall id | id in RowsOf(parked, document) :: parked[id].position >= offset
      modifies this`rows, this`next
      ensures Valid() && Written(parked, old(next), rows, document, incoming, changes, |incoming|, where)
    {
      where := [];
      for i := 0 to |incoming|
        invariant Valid() && next >= old(next) && Written(parked, old(next), rows, document, incoming, changes, i, where)
      {
        var row := Row(document, incoming[i].position, incoming[i].report);
        var id := if changes[i].id == 0 then next else changes[i].id;
        WritesOneMore(parked, old(next), next, rows, document, incoming, changes, i, where, offset, id);
        if changes[i].id == 0 {
          InsertRow(row);
        } else {
          UpdateRow(id, row);
        }
        where := where + [id];
      }
    }

    method DeleteRows(changes: seq<Change>, from: nat)
      requires Valid() && from <= |changes| && forall i | from <= i < |changes| :: changes[i].id in rows
      modifies this`rows
      ensures Valid() && forall id :: id in rows <==> id in old(rows) && forall i | from <= i < |changes| :: changes[i].id != id
      ensures forall id | id in rows :: rows[id] == old(rows)[id]
    {
      for i := from to |changes|
        invariant Valid() && forall id :: id in rows <==> id in old(rows) && forall k | from <= k < i :: changes[k].id != id
        invariant forall id | id in rows :: rows[id] == old(rows)[id]
      {
        if changes[i].id in rows {
          DeleteRow(changes[i].id);
        }
      }
    }

    /** Every error leaves all rows and the source hash as they were. */
    method ReplaceDocumentIncidents(document: int, hash: string, incoming: seq<Incoming>) returns (ok: bool)
      requires Valid()
      modifies this
      ensures Valid()
      ensures ok <==> document in old(hashes) && Acceptable(old(rows), document, incoming)
      ensures ok ==> IsReplaced(old(rows), old(next), rows, document, incoming) && hashes == old(hashes)[document := hash]
      ensures !ok ==> rows == old(rows) && hashes == old(hashes) && next == old(next)
    {
      if document !in hashes {
        return false;
      }
      var changes := DocumentIncidentChanges(document, incoming);
      if changes.None? {
        return false;
      }
      var list := changes.value;
      hashes := hashes[document := hash];
      var last := LastPosition(document);
      var offset := last + |incoming| + 1;
      ParkPositions(document, offset);
      ghost var parked := rows;
      ParkedStart(old(rows), document, incoming, list, offset);
      ghost var where := WriteReports(document, incoming, list, parked, offset);
      ghost var written := rows;
      WrittenKeeps(parked, old(next), written, document, incoming, list, where, old(rows));
      DeleteRows(list, |incoming|);
      ReplacedAtLast(old(rows), old(next), offset, written, rows, document, incoming, list, where);
      ok := true;
    }

    /** The greatest position in use, or 0. */
    method LastPosition(document: int) returns (last: int)
      requires Valid()
      ensures last >= 0 && forall id | id in RowsOf(rows, document) :: rows[id].position <= last
    {
      last := 0;
      var rest := RowsOf(rows, document);
      while rest != {}
        invariant rest <= RowsOf(rows, document) && last >= 0
        invariant forall id | id in RowsOf(rows, document) && id !in rest :: rows[id].position <= last
        decreases |rest|
      {
        var id := Pick(rest);
        if rows[id].position > last {
          last := rows[id].position;
        }
        rest := rest - {id};
      }
    }

    /** ApplyDocumentRepair: nothing happens unless the source is still the previewed one. */
    method ApplyDocumentRepair(document: int, expected: string, hash: string, incoming: seq<Incoming>) returns (ok: bool)
      requires Valid()
      modifies this
      ensures Valid()
      ensures ok <==> document in old(hashes) && old(hashes)[document] == expected && Acceptable(old(rows), document, incoming)
      ensures ok ==> IsReplaced(old(rows), old(next), rows, document, incoming) && hashes == old(hashes)[document := hash]
      ensures !ok ==> rows == old(rows) && hashes == old(hashes) && next == old(next)
    {
      if document !in hashes || hashes[document] != expected {
        return false;
      }
      ok := ReplaceDocumentIncidents(document, hash, incoming);
    }
  }

  // ----- the three phases of a replacement -----

  lemma ParkedNothing(rows: Table, offset: int)
    ensures Parked(rows, {}, offset) == rows
  {
  }

  lemma ParkStep(rows: Table, document: int, all: set<int>, rest: set<int>, id: int, offset: int)
    requires Constrained(rows) && all == RowsOf(rows, document) && rest <= all && id in rest
    requires forall other | other in RowsOf(rows, document) :: rows[other].position < offset
    ensures var p := Parked(rows, all - rest, offset);
            && id in p && Parked(rows, all - (rest - {id}), offset) == p[id := p[id].(position := p[id].position + offset)]
            && Constrained(Parked(rows, all - (rest - {id}), offset))
  {
    ParkedIsConstrained(rows, document, all - (rest - {id}), offset);
  }

  /** After `n` incoming reports: each is in its row, every other row is as it was when parking ended. */
  ghost predicate Written(parked: Table, next: int, rows: Table, document: int, incoming: seq<Incoming>, changes: seq<Change>, n: nat, where: seq<int>)
  {
    && n <= |incoming| <= |changes| && |where| == n
    && (forall k | 0 <= k < n :: where[k] in rows && rows[where[k]] == Row(document, incoming[k].position, incoming[k].report))
    && (forall k | 0 <= k < n :: if changes[k].id != 0 then where[k] == changes[k].id else where[k] >= next)
    && (forall id | id in parked :: id in rows)
    && (forall id | id in rows && id !in where :: id in parked && rows[id] == parked[id])
  }

  lemma WritesOneMore(parked: Table, first: int, next: int, rows: Table, document: int, incoming: seq<Incoming>, changes: seq<Change>, i: nat,
                      where: seq<int>, offset: int, id: int)
    requires Written(parked, first, rows, document, incoming, changes, i, where) && i < |incoming| && Incomings(incoming) && offset >= |incoming|
    requires forall k | 0 <= k < |incoming| && changes[k].id != 0 :: HasNumber(parked, document, changes[k].id, incoming[k].report.number)
    requires forall x | x in RowsOf(parked, document) :: parked[x].position >= offset
    requires Constrained(rows) && first <= next && (forall x | x in rows :: x < next) && (forall x | x in parked :: x < first)
    requires id == if changes[i].id == 0 then next else changes[i].id
    ensures var after := rows[id := Row(document, incoming[i].position, incoming[i].report)];
            && (changes[i].id != 0 ==> id in rows)
            && Constrained(after) && Written(parked, first, after, document, incoming, changes, i + 1, where + [id])
  {
    var row := Row(document, incoming[i].position, incoming[i].report);
    var after := rows[id := row];
    forall k | 0 <= k < i ensures where[k] != id {
      if changes[k].id != 0 && changes[i].id != 0 {
        assert HasNumber(parked, document, changes[k].id, incoming[k].report.number);
        assert HasNumber(parked, document, changes[i].id, incoming[i].report.number);
      }
    }
    forall x | x in rows && x != id && rows[x].document == document ensures rows[x].position != row.position {
      if x in where {
        var k :| 0 <= k < i && where[k] == x;
      } else {
        assert x in RowsOf(parked, document);
      }
    }
  }

  lemma ParkedStart(rows: Table, document: int, incoming: seq<Incoming>, changes: seq<Change>, offset: int)
    requires Constrained(rows) && IsChanges(rows, document, incoming, changes)
    ensures var parked := Parked(rows, RowsOf(rows, document), offset);
            && (forall k | 0 <= k < |incoming| && changes[k].id != 0 :: HasNumber(parked, document, changes[k].id, incoming[k].report.number))
            && (forall id | id in RowsOf(parked, document) :: parked[id].position >= offset)
  {
  }

  lemma WrittenKeeps(parked: Table, next: int, written: Table, document: int, incoming: seq<Incoming>, changes: seq<Change>, where: seq<int>, before: Table)
    requires Written(parked, next, written, document, incoming, changes, |incoming|, where) && parked.Keys == before.Keys
    requires IsChanges(before, document, incoming, changes)
    ensures forall i | |incoming| <= i < |changes| :: changes[i].id in written
  {
    forall i | |incoming| <= i < |changes| ensures changes[i].id in written { assert RemovedRow(before, document, incoming, changes[i]); }
  }

  ghost predicate Lists(rows: Table, document: int, ids: seq<int>) {
    && (forall k | 0 <= k < |ids| :: ids[k] in rows && rows[ids[k]].document == document)
    && (forall id | id in RowsOf(rows, document) :: id in ids)
    && (forall i, j | 0 <= i < j < |ids| :: ids[i] != ids[j])
  }

  lemma SortedLists(rows: Table, document: int, ids: seq<int>)
    requires forall id :: id in ids <==> id in RowsOf(rows, document)
    requires forall i, j | 0 <= i < j < |ids| :: ids[i] != ids[j]
    ensures Lists(rows, document, ids)
  {
    forall k | 0 <= k < |ids| ensures ids[k] in rows && rows[ids[k]].document == document {
      var id := ids[k];
      assert id in ids && id in RowsOf(rows, document);
    }
  }

  ghost predicate IsIndex(rows: Table, document: int, byNumber: map<string, int>) {
    forall number, id :: HasNumber(rows, document, id, number) <==> number in byNumber && byNumber[number] == id
  }

  ghost predicate RemovedRow(rows: Table, document: int, incoming: seq<Incoming>, c: Change) {
    && c.id in MissingRows(rows, document, incoming)
    && c.status == Removed && c.position == rows[c.id].position && c.number == rows[c.id].report.number
  }

  lemma ChangesInOrder(rows: Table, document: int, incoming: seq<Incoming>, list: seq<Change>, removed: seq<Change>)
    requires |list| == |incoming| && forall k | 0 <= k < |list| :: ChangeFor(rows, document, incoming[k], list[k])
    requires Ascending(removed, 0) && forall c | c in removed :: RemovedRow(rows, document, incoming, c)
    requires forall id | id in MissingRows(rows, document, incoming) :: exists c :: c in removed && c.id == id
    ensures IsChanges(rows, document, incoming, list + removed)
  {
    var changes := list + removed;
    forall i | |incoming| <= i < |changes| ensures RemovedRow(rows, document, incoming, changes[i]) {
      assert changes[i] == removed[i - |list|] && removed[i - |list|] in removed;
    }
    forall id | id in MissingRows(rows, document, incoming) ensures exists i | |incoming| <= i < |changes| :: changes[i].id == id {
      var c :| c in removed && c.id == id;
      var i :| 0 <= i < |removed| && removed[i] == c;
      assert changes[|incoming| + i] == removed[i];
    }
  }

  /** The state before the last phase, and the table with the missing rows deleted. */
  ghost predicate Finishing(before: Table, next: int, offset: int, written: Table, after: Table, document: int, incoming: seq<Incoming>,
                            changes: seq<Change>, where: seq<int>) {
    && NumbersDiffer(before, document) && (forall id | id in before :: 0 < id < next)
    && IsChanges(before, document, incoming, changes)
    && Written(Parked(before, RowsOf(before, document), offset), next, written, document, incoming, changes, |incoming|, where)
    && (forall id :: id in after <==> id in written && forall i | |incoming| <= i < |changes| :: changes[i].id != id)
    && (forall id | id in after :: after[id] == written[id])
  }

  lemma WrittenRowStays(before: Table, next: int, offset: int, written: Table, after: Table, document: int, incoming: seq<Incoming>,
                        changes: seq<Change>, where: seq<int>, k: int)
    requires Finishing(before, next, offset, written, after, document, incoming, changes, where) && 0 <= k < |incoming|
    ensures where[k] in after && after[where[k]] == Row(document, incoming[k].position, incoming[k].report)
  {
    forall i | |incoming| <= i < |changes| ensures changes[i].id != where[k] {
      assert RemovedRow(before, document, incoming, changes[i]);
      assert ChangeFor(before, document, incoming[k], changes[k]);
    }
  }

  lemma ExpectedRowIsWritten(before: Table, next: int, offset: int, written: Table, after: Table, document: int, incoming: seq<Incoming>,
                             changes: seq<Change>, where: seq<int>, id: int) returns (k: int)
    requires Finishing(before, next, offset, written, after, document, incoming, changes, where)
    requires id in RowsOf(before, document) && Expected(incoming, before[id].report.number)
    ensures 0 <= k < |incoming| && where[k] == id && incoming[k].report.number == before[id].report.number
  {
    k :| 0 <= k < |incoming| && incoming[k].report.number == before[id].report.number;
    assert ChangeFor(before, document, incoming[k], changes[k]);
    assert HasNumber(before, document, id, incoming[k].report.number);
  }

  lemma MissingRowGoes(before: Table, next: int, offset: int, written: Table, after: Table, document: int, incoming: seq<Incoming>,
                       changes: seq<Change>, where: seq<int>, id: int)
    requires Finishing(before, next, offset, written, after, document, incoming, changes, where)
    requires id in RowsOf(before, document) && !Expected(incoming, before[id].report.number)
    ensures id !in after
  {
    assert id in MissingRows(before, document, incoming);
  }

  lemma RemainingRow(before: Table, next: int, offset: int, written: Table, after: Table, document: int, incoming: seq<Incoming>,
                     changes: seq<Change>, where: seq<int>, id: int) returns (k: int)
    requires Finishing(before, next, offset, written, after, document, incoming, changes, where) && id in RowsOf(after, document)
    ensures 0 <= k < |incoming| && after[id] == Row(document, incoming[k].position, incoming[k].report)
  {
    if id !in where {
      assert id in RowsOf(before, document);
      if !Expected(incoming, before[id].report.number) { MissingRowGoes(before, next, offset, written, after, document, incoming, changes, where, id); }
      k := ExpectedRowIsWritten(before, next, offset, written, after, document, incoming, changes, where, id);
    } else {
      k :| 0 <= k < |where| && where[k] == id;
    }
  }

  lemma ReplacedAtLast(before: Table, next: int, offset: int, written: Table, after: Table, document: int, incoming: seq<Incoming>,
                       changes: seq<Change>, where: seq<int>)
    requires Finishing(before, next, offset, written, after, document, incoming, changes, where) && Constrained(after)
    ensures IsReplaced(before, next, after, document, incoming)
  {
    forall id | id in RowsOf(after, document)
      ensures IsIncoming(after[id], document, incoming)
    {
      var k := RemainingRow(before, next, offset, written, after, document, incoming, changes, where, id);
      assert after[id] == Row(document, incoming[k].position, incoming[k].report);
    }
    forall i | 0 <= i < |incoming| ensures IsStored(after, document, incoming[i]) {
      WrittenRowStays(before, next, offset, written, after, document, incoming, changes, where, i);
      var id := where[i];
      assert id in after && after[id] == Row(document, incoming[i].position, incoming[i].report);
    }
    forall id | id in RowsOf(before, document)
      ensures id in after <==> Expected(incoming, before[id].report.number)
      ensures id in after ==> after[id].document == document && after[id].report.number == before[id].report.number
    {
      if Expected(incoming, before[id].report.number) {
        var k := ExpectedRowIsWritten(before, next, offset, written, after, document, incoming, changes, where, id);
        WrittenRowStays(before, next, offset, written, after, document, incoming, changes, where, k);
      } else {
        MissingRowGoes(before, next, offset, written, after, document, incoming, changes, where, id);
      }
    }
    OtherRowsStay(before, next, offset, written, after, document, incoming, changes, where);
  }

  lemma OtherRowsStay(before: Table, next: int, offset: int, written: Table, after: Table, document: int, incoming: seq<Incoming>,
                      changes: seq<Change>, where: seq<int>)
    requires Finishing(before, next, offset, written, after, document, incoming, changes, where)
    ensures forall id | id in before && before[id].document != document :: id in after && after[id] == before[id]
    ensures forall id | id in after && after[id].document != document :: id in before
    ensures forall id | id in after && id !in before :: id >= next
  {
    forall k | 0 <= k < |incoming| ensures where[k] >= next || HasNumber(before, document, where[k], incoming[k].report.number) {
      assert ChangeFor(before, document, incoming[k], changes[k]);
    }
    forall id | id in before && before[id].document != document ensures id in after && after[id] == before[id] {
      forall i | |incoming| <= i < |changes| ensures changes[i].id != id { assert RemovedRow(before, document, incoming, changes[i]); }
      assert id !in where;
    }
    forall id | id in after && id !in before ensures id >= next && after[id].document == document {
      var k :| 0 <= k < |where| && where[k] == id;
      assert ChangeFor(before, document, incoming[k], changes[k]);
    }
  }

  // ----- a second application -----

  lemma RemovedIsMissing(rows: Table, document: int, incoming: seq<Incoming>, changes: seq<Change>, i: int)
    requires IsChanges(rows, document, incoming, changes) && |incoming| <= i < |changes|
    ensures changes[i].id in MissingRows(rows, document, incoming)
  {
    assert RemovedRow(rows, document, incoming, changes[i]);
  }

  /** Replacing once more with the same reports says of every report that it is unchanged, and removes none. */
  lemma SecondTimeUnchanged(before: Table, next: int, after: Table, document: int, incoming: seq<Incoming>, changes: seq<Change>)
    requires IsReplaced(before, next, after, document, incoming) && Incomings(incoming) && incoming != []
    requires forall id | id in after :: id > 0
    requires IsChanges(after, document, incoming, changes)
    ensures Acceptable(after, document, incoming)
    ensures |changes| == |incoming| && forall i | 0 <= i < |incoming| :: changes[i].status == Unchanged
  {
    forall a, b, number | HasNumber(after, document, a, number) && HasNumber(after, document, b, number) ensures a == b {
      assert a in RowsOf(after, document) && b in RowsOf(after, document);
    }
    forall i | 0 <= i < |incoming| ensures changes[i].status == Unchanged {
      assert ChangeFor(after, document, incoming[i], changes[i]);
      assert IsStored(after, document, incoming[i]);
      var id :| id in after && after[id] == Row(document, incoming[i].position, incoming[i].report);
      assert HasNumber(after, document, id, incoming[i].report.number);
    }
    assert MissingRows(after, document, incoming) == {} by {
      forall id | id in RowsOf(after, document) ensures Expected(incoming, after[id].report.number) {}
    }
    if |changes| > |incoming| { RemovedIsMissing(after, document, incoming, changes, |incoming|); }
    forall id | IsLeast(after, document, id)
      ensures (after[id].report.number == "") == (incoming[0].report.number == "")
    {
      var i :| 0 <= i < |incoming| && after[id] == Row(document, incoming[i].position, incoming[i].report);
    }
  }

  /** The incoming reports before `n` are well formed. */
  ghost predicate WellFormedUpTo(incoming: seq<Incoming>, n: nat)
    requires n <= |incoming|
  {
    && (forall i | 0 <= i < n ::
          0 <= incoming[i].position < |incoming| && (incoming[i].report.number == "" ==> |incoming| == 1))
    && (forall i, j | 0 <= i < j < n ::
          incoming[i].report.number != incoming[j].report.number && incoming[i].position != incoming[j].position)
  }

  /** The next report is well formed and neither its number nor its position was seen before. */
  predicate Fits(incoming: seq<Incoming>, i: nat)
    requires i < |incoming|
  {
    && 0 <= incoming[i].position < |incoming| && (incoming[i].report.number == "" ==> |incoming| == 1)
    && (forall k | 0 <= k < i :: incoming[k].report.number != incoming[i].report.number && incoming[k].position != incoming[i].position)
  }

  lemma SeenBefore(rows: Table, document: int, ids: seq<int>, byNumber: map<string, int>, i: nat)
    requires i < |ids| && Lists(rows, document, ids)
    requires forall number | number in byNumber :: exists k | 0 <= k < i :: ids[k] == byNumber[number] && HasNumber(rows, document, ids[k], number)
    requires rows[ids[i]].report.number in byNumber
    ensures !NumbersDiffer(rows, document)
  {
    var number := rows[ids[i]].report.number;
    var k :| 0 <= k < i && ids[k] == byNumber[number] && HasNumber(rows, document, ids[k], number);
    assert HasNumber(rows, document, ids[i], number) && ids[i] != ids[k];
  }

  lemma IndexedIsUnique(rows: Table, document: int, ids: seq<int>, byNumber: map<string, int>)
    requires Lists(rows, document, ids)
    requires forall k | 0 <= k < |ids| :: rows[ids[k]].report.number in byNumber && byNumber[rows[ids[k]].report.number] == ids[k]
    requires forall number | number in byNumber :: exists k | 0 <= k < |ids| :: ids[k] == byNumber[number] && HasNumber(rows, document, ids[k], number)
    ensures NumbersDiffer(rows, document) && IsIndex(rows, document, byNumber)
  {
    forall number, id | HasNumber(rows, document, id, number) ensures number in byNumber && byNumber[number] == id {
      assert id in RowsOf(rows, document);
      var k :| 0 <= k < |ids| && ids[k] == id;
    }
  }

  lemma NoneIsLeast(rows: Table, document: int, ids: seq<int>)
    requires Lists(rows, document, ids)
    ensures ids == [] ==> forall id :: !IsLeast(rows, document, id)
  {
    forall id | IsLeast(rows, document, id) ensures ids != [] { assert id in RowsOf(rows, document); }
  }

  lemma FirstOfSorted(rows: Table, document: int, ids: seq<int>)
    requires |ids| > 0 && Lists(rows, document, ids) && Constrained(rows)
    requires forall i, j | 0 <= i < j < |ids| :: ByPosition(rows)(ids[i], ids[j])
    ensures forall id :: IsLeast(rows, document, id) <==> id == ids[0]
  {
    forall other | other in RowsOf(rows, document) && other != ids[0] ensures rows[ids[0]].position < rows[other].position {
      var k :| 0 <= k < |ids| && ids[k] == other;
      assert ByPosition(rows)(ids[0], ids[k]);
    }
    assert forall other | other in rows && rows[other].document == document :: other in RowsOf(rows, document);
  }

  /** What the list says of an incoming report, seen from the rows: unchanged exactly if a row of the document has its
  number, its text and its context, new exactly if none has its number, and updated otherwise. */
  lemma StatusIsExact(rows: Table, document: int, incoming: seq<Incoming>, changes: seq<Change>, i: int)
    requires Acceptable(rows, document, incoming) && IsChanges(rows, document, incoming, changes) && 0 <= i < |incoming|
    requires forall id | id in rows :: id > 0
    ensures var (status, report) := (changes[i].status, incoming[i].report);
            && (status == Unchanged <==> exists id | id in rows :: rows[id].document == document && rows[id].report.number == report.number &&
                                           rows[id].report.hash == report.hash && rows[id].report.context == report.context)
            && (status == Inserted <==> !exists id | id in rows :: rows[id].document == document && rows[id].report.number == report.number)
            && status in {Unchanged, Inserted, Updated}
  {
    var c, report := changes[i], incoming[i].report;
    assert ChangeFor(rows, document, incoming[i], c);
    if c.id == 0 {
      forall id | id in rows && rows[id].document == document ensures rows[id].report.number != report.number {
        assert !HasNumber(rows, document, id, report.number);
      }
    } else {
      forall id | id in rows && rows[id].document == document && rows[id].report.number == report.number ensures id == c.id {
        assert HasNumber(rows, document, id, report.number);
      }
    }
  }
}
