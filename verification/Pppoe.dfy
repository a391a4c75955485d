/** The pppoe_status table: guarded single writes, the collapsed batch write, and what redelivery
    does to it. */
module Pppoe {
  import opened Basics

  /** `details` stands for the phase, address and error columns; updated_at is not modelled. */
  datatype Row = Row(node: string, user: string, eventTime: int, details: seq<string>)

  type Subscriber = (string, string)
  type Table = map<Subscriber, Row>

  function Key(r: Row): Subscriber {
    (r.node, r.user)
  }

  datatype Message = StateChange(row: Row) | OtherEvent | NoPayload | Undecodable

  // ----- the statements -----

  /** How a write ends: it may land although its reply is an error. */
  datatype Statement = Works | LandsUnreported | Fails

  predicate Accepts(table: Table, r: Row) {
    Key(r) !in table || table[Key(r)].eventTime <= r.eventTime
  }

  /** INSERT … ON CONFLICT DO UPDATE … WHERE stored.event_time <= new.event_time. */
  function Upsert(table: Table, r: Row): Table {
    if Accepts(table, r) then table[Key(r) := r] else table
  }

  function UpsertAll(table: Table, rows: seq<Row>): Table {
    if rows == [] then table else Upsert(UpsertAll(table, rows[..|rows| - 1]), rows[|rows| - 1])
  }

  ghost predicate DistinctKeys(rows: seq<Row>) {
    forall i, j | 0 <= i < j < |rows| :: Key(rows[i]) != Key(rows[j])
  }

  /** The row of `k`, if any; the statement refuses to be given two. */
  function RowOf(rows: seq<Row>, k: Subscriber): (found: Option<Row>)
    ensures found.Some? ==> exists i :: 0 <= i < |rows| && rows[i] == found.value && Key(rows[i]) == k
    ensures found.None? ==> forall i | 0 <= i < |rows| :: Key(rows[i]) != k
  {
    if rows == [] then None
    else if Key(rows[|rows| - 1]) == k then Some(rows[|rows| - 1])
    else RowOf(rows[..|rows| - 1], k)
  }

  /** The multi-row form: every row is judged against the table as it was before the statement. */
  function MultiRowUpsert(table: Table, rows: seq<Row>): Table
    requires DistinctKeys(rows)
  {
    map k | k in table.Keys + set i | 0 <= i < |rows| :: Key(rows[i]) ::
      var r := RowOf(rows, k);
      if r.Some? && Accepts(table, r.value) then r.value else table[k]
  }

  // ----- collapsing a batch -----

  /** Position of the row of `k`, or the length. */
  function PositionOf(rows: seq<Row>, k: Subscriber): (i: nat)
    ensures i <= |rows|
    ensures i < |rows| ==> Key(rows[i]) == k
    ensures forall j | 0 <= j < i :: Key(rows[j]) != k
  {
    if rows == [] || Key(rows[0]) == k then 0 else 1 + PositionOf(rows[1..], k)
  }

  /** One more row: it takes a repeated subscriber's place unless it is older, or goes at the end. */
  function Fold(rows: seq<Row>, r: Row): seq<Row> {
    var i := PositionOf(rows, Key(r));
    if i == |rows| then rows + [r]
    else if r.eventTime < rows[i].eventTime then rows
    else rows[i := r]
  }

  function Collapse(rows: seq<Row>): seq<Row> {
    if rows == [] then [] else Fold(Collapse(rows[..|rows| - 1]), rows[|rows| - 1])
  }

  predicate AllStateChanges(batch: seq<Message>) {
    forall i | 0 <= i < |batch| :: batch[i].StateChange?
  }

  function RowsOf(batch: seq<Message>): seq<Row>
    requires AllStateChanges(batch)
  {
    seq(|batch|, i requires 0 <= i < |batch| => batch[i].row)
  }

  /** `position` says where each subscriber's row is. */
  ghost predicate Tracks(position: map<Subscriber, nat>, rows: seq<Row>) {
    && DistinctKeys(rows)
    && (forall k | k in position :: position[k] < |rows| && Key(rows[position[k]]) == k)
    && (forall i | 0 <= i < |rows| :: Key(rows[i]) in position)
  }

  /** The body of the loop: the rows slice and its position map, updated in place. */
  method AddRow(position: map<Subscriber, nat>, rows: seq<Row>, row: Row)
    returns (position': map<Subscriber, nat>, rows': seq<Row>)
    requires Tracks(position, rows)
    ensures Tracks(position', rows') && rows' == Fold(rows, row)
  {
    position', rows' := position, rows;
    var key := Key(row);
    if key in position {
      var i := position[key];
      PositionIs(rows, key, i);
      if !(row.eventTime < rows[i].eventTime) {
        rows' := rows[i := row];
      }
    } else {
      PositionIs(rows, key, |rows|);
      position' := position[key := |rows|];
      rows' := rows + [row];
    }
  }

  lemma CollapseGrows(batch: seq<Message>, n: nat)
    requires n < |batch| && AllStateChanges(batch[..n]) && batch[n].StateChange?
    ensures AllStateChanges(batch[..n + 1])
    ensures Collapse(RowsOf(batch[..n + 1])) == Fold(Collapse(RowsOf(batch[..n])), batch[n].row)
  {
    assert forall i | 0 <= i < n :: batch[..n + 1][i] == batch[..n][i];
    assert RowsOf(batch[..n + 1])[..n] == RowsOf(batch[..n]);
  }

  method PppoeRowsFromBatch(batch: seq<Message>) returns (rows: seq<Row>, ok: bool)
    ensures ok <==> AllStateChanges(batch)
    ensures ok ==> rows == Collapse(RowsOf(batch))
  {
    var position: map<Subscriber, nat> := map[];
    rows, ok := [], true;
    for n := 0 to |batch|
      invariant AllStateChanges(batch[..n])
      invariant rows == Collapse(RowsOf(batch[..n]))
      invariant Tracks(position, rows)
    {
      if !batch[n].StateChange? {
        return [], false;
      }
      CollapseGrows(batch, n);
      position, rows := AddRow(position, rows, batch[n].row);
    }
    assert batch[..|batch|] == batch;
  }

  lemma PositionIs(rows: seq<Row>, k: Subscriber, i: nat)
    requires i <= |rows| && (i < |rows| ==> Key(rows[i]) == k) && forall j | 0 <= j < i :: Key(rows[j]) != k
    ensures PositionOf(rows, k) == i
  {
  }

  lemma PositionsAfterFold(rows: seq<Row>, r: Row)
    requires DistinctKeys(rows)
    ensures DistinctKeys(Fold(rows, r))
    ensures forall k | k != Key(r) && PositionOf(rows, k) < |rows| :: PositionOf(Fold(rows, r), k) == PositionOf(rows, k)
    ensures forall k | k != Key(r) && PositionOf(rows, k) == |rows| :: PositionOf(Fold(rows, r), k) == |Fold(rows, r)|
    ensures PositionOf(Fold(rows, r), Key(r)) == PositionOf(rows, Key(r)) < |Fold(rows, r)|
  {
    var after := Fold(rows, r);
    forall k | k != Key(r)
      ensures PositionOf(after, k) == if PositionOf(rows, k) < |rows| then PositionOf(rows, k) else |after|
    {
      PositionIs(after, k, if PositionOf(rows, k) < |rows| then PositionOf(rows, k) else |after|);
    }
    PositionIs(after, Key(r), PositionOf(rows, Key(r)));
  }

  // ----- the batched path refines the one-at-a-time path -----

  /** What a batch leaves for `k`: the newest event time, the last arrival among equals. */
  function Winner(rows: seq<Row>, k: Subscriber): Option<Row> {
    if rows == [] then None
    else
      var before, r := Winner(rows[..|rows| - 1], k), rows[|rows| - 1];
      if Key(r) != k || (before.Some? && r.eventTime < before.value.eventTime) then before else Some(r)
  }

  function Settle(table: Table, k: Subscriber, winner: Option<Row>): Option<Row> {
    if winner.Some? && (k !in table || table[k].eventTime <= winner.value.eventTime) then winner
    else if k in table then Some(table[k]) else None
  }

  function At(table: Table, k: Subscriber): Option<Row> {
    if k in table then Some(table[k]) else None
  }

  lemma {:induction false} WinnerHasItsKey(rows: seq<Row>, k: Subscriber)
    ensures Winner(rows, k).Some? ==> Key(Winner(rows, k).value) == k
  {
    if rows != [] {
      WinnerHasItsKey(rows[..|rows| - 1], k);
    }
  }

  lemma {:induction false} InOrderLeavesWinner(table: Table, rows: seq<Row>, k: Subscriber)
    requires k in table ==> Key(table[k]) == k
    ensures At(UpsertAll(table, rows), k) == Settle(table, k, Winner(rows, k))
  {
    if rows != [] {
      InOrderLeavesWinner(table, rows[..|rows| - 1], k);
      WinnerHasItsKey(rows[..|rows| - 1], k);
    }
  }

  lemma RowOfPosition(rows: seq<Row>, k: Subscriber)
    requires DistinctKeys(rows)
    ensures RowOf(rows, k) == if PositionOf(rows, k) < |rows| then Some(rows[PositionOf(rows, k)]) else None
  {
  }

  lemma {:induction false} CollapseKeepsWinner(rows: seq<Row>, k: Subscriber)
    ensures DistinctKeys(Collapse(rows)) && RowOf(Collapse(rows), k) == Winner(rows, k)
  {
    if rows != [] {
      var front, r := rows[..|rows| - 1], rows[|rows| - 1];
      CollapseKeepsWinner(front, k);
      PositionsAfterFold(Collapse(front), r);
      RowOfPosition(Collapse(front), k);
      RowOfPosition(Collapse(rows), k);
    }
  }

  lemma MultiRowAt(table: Table, rows: seq<Row>, k: Subscriber)
    requires DistinctKeys(rows)
    ensures At(MultiRowUpsert(table, rows), k) == Settle(table, k, RowOf(rows, k))
  {
    var r := RowOf(rows, k);
    if r.Some? {
      var i :| 0 <= i < |rows| && rows[i] == r.value && Key(rows[i]) == k;
      assert k in set i | 0 <= i < |rows| :: Key(rows[i]);
    }
  }

  ghost predicate Keyed(table: Table) {
    forall k | k in table :: Key(table[k]) == k
  }

  /** For every batch and every starting table: the collapsed rows have pairwise distinct keys, and
      one multi-row write of them leaves exactly the table that writing each message in order leaves. */
  lemma BatchRefinesSingles(table: Table, rows: seq<Row>)
    requires Keyed(table)
    ensures DistinctKeys(Collapse(rows))
    ensures MultiRowUpsert(table, Collapse(rows)) == UpsertAll(table, rows)
  {
    CollapseKeepsWinner(rows, ("", ""));
    forall k ensures At(MultiRowUpsert(table, Collapse(rows)), k) == At(UpsertAll(table, rows), k) {
      MultiRowAt(table, Collapse(rows), k);
      CollapseKeepsWinner(rows, k);
      InOrderLeavesWinner(table, rows, k);
    }
    SameAt(MultiRowUpsert(table, Collapse(rows)), UpsertAll(table, rows));
  }

  lemma SameAt(a: Table, b: Table)
    requires forall k :: At(a, k) == At(b, k)
    ensures a == b
  {
    forall k ensures k in a <==> k in b { assert At(a, k) == At(b, k); }
    forall k | k in a ensures a[k] == b[k] { assert At(a, k) == At(b, k); }
  }

  /** The subscriber of `r` has its row, from `r` or from an event not older than it. */
  predicate HasRow(table: Table, r: Row) {
    Key(r) in table && table[Key(r)].eventTime >= r.eventTime
  }

  lemma {:induction false} UpsertAllKeepsRows(table: Table, rows: seq<Row>, r: Row)
    requires HasRow(table, r)
    ensures HasRow(UpsertAll(table, rows), r)
  {
    if rows != [] {
      UpsertAllKeepsRows(table, rows[..|rows| - 1], r);
    }
  }

  lemma {:induction false} UpsertAllHasRows(table: Table, rows: seq<Row>, i: nat)
    requires i < |rows|
    ensures HasRow(UpsertAll(table, rows), rows[i])
  {
    var front := rows[..|rows| - 1];
    if i < |front| {
      UpsertAllHasRows(table, front, i);
    }
  }

  lemma {:induction false} UpsertAllStaysKeyed(table: Table, rows: seq<Row>)
    requires Keyed(table)
    ensures Keyed(UpsertAll(table, rows))
  {
    if rows != [] {
      UpsertAllStaysKeyed(table, rows[..|rows| - 1]);
    }
  }

  /** The table behind its repository methods. */
  class StatusTable {
    var table: Table

    constructor ()
      ensures table == map[]
    {
      table := map[];
    }

    method UpsertPPPoEStatus(r: Row)
      modifies this
      ensures table == Upsert(old(table), r)
    {
      if Key(r) !in table || table[Key(r)].eventTime <= r.eventTime {
        table := table[Key(r) := r];
      }
    }

    /** One statement; it is refused when two of its rows share a key. */
    method UpsertPPPoEStatusBatch(rows: seq<Row>)
      requires DistinctKeys(rows)
      modifies this
      ensures table == MultiRowUpsert(old(table), rows)
    {
      table := MultiRowUpsert(table, rows);
    }

    /** writePPPoEBatch: a batch of at least two state changes and nothing else is written as one
        statement, and what that leaves is what writing its messages in order would have left.  After
        a false answer it may or may not have landed; the caller writes its messages one at a time. */
    method WritePPPoEBatch(batch: seq<Message>, statement: Statement) returns (written: bool)
      requires Keyed(table)
      modifies this
      ensures written <==> |batch| >= 2 && AllStateChanges(batch) && statement.Works?
      ensures table == if |batch| >= 2 && AllStateChanges(batch) && !statement.Fails? then UpsertAll(old(table), RowsOf(batch))
                       else old(table)
    {
      if |batch| < 2 {
        return false;
      }
      var rows, ok := PppoeRowsFromBatch(batch);
      if !ok || statement.Fails? {
        return false;
      }
      BatchRefinesSingles(table, RowsOf(batch));
      UpsertPPPoEStatusBatch(rows);
      written := statement.Works?;
    }
  }
}
