/** The consume loop and the offsets it hands over: fetching and batching over several partitions,
    the batched write and its fallback, outages, dead letters, shutdown at any point, restarts and
    rebalances that fetch again from an earlier offset. */
module Offsets {
  import opened Basics
  import opened Pppoe
  import opened RetryPolicy

  const MAX_BATCH_SIZE: nat := 500
  const BATCH_LINGER_MS: nat := 50

  datatype Place = Place(partition: nat, offset: nat)

  /** What became of a message: written by its handler, deliberately dropped, or stored in kafka_dlq. */
  datatype Disposition = Handled | Dropped | DeadLettered

  /** `handed` is, per partition, one more than the greatest offset handed over; `position` is the next
      offset to fetch; `ledger` is the outcome of each message so far and `table` is pppoe_status.  A
      stopped consumer has no batch. */
  datatype State = State(
    log: seq<seq<Message>>, handed: seq<nat>, position: seq<nat>, batch: seq<Place>,
    running: bool, ledger: map<Place, Disposition>, table: Table)

  /** What the world does to the handling of one message: its attempts, whether the write of a failed
      one had landed all the same, the dead-letter inserts, whether shutdown follows, and whether the
      reader takes the offset. */
  datatype Script = Script(outcomes: seq<Outcome>, lands: bool, tries: seq<bool>, stopsAfter: bool, commits: bool)

  datatype Step =
    | Produce(partition: nat, message: Message)
    | Restart(offsets: seq<nat>)                      // from the broker's committed offsets, which lag
    | Rewind(partition: nat, offset: nat)             // a rebalance in mid-session
    | Fetch(partition: nat)
    | WriteBatch(statement: Statement, commits: bool)
    | HandleNext(script: Script)

  predicate InLog(log: seq<seq<Message>>, pl: Place) {
    pl.partition < |log| && pl.offset < |log[pl.partition]|
  }

  function MessageAt(log: seq<seq<Message>>, pl: Place): Message
    requires InLog(log, pl)
  {
    log[pl.partition][pl.offset]
  }

  /** Undecodable messages and messages without a payload are acknowledged unhandled. */
  predicate Droppable(m: Message) {
    m.Undecodable? || m.NoPayload?
  }

  ghost predicate Shape(st: State) {
    && |st.handed| == |st.position| == |st.log|
    && (forall p | 0 <= p < |st.log| :: st.handed[p] <= |st.log[p]| && st.position[p] <= |st.log[p]|)
    && (forall i | 0 <= i < |st.batch| :: InLog(st.log, st.batch[i]))
  }

  // ----- the steps -----

  function HandOver(handed: seq<nat>, pl: Place): (after: seq<nat>)
    ensures |after| == |handed|
  {
    if pl.partition < |handed| && handed[pl.partition] <= pl.offset then handed[pl.partition := pl.offset + 1] else handed
  }

  function HandOverAll(handed: seq<nat>, batch: seq<Place>): (after: seq<nat>)
    ensures |after| == |handed|
  {
    if batch == [] then handed
    else HandOver(HandOverAll(handed, batch[..|batch| - 1]), batch[|batch| - 1])
  }

  ghost predicate Bounded(log: seq<seq<Message>>, handed: seq<nat>) {
    |handed| == |log| && forall p | 0 <= p < |log| :: handed[p] <= |log[p]|
  }

  lemma {:induction false} HandOverAllBounded(log: seq<seq<Message>>, handed: seq<nat>, batch: seq<Place>)
    requires Bounded(log, handed) && forall i | 0 <= i < |batch| :: InLog(log, batch[i])
    ensures Bounded(log, HandOverAll(handed, batch))
  {
    if batch != [] {
      assert InLog(log, batch[|batch| - 1]);
      HandOverAllBounded(log, handed, batch[..|batch| - 1]);
    }
  }

  /** `after` is what handing over `batch` makes of `before`: per partition the greater of the old offset
      and one more than the greatest of the batch, and nothing else. */
  ghost predicate IsHandOver(before: seq<nat>, batch: seq<Place>, after: seq<nat>) {
    && |after| == |before|
    && (forall p | 0 <= p < |before| :: before[p] <= after[p])
    && (forall i | 0 <= i < |batch| && batch[i].partition < |before| :: batch[i].offset < after[batch[i].partition])
    && (forall p | 0 <= p < |before| && after[p] != before[p] :: Reaches(batch, p, after[p]))
  }

  /** Some place of the batch in partition `p` is the last below `n`. */
  ghost predicate Reaches(batch: seq<Place>, p: nat, n: nat) {
    exists i | 0 <= i < |batch| :: batch[i].partition == p && batch[i].offset + 1 == n
  }

  lemma {:induction false} HandOverAllIsHandOver(before: seq<nat>, batch: seq<Place>)
    ensures IsHandOver(before, batch, HandOverAll(before, batch))
  {
    if batch != [] {
      var front, last := batch[..|batch| - 1], batch[|batch| - 1];
      HandOverAllIsHandOver(before, front);
      var middle, after := HandOverAll(before, front), HandOverAll(before, batch);
      forall i | 0 <= i < |batch| && batch[i].partition < |before| ensures batch[i].offset < after[batch[i].partition] {
        if i < |front| {
          assert front[i] == batch[i];
        }
      }
      forall p | 0 <= p < |before| && after[p] != before[p] ensures Reaches(batch, p, after[p]) {
        if after[p] == middle[p] {
          assert Reaches(front, p, middle[p]);
          var i :| 0 <= i < |front| && front[i].partition == p && front[i].offset + 1 == middle[p];
          assert batch[i].partition == p;
        } else {
          assert batch[|batch| - 1].partition == p;
        }
      }
    }
  }

  lemma OneIsHandedOver(before: seq<nat>, pl: Place)
    ensures IsHandOver(before, [pl], HandOver(before, pl))
  {
    assert [pl][0] == pl;
  }

  function Outcomes(m: Message, outcomes: seq<Outcome>): seq<Outcome> {
    if Droppable(m) && outcomes != [] then [Ok] else outcomes
  }

  function Entered(hasDatabase: bool, ledger: map<Place, Disposition>, pl: Place, m: Message, s: Script): map<Place, Disposition> {
    var outcomes := Outcomes(m, s.outcomes);
    if VerdictOf(outcomes).Settled? then ledger[pl := if Droppable(m) then Dropped else Handled]
    else if DeadLetters(outcomes, s.tries, hasDatabase) then ledger[pl := DeadLettered]
    else ledger
  }

  /** What the attempts leave in pppoe_status. */
  function WrittenRow(table: Table, m: Message, s: Script): Table {
    if m.StateChange? && (VerdictOf(Outcomes(m, s.outcomes)).Settled? || s.lands) then Upsert(table, m.row) else table
  }

  function Messages(log: seq<seq<Message>>, batch: seq<Place>): seq<Message>
    requires forall i | 0 <= i < |batch| :: InLog(log, batch[i])
  {
    seq(|batch|, i requires 0 <= i < |batch| => MessageAt(log, batch[i]))
  }

  predicate Batchable(hasDatabase: bool, log: seq<seq<Message>>, batch: seq<Place>)
    requires forall i | 0 <= i < |batch| :: InLog(log, batch[i])
  {
    |batch| >= 2 && hasDatabase && AllStateChanges(Messages(log, batch))
  }

  function BatchTable(table: Table, messages: seq<Message>): Table
    requires AllStateChanges(messages)
  {
    CollapseKeepsWinner(RowsOf(messages), ("", ""));
    MultiRowUpsert(table, Collapse(RowsOf(messages)))
  }

  function EnteredAll(ledger: map<Place, Disposition>, batch: seq<Place>): map<Place, Disposition> {
    map pl | pl in ledger.Keys + set i | 0 <= i < |batch| :: batch[i] :: if pl in batch then Handled else ledger[pl]
  }

  /** A statement that lands and reports failure leaves its rows and no more. */
  ghost function WriteBatchStep(hasDatabase: bool, st: State, statement: Statement, commits: bool): (after: State)
    requires Shape(st)
    ensures Shape(after)
  {
    if !Batchable(hasDatabase, st.log, st.batch) || statement.Fails? then st
    else
      var written := st.(table := BatchTable(st.table, Messages(st.log, st.batch)));
      if statement.LandsUnreported? then written
      else
        HandOverAllBounded(st.log, st.handed, st.batch);
        written.(
          ledger := EnteredAll(st.ledger, st.batch),
          handed := if commits then HandOverAll(st.handed, st.batch) else st.handed,
          batch := [])
  }

  ghost function HandleNextStep(hasDatabase: bool, st: State, s: Script): (after: State)
    requires Shape(st) && st.batch != []
    ensures Shape(after)
  {
    var pl := st.batch[0];
    var m := MessageAt(st.log, pl);
    var after := st.(ledger := Entered(hasDatabase, st.ledger, pl, m, s), table := WrittenRow(st.table, m, s));
    if Acknowledges(Outcomes(m, s.outcomes), s.tries, hasDatabase, s.stopsAfter) then
      after.(batch := st.batch[1..], handed := if s.commits then HandOver(st.handed, pl) else st.handed)
    else after.(batch := [], running := false)
  }

  ghost function Next(hasDatabase: bool, st: State, step: Step): (after: State)
    requires Shape(st)
    ensures Shape(after)
  {
    match step
    case Produce(p, m) => if p < |st.log| then st.(log := st.log[p := st.log[p] + [m]]) else st
    case Restart(offsets) =>
      if |offsets| == |st.log| && forall p | 0 <= p < |offsets| :: offsets[p] <= st.handed[p]
      then st.(position := offsets, batch := [], running := true) else st
    case Rewind(p, q) => if p < |st.log| && q <= st.handed[p] then st.(position := st.position[p := q]) else st
    case Fetch(p) =>
      if st.running && |st.batch| < MAX_BATCH_SIZE && p < |st.log| && st.position[p] < |st.log[p]|
      then st.(batch := st.batch + [Place(p, st.position[p])], position := st.position[p := st.position[p] + 1])
      else st
    case WriteBatch(statement, commits) => WriteBatchStep(hasDatabase, st, statement, commits)
    case HandleNext(s) => if st.batch == [] then st else HandleNextStep(hasDatabase, st, s)
  }

  // ----- safety -----

  ghost predicate SettledBelow(ledger: map<Place, Disposition>, p: nat, n: nat) {
    forall o: nat | o < n :: Place(p, o) in ledger
  }

  /** Every earlier message is settled, or waits in the first `k` of the batch. */
  ghost predicate Covered(ledger: map<Place, Disposition>, batch: seq<Place>, p: nat, n: nat) {
    forall o: nat | o < n :: Place(p, o) in ledger || Place(p, o) in batch
  }

  ghost predicate BatchCovered(ledger: map<Place, Disposition>, batch: seq<Place>) {
    forall i | 0 <= i < |batch| :: Covered(ledger, batch[..i], batch[i].partition, batch[i].offset)
  }

  /** The ledger tells the truth: dropped are exactly the messages that cannot be handled. */
  ghost predicate Truthful(log: seq<seq<Message>>, ledger: map<Place, Disposition>) {
    forall pl <- ledger :: InLog(log, pl) && (ledger[pl].Dropped? <==> Droppable(MessageAt(log, pl)))
  }

  /** Each handed-over message has been handled, dropped on purpose, or dead-lettered. */
  ghost predicate Safe(st: State) {
    forall p | 0 <= p < |st.handed| :: SettledBelow(st.ledger, p, st.handed[p])
  }

  /** Every PPPoE state change entered as handled has its row in pppoe_status, or a newer one has. */
  ghost predicate RowsWritten(log: seq<seq<Message>>, ledger: map<Place, Disposition>, table: Table) {
    forall pl <- ledger | ledger[pl].Handled? && InLog(log, pl) && MessageAt(log, pl).StateChange? ::
      HasRow(table, MessageAt(log, pl).row)
  }

  ghost predicate Inv(st: State) {
    && Shape(st) && Safe(st) && Truthful(st.log, st.ledger)
    && Keyed(st.table) && RowsWritten(st.log, st.ledger, st.table)
    && BatchCovered(st.ledger, st.batch)
    && (st.running ==> forall p | 0 <= p < |st.log| :: Covered(st.ledger, st.batch, p, st.position[p]))
  }

  lemma FetchKeepsInv(hasDatabase: bool, st: State, p: nat)
    requires Inv(st)
    ensures Inv(Next(hasDatabase, st, Fetch(p)))
  {
    var after := Next(hasDatabase, st, Fetch(p));
    if after != st {
      forall i | 0 <= i < |after.batch|
        ensures Covered(after.ledger, after.batch[..i], after.batch[i].partition, after.batch[i].offset)
      {
        assert after.batch[..i] == st.batch[..i];
        assert i == |st.batch| ==> st.batch[..i] == st.batch;
      }
    }
  }

  lemma {:induction false} HandOverAllSettled(ledger: map<Place, Disposition>, handed: seq<nat>, batch: seq<Place>)
    requires forall p | 0 <= p < |handed| :: SettledBelow(ledger, p, handed[p])
    requires forall i | 0 <= i < |batch| :: SettledBelow(ledger, batch[i].partition, batch[i].offset + 1)
    ensures forall p | 0 <= p < |handed| :: SettledBelow(ledger, p, HandOverAll(handed, batch)[p])
  {
    if batch != [] {
      assert forall i | 0 <= i < |batch| - 1 :: batch[..|batch| - 1][i] == batch[i];
      HandOverAllSettled(ledger, handed, batch[..|batch| - 1]);
    }
  }

  lemma BatchTableIsInOrder(table: Table, messages: seq<Message>)
    requires AllStateChanges(messages)
    ensures Keyed(table) ==> BatchTable(table, messages) == UpsertAll(table, RowsOf(messages))
  {
    if Keyed(table) {
      BatchRefinesSingles(table, RowsOf(messages));
    }
  }

  lemma BatchTableHasRows(table: Table, messages: seq<Message>)
    requires AllStateChanges(messages) && Keyed(table)
    ensures var after := BatchTable(table, messages);
      && Keyed(after)
      && (forall i | 0 <= i < |messages| :: HasRow(after, messages[i].row))
      && forall r | HasRow(table, r) :: HasRow(after, r)
  {
    var rows := RowsOf(messages);
    BatchRefinesSingles(table, rows);
    UpsertAllStaysKeyed(table, rows);
    forall i | 0 <= i < |messages| ensures HasRow(UpsertAll(table, rows), messages[i].row) {
      UpsertAllHasRows(table, rows, i);
    }
    forall r | HasRow(table, r) ensures HasRow(UpsertAll(table, rows), r) {
      UpsertAllKeepsRows(table, rows, r);
    }
  }

  lemma BatchRowsWritten(st: State)
    requires Inv(st) && AllStateChanges(Messages(st.log, st.batch))
    ensures var after := BatchTable(st.table, Messages(st.log, st.batch));
      && Keyed(after)
      && RowsWritten(st.log, st.ledger, after)
      && RowsWritten(st.log, EnteredAll(st.ledger, st.batch), after)
  {
    var messages := Messages(st.log, st.batch);
    BatchTableHasRows(st.table, messages);
    var after, ledger := BatchTable(st.table, messages), EnteredAll(st.ledger, st.batch);
    forall pl <- ledger | ledger[pl].Handled? && InLog(st.log, pl) && MessageAt(st.log, pl).StateChange?
      ensures HasRow(after, MessageAt(st.log, pl).row)
    {
      if pl in st.batch {
        var i :| 0 <= i < |st.batch| && st.batch[i] == pl;
        assert messages[i] == MessageAt(st.log, pl);
      }
    }
  }

  lemma EnteredAllIsTruthful(st: State)
    requires Shape(st) && Truthful(st.log, st.ledger) && AllStateChanges(Messages(st.log, st.batch))
    ensures Truthful(st.log, EnteredAll(st.ledger, st.batch))
  {
    var ledger := EnteredAll(st.ledger, st.batch);
    forall pl <- ledger ensures InLog(st.log, pl) && (ledger[pl].Dropped? <==> Droppable(MessageAt(st.log, pl))) {
      if pl in st.batch {
        var i :| 0 <= i < |st.batch| && st.batch[i] == pl;
        assert Messages(st.log, st.batch)[i].StateChange?;
      }
    }
  }

  lemma EnteredAllIsSafe(st: State)
    requires Inv(st)
    ensures var ledger := EnteredAll(st.ledger, st.batch);
      && Safe(st.(ledger := ledger))
      && Safe(st.(ledger := ledger, handed := HandOverAll(st.handed, st.batch)))
      && (st.running ==> forall p | 0 <= p < |st.log| :: Covered(ledger, [], p, st.position[p]))
  {
    var ledger := EnteredAll(st.ledger, st.batch);
    LargerLedgerIsSafe(st, ledger);
    forall i | 0 <= i < |st.batch| ensures SettledBelow(ledger, st.batch[i].partition, st.batch[i].offset + 1) {
      assert Covered(st.ledger, st.batch[..i], st.batch[i].partition, st.batch[i].offset);
      assert st.batch[i] in st.batch;
    }
    HandOverAllSettled(ledger, st.handed, st.batch);
  }

  lemma WriteBatchKeepsInv(hasDatabase: bool, st: State, statement: Statement, commits: bool)
    requires Inv(st)
    ensures Inv(Next(hasDatabase, st, WriteBatch(statement, commits)))
  {
    if Batchable(hasDatabase, st.log, st.batch) {
      BatchRowsWritten(st);
      EnteredAllIsTruthful(st);
      EnteredAllIsSafe(st);
    }
  }

  lemma EnteredKeepsTruth(hasDatabase: bool, log: seq<seq<Message>>, ledger: map<Place, Disposition>, pl: Place, s: Script)
    requires Truthful(log, ledger) && InLog(log, pl)
    ensures Truthful(log, Entered(hasDatabase, ledger, pl, MessageAt(log, pl), s))
  {
    var after := Entered(hasDatabase, ledger, pl, MessageAt(log, pl), s);
    assert VerdictOf([Ok]).Settled? by { assert [Ok][..0] == []; }
    forall q <- after ensures InLog(log, q) && (after[q].Dropped? <==> Droppable(MessageAt(log, q))) {
      assert q == pl || q in ledger;
    }
  }

  /** The offset is handed over and yet the message is nowhere in the ledger: exactly when there is no
      database and the message failed five times, outages aside, before it ever succeeded. */
  lemma LostExactlyWhen(hasDatabase: bool, ledger: map<Place, Disposition>, pl: Place, m: Message, s: Script)
    requires pl !in ledger && Acknowledges(Outcomes(m, s.outcomes), s.tries, hasDatabase, s.stopsAfter)
    ensures pl !in Entered(hasDatabase, ledger, pl, m, s) <==>
      !hasDatabase && !Droppable(m) && FiveFailuresFirst(s.outcomes)
  {
    ExhaustedExactlyWhen(s.outcomes);
    assert VerdictOf([Ok]).Settled? by { assert [Ok][..0] == []; }
  }

  /** Handling one message keeps every row there, and writes its own when it succeeds. */
  lemma HandledRowsWritten(hasDatabase: bool, st: State, pl: Place, s: Script)
    requires Keyed(st.table) && RowsWritten(st.log, st.ledger, st.table) && InLog(st.log, pl)
    ensures var m := MessageAt(st.log, pl);
      Keyed(WrittenRow(st.table, m, s)) && RowsWritten(st.log, Entered(hasDatabase, st.ledger, pl, m, s), WrittenRow(st.table, m, s))
  {
    var m := MessageAt(st.log, pl);
    var ledger, table := Entered(hasDatabase, st.ledger, pl, m, s), WrittenRow(st.table, m, s);
    forall q <- ledger | ledger[q].Handled? && InLog(st.log, q) && MessageAt(st.log, q).StateChange?
      ensures HasRow(table, MessageAt(st.log, q).row)
    {
      assert q == pl || (q in st.ledger && st.ledger[q].Handled?);
    }
  }

  lemma LargerLedgerIsSafe(st: State, ledger: map<Place, Disposition>)
    requires Safe(st) && st.ledger.Keys <= ledger.Keys
    ensures Safe(st.(ledger := ledger))
  {
    forall p | 0 <= p < |st.handed| ensures SettledBelow(ledger, p, st.handed[p]) {
      assert SettledBelow(st.ledger, p, st.handed[p]);
    }
  }

  /** The head of the batch is settled: everything up to and including it may be handed over. */
  lemma HeadHandedOver(st: State, ledger: map<Place, Disposition>)
    requires Inv(st) && st.batch != [] && st.batch[0] in ledger && st.ledger.Keys <= ledger.Keys
    ensures Safe(st.(ledger := ledger, handed := HandOver(st.handed, st.batch[0])))
  {
    var pl := st.batch[0];
    LargerLedgerIsSafe(st, ledger);
    assert Covered(st.ledger, st.batch[..0], pl.partition, pl.offset);
    assert SettledBelow(ledger, pl.partition, pl.offset + 1);
  }

  lemma HandleNextKeepsInv(st: State, s: Script)
    requires Inv(st) && st.batch != []
    ensures Inv(Next(true, st, HandleNext(s)))
  {
    var pl := st.batch[0];
    var m := MessageAt(st.log, pl);
    var ledger := Entered(true, st.ledger, pl, m, s);
    EnteredKeepsTruth(true, st.log, st.ledger, pl, s);
    HandledRowsWritten(true, st, pl, s);
    LargerLedgerIsSafe(st, ledger);
    if Acknowledges(Outcomes(m, s.outcomes), s.tries, true, s.stopsAfter) {
      assert pl in ledger;
      HeadHandedOver(st, ledger);
      TailCovered(st, ledger);
    }
  }

  lemma TailCovered(st: State, ledger: map<Place, Disposition>)
    requires Inv(st) && st.batch != [] && st.batch[0] in ledger && st.ledger.Keys <= ledger.Keys
    ensures BatchCovered(ledger, st.batch[1..])
    ensures st.running ==> forall p | 0 <= p < |st.log| :: Covered(ledger, st.batch[1..], p, st.position[p])
  {
    var tail := st.batch[1..];
    forall i | 0 <= i < |tail| ensures Covered(ledger, tail[..i], tail[i].partition, tail[i].offset) {
      assert Covered(st.ledger, st.batch[..i + 1], st.batch[i + 1].partition, st.batch[i + 1].offset);
      assert st.batch[..i + 1] == [st.batch[0]] + tail[..i];
    }
    assert st.batch == [st.batch[0]] + tail;
  }

  lemma ProduceKeepsInv(hasDatabase: bool, st: State, p: nat, m: Message)
    requires Inv(st)
    ensures Inv(Next(hasDatabase, st, Produce(p, m)))
  {
    if p < |st.log| {
      var after := Next(hasDatabase, st, Produce(p, m));
      assert forall pl | InLog(st.log, pl) :: InLog(after.log, pl) && MessageAt(after.log, pl) == MessageAt(st.log, pl);
    }
  }

  lemma NextKeepsInv(st: State, step: Step)
    requires Inv(st)
    ensures Inv(Next(true, st, step))
  {
    match step
    case Produce(p, m) => ProduceKeepsInv(true, st, p, m);
    case Restart(offsets) =>
    case Rewind(p, q) =>
    case Fetch(p) => FetchKeepsInv(true, st, p);
    case WriteBatch(statement, commits) => WriteBatchKeepsInv(true, st, statement, commits);
    case HandleNext(s) => if st.batch != [] { HandleNextKeepsInv(st, s); }
  }

  /** A fresh topic with `n` partitions. */
  function Start(n: nat): State {
    State(seq(n, _ => []), seq(n, _ => 0), seq(n, _ => 0), [], false, map[], map[])
  }

  ghost function Run(hasDatabase: bool, n: nat, steps: seq<Step>): (st: State)
    ensures Shape(st)
  {
    if steps == [] then Start(n)
    else Next(hasDatabase, Run(hasDatabase, n, steps[..|steps| - 1]), steps[|steps| - 1])
  }

  /** Over every run with a database, whatever fails and wherever it is stopped: each message at or
      below a handed-over offset has been handled, dropped as unusable, or stored as a dead letter. */
  lemma {:induction false} EveryRunIsSafe(n: nat, steps: seq<Step>)
    ensures Inv(Run(true, n, steps))
  {
    if steps != [] {
      EveryRunIsSafe(n, steps[..|steps| - 1]);
      NextKeepsInv(Run(true, n, steps[..|steps| - 1]), steps[|steps| - 1]);
    }
  }

  /** Of every PPPoE state change at or below a handed-over offset, unless it was dead-lettered, the row
      is in pppoe_status: its own, or that of an event not older. */
  lemma AcknowledgedStateIsInTheTable(n: nat, steps: seq<Step>, pl: Place)
    requires var st := Run(true, n, steps);
      && pl.partition < |st.handed| && pl.offset < st.handed[pl.partition]
      && MessageAt(st.log, pl).StateChange?
      && (pl in st.ledger ==> !st.ledger[pl].DeadLettered?)
    ensures var st := Run(true, n, steps); HasRow(st.table, MessageAt(st.log, pl).row)
  {
    EveryRunIsSafe(n, steps);
    var st := Run(true, n, steps);
    assert SettledBelow(st.ledger, pl.partition, st.handed[pl.partition]);
    assert Place(pl.partition, pl.offset) in st.ledger;
  }

  /** What a step hands over.  A batch that is written and whose commit the reader takes: all of it.  One
      message, acknowledged: that one.  Anything else: nothing. */
  lemma HandedOverExactly(hasDatabase: bool, st: State, step: Step)
    requires Shape(st)
    ensures var after := Next(hasDatabase, st, step);
      if step.WriteBatch? && Batchable(hasDatabase, st.log, st.batch) && step.statement.Works? && step.commits then
        IsHandOver(st.handed, st.batch, after.handed)
      else if step.HandleNext? && st.batch != [] && step.script.commits
          && Acknowledges(Outcomes(MessageAt(st.log, st.batch[0]), step.script.outcomes), step.script.tries, hasDatabase, step.script.stopsAfter) then
        IsHandOver(st.handed, [st.batch[0]], after.handed)
      else after.handed == st.handed
  {
    HandOverAllIsHandOver(st.handed, st.batch);
    if st.batch != [] {
      OneIsHandedOver(st.handed, st.batch[0]);
    }
  }

  /** No more than 500 messages are ever gathered. */
  lemma {:induction false} BatchesAreBounded(hasDatabase: bool, n: nat, steps: seq<Step>)
    ensures |Run(hasDatabase, n, steps).batch| <= 500
  {
    if steps != [] {
      BatchesAreBounded(hasDatabase, n, steps[..|steps| - 1]);
    }
  }

  lemma HandOverAllGrows(handed: seq<nat>, batch: seq<Place>, p: nat)
    requires p < |handed|
    ensures handed[p] <= HandOverAll(handed, batch)[p]
  {
  }

  /** Nothing takes back an offset, whatever is fetched again. */
  lemma HandedNeverDecreases(hasDatabase: bool, st: State, step: Step, p: nat)
    requires Shape(st) && p < |st.handed|
    ensures st.handed[p] <= Next(hasDatabase, st, step).handed[p]
  {
    if step.WriteBatch? {
      HandOverAllGrows(st.handed, st.batch, p);
    }
  }

  /** Without a database the fifth failure acknowledges a message that is stored nowhere: a poison
      offline edit, say, which fails before it reaches any table. */
  lemma WithoutDatabaseALetterIsLost(outcomes: seq<Outcome>)
    requires |outcomes| == MAX_RETRIES && AllStrike(outcomes)
    ensures var st := Run(false, 1, [Produce(0, OtherEvent), Restart([0]), Fetch(0), HandleNext(Script(outcomes, false, [], false, true))]);
      st.handed == [1] && Place(0, 0) !in st.ledger
  {
    var steps := [Produce(0, OtherEvent), Restart([0]), Fetch(0), HandleNext(Script(outcomes, false, [], false, true))];
    assert steps[..3] == [Produce(0, OtherEvent), Restart([0]), Fetch(0)];
    OneFetched(OtherEvent);
    StrikesExhaust(outcomes);
  }

  lemma OneFetched(m: Message)
    ensures Run(false, 1, [Produce(0, m), Restart([0]), Fetch(0)]) == State([[m]], [0], [1], [Place(0, 0)], true, map[], map[])
  {
    var s1, s2 := [Produce(0, m)], [Produce(0, m), Restart([0])];
    var s3 := s2 + [Fetch(0)];
    assert s3 == [Produce(0, m), Restart([0]), Fetch(0)];
    assert s1[..0] == [] && s2[..1] == s1 && s3[..2] == s2;
    assert Run(false, 1, []) == State([[]], [0], [0], [], false, map[], map[]);
    assert Run(false, 1, s1) == State([[m]], [0], [0], [], false, map[], map[]) by {
      var none: seq<Message> := [];
      assert none + [m] == [m];
      assert Run(false, 1, s1).log[0] == [m];
    }
    assert Run(false, 1, s2) == State([[m]], [0], [0], [], true, map[], map[]);
  }

  predicate AllStrike(outcomes: seq<Outcome>) {
    forall i | 0 <= i < |outcomes| :: Strike(outcomes[i])
  }

  lemma {:induction false} AllStrikeCounts(outcomes: seq<Outcome>)
    requires AllStrike(outcomes)
    ensures Strikes(outcomes) == |outcomes| && NoSuccess(outcomes)
  {
    if outcomes != [] {
      assert AllStrike(outcomes[..|outcomes| - 1]);
      AllStrikeCounts(outcomes[..|outcomes| - 1]);
    }
  }

  lemma StrikesExhaust(outcomes: seq<Outcome>)
    requires |outcomes| == MAX_RETRIES && AllStrike(outcomes)
    ensures VerdictOf(outcomes).Exhausted?
  {
    AllStrikeCounts(outcomes);
    UndecidedExactlyWhen(outcomes);
    NeverSettled(outcomes);
  }

  // ----- the loops -----

  /** The reader has a message of `partition`, `delay` milliseconds after the batch was begun. */
  datatype Arrival = Arrival(partition: nat, delay: nat)

  /** One trip around the consume loop: where its first message comes from, what else arrives, and what
      happens to the batch. */
  datatype Round = Round(first: nat, arrivals: seq<Arrival>, statement: Statement, commits: bool, scripts: Place -> Script)

  /** The first arrival that comes after the linger, or the length. */
  function LateAt(arrivals: seq<Arrival>): (n: nat)
    ensures n <= |arrivals|
    ensures n < |arrivals| ==> arrivals[n].delay >= 50
    ensures forall i | 0 <= i < n :: arrivals[i].delay < 50
  {
    if arrivals == [] || arrivals[0].delay >= BATCH_LINGER_MS then 0 else 1 + LateAt(arrivals[1..])
  }

  ghost function Collected(hasDatabase: bool, st: State, arrivals: seq<Arrival>): (after: State)
    requires Shape(st)
    ensures Shape(after) && after.running == st.running
  {
    if arrivals == [] then st
    else Next(hasDatabase, Collected(hasDatabase, st, arrivals[..|arrivals| - 1]), Fetch(arrivals[|arrivals| - 1].partition))
  }

  ghost function HandledAll(hasDatabase: bool, st: State, scripts: Place -> Script): (after: State)
    requires Shape(st)
    ensures Shape(after) && after.batch == []
    decreases |st.batch|
  {
    if st.batch == [] then st
    else HandledAll(hasDatabase, Next(hasDatabase, st, HandleNext(scripts(st.batch[0]))), scripts)
  }

  ghost function AfterRound(hasDatabase: bool, st: State, r: Round): (after: State)
    requires Shape(st) && st.batch == []
    ensures Shape(after) && after.batch == []
  {
    var begun := Next(hasDatabase, st, Fetch(r.first));
    if begun.batch == [] then st
    else
      HandledAll(hasDatabase,
        Next(hasDatabase, Collected(hasDatabase, begun, r.arrivals[..LateAt(r.arrivals)]), WriteBatch(r.statement, r.commits)),
        r.scripts)
  }

  ghost function AfterRounds(hasDatabase: bool, st: State, rounds: seq<Round>): (after: State)
    requires Shape(st) && st.batch == []
    ensures Shape(after) && after.batch == []
  {
    if rounds == [] then st
    else AfterRound(hasDatabase, AfterRounds(hasDatabase, st, rounds[..|rounds| - 1]), rounds[|rounds| - 1])
  }

  lemma StoppedRoundDoesNothing(hasDatabase: bool, st: State, r: Round)
    requires Shape(st) && st.batch == [] && !st.running
    ensures AfterRound(hasDatabase, st, r) == st
  {
  }

  /** How many of the arrivals of partition `p` fit and are there. */
  function Taken(st: State, p: nat, arrivals: nat): nat
    requires Shape(st) && p < |st.log| && |st.batch| <= MAX_BATCH_SIZE
  {
    Min(arrivals, Min(500 - |st.batch|, |st.log[p]| - st.position[p]))
  }

  /** `after` is `st` with the next `n` messages of partition `p` taken, in their order. */
  ghost predicate Took(st: State, after: State, p: nat, n: nat)
    requires Shape(st) && p < |st.log|
  {
    && after.batch == st.batch + seq(n, i requires 0 <= i < n => Place(p, st.position[p] + i))
    && after == st.(batch := after.batch, position := st.position[p := st.position[p] + n])
  }

  lemma FetchTakesTheNext(hasDatabase: bool, st: State, before: State, p: nat, n: nat)
    requires Shape(st) && Shape(before) && st.running && p < |st.log| && Took(st, before, p, n)
    ensures var room := |st.batch| + n < 500 && st.position[p] + n < |st.log[p]|;
      Took(st, Next(hasDatabase, before, Fetch(p)), p, if room then n + 1 else n)
  {
  }

  /** What arrives joins the batch in the order of the partition, none skipped, up to 500 messages. */
  lemma {:induction false} CollectedInOrder(hasDatabase: bool, st: State, p: nat, arrivals: seq<Arrival>)
    requires Shape(st) && st.running && p < |st.log| && |st.batch| <= MAX_BATCH_SIZE
    requires forall a <- arrivals :: a.partition == p
    ensures Took(st, Collected(hasDatabase, st, arrivals), p, Taken(st, p, |arrivals|))
  {
    if arrivals == [] {
      assert st.position[p := st.position[p]] == st.position;
    } else {
      var n := |arrivals| - 1;
      assert arrivals[n] in arrivals;
      CollectedInOrder(hasDatabase, st, p, arrivals[..n]);
      FetchTakesTheNext(hasDatabase, st, Collected(hasDatabase, st, arrivals[..n]), p, Taken(st, p, n));
    }
  }

  lemma CollectedStep(hasDatabase: bool, st: State, arrivals: seq<Arrival>, i: nat)
    requires Shape(st) && i < |arrivals|
    ensures Collected(hasDatabase, st, arrivals[..i + 1]) ==
      Next(hasDatabase, Collected(hasDatabase, st, arrivals[..i]), Fetch(arrivals[i].partition))
  {
    assert arrivals[..i + 1][..i] == arrivals[..i];
  }

  lemma {:induction false} CollectedKeepsInv(st: State, arrivals: seq<Arrival>)
    requires Inv(st)
    ensures Inv(Collected(true, st, arrivals))
  {
    if arrivals != [] {
      CollectedKeepsInv(st, arrivals[..|arrivals| - 1]);
      FetchKeepsInv(true, Collected(true, st, arrivals[..|arrivals| - 1]), arrivals[|arrivals| - 1].partition);
    }
  }

  lemma {:induction false} HandledAllKeepsInv(st: State, scripts: Place -> Script)
    requires Inv(st)
    ensures Inv(HandledAll(true, st, scripts))
    decreases |st.batch|
  {
    if st.batch != [] {
      HandleNextKeepsInv(st, scripts(st.batch[0]));
      HandledAllKeepsInv(Next(true, st, HandleNext(scripts(st.batch[0]))), scripts);
    }
  }

  lemma RoundKeepsInv(st: State, r: Round)
    requires Inv(st) && st.batch == []
    ensures Inv(AfterRound(true, st, r))
  {
    FetchKeepsInv(true, st, r.first);
    var begun := Next(true, st, Fetch(r.first));
    if begun.batch != [] {
      var arrivals := r.arrivals[..LateAt(r.arrivals)];
      CollectedKeepsInv(begun, arrivals);
      var collected := Collected(true, begun, arrivals);
      WriteBatchKeepsInv(true, collected, r.statement, r.commits);
      HandledAllKeepsInv(Next(true, collected, WriteBatch(r.statement, r.commits)), r.scripts);
    }
  }

  lemma {:induction false} RoundsKeepInv(st: State, rounds: seq<Round>)
    requires Inv(st) && st.batch == []
    ensures Inv(AfterRounds(true, st, rounds))
  {
    if rounds != [] {
      RoundsKeepInv(st, rounds[..|rounds| - 1]);
      RoundKeepsInv(AfterRounds(true, st, rounds[..|rounds| - 1]), rounds[|rounds| - 1]);
    }
  }

  lemma {:induction false} FullBatchTakesNoMore(hasDatabase: bool, st: State, arrivals: seq<Arrival>, n: nat)
    requires Shape(st) && n <= |arrivals|
    requires |Collected(hasDatabase, st, arrivals[..n]).batch| >= MAX_BATCH_SIZE
    ensures Collected(hasDatabase, st, arrivals) == Collected(hasDatabase, st, arrivals[..n])
    decreases |arrivals|
  {
    if n < |arrivals| {
      assert arrivals[..|arrivals| - 1][..n] == arrivals[..n];
      FullBatchTakesNoMore(hasDatabase, st, arrivals[..|arrivals| - 1], n);
    } else {
      assert arrivals[..n] == arrivals;
    }
  }

  /** Every message settles at its first attempt, and the reader takes every offset. */
  ghost predicate AllGoesWell(scripts: Place -> Script) {
    forall pl :: scripts(pl) == Script([Ok], false, [], false, true)
  }

  /** Handling a batch when all goes well hands over all of it, and the consumer goes on. */
  lemma {:induction false} AllIsHandedOver(hasDatabase: bool, st: State, scripts: Place -> Script, i: nat)
    requires Shape(st) && AllGoesWell(scripts) && i < |st.batch|
    ensures var after := HandledAll(hasDatabase, st, scripts);
      && after.running == st.running
      && st.batch[i].partition < |after.handed| && st.batch[i].offset < after.handed[st.batch[i].partition]
    decreases |st.batch|
  {
    var pl := st.batch[0];
    var next := Next(hasDatabase, st, HandleNext(scripts(pl)));
    SettlesAtOnce(MessageAt(st.log, pl));
    assert next.batch == st.batch[1..] && next.running == st.running && next.handed == HandOver(st.handed, pl);
    if i > 0 {
      AllIsHandedOver(hasDatabase, next, scripts, i - 1);
    } else {
      HandledAllKeepsHanded(hasDatabase, next, scripts, pl.partition);
      if next.batch != [] {
        AllIsHandedOver(hasDatabase, next, scripts, 0);
      }
    }
  }

  lemma SettlesAtOnce(m: Message)
    ensures Outcomes(m, [Ok]) == [Ok] && VerdictOf([Ok]).Settled?
  {
    assert [Ok][..0] == [];
  }

  lemma {:induction false} HandledAllKeepsHanded(hasDatabase: bool, st: State, scripts: Place -> Script, p: nat)
    requires Shape(st) && p < |st.handed|
    ensures p < |HandledAll(hasDatabase, st, scripts).handed| && st.handed[p] <= HandledAll(hasDatabase, st, scripts).handed[p]
    decreases |st.batch|
  {
    if st.batch != [] {
      HandledAllKeepsHanded(hasDatabase, Next(hasDatabase, st, HandleNext(scripts(st.batch[0]))), scripts, p);
    }
  }

  class Consumer {
    const hasDatabase: bool
    var log: seq<seq<Message>>
    var handed: seq<nat>
    var position: seq<nat>
    var batch: seq<Place>
    var running: bool
    var ledger: map<Place, Disposition>
    var table: Table

    ghost function View(): State
      reads this
    {
      State(log, handed, position, batch, running, ledger, table)
    }

    constructor (hasDatabase: bool, n: nat)
      ensures this.hasDatabase == hasDatabase && View() == Start(n)
    {
      this.hasDatabase := hasDatabase;
      log, handed, position := seq(n, _ => []), seq(n, _ => 0), seq(n, _ => 0);
      batch, running, ledger, table := [], false, map[], map[];
    }

    /** The reader delivers from partition `p`, if it has anything there. */
    method FetchMessage(p: nat)
      requires Shape(View()) && running && |batch| < MAX_BATCH_SIZE
      modifies this
      ensures View() == Next(hasDatabase, old(View()), Fetch(p))
    {
      if p < |log| && position[p] < |log[p]| {
        batch := batch + [Place(p, position[p])];
        position := position[p := position[p] + 1];
      }
    }

    /** The first message is in the batch already; what arrives within the linger joins it. */
    method CollectBatch(arrivals: seq<Arrival>)
      requires Shape(View()) && running && |batch| == 1
      modifies this
      ensures View() == Collected(hasDatabase, old(View()), arrivals[..LateAt(arrivals)])
    {
      ghost var st := View();
      var late := LateAt(arrivals);
      ghost var inTime := arrivals[..late];
      var i := 0;
      while i < |arrivals| && |batch| < MAX_BATCH_SIZE && arrivals[i].delay < BATCH_LINGER_MS
        invariant 0 <= i <= late && View() == Collected(hasDatabase, st, inTime[..i])
      {
        CollectedStep(hasDatabase, st, inTime, i);
        FetchMessage(arrivals[i].partition);
        i := i + 1;
      }
      if |batch| >= MAX_BATCH_SIZE {
        FullBatchTakesNoMore(hasDatabase, st, inTime, i);
      } else {
        assert inTime[..i] == inTime;
      }
    }

    /** The reader takes the offsets of `places`, or an error is logged and it does not. */
    method CommitMessages(places: seq<Place>, commits: bool)
      modifies this`handed
      ensures handed == if commits then HandOverAll(old(handed), places) else old(handed)
      ensures commits ==> IsHandOver(old(handed), places, handed)
    {
      HandOverAllIsHandOver(handed, places);
      if commits {
        handed := HandOverAll(handed, places);
      }
    }

    /** The rows of the whole batch are written: hand its offsets over and forget it. */
    method SettleBatch(commits: bool)
      modifies this`ledger, this`handed, this`batch
      ensures ledger == EnteredAll(old(ledger), old(batch)) && batch == []
      ensures handed == if commits then HandOverAll(old(handed), old(batch)) else old(handed)
      ensures commits ==> IsHandOver(old(handed), old(batch), handed)
    {
      ledger := EnteredAll(ledger, batch);
      CommitMessages(batch, commits);
      batch := [];
    }

    method WritePPPoEBatch(statement: Statement, commits: bool) returns (written: bool)
      requires Shape(View())
      modifies this
      ensures written == (Batchable(hasDatabase, old(log), old(batch)) && statement.Works?)
      ensures View() == Next(hasDatabase, old(View()), WriteBatch(statement, commits))
      ensures if written && commits then IsHandOver(old(handed), old(batch), handed) else handed == old(handed)
      ensures Keyed(old(table)) && Batchable(hasDatabase, old(log), old(batch)) && !statement.Fails? ==>
        table == UpsertAll(old(table), RowsOf(Messages(old(log), old(batch))))
    {
      if |batch| < 2 || !hasDatabase {
        return false;
      }
      var rows, ok := PppoeRowsFromBatch(Messages(log, batch));
      if !ok || statement.Fails? {
        return false;
      }
      BatchTableIsInOrder(table, Messages(log, batch));
      table := BatchTable(table, Messages(log, batch));
      if statement.LandsUnreported? {
        return false;
      }
      SettleBatch(commits);
      written := true;
    }

    /** What the attempts on `m` leave behind. */
    method Enter(pl: Place, m: Message, s: Script, deadLettered: bool)
      requires deadLettered == DeadLetters(Outcomes(m, s.outcomes), s.tries, hasDatabase)
      modifies this`ledger, this`table
      ensures ledger == Entered(hasDatabase, old(ledger), pl, m, s) && table == WrittenRow(old(table), m, s)
    {
      var settled := VerdictOf(Outcomes(m, s.outcomes)).Settled?;
      if m.StateChange? && (settled || s.lands) {
        table := Upsert(table, m.row);
      }
      if settled {
        ledger := ledger[pl := if Droppable(m) then Dropped else Handled];
      } else if deadLettered {
        ledger := ledger[pl := DeadLettered];
      }
    }

    /** handleOne for the first message of the batch, and what its offset and the loop do next. */
    method HandleFirst(s: Script) returns (goOn: bool)
      requires Shape(View()) && batch != []
      modifies this
      ensures View() == Next(hasDatabase, old(View()), HandleNext(s))
      ensures if goOn && s.commits then IsHandOver(old(handed), [old(batch)[0]], handed) else handed == old(handed)
      ensures goOn ==> batch == old(batch)[1..]
      ensures !goOn ==> batch == [] && !running
    {
      var pl := batch[0];
      var m := MessageAt(log, pl);
      var deadLettered, pauses;
      goOn, deadLettered, pauses := HandleOne(Outcomes(m, s.outcomes), s.tries, hasDatabase, s.stopsAfter);
      Enter(pl, m, s, deadLettered);
      if !goOn {
        batch, running := [], false;
        return;
      }
      if s.commits {
        OneIsHandedOver(handed, pl);
        handed := HandOver(handed, pl);
      }
      batch := batch[1..];
    }

    method HandleBatch(scripts: Place -> Script)
      requires Shape(View())
      modifies this
      ensures View() == HandledAll(hasDatabase, old(View()), scripts)
    {
      ghost var before := View();
      while batch != []
        invariant Shape(View())
        invariant HandledAll(hasDatabase, View(), scripts) == HandledAll(hasDatabase, before, scripts)
        decreases |batch|
      {
        var goOn := HandleFirst(scripts(batch[0]));
        if !goOn {
          return;
        }
      }
    }

    method ConsumeRound(r: Round)
      requires Shape(View()) && running && batch == []
      modifies this
      ensures View() == AfterRound(hasDatabase, old(View()), r)
    {
      ghost var st := View();
      FetchMessage(r.first);
      ghost var begun := Next(hasDatabase, st, Fetch(r.first));
      if batch != [] {
        ghost var collected := Collected(hasDatabase, begun, r.arrivals[..LateAt(r.arrivals)]);
        assert AfterRound(hasDatabase, st, r) ==
          HandledAll(hasDatabase, Next(hasDatabase, collected, WriteBatch(r.statement, r.commits)), r.scripts);
        CollectBatch(r.arrivals);
        var written := WritePPPoEBatch(r.statement, r.commits);
        if !written {
          HandleBatch(r.scripts);
        }
      }
    }

    /** Run: whatever the state it starts in, safe stays safe. */
    method Run(rounds: seq<Round>)
      requires Shape(View()) && batch == []
      modifies this
      ensures View() == AfterRounds(hasDatabase, old(View()), rounds)
      ensures hasDatabase && Inv(old(View())) ==> Inv(View())
    {
      ghost var st := View();
      if hasDatabase && Inv(st) {
        RoundsKeepInv(st, rounds);
      }
      for i := 0 to |rounds|
        invariant View() == AfterRounds(hasDatabase, st, rounds[..i])
      {
        assert rounds[..i + 1][..i] == rounds[..i];
        if running {
          ConsumeRound(rounds[i]);
        } else {
          StoppedRoundDoesNothing(hasDatabase, View(), rounds[i]);
        }
      }
      assert rounds[..|rounds|] == rounds;
    }
  }
}
