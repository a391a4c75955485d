/** Redelivery of one partition's log into pppoe_status: rewinds, batches and single writes in any
    mixture, with other partitions' events in between. */
module Replay {
  import opened Basics
  import opened Pppoe

  /** One fetched message: the next of this partition's log, or one of another partition. */
  datatype Fetched = Own | Foreign(message: Message)

  /** Handling a batch of fetched messages, written as one statement when possible, or falling back to
      the committed offset (rebalance, restart, broker repair). */
  datatype Delivery = Handle(batch: seq<Fetched>, statement: Statement) | Rewind(offset: nat)

  datatype State = State(table: Table, next: nat, reached: nat)

  function Apply(table: Table, m: Message): Table {
    if m.StateChange? then Upsert(table, m.row) else table
  }

  function ApplyAll(table: Table, messages: seq<Message>): Table {
    if messages == [] then table
    else Apply(ApplyAll(table, messages[..|messages| - 1]), messages[|messages| - 1])
  }

  /** Exactly-once, in-order delivery of the first `n` messages. */
  function Prefix(table: Table, log: seq<Message>, n: nat): Table
    requires n <= |log|
  {
    if n == 0 then table else Apply(Prefix(table, log, n - 1), log[n - 1])
  }

  function CountOwn(batch: seq<Fetched>): nat {
    if batch == [] then 0 else CountOwn(batch[..|batch| - 1]) + if batch[|batch| - 1].Own? then 1 else 0
  }

  function Materialise(log: seq<Message>, next: nat, batch: seq<Fetched>): (messages: seq<Message>)
    requires next + CountOwn(batch) <= |log|
    ensures |messages| == |batch|
  {
    if batch == [] then []
    else
      var front, last := batch[..|batch| - 1], batch[|batch| - 1];
      Materialise(log, next, front) + [if last.Own? then log[next + CountOwn(front)] else last.message]
  }

  /** One round of the consumer; a delivery the log cannot supply is no delivery. */
  function Deliver(log: seq<Message>, s: State, d: Delivery): State {
    match d
    case Rewind(offset) => if offset <= s.next then s.(next := offset) else s
    case Handle(batch, statement) =>
      if s.next + CountOwn(batch) > |log| then s
      else
        var next := s.next + CountOwn(batch);
        State(Written(s.table, Materialise(log, s.next, batch), statement), next, if next > s.reached then next else s.reached)
  }

  /** The batched write, and the fallback unless it is known to have worked. */
  function Written(table: Table, messages: seq<Message>, statement: Statement): Table {
    if |messages| >= 2 && AllStateChanges(messages) && !statement.Fails? then
      BatchKeysDistinct(RowsOf(messages));
      var written := MultiRowUpsert(table, Collapse(RowsOf(messages)));
      if statement.Works? then written else ApplyAll(written, messages)
    else ApplyAll(table, messages)
  }

  lemma BatchKeysDistinct(rows: seq<Row>)
    ensures DistinctKeys(Collapse(rows))
  {
    CollapseKeepsWinner(rows, ("", ""));
  }

  function DeliverAll(log: seq<Message>, table: Table, deliveries: seq<Delivery>): State {
    if deliveries == [] then State(table, 0, 0)
    else Deliver(log, DeliverAll(log, table, deliveries[..|deliveries| - 1]), deliveries[|deliveries| - 1])
  }

  // ----- batches are sequences of single writes -----

  lemma {:induction false} ApplyAllIsUpsertAll(table: Table, messages: seq<Message>)
    requires AllStateChanges(messages)
    ensures ApplyAll(table, messages) == UpsertAll(table, RowsOf(messages))
  {
    if messages != [] {
      ApplyAllIsUpsertAll(table, messages[..|messages| - 1]);
      assert RowsOf(messages)[..|messages| - 1] == RowsOf(messages[..|messages| - 1]);
    }
  }

  /** What is written is the messages applied in order, once or twice. */
  lemma WrittenInOrder(table: Table, messages: seq<Message>, statement: Statement)
    requires Keyed(table)
    ensures Written(table, messages, statement) == ApplyAll(table, messages) ||
      Written(table, messages, statement) == ApplyAll(ApplyAll(table, messages), messages)
  {
    if AllStateChanges(messages) {
      BatchRefinesSingles(table, RowsOf(messages));
      ApplyAllIsUpsertAll(table, messages);
    }
  }

  // ----- one subscriber -----

  predicate Concerns(m: Message, k: Subscriber) {
    m.StateChange? && Key(m.row) == k
  }

  /** In-order delivery let message `i` take `k`'s row. */
  predicate Taken(table: Table, log: seq<Message>, k: Subscriber, i: nat)
    requires i < |log|
  {
    Concerns(log[i], k) && Accepts(Prefix(table, log, i), log[i].row)
  }

  /** `k`'s row has the right event time, and is the right row unless the message that gave it is about
      to be delivered again. */
  ghost predicate Agrees(start: Table, log: seq<Message>, k: Subscriber, now: Table, next: nat, reached: nat) {
    && next <= reached <= |log|
    && var goal := Prefix(start, log, reached);
       && (k in now <==> k in goal)
       && (k in now ==> now[k].eventTime == goal[k].eventTime)
       && ((forall i | next <= i < reached :: !Taken(start, log, k, i)) ==> At(now, k) == At(goal, k))
  }

  lemma {:induction false} RowsOnlyGetNewer(start: Table, log: seq<Message>, k: Subscriber, i: nat, j: nat)
    requires i <= j <= |log| && k in Prefix(start, log, i)
    ensures k in Prefix(start, log, j)
    ensures Prefix(start, log, i)[k].eventTime <= Prefix(start, log, j)[k].eventTime
    ensures (forall n | i <= n < j :: !Taken(start, log, k, n)) ==> Prefix(start, log, i)[k] == Prefix(start, log, j)[k]
    decreases j
  {
    if i < j {
      RowsOnlyGetNewer(start, log, k, i, j - 1);
      assert !Taken(start, log, k, j - 1) ==> At(Prefix(start, log, j), k) == At(Prefix(start, log, j - 1), k);
    }
  }

  /** Delivering one own message, new or again. */
  lemma OwnKeepsAgreement(start: Table, log: seq<Message>, k: Subscriber, now: Table, next: nat, reached: nat)
    requires Agrees(start, log, k, now, next, reached) && next < |log|
    ensures Agrees(start, log, k, Apply(now, log[next]), next + 1, if next + 1 > reached then next + 1 else reached)
  {
    if next < reached && Concerns(log[next], k) {
      var r := log[next].row;
      if Taken(start, log, k, next) {
        RowsOnlyGetNewer(start, log, k, next + 1, reached);
      } else {
        RowsOnlyGetNewer(start, log, k, next, reached);
      }
    }
  }

  lemma ForeignKeepsAgreement(start: Table, log: seq<Message>, k: Subscriber, now: Table, next: nat, reached: nat, m: Message)
    requires Agrees(start, log, k, now, next, reached) && !Concerns(m, k)
    ensures Agrees(start, log, k, Apply(now, m), next, reached)
  {
  }

  /** No other partition carries events of `k`. */
  ghost predicate Exclusive(batch: seq<Fetched>, k: Subscriber) {
    forall i | 0 <= i < |batch| && batch[i].Foreign? :: !Concerns(batch[i].message, k)
  }

  lemma FetchedKeepsAgreement(start: Table, log: seq<Message>, k: Subscriber, now: Table, next: nat, reached: nat, f: Fetched)
    requires Agrees(start, log, k, now, next, reached) && (f.Own? ==> next < |log|)
    requires f.Foreign? ==> !Concerns(f.message, k)
    ensures
      var next' := next + if f.Own? then 1 else 0;
      var now' := Apply(now, if f.Own? then log[next] else f.message);
      Agrees(start, log, k, now', next', if next' > reached then next' else reached)
  {
    if f.Own? {
      OwnKeepsAgreement(start, log, k, now, next, reached);
    } else {
      ForeignKeepsAgreement(start, log, k, now, next, reached, f.message);
    }
  }

  lemma {:induction false} ApplyAllStaysKeyed(table: Table, messages: seq<Message>)
    requires Keyed(table)
    ensures Keyed(ApplyAll(table, messages))
  {
    if messages != [] {
      ApplyAllStaysKeyed(table, messages[..|messages| - 1]);
    }
  }

  /** Applying a batch is applying all but its last message, and then that. */
  lemma ApplyBatchStep(table: Table, log: seq<Message>, next: nat, batch: seq<Fetched>)
    requires batch != [] && next + CountOwn(batch) <= |log|
    ensures var front, last := batch[..|batch| - 1], batch[|batch| - 1];
      ApplyAll(table, Materialise(log, next, batch)) ==
        Apply(ApplyAll(table, Materialise(log, next, front)), if last.Own? then log[next + CountOwn(front)] else last.message)
  {
    var front, messages := batch[..|batch| - 1], Materialise(log, next, batch);
    assert messages[..|messages| - 1] == Materialise(log, next, front);
  }

  lemma {:induction false} BatchKeepsAgreement(start: Table, log: seq<Message>, k: Subscriber, s: State, batch: seq<Fetched>)
    requires Agrees(start, log, k, s.table, s.next, s.reached) && Exclusive(batch, k)
    requires s.next + CountOwn(batch) <= |log|
    ensures
      var next := s.next + CountOwn(batch);
      var table := ApplyAll(s.table, Materialise(log, s.next, batch));
      Agrees(start, log, k, table, next, if next > s.reached then next else s.reached)
  {
    if batch != [] {
      var front, last := batch[..|batch| - 1], batch[|batch| - 1];
      BatchKeepsAgreement(start, log, k, s, front);
      var next, table := s.next + CountOwn(front), ApplyAll(s.table, Materialise(log, s.next, front));
      var reached := if next > s.reached then next else s.reached;
      FetchedKeepsAgreement(start, log, k, table, next, reached, last);
      ApplyBatchStep(s.table, log, s.next, batch);
    }
  }

  ghost predicate AllExclusive(deliveries: seq<Delivery>, k: Subscriber) {
    forall i | 0 <= i < |deliveries| && deliveries[i].Handle? :: Exclusive(deliveries[i].batch, k)
  }

  lemma DeliverStaysKeyed(log: seq<Message>, s: State, d: Delivery)
    requires Keyed(s.table)
    ensures Keyed(Deliver(log, s, d).table)
  {
    if d.Handle? && s.next + CountOwn(d.batch) <= |log| {
      var messages := Materialise(log, s.next, d.batch);
      WrittenInOrder(s.table, messages, d.statement);
      ApplyAllStaysKeyed(s.table, messages);
      ApplyAllStaysKeyed(ApplyAll(s.table, messages), messages);
    }
  }

  /** A batch written twice over is a batch, a rewind and the batch again. */
  lemma TwiceKeepsAgreement(start: Table, log: seq<Message>, k: Subscriber, s: State, batch: seq<Fetched>)
    requires Agrees(start, log, k, s.table, s.next, s.reached) && Exclusive(batch, k)
    requires s.next + CountOwn(batch) <= |log|
    ensures
      var messages, next := Materialise(log, s.next, batch), s.next + CountOwn(batch);
      Agrees(start, log, k, ApplyAll(ApplyAll(s.table, messages), messages), next, if next > s.reached then next else s.reached)
  {
    var messages, next := Materialise(log, s.next, batch), s.next + CountOwn(batch);
    var once, reached := ApplyAll(s.table, messages), if next > s.reached then next else s.reached;
    BatchKeepsAgreement(start, log, k, s, batch);
    RewindKeepsAgreement(start, log, k, once, next, s.next, reached);
    BatchKeepsAgreement(start, log, k, State(once, s.next, reached), batch);
  }

  lemma RewindKeepsAgreement(start: Table, log: seq<Message>, k: Subscriber, now: Table, next: nat, earlier: nat, reached: nat)
    requires Agrees(start, log, k, now, next, reached) && earlier <= next
    ensures Agrees(start, log, k, now, earlier, reached)
  {
  }

  lemma HandleKeepsAgreement(start: Table, log: seq<Message>, k: Subscriber, s: State, batch: seq<Fetched>, statement: Statement)
    requires Agrees(start, log, k, s.table, s.next, s.reached) && Exclusive(batch, k) && Keyed(s.table)
    requires s.next + CountOwn(batch) <= |log|
    ensures
      var table, next := Written(s.table, Materialise(log, s.next, batch), statement), s.next + CountOwn(batch);
      Agrees(start, log, k, table, next, if next > s.reached then next else s.reached)
  {
    BatchKeepsAgreement(start, log, k, s, batch);
    TwiceKeepsAgreement(start, log, k, s, batch);
    WrittenInOrder(s.table, Materialise(log, s.next, batch), statement);
  }

  lemma {:induction false} DeliveriesKeepAgreement(start: Table, log: seq<Message>, k: Subscriber, deliveries: seq<Delivery>)
    requires Keyed(start) && AllExclusive(deliveries, k)
    ensures var s := DeliverAll(log, start, deliveries);
      Agrees(start, log, k, s.table, s.next, s.reached) && Keyed(s.table)
  {
    if deliveries != [] {
      var front, d := deliveries[..|deliveries| - 1], deliveries[|deliveries| - 1];
      assert AllExclusive(front, k);
      DeliveriesKeepAgreement(start, log, k, front);
      var s := DeliverAll(log, start, front);
      DeliverStaysKeyed(log, s, d);
      if d.Rewind? {
        if d.offset <= s.next {
          RewindKeepsAgreement(start, log, k, s.table, s.next, d.offset, s.reached);
        }
      } else if s.next + CountOwn(d.batch) <= |log| {
        assert Exclusive(deliveries[|deliveries| - 1].batch, k);
        HandleKeepsAgreement(start, log, k, s, d.batch, d.statement);
      }
    }
  }

  /** Whatever was delivered how often, batched or one at a time: once delivery is back at the highest
      offset it ever reached, every subscriber of the partition has exactly the row that delivering
      the log once, in order, gives; ties in event_time included. */
  lemma ReplayConverges(start: Table, log: seq<Message>, k: Subscriber, deliveries: seq<Delivery>)
    requires Keyed(start) && AllExclusive(deliveries, k)
    ensures var s := DeliverAll(log, start, deliveries);
      s.reached <= |log| && (s.next == s.reached ==> At(s.table, k) == At(Prefix(start, log, s.reached), k))
  {
    DeliveriesKeepAgreement(start, log, k, deliveries);
  }

  /** And at every other moment at least the event time is already right. */
  lemma ReplayNeverGoesBackInTime(start: Table, log: seq<Message>, k: Subscriber, deliveries: seq<Delivery>)
    requires Keyed(start) && AllExclusive(deliveries, k)
    ensures var s := DeliverAll(log, start, deliveries);
      s.reached <= |log| && var goal := Prefix(start, log, s.reached);
      (k in s.table <==> k in goal) && (k in goal ==> s.table[k].eventTime == goal[k].eventTime)
  {
    DeliveriesKeepAgreement(start, log, k, deliveries);
  }
}
