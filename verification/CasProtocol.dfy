/** Any number of compare-and-swap clients interleaved step by step over one store, with
    unguarded deletes by others, lost commit replies and cancellations in between. */
module CasProtocol {
  import opened Basics
  import opened Etcd

  const MAX_RETRIES: nat := 5

  type Mutator<!R, !V, !E> = (R, Option<V>, nat, int) -> Choice<V, E>

  /** One attempt's transaction: guarded by what was read, carrying what mutate computed then. */
  datatype Txn<V> = Txn(seen: Option<Entry<V>>, op: Op<V>, now: int)

  datatype Outcome<V, E> =
    | Acknowledged(txn: Txn<V>)   // CAS returned nil
    | MutateFailed(error: E)
    | GetFailed
    | Cancelled
    | Exhausted
    | CommitFailed                // transport error: the transaction may or may not land

  datatype Phase<V, E> =
    | Ready(attempt: nat)
    | Decided(attempt: nat, txn: Txn<V>)
    | BackingOff(attempt: nat)
    | InDoubt(txn: Txn<V>)        // the caller has its transport error; the request is still under way
    | Returned(outcome: Outcome<V, E>)

  datatype Client<K, V, R, E> = Client(key: K, request: R, phase: Phase<V, E>)

  datatype System<K, V, R, E> =
    System(log: seq<Event<K, V, R>>, clock: int, clients: map<nat, Client<K, V, R, E>>)

  datatype Step<K, R> =
    | Tick(elapsed: nat)
    | Start(id: nat, key: K, request: R)
    | Read(id: nat)
    | ReadFails(id: nat)
    | Submit(id: nat)
    | LoseReply(id: nat)
    | LateArrival(id: nat)
    | WakeUp(id: nat)
    | Cancel(id: nat)
    | PlainDelete(key: K)

  /** The transaction's If clause: Version == 0 for a key read as absent, else an exact ModRevision. */
  predicate GuardHolds<K(==), V, R>(log: seq<Event<K, V, R>>, key: K, txn: Txn<V>) {
    match txn.seen
    case None => Lookup(log, key).None?
    case Some(e) => Lookup(log, key).Some? && Lookup(log, key).value.modRevision == e.modRevision
  }

  /** Deleting a missing key is a successful transaction that changes nothing. */
  predicate Writes<V>(txn: Txn<V>) {
    txn.op.Put? || txn.seen.Some?
  }

  function Land<K(==), V, R>(log: seq<Event<K, V, R>>, key: K, id: nat, request: R, txn: Txn<V>)
    : seq<Event<K, V, R>>
  {
    if GuardHolds(log, key, txn) && Writes(txn)
    then log + [Event(key, txn.op, Cas(id, request), txn.now)]
    else log
  }

  function SetPhase<K, V, R, E>(s: System<K, V, R, E>, id: nat, phase: Phase<V, E>): System<K, V, R, E>
    requires id in s.clients
  {
    s.(clients := s.clients[id := s.clients[id].(phase := phase)])
  }

  function ReadStep<K(==), V, R, E>(mutate: Mutator<R, V, E>, s: System<K, V, R, E>, id: nat): System<K, V, R, E>
    requires id in s.clients && s.clients[id].phase.Ready?
  {
    var c := s.clients[id];
    var seen := Lookup(s.log, c.key);
    match mutate(c.request, ValueOf(seen), RevisionOf(seen), s.clock)
    case Abort(error) => SetPhase(s, id, Returned(MutateFailed(error)))
    case Commit(op) => SetPhase(s, id, Decided(c.phase.attempt, Txn(seen, op, s.clock)))
  }

  function SubmitStep<K(==), V, R, E>(s: System<K, V, R, E>, id: nat): System<K, V, R, E>
    requires id in s.clients && s.clients[id].phase.Decided?
  {
    var c := s.clients[id];
    if GuardHolds(s.log, c.key, c.phase.txn) then
      SetPhase(s.(log := Land(s.log, c.key, id, c.request, c.phase.txn)), id, Returned(Acknowledged(c.phase.txn)))
    else
      SetPhase(s, id, BackingOff(c.phase.attempt))
  }

  /** One atomic step; a step that is not enabled leaves the system alone. */
  function Next<K(==), V, R, E>(mutate: Mutator<R, V, E>, s: System<K, V, R, E>, step: Step<K, R>): System<K, V, R, E> {
    match step
    case Tick(elapsed) => s.(clock := s.clock + elapsed)
    case Start(id, key, request) =>
      if id in s.clients then s
      else s.(clients := s.clients[id := Client(key, request, Ready(0))])
    case PlainDelete(key) =>
      if Lookup(s.log, key).None? then s
      else s.(log := s.log + [Event(key, Delete, Plain, s.clock)])
    case Read(id) =>
      if id in s.clients && s.clients[id].phase.Ready? then ReadStep(mutate, s, id) else s
    case ReadFails(id) =>
      if id in s.clients && s.clients[id].phase.Ready? then SetPhase(s, id, Returned(GetFailed)) else s
    case Submit(id) =>
      if id in s.clients && s.clients[id].phase.Decided? then SubmitStep(s, id) else s
    case LoseReply(id) =>
      if id in s.clients && s.clients[id].phase.Decided?
      then SetPhase(s, id, InDoubt(s.clients[id].phase.txn)) else s
    case LateArrival(id) =>
      if id in s.clients && s.clients[id].phase.InDoubt? then
        var c := s.clients[id];
        SetPhase(s.(log := Land(s.log, c.key, id, c.request, c.phase.txn)), id, Returned(CommitFailed))
      else s
    case WakeUp(id) =>
      if id in s.clients && s.clients[id].phase.BackingOff? then
        var next := s.clients[id].phase.attempt + 1;
        SetPhase(s, id, if next < MAX_RETRIES then Ready(next) else Returned(Exhausted))
      else s
    case Cancel(id) =>
      if id in s.clients && s.clients[id].phase.BackingOff?
      then SetPhase(s, id, Returned(Cancelled)) else s
  }

  function Initial<K, V, R, E>(clock: int): System<K, V, R, E> {
    System([], clock, map[])
  }

  function Run<K(==), V, R, E>(mutate: Mutator<R, V, E>, clock: int, steps: seq<Step<K, R>>): System<K, V, R, E> {
    if steps == [] then Initial(clock)
    else Next(mutate, Run(mutate, clock, steps[..|steps| - 1]), steps[|steps| - 1])
  }

  /** How many of the committed events are client `id`'s. */
  function Commits<K, V, R>(log: seq<Event<K, V, R>>, id: nat): nat {
    if log == [] then 0
    else
      var last := log[|log| - 1];
      Commits(log[..|log| - 1], id) + if last.writer.Cas? && last.writer.client == id then 1 else 0
  }

  /** The transaction still stands for what mutate computed from a version that was really there. */
  ghost predicate Faithful<K, V, R, E>(
    mutate: Mutator<R, V, E>, log: seq<Event<K, V, R>>, clock: int, key: K, request: R, txn: Txn<V>)
  {
    && mutate(request, ValueOf(txn.seen), RevisionOf(txn.seen), txn.now) == Commit(txn.op)
    && txn.now <= clock
    && (txn.seen.Some? ==>
      var at := txn.seen.value.modRevision - FIRST_REVISION;
      && 0 <= at < |log|
      && log[at].key == key && log[at].op == Put(txn.seen.value.value)
      && log[at].now <= txn.now)
  }

  ghost predicate ClientInv<K, V, R, E>(
    mutate: Mutator<R, V, E>, log: seq<Event<K, V, R>>, clock: int, id: nat, c: Client<K, V, R, E>)
  {
    match c.phase
    case Ready(attempt) => attempt < MAX_RETRIES && Commits(log, id) == 0
    case BackingOff(attempt) => attempt < MAX_RETRIES && Commits(log, id) == 0
    case Decided(attempt, txn) =>
      attempt < MAX_RETRIES && Commits(log, id) == 0 && Faithful(mutate, log, clock, c.key, c.request, txn)
    case InDoubt(txn) => Commits(log, id) == 0 && Faithful(mutate, log, clock, c.key, c.request, txn)
    case Returned(outcome) =>
      match outcome
      case Acknowledged(txn) =>
        && Commits(log, id) == (if Writes(txn) then 1 else 0)
        && Faithful(mutate, log, clock, c.key, c.request, txn)
      case CommitFailed => Commits(log, id) <= 1
      case _ => Commits(log, id) == 0
  }

  /** Event `i` was computed no earlier than the version it replaces. */
  ghost predicate StampFollows<K(!new), V(!new), R(!new)>(log: seq<Event<K, V, R>>, i: nat)
    requires i < |log|
  {
    var before := Lookup(log[..i], log[i].key);
    before.Some? ==> log[before.value.modRevision - FIRST_REVISION].now <= log[i].now
  }

  /** Event `i` belongs to a started client, and was computed no earlier than the version it replaces. */
  ghost predicate EventInv<K(!new), V(!new), R(!new), E(!new)>(s: System<K, V, R, E>, i: nat)
    requires i < |s.log|
  {
    var e := s.log[i];
    && e.now <= s.clock
    && (e.writer.Cas? ==>
      && e.writer.client in s.clients
      && s.clients[e.writer.client].key == e.key
      && s.clients[e.writer.client].request == e.writer.request)
    && StampFollows(s.log, i)
  }

  ghost predicate Inv<K(!new), V(!new), R(!new), E(!new)>(mutate: Mutator<R, V, E>, s: System<K, V, R, E>) {
    && ValidLog(mutate, s.log)
    && (forall i | 0 <= i < |s.log| :: EventInv(s, i))
    && (forall id | id in s.clients :: ClientInv(mutate, s.log, s.clock, id, s.clients[id]))
    && (forall id: nat | id !in s.clients :: Commits(s.log, id) == 0)
  }

  ghost predicate SameIdentities<K, V, R, E>(s: System<K, V, R, E>, t: System<K, V, R, E>) {
    forall id | id in s.clients ::
      id in t.clients && t.clients[id].key == s.clients[id].key && t.clients[id].request == s.clients[id].request
  }

  lemma OldEventStays<K(!new), V(!new), R(!new), E(!new)>(
    mutate: Mutator<R, V, E>, s: System<K, V, R, E>, t: System<K, V, R, E>, i: nat)
    requires i < |s.log| <= |t.log| && t.log[..|s.log|] == s.log && s.clock <= t.clock && SameIdentities(s, t)
    requires ValidEvent(mutate, s.log, i) && EventInv(s, i)
    ensures ValidEvent(mutate, t.log, i) && EventInv(t, i)
  {
    assert t.log[..i] == s.log[..i];
    assert t.log[i] == s.log[i];
    var before := Lookup(s.log[..i], s.log[i].key);
    if before.Some? {
      var at := before.value.modRevision - FIRST_REVISION;
      assert t.log[at] == s.log[at];
    }
  }

  /** One more event that is valid where it lands extends a good log to a good log. */
  lemma AppendKeepsLog<K(!new), V(!new), R(!new), E(!new)>(
    mutate: Mutator<R, V, E>, s: System<K, V, R, E>, e: Event<K, V, R>, t: System<K, V, R, E>)
    requires ValidLog(mutate, s.log) && forall i | 0 <= i < |s.log| :: EventInv(s, i)
    requires t.log == s.log + [e] && t.clock == s.clock && SameIdentities(s, t)
    requires ValidEvent(mutate, t.log, |s.log|) && EventInv(t, |s.log|)
    ensures ValidLog(mutate, t.log) && forall i | 0 <= i < |t.log| :: EventInv(t, i)
  {
    forall i | 0 <= i < |t.log| ensures ValidEvent(mutate, t.log, i) && EventInv(t, i) {
      if i < |s.log| {
        OldEventStays(mutate, s, t, i);
      }
    }
  }

  lemma CommitsAppend<K, V, R>(log: seq<Event<K, V, R>>, e: Event<K, V, R>, id: nat)
    ensures Commits(log + [e], id) == Commits(log, id) + if e.writer.Cas? && e.writer.client == id then 1 else 0
  {
    assert (log + [e])[..|log|] == log;
  }

  lemma FaithfulGrows<K, V, R, E>(
    mutate: Mutator<R, V, E>, log: seq<Event<K, V, R>>, e: Event<K, V, R>, clock: int, key: K, request: R, txn: Txn<V>)
    requires Faithful(mutate, log, clock, key, request, txn)
    ensures Faithful(mutate, log + [e], clock, key, request, txn)
  {
  }

  /** When the guard holds, the version the client decided on is the live one, bit for bit. */
  lemma GuardMeansUnchanged<K(!new), V(!new), R(!new), E(!new)>(
    mutate: Mutator<R, V, E>, log: seq<Event<K, V, R>>, clock: int, key: K, request: R, txn: Txn<V>)
    requires Faithful(mutate, log, clock, key, request, txn) && GuardHolds(log, key, txn)
    ensures Lookup(log, key) == txn.seen
  {
  }

  /** A landing transaction extends the log by a valid event. */
  lemma LandedEventIsValid<K(!new), V(!new), R(!new), E(!new)>(
    mutate: Mutator<R, V, E>, s: System<K, V, R, E>, id: nat, txn: Txn<V>, t: System<K, V, R, E>)
    requires Inv(mutate, s) && id in s.clients
    requires var c := s.clients[id];
      && Faithful(mutate, s.log, s.clock, c.key, c.request, txn) && GuardHolds(s.log, c.key, txn) && Writes(txn)
      && t.log == s.log + [Event(c.key, txn.op, Cas(id, c.request), txn.now)]
    requires t.clock == s.clock && SameIdentities(s, t)
    ensures ValidLog(mutate, t.log) && forall i | 0 <= i < |t.log| :: EventInv(t, i)
  {
    var c := s.clients[id];
    var e := Event(c.key, txn.op, Cas(id, c.request), txn.now);
    GuardMeansUnchanged(mutate, s.log, s.clock, c.key, c.request, txn);
    assert t.log[..|s.log|] == s.log;
    assert t.log[|s.log|] == e;
    assert ValidEvent(mutate, t.log, |s.log|);
    assert EventInv(t, |s.log|);
    AppendKeepsLog(mutate, s, e, t);
  }

  lemma LandKeepsInv<K(!new), V(!new), R(!new), E(!new)>(
    mutate: Mutator<R, V, E>, s: System<K, V, R, E>, id: nat, txn: Txn<V>, phase: Phase<V, E>)
    requires Inv(mutate, s) && id in s.clients
    requires Faithful(mutate, s.log, s.clock, s.clients[id].key, s.clients[id].request, txn)
    requires Commits(s.log, id) == 0
    requires phase == Returned(CommitFailed) ||
      (phase == Returned(Acknowledged(txn)) && GuardHolds(s.log, s.clients[id].key, txn))
    ensures var c := s.clients[id];
      Inv(mutate, SetPhase(s.(log := Land(s.log, c.key, id, c.request, txn)), id, phase))
  {
    var c := s.clients[id];
    var t := SetPhase(s.(log := Land(s.log, c.key, id, c.request, txn)), id, phase);
    if GuardHolds(s.log, c.key, txn) && Writes(txn) {
      var e := Event(c.key, txn.op, Cas(id, c.request), txn.now);
      LandedEventIsValid(mutate, s, id, txn, t);
      OthersKeepInv(mutate, s, e, t, id);
      FaithfulGrows(mutate, s.log, e, s.clock, c.key, c.request, txn);
    } else {
      LocalStepKeepsInv(mutate, s, id, phase);
    }
  }

  lemma OthersKeepInv<K(!new), V(!new), R(!new), E(!new)>(
    mutate: Mutator<R, V, E>, s: System<K, V, R, E>, e: Event<K, V, R>, t: System<K, V, R, E>, id: nat)
    requires Inv(mutate, s)
    requires t.log == s.log + [e] && t.clock == s.clock
    requires e.writer.Cas? ==> e.writer.client == id && id in s.clients
    requires t.clients.Keys == s.clients.Keys
    requires forall other | other in s.clients && (e.writer.Plain? || other != id) :: t.clients[other] == s.clients[other]
    ensures forall other | other in s.clients && (e.writer.Plain? || other != id) ::
      ClientInv(mutate, t.log, t.clock, other, t.clients[other])
    ensures forall other: nat | other !in t.clients :: Commits(t.log, other) == 0
    ensures e.writer.Cas? ==> Commits(t.log, id) == Commits(s.log, id) + 1
  {
    forall other: nat ensures
      Commits(t.log, other) == Commits(s.log, other) + if e.writer.Cas? && e.writer.client == other then 1 else 0
    {
      CommitsAppend(s.log, e, other);
    }
    forall other | other in s.clients && (e.writer.Plain? || other != id)
      ensures ClientInv(mutate, t.log, t.clock, other, t.clients[other])
    {
      var c := s.clients[other];
      assert ClientInv(mutate, s.log, s.clock, other, c);
      if c.phase.Decided? || c.phase.InDoubt? {
        FaithfulGrows(mutate, s.log, e, s.clock, c.key, c.request, c.phase.txn);
      } else if c.phase.Returned? && c.phase.outcome.Acknowledged? {
        FaithfulGrows(mutate, s.log, e, s.clock, c.key, c.request, c.phase.outcome.txn);
      }
    }
  }

  lemma LocalStepKeepsInv<K(!new), V(!new), R(!new), E(!new)>(
    mutate: Mutator<R, V, E>, s: System<K, V, R, E>, id: nat, phase: Phase<V, E>)
    requires Inv(mutate, s) && id in s.clients
    requires ClientInv(mutate, s.log, s.clock, id, s.clients[id].(phase := phase))
    ensures Inv(mutate, SetPhase(s, id, phase))
  {
    var t := SetPhase(s, id, phase);
    forall i | 0 <= i < |t.log| ensures EventInv(t, i) { assert EventInv(s, i); }
  }

  lemma ReadKeepsInv<K(!new), V(!new), R(!new), E(!new)>(mutate: Mutator<R, V, E>, s: System<K, V, R, E>, id: nat)
    requires Inv(mutate, s) && id in s.clients && s.clients[id].phase.Ready?
    ensures Inv(mutate, ReadStep(mutate, s, id))
  {
    var c := s.clients[id];
    assert ClientInv(mutate, s.log, s.clock, id, c);
    var seen := Lookup(s.log, c.key);
    if seen.Some? {
      assert EventInv(s, seen.value.modRevision - FIRST_REVISION);
    }
    match mutate(c.request, ValueOf(seen), RevisionOf(seen), s.clock)
    case Abort(error) => LocalStepKeepsInv(mutate, s, id, Returned(MutateFailed(error)));
    case Commit(op) => LocalStepKeepsInv(mutate, s, id, Decided(c.phase.attempt, Txn(seen, op, s.clock)));
  }

  lemma PlainDeleteKeepsInv<K(!new), V(!new), R(!new), E(!new)>(mutate: Mutator<R, V, E>, s: System<K, V, R, E>, key: K)
    requires Inv(mutate, s) && Lookup(s.log, key).Some?
    ensures Inv(mutate, s.(log := s.log + [Event(key, Delete, Plain, s.clock)]))
  {
    var e := Event(key, Delete, Plain, s.clock);
    var t := s.(log := s.log + [e]);
    assert EventInv(s, Lookup(s.log, key).value.modRevision - FIRST_REVISION);
    assert t.log[..|s.log|] == s.log;
    AppendKeepsLog(mutate, s, e, t);
    OthersKeepInv(mutate, s, e, t, 0);
  }

  lemma TickOrStartKeepsInv<K(!new), V(!new), R(!new), E(!new)>(
    mutate: Mutator<R, V, E>, s: System<K, V, R, E>, step: Step<K, R>)
    requires Inv(mutate, s) && (step.Tick? || step.Start?)
    ensures Inv(mutate, Next(mutate, s, step))
  {
    var t := Next(mutate, s, step);
    forall i | 0 <= i < |t.log| ensures EventInv(t, i) { assert EventInv(s, i); }
    forall id | id in t.clients ensures ClientInv(mutate, t.log, t.clock, id, t.clients[id]) {
      if id in s.clients { assert ClientInv(mutate, s.log, s.clock, id, s.clients[id]); }
    }
  }

  lemma NextKeepsInv<K(!new), V(!new), R(!new), E(!new)>(
    mutate: Mutator<R, V, E>, s: System<K, V, R, E>, step: Step<K, R>)
    requires Inv(mutate, s)
    ensures Inv(mutate, Next(mutate, s, step))
  {
    if step.Tick? || step.Start? {
      TickOrStartKeepsInv(mutate, s, step);
    } else if step.PlainDelete? {
      if Lookup(s.log, step.key).Some? { PlainDeleteKeepsInv(mutate, s, step.key); }
    } else if step.id in s.clients {
      var c := s.clients[step.id];
      assert ClientInv(mutate, s.log, s.clock, step.id, c);
      match step
      case Read(id) => if c.phase.Ready? { ReadKeepsInv(mutate, s, id); }
      case ReadFails(id) => if c.phase.Ready? { LocalStepKeepsInv(mutate, s, id, Returned(GetFailed)); }
      case Submit(id) =>
        if c.phase.Decided? {
          if GuardHolds(s.log, c.key, c.phase.txn) {
            LandKeepsInv(mutate, s, id, c.phase.txn, Returned(Acknowledged(c.phase.txn)));
          } else {
            LocalStepKeepsInv(mutate, s, id, BackingOff(c.phase.attempt));
          }
        }
      case LoseReply(id) => if c.phase.Decided? { LocalStepKeepsInv(mutate, s, id, InDoubt(c.phase.txn)); }
      case LateArrival(id) => if c.phase.InDoubt? { LandKeepsInv(mutate, s, id, c.phase.txn, Returned(CommitFailed)); }
      case WakeUp(id) =>
        if c.phase.BackingOff? {
          var next := c.phase.attempt + 1;
          LocalStepKeepsInv(mutate, s, id, if next < MAX_RETRIES then Ready(next) else Returned(Exhausted));
        }
      case Cancel(id) => if c.phase.BackingOff? { LocalStepKeepsInv(mutate, s, id, Returned(Cancelled)); }
    }
  }

  lemma {:induction false} RunKeepsInv<K(!new), V(!new), R(!new), E(!new)>(
    mutate: Mutator<R, V, E>, clock: int, steps: seq<Step<K, R>>)
    ensures Inv(mutate, Run(mutate, clock, steps))
  {
    if steps != [] {
      RunKeepsInv(mutate, clock, steps[..|steps| - 1]);
      NextKeepsInv(mutate, Run(mutate, clock, steps[..|steps| - 1]), steps[|steps| - 1]);
    }
  }

  /** What client `id` was told is what happened.  "Done" carries an operation its mutation really
      asked for, and means one write, unless that was to delete a missing key. */
  ghost predicate OutcomeIsTrue<K, V, R, E>(
    mutate: Mutator<R, V, E>, log: seq<Event<K, V, R>>, id: nat, request: R, outcome: Outcome<V, E>)
  {
    if outcome.Acknowledged? then
      var txn := outcome.txn;
      && mutate(request, ValueOf(txn.seen), RevisionOf(txn.seen), txn.now) == Commit(txn.op)
      && Commits(log, id) == if Writes(txn) then 1 else 0
    else outcome.CommitFailed? || Commits(log, id) == 0
  }

  /** The protocol's promise.  In every reachable state, whatever the interleaving: each committed
      event is exactly what its writer's mutation asks for on the value and ModRevision the key had
      at that moment; a client told "done" has committed exactly one write (none only when its
      mutation asked to delete a key it saw missing); a client told any error but a transport error
      has committed none; and nobody commits twice. */
  lemma EveryRunIsExact<K(!new), V(!new), R(!new), E(!new)>(
    mutate: Mutator<R, V, E>, clock: int, steps: seq<Step<K, R>>, id: nat)
    ensures var s := Run(mutate, clock, steps);
      && ValidLog(mutate, s.log)
      && Commits(s.log, id) <= 1
      && (id in s.clients && s.clients[id].phase.Returned? ==>
           OutcomeIsTrue(mutate, s.log, id, s.clients[id].request, s.clients[id].phase.outcome))
      && (id in s.clients && !s.clients[id].phase.Returned? ==> Commits(s.log, id) == 0)
      && forall i | 0 <= i < |s.log| && s.log[i].writer.Cas? ::
           && s.log[i].writer.client in s.clients
           && s.log[i].writer.request == s.clients[s.log[i].writer.client].request
           && s.log[i].key == s.clients[s.log[i].writer.client].key
  {
    RunKeepsInv(mutate, clock, steps);
    var s := Run(mutate, clock, steps);
    if id in s.clients {
      assert ClientInv(mutate, s.log, s.clock, id, s.clients[id]);
    }
    forall i | 0 <= i < |s.log| && s.log[i].writer.Cas?
      ensures s.log[i].writer.client in s.clients
      ensures s.log[i].writer.request == s.clients[s.log[i].writer.client].request
      ensures s.log[i].key == s.clients[s.log[i].writer.client].key
    {
      assert EventInv(s, i);
    }
  }

  ghost predicate StampsFollow<K(!new), V(!new), R(!new)>(log: seq<Event<K, V, R>>) {
    forall k {:trigger StampFollows(log, k)} | 0 <= k < |log| :: StampFollows(log, k)
  }

  lemma EveryRunStampsFollow<K(!new), V(!new), R(!new), E(!new)>(
    mutate: Mutator<R, V, E>, clock: int, steps: seq<Step<K, R>>)
    ensures StampsFollow(Run(mutate, clock, steps).log)
  {
    RunKeepsInv(mutate, clock, steps);
    var s := Run(mutate, clock, steps);
    forall k | 0 <= k < |s.log| ensures StampFollows(s.log, k) { assert EventInv(s, k); }
  }

  lemma {:induction false} StampsGrow<K(!new), V(!new), R(!new)>(log: seq<Event<K, V, R>>, i: nat, j: nat)
    requires StampsFollow(log)
    requires i < j < |log| && log[i].op.Put? && log[i].key == log[j].key && SameGeneration(log, log[i].key, i, j)
    ensures log[i].now <= log[j].now
    decreases j
  {
    assert StampFollows(log, j);
    StillThere(log, log[i].key, i, j);
    LookupIsLive(log, log[i].key, j);
    var at := Lookup(log[..j], log[i].key).value.modRevision - FIRST_REVISION;
    if i < at {
      StampsGrow(log, i, at);
    }
  }

  /** Within one generation of a key the stamps never run backwards, in any run: a writer that
      replaces a version read its clock after that version was there. */
  lemma StampsGrowWithinGeneration<K(!new), V(!new), R(!new), E(!new)>(
    mutate: Mutator<R, V, E>, clock: int, steps: seq<Step<K, R>>, i: nat, j: nat)
    requires var log := Run(mutate, clock, steps).log;
      i < j < |log| && log[i].op.Put? && log[i].key == log[j].key && SameGeneration(log, log[i].key, i, j)
    ensures var log := Run(mutate, clock, steps).log; log[i].now <= log[j].now
  {
    EveryRunStampsFollow(mutate, clock, steps);
    StampsGrow(Run(mutate, clock, steps).log, i, j);
  }

  /** Commit order and clock order agree on `key`. */
  ghost predicate StampsInOrder<K(!new), V(!new), R(!new)>(log: seq<Event<K, V, R>>, key: K) {
    forall i, j | 0 <= i < j < |log| && log[i].key == key && log[j].key == key :: log[i].now <= log[j].now
  }

  /** Event `j`, if it creates its key, is stamped no earlier than anything before it on that key. */
  ghost predicate CreateInOrder<K(!new), V(!new), R(!new)>(log: seq<Event<K, V, R>>, j: nat)
    requires j < |log|
  {
    Lookup(log[..j], log[j].key).None? ==>
      forall i | 0 <= i < j && log[i].key == log[j].key :: log[i].now <= log[j].now
  }

  ghost predicate CreatesInOrder<K(!new), V(!new), R(!new)>(log: seq<Event<K, V, R>>, key: K) {
    forall j {:trigger CreateInOrder(log, j)} | 0 <= j < |log| && log[j].key == key :: CreateInOrder(log, j)
  }

  /** The version event `j` replaces is the latest event on its key and is stamped no later. */
  lemma PredecessorIsStampedEarlier<K(!new), V(!new), R(!new)>(log: seq<Event<K, V, R>>, key: K, j: nat) returns (at: nat)
    requires j < |log| && log[j].key == key && StampFollows(log, j) && Lookup(log[..j], key).Some?
    ensures LiveAt(log, key, j, at) && log[at].now <= log[j].now
  {
    LookupIsLive(log, key, j);
    at := Lookup(log[..j], key).value.modRevision - FIRST_REVISION;
  }

  lemma {:induction false} OrderFollows<K(!new), V(!new), R(!new)>(log: seq<Event<K, V, R>>, key: K, i: nat, j: nat)
    requires CreatesInOrder(log, key) && StampsFollow(log)
    requires i < j < |log| && log[i].key == key && log[j].key == key
    ensures log[i].now <= log[j].now
    decreases j
  {
    if Lookup(log[..j], key).None? {
      assert CreateInOrder(log, j);
    } else {
      assert StampFollows(log, j);
      var at := PredecessorIsStampedEarlier(log, key, j);
      if i < at {
        OrderFollows(log, key, i, at);
      }
    }
  }

  /** In every run, exactly when the creates of a key are stamped in order, all its stamps are: only a
      create that read "missing" too long ago can break the order. */
  lemma StampsInOrderExactlyWhen<K(!new), V(!new), R(!new), E(!new)>(
    mutate: Mutator<R, V, E>, clock: int, steps: seq<Step<K, R>>, key: K)
    ensures var log := Run(mutate, clock, steps).log; StampsInOrder(log, key) <==> CreatesInOrder(log, key)
  {
    EveryRunStampsFollow(mutate, clock, steps);
    var log := Run(mutate, clock, steps).log;
    if CreatesInOrder(log, key) {
      forall i, j | 0 <= i < j < |log| && log[i].key == key && log[j].key == key
        ensures log[i].now <= log[j].now
      {
        OrderFollows(log, key, i, j);
      }
    }
  }

  lemma RunSnoc<K, V, R, E>(mutate: Mutator<R, V, E>, clock: int, steps: seq<Step<K, R>>, step: Step<K, R>)
    ensures Run(mutate, clock, steps + [step]) == Next(mutate, Run(mutate, clock, steps), step)
  {
    assert (steps + [step])[..|steps|] == steps;
  }

  function AlwaysPut(request: bool, current: Option<bool>, revision: nat, now: int): Choice<bool, bool> {
    Commit(Put(request))
  }

  const SLOW_CREATE: seq<Step<bool, bool>> :=
    [Start(1, true, true), Read(1), Tick(10), Start(2, true, true), Read(2), Submit(2), PlainDelete(true), Submit(1)]

  /** Client 1 has read "absent" at time 0. */
  lemma SlowCreateStarts()
    ensures Run(AlwaysPut, 0, SLOW_CREATE[..3]) ==
      System([], 10, map[1 := Client(true, true, Decided(0, Txn(None, Put(true), 0)))])
  {
    var p := SLOW_CREATE;
    assert p[..1] == [] + [p[0]] && p[..2] == p[..1] + [p[1]] && p[..3] == p[..2] + [p[2]];
    RunSnoc(AlwaysPut, 0, [], p[0]);
    assert Run(AlwaysPut, 0, p[..1]) == System([], 0, map[1 := Client(true, true, Ready(0))]);
    RunSnoc(AlwaysPut, 0, p[..1], p[1]);
    RunSnoc(AlwaysPut, 0, p[..2], p[2]);
  }

  /** So has client 2, at time 10. */
  lemma SlowCreateReads()
    ensures Run(AlwaysPut, 0, SLOW_CREATE[..5]) ==
      System([], 10, map[1 := Client(true, true, Decided(0, Txn(None, Put(true), 0))),
                         2 := Client(true, true, Decided(0, Txn(None, Put(true), 10)))])
  {
    SlowCreateStarts();
    var p := SLOW_CREATE;
    assert p[..4] == p[..3] + [p[3]] && p[..5] == p[..4] + [p[4]];
    RunSnoc(AlwaysPut, 0, p[..3], p[3]);
    RunSnoc(AlwaysPut, 0, p[..4], p[4]);
  }

  /** Client 2 commits while client 1's create is still undecided. */
  lemma SlowCreateOvertaken()
    ensures var s := Run(AlwaysPut, 0, SLOW_CREATE[..6]);
      && s.log == [Event(true, Put(true), Cas(2, true), 10)] && s.clock == 10
      && 1 in s.clients && s.clients[1] == Client(true, true, Decided(0, Txn(None, Put(true), 0)))
  {
    SlowCreateReads();
    assert SLOW_CREATE[..6] == SLOW_CREATE[..5] + [Submit(2)];
    RunSnoc(AlwaysPut, 0, SLOW_CREATE[..5], Submit(2));
  }

  lemma LoneEventIsLive(e: Event<bool, bool, bool>)
    requires e.op.Put?
    ensures Lookup([e], e.key) == Some(Entry(e.op.value, FIRST_REVISION))
  {
  }

  /** The key is deleted, and the stale create is still undecided. */
  lemma SlowCreateDeleted()
    ensures var s := Run(AlwaysPut, 0, SLOW_CREATE[..7]);
      && s.log == [Event(true, Put(true), Cas(2, true), 10), Event(true, Delete, Plain, 10)]
      && 1 in s.clients && s.clients[1] == Client(true, true, Decided(0, Txn(None, Put(true), 0)))
  {
    SlowCreateOvertaken();
    LoneEventIsLive(Event(true, Put(true), Cas(2, true), 10));
    assert SLOW_CREATE[..7] == SLOW_CREATE[..6] + [PlainDelete(true)];
    RunSnoc(AlwaysPut, 0, SLOW_CREATE[..6], PlainDelete(true));
  }

  /** Across generations they can: the Version == 0 guard cannot tell one absence from a later one,
      so a slow create commits its old stamp after another's create and delete. */
  lemma SlowCreateCommitsAnOldStamp()
    ensures Run(AlwaysPut, 0, SLOW_CREATE).log ==
      [Event(true, Put(true), Cas(2, true), 10), Event(true, Delete, Plain, 10), Event(true, Put(true), Cas(1, true), 0)]
  {
    SlowCreateDeleted();
    assert SLOW_CREATE == SLOW_CREATE[..7] + [Submit(1)];
    RunSnoc(AlwaysPut, 0, SLOW_CREATE[..7], Submit(1));
    assert Lookup([Event(true, Put(true), Cas(2, true), 10), Event(true, Delete, Plain, 10)], true).None?;
  }

  function AlwaysDelete(request: bool, current: Option<bool>, revision: nat, now: int): Choice<bool, bool> {
    Commit(Delete)
  }

  /** A swap whose mutation deletes a missing key is acknowledged and writes nothing. */
  lemma DeleteOfAbsentWritesNothing()
    ensures var s := Run(AlwaysDelete, 0, [Start(1, true, true), Read(1), Submit(1)]);
      s.log == [] && 1 in s.clients && s.clients[1].phase == Returned(Acknowledged(Txn(None, Delete, 0)))
  {
    var p: seq<Step<bool, bool>> := [Start(1, true, true), Read(1), Submit(1)];
    assert p[..1] == [] + [p[0]] && p[..2] == p[..1] + [p[1]] && p == p[..2] + [p[2]];
    RunSnoc(AlwaysDelete, 0, [], p[0]);
    RunSnoc(AlwaysDelete, 0, p[..1], p[1]);
    RunSnoc(AlwaysDelete, 0, p[..2], p[2]);
  }
}
