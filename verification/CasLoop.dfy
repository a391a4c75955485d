/** The retry loop itself, against a store that an adversary writes to between every read and
    the transaction that follows it. */
module CasLoop {
  import opened Basics
  import opened Etcd
  import opened CasProtocol

  const INITIAL_BACKOFF_MS: nat := 50

  datatype Reply = Delivered | LostBeforeLanding | LostAfterLanding

  /** Everything outside the client's control during one attempt: whether the read succeeds, the
      clock, what others write between the read and the transaction, the fate of the reply, and
      whether the caller is cancelled while backing off. */
  datatype Attempt<K, V, R> =
    Attempt(getFails: bool, now: int, others: seq<Event<K, V, R>>, reply: Reply, cancelled: bool)

  function AppendEffective<K(==), V, R>(log: seq<Event<K, V, R>>, e: Event<K, V, R>): seq<Event<K, V, R>> {
    if e.op.Delete? && Lookup(log, e.key).None? then log else log + [e]
  }

  /** The log after the first `n` of `others`. */
  function AppendAll<K(==), V, R>(log: seq<Event<K, V, R>>, others: seq<Event<K, V, R>>, n: nat): (r: seq<Event<K, V, R>>)
    requires n <= |others|
    ensures log <= r
  {
    if n == 0 then log else AppendEffective(AppendAll(log, others, n - 1), others[n - 1])
  }

  /** The log others alone would have made of `log` during the first `n` attempts. */
  function Interference<K(==), V, R>(log: seq<Event<K, V, R>>, script: seq<Attempt<K, V, R>>, n: nat): (r: seq<Event<K, V, R>>)
    requires n <= |script|
    ensures log <= r
  {
    if n == 0 then log
    else var others := script[n - 1].others; AppendAll(Interference(log, script, n - 1), others, |others|)
  }

  function DoublingFrom(first: nat, n: nat): nat {
    if n == 0 then first else 2 * DoublingFrom(first, n - 1)
  }

  /** Other clients changed `key` between attempt `a`'s read and its transaction. */
  ghost predicate KeyMoved<K(!new), V(!new), R(!new)>(
    log: seq<Event<K, V, R>>, script: seq<Attempt<K, V, R>>, key: K, a: nat)
    requires a < |script|
  {
    Lookup(Interference(log, script, a), key) != Lookup(Interference(log, script, a + 1), key)
  }

  ghost predicate MovedThroughout<K(!new), V(!new), R(!new)>(
    log: seq<Event<K, V, R>>, script: seq<Attempt<K, V, R>>, key: K, n: nat)
    requires n <= |script|
  {
    forall a | 0 <= a < n :: KeyMoved(log, script, key, a)
  }

  /** The caller stays through the first `n` pauses. */
  ghost predicate Patient<K(!new), V(!new), R(!new)>(script: seq<Attempt<K, V, R>>, n: nat)
    requires n <= |script|
  {
    forall a | 0 <= a < n :: !script[a].cancelled
  }

  /** 50, 100, 200, … ms. */
  ghost predicate PausesDouble(waits: seq<nat>) {
    forall i | 0 <= i < |waits| :: waits[i] == DoublingFrom(50, i)
  }

  lemma NextPause(waits: seq<nat>, backoff: nat)
    requires PausesDouble(waits) && backoff == DoublingFrom(INITIAL_BACKOFF_MS, |waits|)
    ensures PausesDouble(waits + [backoff]) && backoff * 2 == DoublingFrom(INITIAL_BACKOFF_MS, |waits| + 1)
  {
  }

  class Server<K(==, !new), V(!new), R(!new)> {
    var kv: map<K, Entry<V>>
    var revision: nat
    ghost var log: seq<Event<K, V, R>>

    ghost predicate Valid()
      reads this
    {
      && revision == Revision(log)
      && forall key :: if key in kv then Lookup(log, key) == Some(kv[key]) else Lookup(log, key) == None
    }

    constructor ()
      ensures Valid() && log == [] && revision == 1
    {
      kv, revision, log := map[], 1, [];
    }

    method Get(key: K) returns (found: Option<Entry<V>>)
      requires Valid()
      ensures found == Lookup(log, key)
    {
      found := if key in kv then Some(kv[key]) else None;
    }

    method Write(e: Event<K, V, R>)
      requires Valid()
      modifies this
      ensures Valid() && log == AppendEffective(old(log), e)
    {
      if e.op.Delete? && e.key !in kv {
        return;
      }
      revision := revision + 1;
      match e.op {
        case Put(value) => kv := kv[e.key := Entry(value, revision)];
        case Delete => kv := kv - {e.key};
      }
      log := log + [e];
      assert log[..|log| - 1] == old(log);
    }

    method Interfere(others: seq<Event<K, V, R>>)
      requires Valid()
      modifies this
      ensures Valid() && log == AppendAll(old(log), others, |others|)
    {
      for i := 0 to |others|
        invariant Valid() && log == AppendAll(old(log), others, i)
      {
        Write(others[i]);
      }
    }

    /** One transaction: guard and operation are evaluated together. */
    method Txn(key: K, id: nat, request: R, txn: Txn<V>) returns (succeeded: bool)
      requires Valid()
      modifies this
      ensures Valid() && succeeded == GuardHolds(old(log), key, txn)
      ensures log == Land(old(log), key, id, request, txn)
    {
      var live := Get(key);
      succeeded := match txn.seen case None => live.None? case Some(e) => live.Some? && live.value.modRevision == e.modRevision;
      if succeeded {
        Write(Event(key, txn.op, Cas(id, request), txn.now));
      }
    }
  }

  /** What one attempt may do to a log, given everything outside the client's control. */
  ghost predicate AttemptEffect<K(!new), V(!new), R(!new), E(!new)>(
    mutate: Mutator<R, V, E>, id: nat, key: K, request: R, a: Attempt<K, V, R>,
    before: seq<Event<K, V, R>>, after: seq<Event<K, V, R>>, verdict: Option<Outcome<V, E>>)
  {
    var pre := AppendAll(before, a.others, |a.others|);
    var seen := Lookup(before, key);
    var choice := mutate(request, ValueOf(seen), RevisionOf(seen), a.now);
    if a.getFails then verdict == Some(GetFailed) && after == before
    else if choice.Abort? then verdict == Some(MutateFailed(choice.error)) && after == before
    else
      var txn := Txn(seen, choice.op, a.now);
      var moved := Lookup(pre, key) != seen;
      && after == pre + (if moved || a.reply.LostBeforeLanding? || !Writes(txn) then [] else [Event(key, txn.op, Cas(id, request), a.now)])
      && verdict == (if !a.reply.Delivered? then Some(CommitFailed) else if moved then None else Some(Acknowledged(txn)))
  }

  /** One pass through the loop body; no outcome means a conflict. */
  method TryOnce<K(==, !new), V(!new), R(!new), E(!new)>(
    etcd: Server<K, V, R>, mutate: Mutator<R, V, E>, id: nat, key: K, request: R, a: Attempt<K, V, R>)
    returns (verdict: Option<Outcome<V, E>>)
    requires etcd.Valid()
    modifies etcd
    ensures etcd.Valid()
    ensures AttemptEffect(mutate, id, key, request, a, old(etcd.log), etcd.log, verdict)
  {
    if a.getFails {
      return Some(GetFailed);
    }
    var seen := etcd.Get(key);
    match mutate(request, ValueOf(seen), RevisionOf(seen), a.now) {
      case Abort(error) => return Some(MutateFailed(error));
      case Commit(op) =>
        var txn := Txn(seen, op, a.now);
        etcd.Interfere(a.others);
        GuardSeesSameEntry(old(etcd.log), etcd.log, key, txn);
        if a.reply == LostBeforeLanding {
          return Some(CommitFailed);
        }
        var succeeded := etcd.Txn(key, id, request, txn);
        if a.reply == LostAfterLanding {
          return Some(CommitFailed);
        }
        return if succeeded then Some(Acknowledged(txn)) else None;
    }
  }

  /** How the loop ends after `started` attempts and `waits` pauses. */
  ghost predicate Ended<K(!new), V(!new), R(!new), E(!new)>(
    mutate: Mutator<R, V, E>, id: nat, key: K, request: R, before: seq<Event<K, V, R>>, script: seq<Attempt<K, V, R>>,
    started: nat, after: seq<Event<K, V, R>>, outcome: Outcome<V, E>, waits: nat)
    requires 1 <= started <= |script| == 5
  {
    if outcome.Cancelled? then
      waits == started && script[started - 1].cancelled && after == Interference(before, script, started)
    else if outcome.Exhausted? then
      waits == started == 5 && !script[4].cancelled && after == Interference(before, script, 5)
    else
      && waits == started - 1
      && AttemptEffect(mutate, id, key, request, script[started - 1], Interference(before, script, started - 1), after, Some(outcome))
  }

  lemma VerdictEnds<K(!new), V(!new), R(!new), E(!new)>(
    mutate: Mutator<R, V, E>, id: nat, key: K, request: R, before: seq<Event<K, V, R>>, script: seq<Attempt<K, V, R>>,
    attempt: nat, after: seq<Event<K, V, R>>, outcome: Outcome<V, E>)
    requires attempt < |script| == 5
    requires AttemptEffect(mutate, id, key, request, script[attempt], Interference(before, script, attempt), after, Some(outcome))
    ensures Ended(mutate, id, key, request, before, script, attempt + 1, after, outcome, attempt)
  {
  }

  /** Read, mutate, commit under a guard; on a conflict back off, double the wait and start over,
      five attempts in all.  `started` attempts were begun; all before the last met a conflict, so
      their log is what others alone made of it, and the last one's effect is `AttemptEffect`:
      exactly this client's write on top of the others' when acknowledged, nothing of this client's
      on any other answer but a transport error.  Giving up means the key moved under all five. */
  method CASWithRevision<K(==, !new), V(!new), R(!new), E(!new)>(
    etcd: Server<K, V, R>, mutate: Mutator<R, V, E>, id: nat, key: K, request: R, script: seq<Attempt<K, V, R>>)
    returns (outcome: Outcome<V, E>, started: nat, waits: seq<nat>)
    requires etcd.Valid() && |script| == MAX_RETRIES
    modifies etcd
    ensures etcd.Valid() && 1 <= started <= 5
    ensures Patient(script, started - 1)
    ensures Ended(mutate, id, key, request, old(etcd.log), script, started, etcd.log, outcome, |waits|)
    ensures MovedThroughout(old(etcd.log), script, key, |waits|)
    ensures PausesDouble(waits)
  {
    ghost var log := etcd.log;
    var backoff := INITIAL_BACKOFF_MS;
    waits := [];
    for attempt := 0 to MAX_RETRIES
      invariant etcd.Valid() && etcd.log == Interference(log, script, attempt)
      invariant |waits| == attempt && backoff == DoublingFrom(INITIAL_BACKOFF_MS, attempt)
      invariant PausesDouble(waits)
      invariant MovedThroughout(log, script, key, attempt)
      invariant Patient(script, attempt)
    {
      started := attempt + 1;
      ghost var before := etcd.log;
      var verdict := TryOnce(etcd, mutate, id, key, request, script[attempt]);
      if verdict.Some? {
        outcome := verdict.value;
        VerdictEnds(mutate, id, key, request, log, script, attempt, etcd.log, outcome);
        return;
      }
      ConflictMeansMoved(mutate, id, key, request, log, script, attempt, etcd.log);
      NextPause(waits, backoff);
      waits := waits + [backoff];
      if script[attempt].cancelled {
        outcome := Cancelled;
        return;
      }
      backoff := backoff * 2;
    }
    started := MAX_RETRIES;
    outcome := Exhausted;
  }

  lemma ConflictMeansMoved<K(!new), V(!new), R(!new), E(!new)>(
    mutate: Mutator<R, V, E>, id: nat, key: K, request: R, log: seq<Event<K, V, R>>,
    script: seq<Attempt<K, V, R>>, a: nat, after: seq<Event<K, V, R>>)
    requires a < |script| && MovedThroughout(log, script, key, a)
    requires AttemptEffect(mutate, id, key, request, script[a], Interference(log, script, a), after, None)
    ensures MovedThroughout(log, script, key, a + 1) && after == Interference(log, script, a + 1)
  {
    ConflictLeavesOthers(mutate, id, key, request, script[a], Interference(log, script, a), after);
    assert KeyMoved(log, script, key, a);
  }

  lemma ConflictLeavesOthers<K(!new), V(!new), R(!new), E(!new)>(
    mutate: Mutator<R, V, E>, id: nat, key: K, request: R, a: Attempt<K, V, R>,
    before: seq<Event<K, V, R>>, after: seq<Event<K, V, R>>)
    requires AttemptEffect(mutate, id, key, request, a, before, after, None)
    ensures after == AppendAll(before, a.others, |a.others|) && Lookup(after, key) != Lookup(before, key)
  {
  }

  /** The guard on what was read holds after others wrote exactly when the key's entry is unchanged. */
  lemma GuardSeesSameEntry<K(!new), V(!new), R(!new)>(
    before: seq<Event<K, V, R>>, after: seq<Event<K, V, R>>, key: K, txn: Txn<V>)
    requires before <= after && txn.seen == Lookup(before, key)
    ensures GuardHolds(after, key, txn) <==> Lookup(after, key) == Lookup(before, key)
  {
    assert after[..|before|] == before && after[..|after|] == after;
    if GuardHolds(after, key, txn) && txn.seen.Some? {
      SameRevisionSameValue(after, key, |before|, |after|);
    }
  }
}
