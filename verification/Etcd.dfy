/** The revisioned store.  etcd keeps every write: a fresh store is at revision 1 and each
    committed write takes the next revision, so the sequence of events is the whole state and
    event `i` carries revision `i + 2`.  A key's live value and ModRevision are read off it. */
module Etcd {
  import opened Basics

  datatype Op<V> = Put(value: V) | Delete

  /** A compare-and-swap client with the request it serves, or an unguarded delete. */
  datatype Writer<R> = Cas(client: nat, request: R) | Plain

  /** `now` is the clock the writer read when it computed the operation, not the commit time. */
  datatype Event<K, V, R> = Event(key: K, op: Op<V>, writer: Writer<R>, now: int)

  datatype Entry<V> = Entry(value: V, modRevision: nat)

  /** What a mutate callback answers: an operation to commit, or an error that aborts the swap. */
  datatype Choice<V, E> = Commit(op: Op<V>) | Abort(error: E)

  const FIRST_REVISION: nat := 2

  function Revision<K, V, R>(log: seq<Event<K, V, R>>): nat {
    |log| + 1
  }

  /** The live entry of `key`: what its last event put, unless that event deleted it. */
  function Lookup<K(==), V, R>(log: seq<Event<K, V, R>>, key: K): (found: Option<Entry<V>>)
    ensures found.Some? ==>
      var at := found.value.modRevision - FIRST_REVISION;
      && 0 <= at < |log|
      && log[at].key == key && log[at].op == Put(found.value.value)
  {
    if log == [] then None
    else
      var last := |log| - 1;
      if log[last].key != key then Lookup(log[..last], key)
      else if log[last].op.Delete? then None
      else Some(Entry(log[last].op.value, last + FIRST_REVISION))
  }

  function ValueOf<V>(seen: Option<Entry<V>>): Option<V> {
    match seen case None => None case Some(e) => Some(e.value)
  }

  /** 0 stands for a missing key, as in the client library. */
  function RevisionOf<V>(seen: Option<Entry<V>>): nat {
    match seen case None => 0 case Some(e) => e.modRevision
  }

  /** Event `i` did to its key exactly what its writer's mutation asks for on the value and
      ModRevision the key had at that very moment. */
  ghost predicate ValidEvent<K(!new), V(!new), R(!new), E(!new)>(
    mutate: (R, Option<V>, nat, int) -> Choice<V, E>, log: seq<Event<K, V, R>>, i: nat)
    requires i < |log|
  {
    var e := log[i];
    var before := Lookup(log[..i], e.key);
    && (before.None? ==> e.op.Put?)
    && match e.writer
       case Cas(_, request) => mutate(request, ValueOf(before), RevisionOf(before), e.now) == Commit(e.op)
       case Plain => e.op.Delete?
  }

  ghost predicate ValidLog<K(!new), V(!new), R(!new), E(!new)>(
    mutate: (R, Option<V>, nat, int) -> Choice<V, E>, log: seq<Event<K, V, R>>)
  {
    forall i | 0 <= i < |log| :: ValidEvent(mutate, log, i)
  }

  lemma ValidPrefix<K(!new), V(!new), R(!new), E(!new)>(
    mutate: (R, Option<V>, nat, int) -> Choice<V, E>, log: seq<Event<K, V, R>>, n: nat)
    requires ValidLog(mutate, log) && n <= |log|
    ensures ValidLog(mutate, log[..n])
  {
    forall i | 0 <= i < n ensures ValidEvent(mutate, log[..n], i) {
      assert ValidEvent(mutate, log, i);
      assert log[..n][..i] == log[..i];
    }
  }

  /** Between `i` and `j` the key is never deleted. */
  ghost predicate SameGeneration<K(!new), V(!new), R(!new)>(log: seq<Event<K, V, R>>, key: K, i: nat, j: nat) {
    forall d | i < d < j && d < |log| && log[d].key == key :: log[d].op.Put?
  }

  /** The event that produced the live entry of `key` after the first `j` events. */
  ghost predicate LiveAt<K(!new), V(!new), R(!new)>(log: seq<Event<K, V, R>>, key: K, j: nat, at: nat) {
    && at < j <= |log| && log[at].key == key && log[at].op.Put?
    && forall k | at < k < j :: log[k].key != key
  }

  lemma {:induction false} LookupIsLive<K(!new), V(!new), R(!new)>(log: seq<Event<K, V, R>>, key: K, j: nat)
    requires j <= |log| && Lookup(log[..j], key).Some?
    ensures var e := Lookup(log[..j], key).value;
      LiveAt(log, key, j, e.modRevision - FIRST_REVISION) && log[e.modRevision - FIRST_REVISION].op.value == e.value
  {
    assert log[..j][..j - 1] == log[..j - 1];
    if log[j - 1].key != key {
      LookupIsLive(log, key, j - 1);
    }
  }

  /** A put that no later delete removed is still there, or has been replaced by a later put. */
  lemma {:induction false} StillThere<K(!new), V(!new), R(!new)>(log: seq<Event<K, V, R>>, key: K, i: nat, j: nat)
    requires i < j <= |log| && log[i].key == key && log[i].op.Put? && SameGeneration(log, key, i, j)
    ensures Lookup(log[..j], key).Some? && i <= Lookup(log[..j], key).value.modRevision - FIRST_REVISION
    decreases j
  {
    assert log[..j][..j - 1] == log[..j - 1];
    if i < j - 1 {
      StillThere(log, key, i, j - 1);
    }
  }

  /** The live entry is the latest event on its key. */
  lemma LiveIsLatest<K(!new), V(!new), R(!new)>(log: seq<Event<K, V, R>>, key: K, j: nat, at: nat)
    requires LiveAt(log, key, j, at)
    ensures Lookup(log[..j], key) == Some(Entry(log[at].op.value, at + FIRST_REVISION))
  {
    StillThere(log, key, at, j);
    LookupIsLive(log, key, j);
  }

  /** A ModRevision names one version: two reads of a key, however far apart in the log, that
      show the same ModRevision show the same value, and ModRevisions never run backwards. */
  lemma SameRevisionSameValue<K(!new), V(!new), R(!new)>(log: seq<Event<K, V, R>>, key: K, n: nat, m: nat)
    requires n <= m <= |log|
    requires Lookup(log[..n], key).Some? && Lookup(log[..m], key).Some?
    ensures RevisionOf(Lookup(log[..n], key)) == RevisionOf(Lookup(log[..m], key)) ==>
      Lookup(log[..n], key) == Lookup(log[..m], key)
    ensures RevisionOf(Lookup(log[..n], key)) <= RevisionOf(Lookup(log[..m], key))
  {
    LookupIsLive(log, key, n);
    LookupIsLive(log, key, m);
  }
}
