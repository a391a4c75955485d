/** The resourceVersion chain every writer keeps. */
module VersionChain {
  import opened Basics
  import opened Etcd
  import opened Config
  import opened CasProtocol
  import Keys

  type ConfigLog = seq<Event<Keys.Key, Stored, Request>>

  /** How many values the live generation of `key` has had; 0 while the key is missing. */
  function GenerationLength(log: ConfigLog, key: Keys.Key): nat {
    if log == [] then 0
    else
      var last := log[|log| - 1];
      if last.key != key then GenerationLength(log[..|log| - 1], key)
      else if last.op.Delete? then 0
      else GenerationLength(log[..|log| - 1], key) + 1
  }

  /** The largest version from which `request`'s writer still counts up: the server's counter is a
      signed 64-bit integer, the consumer's an unsigned one. */
  function Limit(request: Request): int {
    if request.Rollback? || request.OfflineEdit? then UINT64_MAX else INT64_MAX
  }

  /** One link: a writer that replaces version n stamps n + 1, exactly while n is below its limit. */
  lemma LinkAdvances(request: Request, current: Stored, modRevision: nat, now: int, n: nat)
    requires VersionOf(current) == Digits(n)
    requires Mutate(request, Some(current), modRevision, now).Commit? && Mutate(request, Some(current), modRevision, now).op.Put?
    ensures VersionOf(Mutate(request, Some(current), modRevision, now).op.value) == Digits(n + 1) <==> n < Limit(request)
  {
  }

  /** At its limit a rollback restarts the chain at 0 and a server writer turns it negative. */
  lemma LinksBreakAtTheLimit(current: Stored, previous: Stored, now: int, modRevision: nat)
    requires previous.Document? && previous.payload.Some?
    ensures VersionOf(current) == Digits(INT64_MAX) ==> NextVersion(Some(current)) == Loose(INT64_MIN)
    ensures VersionOf(current) == Digits(UINT64_MAX) ==>
      var choice := MutateRollback(Some(previous), Digits(UINT64_MAX), NoCorrelation, Some(current), modRevision, now);
      choice.Commit? && choice.op.Put? && VersionOf(choice.op.value) == Digits(0)
  {
  }

  /** Under any interleaving of every kind of writer, the live version of a key is its position in
      its generation: 1, 2, 3, … */
  lemma {:induction false} VersionIsPosition(log: ConfigLog, key: Keys.Key)
    requires ValidLog(Mutate, log)
    ensures Lookup(log, key).Some? <==> GenerationLength(log, key) > 0
    ensures Lookup(log, key).Some? && GenerationLength(log, key) <= INT64_MAX ==>
      VersionOf(Lookup(log, key).value.value) == Digits(GenerationLength(log, key))
  {
    if log != [] {
      var n := |log| - 1;
      ValidPrefix(Mutate, log, n);
      VersionIsPosition(log[..n], key);
      var e := log[n];
      if e.key == key && e.op.Put? {
        assert ValidEvent(Mutate, log, n);
        var before := Lookup(log[..n], key);
        if before.Some? && GenerationLength(log, key) <= INT64_MAX {
          LinkAdvances(e.writer.request, before.value.value, before.value.modRevision, e.now, GenerationLength(log[..n], key));
        }
      }
    }
  }

  /** In every run of the whole system, the j-th event, if it puts the k-th value of its key's
      generation, carries version k. */
  lemma EveryRunCountsUp(clock: int, steps: seq<Step<Keys.Key, Request>>, j: nat)
    requires var log := Run(Mutate, clock, steps).log;
      j < |log| && log[j].op.Put? && GenerationLength(log[..j + 1], log[j].key) <= INT64_MAX
    ensures var log := Run(Mutate, clock, steps).log;
      VersionOf(log[j].op.value) == Digits(GenerationLength(log[..j + 1], log[j].key))
  {
    EveryRunIsExact(Mutate, clock, steps, 0);
    var log: ConfigLog := Run(Mutate, clock, steps).log;
    ValidPrefix(Mutate, log, j + 1);
    VersionIsPosition(log[..j + 1], log[j].key);
    assert LiveAt(log, log[j].key, j + 1, j);
    LiveIsLatest(log, log[j].key, j + 1, j);
  }
}
