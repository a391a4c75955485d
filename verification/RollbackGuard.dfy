/** The automatic rollback touches only the version whose apply failed. */
module RollbackGuard {
  import opened Basics
  import opened Etcd
  import opened Config
  import opened CasProtocol
  import opened VersionChain
  import Keys

  /** A rollback answering a failure report with these two markers, whatever last success the handler
      found when it (re)read the history. */
  ghost predicate IsRollbackOf(e: Event<Keys.Key, Stored, Request>, applied: Version, revision: int) {
    && e.writer.Cas? && e.writer.request.Rollback?
    && e.writer.request.applied == applied && !applied.Missing?
    && e.writer.request.correlation == ModRevision(revision)
  }

  /** What it replaces or deletes is exactly the value written at the reported ModRevision: the event
      that made that revision, still the latest on its key. */
  lemma ReplacesTheFailedVersion(log: ConfigLog, j: nat, applied: Version, revision: int)
    requires ValidLog(Mutate, log) && j < |log| && IsRollbackOf(log[j], applied, revision)
    ensures FIRST_REVISION <= revision && LiveAt(log, log[j].key, j, revision - FIRST_REVISION)
    ensures VersionOf(log[revision - FIRST_REVISION].op.value).Digits?
    ensures ParseUint(applied) == UintVersion(log[revision - FIRST_REVISION].op.value)
  {
    assert ValidEvent(Mutate, log, j);
    LookupIsLive(log, log[j].key, j);
  }

  /** What it leaves: nothing when it was given no previous config, else the previous payload under the
      failed version's node, with a fresh stamp and the next version. */
  lemma RestoresThePrevious(log: ConfigLog, j: nat, applied: Version, revision: int)
    requires ValidLog(Mutate, log) && j < |log| && IsRollbackOf(log[j], applied, revision)
    ensures 0 <= revision - FIRST_REVISION < j && log[revision - FIRST_REVISION].op.Put?
    ensures var failed := log[revision - FIRST_REVISION].op.value;
      && UintVersion(failed).Some? && failed.Document? && failed.metadata.Some?
    ensures var failed := log[revision - FIRST_REVISION].op.value;
      var previous := log[j].writer.request.previous;
      if previous.None? then log[j].op.Delete?
      else
        && log[j].op.Put? && previous.value.Document? && previous.value.payload.Some?
        && log[j].op.value.Document? && log[j].op.value.metadata.Some?
        && log[j].op.value.payload == previous.value.payload
        && log[j].op.value.metadata.value.node == failed.metadata.value.node
        && log[j].op.value.metadata.value.updatedAt == Utc(log[j].now)
        && (UintVersion(failed).value < UINT64_MAX ==> VersionOf(log[j].op.value) == Digits(UintVersion(failed).value + 1))
  {
    ReplacesTheFailedVersion(log, j, applied, revision);
    assert ValidEvent(Mutate, log, j);
    LookupIsLive(log, log[j].key, j);
  }

  /** The previous config, if there is one, has a payload to put back. */
  predicate CanRestore(previous: Option<Stored>) {
    previous.Some? ==> previous.value.Document? && previous.value.payload.Some?
  }

  /** When a rollback fires, below the version limit, in terms of the log alone.  With an applied version:
      exactly while the live value is that version of its generation and, if a ModRevision is given, was
      written at that revision.  Without one: exactly while the live value is the first of its generation,
      or the one right after the previous config's own version. */
  lemma RollbackFiresExactlyWhen(
    log: ConfigLog, key: Keys.Key, previous: Option<Stored>, applied: Version, correlation: Correlation, now: int)
    requires ValidLog(Mutate, log) && Lookup(log, key).Some? && GenerationLength(log, key) <= INT64_MAX
    requires CanRestore(previous)
    ensures var live := Lookup(log, key);
      MutateRollback(previous, applied, correlation, ValueOf(live), RevisionOf(live), now).Commit? <==>
        if !applied.Missing? then
          && ParseUint(applied) == Some(GenerationLength(log, key))
          && (correlation.ModRevision? ==> live.value.modRevision == correlation.revision)
        else if previous.None? then GenerationLength(log, key) == 1
        else UintVersion(previous.value).Some? && GenerationLength(log, key) == UintVersion(previous.value).value + 1
  {
    VersionIsPosition(log, key);
  }

  ghost predicate IsAnyRollback(e: Event<Keys.Key, Stored, Request>) {
    e.writer.Cas? && e.writer.request.Rollback?
  }

  /** So a committed rollback without an applied version deletes only the first value of its generation,
      if the node never succeeded, and else replaces exactly the version after its last success; one with
      an applied version replaces exactly that version.  In every run, below the version limit. */
  lemma EveryRunRollbackHitsItsVersion(clock: int, steps: seq<Step<Keys.Key, Request>>, j: nat)
    requires var log := Run(Mutate, clock, steps).log;
      j < |log| && IsAnyRollback(log[j]) && GenerationLength(log[..j], log[j].key) <= INT64_MAX
    ensures var log := Run(Mutate, clock, steps).log;
      var position, r := GenerationLength(log[..j], log[j].key), log[j].writer.request;
      && (!r.applied.Missing? ==> ParseUint(r.applied) == Some(position))
      && (r.applied.Missing? && r.previous.None? ==> position == 1 && log[j].op.Delete?)
      && (r.applied.Missing? && r.previous.Some? ==>
            log[j].op.Put? && UintVersion(r.previous.value).Some? && position == UintVersion(r.previous.value).value + 1)
  {
    EveryRunIsExact(Mutate, clock, steps, 0);
    RollbackHitsItsVersion(Run(Mutate, clock, steps).log, j);
  }

  lemma RollbackHitsItsVersion(log: ConfigLog, j: nat)
    requires ValidLog(Mutate, log) && j < |log| && IsAnyRollback(log[j])
    requires GenerationLength(log[..j], log[j].key) <= INT64_MAX
    ensures var position, r := GenerationLength(log[..j], log[j].key), log[j].writer.request;
      && (!r.applied.Missing? ==> ParseUint(r.applied) == Some(position))
      && (r.applied.Missing? && r.previous.None? ==> position == 1 && log[j].op.Delete?)
      && (r.applied.Missing? && r.previous.Some? ==>
            log[j].op.Put? && UintVersion(r.previous.value).Some? && position == UintVersion(r.previous.value).value + 1)
  {
    var r := log[j].writer.request;
    assert ValidEvent(Mutate, log, j);
    ValidPrefix(Mutate, log, j);
    assert CanRestore(r.previous);
    RollbackFiresExactlyWhen(log[..j], log[j].key, r.previous, r.applied, r.correlation, log[j].now);
  }

  /** So two rollbacks of one report never both commit, over any redeliveries, other writers, deletes
      and recreations. */
  lemma RollsBackOnce(log: ConfigLog, i: nat, j: nat, applied: Version, revision: int)
    requires ValidLog(Mutate, log) && i < j < |log| && log[i].key == log[j].key
    requires IsRollbackOf(log[i], applied, revision)
    ensures !IsRollbackOf(log[j], applied, revision)
  {
    if IsRollbackOf(log[j], applied, revision) {
      ReplacesTheFailedVersion(log, i, applied, revision);
      ReplacesTheFailedVersion(log, j, applied, revision);
    }
  }

  lemma EveryRunRollsBackOnce(
    clock: int, steps: seq<Step<Keys.Key, Request>>, i: nat, j: nat, applied: Version, revision: int)
    requires var log := Run(Mutate, clock, steps).log;
      i < j < |log| && log[i].key == log[j].key && IsRollbackOf(log[i], applied, revision)
    ensures !IsRollbackOf(Run(Mutate, clock, steps).log[j], applied, revision)
    ensures FIRST_REVISION <= revision && LiveAt(Run(Mutate, clock, steps).log, Run(Mutate, clock, steps).log[i].key, i, revision - FIRST_REVISION)
  {
    EveryRunIsExact(Mutate, clock, steps, 0);
    var log: ConfigLog := Run(Mutate, clock, steps).log;
    ReplacesTheFailedVersion(log, i, applied, revision);
    RollsBackOnce(log, i, j, applied, revision);
  }

  /** The markers pin one version: whatever the live value, a rollback commits at one ModRevision only. */
  ghost predicate PinsOneVersion(previous: Option<Stored>, applied: Version, correlation: Correlation) {
    forall c, d, m: nat, n: nat, now |
        MutateRollback(previous, applied, correlation, c, m, now).Commit? &&
        MutateRollback(previous, applied, correlation, d, n, now).Commit? :: m == n
  }

  /** Some live value makes these markers roll back. */
  predicate CanCommit(previous: Option<Stored>, applied: Version) {
    && CanRestore(previous)
    && if applied.Missing?
       then previous.Some? ==> UintVersion(previous.value).Some? && UintVersion(previous.value).value < UINT64_MAX
       else ParseUint(applied).Some?
  }

  /** Exactly when they do: the report carries an applied version and a numeric ModRevision.  Without
      either, a value of a recreated generation can pass for the failed one. */
  lemma PinnedExactlyByRevision(previous: Option<Stored>, applied: Version, correlation: Correlation)
    requires CanCommit(previous, applied)
    ensures PinsOneVersion(previous, applied, correlation) <==> !applied.Missing? && correlation.ModRevision?
  {
    if applied.Missing? || !correlation.ModRevision? {
      var live := if !applied.Missing? then ParseUint(applied).value
        else if previous.None? then 1 else UintVersion(previous.value).value + 1;
      var c := Some(Document(None, Some(Metadata("", Digits(live), "", Unusable))));
      assert MutateRollback(previous, applied, correlation, c, 2, 0).Commit?;
      assert MutateRollback(previous, applied, correlation, c, 4, 0).Commit?;
    }
  }

  const FRESH := HsiRequest("7", EMPTY_CONFIG.access, None, None, None, None)
  const CREATED := Document(Some(Hsi(NewConfig(FRESH))), Some(Metadata("n", Digits(1), "u", Utc(0))))

  /** The recreated generation hit by a report without a ModRevision: created (revision 2, reported
      failed), deleted, created again, and the new value is deleted. */
  const RECREATED: ConfigLog :=
    [Event(Keys.HsiKey("n", "7"), Put(CREATED), Cas(0, CreateHsi("n", FRESH, "u")), 0),
     Event(Keys.HsiKey("n", "7"), Delete, Cas(1, DeleteHsi), 0),
     Event(Keys.HsiKey("n", "7"), Put(CREATED), Cas(2, CreateHsi("n", FRESH, "u")), 0),
     Event(Keys.HsiKey("n", "7"), Delete, Cas(3, Rollback(None, Digits(1), NoCorrelation)), 0)]

  lemma UnpinnedRollbackHitsRecreated()
    ensures ValidLog(Mutate, RECREATED) && LiveAt(RECREATED, Keys.HsiKey("n", "7"), 3, 2)
  {
    var log, key := RECREATED, Keys.HsiKey("n", "7");
    LiveIsLatest(log, key, 1, 0);
    LiveIsLatest(log, key, 3, 2);
    assert log[..2] == [log[0], log[1]];
    assert ValidEvent(Mutate, log, 0) && ValidEvent(Mutate, log, 1) && ValidEvent(Mutate, log, 2) && ValidEvent(Mutate, log, 3);
  }
}
