/** Offline edits lose to every controller write that is not older. */
module OfflineArbitration {
  import opened Basics
  import opened Etcd
  import opened Config
  import opened CasProtocol
  import opened VersionChain
  import Dns
  import Keys

  ghost predicate IsEdit(e: Event<Keys.Key, Stored, Request>, p: Proposal) {
    e.writer.Cas? && e.writer.request == OfflineEdit(p)
  }

  /** A committed edit replaced a live value stamped before the edit was made, and that value is the
      latest event on the key.  Its version was behind the node's, or at most level with a tombstone's. */
  lemma EditReplacesOlderValue(log: ConfigLog, j: nat, p: Proposal) returns (at: nat)
    requires ValidLog(Mutate, log) && j < |log| && IsEdit(log[j], p)
    ensures LiveAt(log, log[j].key, j, at) && log[at].now < p.editedAt
    ensures ParseUint(p.version).Some? && UintVersion(log[at].op.value).Some?
    ensures p.payload.None? ==> log[j].op.Delete? && UintVersion(log[at].op.value).value <= ParseUint(p.version).value
    ensures p.payload.Some? ==>
      && UintVersion(log[at].op.value).value < ParseUint(p.version).value
      && log[j].op.Put? && log[j].op.value.Document? && log[j].op.value.payload == p.payload
  {
    var key := log[j].key;
    assert ValidEvent(Mutate, log, j);
    LookupIsLive(log, key, j);
    at := Lookup(log[..j], key).value.modRevision - FIRST_REVISION;
    assert ValidEvent(Mutate, log, at);
    PutCarriesItsStamp(log, at);
  }

  lemma PutCarriesItsStamp(log: ConfigLog, i: nat)
    requires i < |log| && ValidEvent(Mutate, log, i) && log[i].op.Put?
    ensures log[i].op.value.Document? && log[i].op.value.metadata.Some?
    ensures log[i].op.value.metadata.value.updatedAt == Utc(log[i].now)
  {
    var before := Lookup(log[..i], log[i].key);
    EveryPutIsStamped(log[i].writer.request, ValueOf(before), RevisionOf(before), log[i].now);
  }

  /** The value the version rule lets `p` replace: a lower version, or for a tombstone one not higher. */
  predicate Outranks(p: Proposal, live: nat) {
    && ParseUint(p.version).Some?
    && (if p.payload.None? then live <= ParseUint(p.version).value else live < ParseUint(p.version).value)
  }

  /** The arbitration in terms of the log alone, below the version limit.  An edit is already reflected
      exactly when its payload is live, or nothing is and it is a tombstone; it commits exactly when
      something else is live that it outranks and that was stamped before it was made; it is discarded in
      every other case. */
  lemma EditIsAnsweredExactly(log: ConfigLog, key: Keys.Key, p: Proposal, now: int)
    requires ValidLog(Mutate, log) && GenerationLength(log, key) <= INT64_MAX
    ensures var live, choice := Lookup(log, key), MutateOfflineEdit(p, ValueOf(Lookup(log, key)), now);
      && (live.Some? ==> live.value.value.Document? && FIRST_REVISION <= live.value.modRevision < |log| + FIRST_REVISION)
      && (choice == Abort(AlreadyReflected) <==>
            if p.payload.None? then live.None? else live.Some? && live.value.value.payload == p.payload)
      && (choice.Commit? <==>
            && live.Some? && (p.payload.Some? ==> live.value.value.payload != p.payload)
            && Outranks(p, GenerationLength(log, key))
            && log[live.value.modRevision - FIRST_REVISION].now < p.editedAt)
      && (choice.Abort? ==> choice.error == AlreadyReflected || choice.error == Discarded)
  {
    VersionIsPosition(log, key);
    if Lookup(log, key).Some? {
      assert log[..|log|] == log;
      LookupIsLive(log, key, |log|);
      var at := Lookup(log, key).value.modRevision - FIRST_REVISION;
      assert ValidEvent(Mutate, log, at);
      PutCarriesItsStamp(log, at);
      PutCarriesItsPayload(log, at);
    }
  }

  lemma PutCarriesItsPayload(log: ConfigLog, i: nat)
    requires i < |log| && ValidEvent(Mutate, log, i) && log[i].op.Put?
    ensures log[i].op.value.Document? && log[i].op.value.payload.Some?
  {
    var before := Lookup(log[..i], log[i].key);
    EveryPutIsStamped(log[i].writer.request, ValueOf(before), RevisionOf(before), log[i].now);
  }

  /** What a committed edit leaves: nothing, or its payload with the next version, the node it came from
      and the marker of offline edits. */
  lemma CommittedEditIsStored(log: ConfigLog, j: nat, p: Proposal)
    requires ValidLog(Mutate, log) && j < |log| && IsEdit(log[j], p)
    requires GenerationLength(log[..j], log[j].key) <= INT64_MAX
    ensures p.payload.None? ==> log[j].op.Delete?
    ensures p.payload.Some? ==>
      log[j].op == Put(Document(p.payload, Some(Metadata(p.node, Digits(GenerationLength(log[..j], log[j].key) + 1),
        "node-offline-edit", Utc(log[j].now)))))
  {
    assert ValidEvent(Mutate, log, j);
    ValidPrefix(Mutate, log, j);
    VersionIsPosition(log[..j], log[j].key);
  }

  /** With stamps in order, no edit made at or before t commits after a write stamped t. */
  lemma OrderShutsOutEdits(log: ConfigLog, i: nat, j: nat, p: Proposal)
    requires ValidLog(Mutate, log) && i < j < |log| && log[i].key == log[j].key
    requires StampsInOrder(log, log[j].key)
    requires IsEdit(log[j], p)
    ensures p.editedAt > log[i].now
  {
    var at := EditReplacesOlderValue(log, j, p);
  }

  /** In every run: once any write stamped t is on a key, no offline edit made at or before t writes or
      deletes that key again, whatever deletes and recreations happen in between, as long as the
      creates of the key are stamped in commit order. */
  lemma NewerWriteShutsOutEdits(clock: int, steps: seq<Step<Keys.Key, Request>>, p: Proposal, i: nat, j: nat)
    requires var log := Run(Mutate, clock, steps).log;
      && i < j < |log| && log[i].key == log[j].key && CreatesInOrder(log, log[j].key)
      && IsEdit(log[j], p)
    ensures p.editedAt > Run(Mutate, clock, steps).log[i].now
  {
    EveryRunIsExact(Mutate, clock, steps, 0);
    var log: ConfigLog := Run(Mutate, clock, steps).log;
    StampsInOrderExactlyWhen(Mutate, clock, steps, log[j].key);
    OrderShutsOutEdits(log, i, j, p);
  }

  /** A proposal accepted at a controller time not before it was made commits at most once, over every
      run of redeliveries, edits, rollbacks, deletes and recreations; tombstones included. */
  lemma AcceptedOnce(log: ConfigLog, i: nat, j: nat, p: Proposal)
    requires ValidLog(Mutate, log) && i < j < |log| && log[i].key == log[j].key
    requires StampsInOrder(log, log[j].key)
    requires IsEdit(log[i], p) && log[i].now >= p.editedAt
    ensures !IsEdit(log[j], p)
  {
    if IsEdit(log[j], p) {
      var at := EditReplacesOlderValue(log, j, p);
    }
  }

  /** The same over whole runs of the system whose creates are stamped in commit order. */
  lemma EveryRunAcceptsOnce(clock: int, steps: seq<Step<Keys.Key, Request>>, p: Proposal, i: nat, j: nat)
    requires var log := Run(Mutate, clock, steps).log;
      && i < j < |log| && log[i].key == log[j].key && CreatesInOrder(log, log[j].key)
      && IsEdit(log[i], p) && log[i].now >= p.editedAt
    ensures !IsEdit(Run(Mutate, clock, steps).log[j], p)
  {
    EveryRunIsExact(Mutate, clock, steps, 0);
    var log: ConfigLog := Run(Mutate, clock, steps).log;
    StampsInOrderExactlyWhen(Mutate, clock, steps, log[j].key);
    AcceptedOnce(log, i, j, p);
  }

  lemma GenerationShutsOutEdits(log: ConfigLog, i: nat, j: nat, p: Proposal)
    requires ValidLog(Mutate, log) && StampsFollow(log)
    requires i < j < |log| && log[i].key == log[j].key && log[i].op.Put?
    requires SameGeneration(log, log[i].key, i, j) && IsEdit(log[j], p)
    ensures p.editedAt > log[i].now
  {
    var at := EditReplacesOlderValue(log, j, p);
    if i < at {
      GenerationIsPrefixClosed(log, log[i].key, i, at, j);
      StampsGrow(log, i, at);
    }
  }

  /** Within one generation no assumption about clocks is needed: in any run, a put stamped t shuts
      out edits made at or before t until the key is deleted. */
  lemma EveryGenerationShutsOutEdits(clock: int, steps: seq<Step<Keys.Key, Request>>, p: Proposal, i: nat, j: nat)
    requires var log := Run(Mutate, clock, steps).log;
      && i < j < |log| && log[i].key == log[j].key && log[i].op.Put?
      && SameGeneration(log, log[i].key, i, j) && IsEdit(log[j], p)
    ensures p.editedAt > Run(Mutate, clock, steps).log[i].now
  {
    EveryRunIsExact(Mutate, clock, steps, 0);
    EveryRunStampsFollow(Mutate, clock, steps);
    GenerationShutsOutEdits(Run(Mutate, clock, steps).log, i, j, p);
  }

  lemma GenerationIsPrefixClosed(log: ConfigLog, key: Keys.Key, i: nat, at: nat, j: nat)
    requires SameGeneration(log, key, i, j) && at <= j
    ensures SameGeneration(log, key, i, at)
  {
  }

  // ----- exactly when an older edit gets in -----

  /** The edit `e` commits next although it was made no later than the write `i` on its key. */
  ghost predicate OlderEditGetsIn(log: ConfigLog, key: Keys.Key, e: Event<Keys.Key, Stored, Request>, i: nat) {
    && i < |log| && log[i].key == key && e.key == key
    && ValidEvent(Mutate, log + [e], |log|)
    && e.writer.Cas? && e.writer.request.OfflineEdit? && e.writer.request.proposal.editedAt <= log[i].now
  }

  /** Right after a create, some edit no younger than an earlier write on the key can get in exactly
      when the create is stamped out of order: the hypothesis on creates cannot be weakened. */
  lemma OlderEditsGetInExactlyWhen(log: ConfigLog, n: nat)
    requires ValidLog(Mutate, log) && |log| == n + 1 && log[n].op.Put? && Lookup(log[..n], log[n].key).None?
    ensures (exists e, i: nat :: OlderEditGetsIn(log, log[n].key, e, i)) <==> !CreateInOrder(log, n)
  {
    var key := log[n].key;
    assert ValidEvent(Mutate, log, n);
    PutCarriesItsStamp(log, n);
    EveryPutIsStamped(log[n].writer.request, None, 0, log[n].now);
    assert log[..n + 1] == log;
    LiveIsLatest(log, key, n + 1, n);
    if !CreateInOrder(log, n) {
      var i: nat :| i < n && log[i].key == key && log[i].now > log[n].now;
      var p := Proposal("n", None, Digits(1), log[i].now);
      var e := Event(key, Delete, Cas(0, OfflineEdit(p)), log[i].now);
      assert (log + [e])[..|log|] == log;
      assert OlderEditGetsIn(log, key, e, i);
    } else {
      forall e, i: nat ensures !OlderEditGetsIn(log, key, e, i) {
        if OlderEditGetsIn(log, key, e, i) {
          StaysValid(log, e);
          var at := EditReplacesOlderValue(log + [e], n + 1, e.writer.request.proposal);
        }
      }
    }
  }

  // ----- exactly when an accepted edit can commit again -----

  /** A payload of the family stored under `key`, other than `payload`, and the user's request that
      creates the key with it. */
  function Recreate(key: Keys.Key, payload: Option<Payload>): (r: (Request, Payload))
    ensures Some(r.1) != payload
  {
    if key.HsiKey? then
      var a := HsiRequest("1", EMPTY_CONFIG.access, None, None, None, None);
      var b := a.(user := "2");
      var config := if payload == Some(Hsi(NewConfig(a))) then b else a;
      (CreateHsi("n", config, "u"), Hsi(NewConfig(config)))
    else if key.DnsKey? then
      var a := Dns.Record("a", "", 0);
      var b := Dns.Record("b", "", 0);
      var record := if payload == Some(Records([a])) then b else a;
      (PutRecord("n", record, "u"), Records([record]))
    else
      var count := if payload == Some(Count("1")) then "2" else "1";
      (SetCount("n", count, "u"), Count(count))
  }

  lemma RecreateWrites(key: Keys.Key, payload: Option<Payload>, now: int)
    ensures var (request, written) := Recreate(key, payload);
      Mutate(request, None, 0, now) == Commit(Put(Document(Some(written), Some(Metadata("n", Digits(1), "u", Utc(now))))))
  {
    if key.DnsKey? {
      var (request, _) := Recreate(key, payload);
      assert Dns.AddOrUpdate([], request.record) == [request.record];
    }
  }

  /** The log goes on, with stamps in order, and `p` commits once more. */
  ghost predicate CanCommitAgain(log: ConfigLog, key: Keys.Key, p: Proposal) {
    exists after: ConfigLog, j: nat :: CommitsAgain(log, after, key, p, j)
  }

  ghost predicate CommitsAgain(log: ConfigLog, after: ConfigLog, key: Keys.Key, p: Proposal, j: nat) {
    && log <= after && |log| <= j < |after|
    && ValidLog(Mutate, after) && StampsInOrder(after, key)
    && after[j].key == key && IsEdit(after[j], p)
  }

  ghost predicate NoneLater(log: ConfigLog, key: Keys.Key, now: int) {
    forall i | 0 <= i < |log| && log[i].key == key :: log[i].now <= now
  }

  lemma StaysValid(log: ConfigLog, e: Event<Keys.Key, Stored, Request>)
    requires ValidLog(Mutate, log) && ValidEvent(Mutate, log + [e], |log|)
    ensures ValidLog(Mutate, log + [e])
  {
    var after := log + [e];
    forall i | 0 <= i < |after| ensures ValidEvent(Mutate, after, i) {
      if i < |log| {
        assert ValidEvent(Mutate, log, i);
        assert after[..i] == log[..i] && after[i] == log[i];
      }
    }
  }

  lemma StaysInOrder(log: ConfigLog, e: Event<Keys.Key, Stored, Request>)
    requires StampsInOrder(log, e.key) && NoneLater(log, e.key, e.now)
    ensures StampsInOrder(log + [e], e.key) && NoneLater(log + [e], e.key, e.now)
  {
  }

  lemma LiveAfter(log: ConfigLog, e: Event<Keys.Key, Stored, Request>)
    ensures Lookup(log + [e], e.key) == if e.op.Delete? then None else Some(Entry(e.op.value, |log| + FIRST_REVISION))
  {
    assert (log + [e])[..|log|] == log;
  }

  /** One more valid event, stamped no earlier than the last one on its key. */
  lemma Extends(log: ConfigLog, e: Event<Keys.Key, Stored, Request>)
    requires ValidLog(Mutate, log) && StampsInOrder(log, e.key) && NoneLater(log, e.key, e.now)
    requires ValidEvent(Mutate, log + [e], |log|)
    ensures ValidLog(Mutate, log + [e]) && StampsInOrder(log + [e], e.key) && NoneLater(log + [e], e.key, e.now)
    ensures Lookup(log + [e], e.key) == if e.op.Delete? then None else Some(Entry(e.op.value, |log| + FIRST_REVISION))
  {
    StaysValid(log, e);
    StaysInOrder(log, e);
    LiveAfter(log, e);
  }

  /** The version of the edit is above the one every key is created with, or level for a tombstone. */
  predicate OutranksCreate(p: Proposal) {
    ParseUint(p.version).Some? && ParseUint(p.version).value >= if p.payload.None? then 1 else 2
  }

  /** A value stamped before the edit, at version 1 and with another payload, gives way to it. */
  lemma AcceptsOverCreated(p: Proposal, payload: Payload, now: int)
    requires Some(payload) != p.payload && now < p.editedAt && OutranksCreate(p)
    ensures MutateOfflineEdit(p, Some(Document(Some(payload), Some(Metadata("n", Digits(1), "u", Utc(now))))), now).Commit?
  {
  }

  /** The key gone and no stamp on it later than `now`, the user creates it again at `now`. */
  lemma Recreates(log: ConfigLog, key: Keys.Key, payload: Option<Payload>, now: int) returns (after: ConfigLog)
    requires ValidLog(Mutate, log) && StampsInOrder(log, key) && Lookup(log, key).None? && NoneLater(log, key, now)
    ensures log < after && ValidLog(Mutate, after) && StampsInOrder(after, key) && NoneLater(after, key, now)
    ensures ValueOf(Lookup(after, key)) ==
      Some(Document(Some(Recreate(key, payload).1), Some(Metadata("n", Digits(1), "u", Utc(now)))))
  {
    var (request, written) := Recreate(key, payload);
    var create := Event(key, Put(Document(Some(written), Some(Metadata("n", Digits(1), "u", Utc(now))))), Cas(0, request), now);
    RecreateWrites(key, payload, now);
    after := log + [create];
    assert after[..|log|] == log;
    Extends(log, create);
  }

  /** Then the edit, made later than `now`, is redelivered. */
  lemma RecreatedAndAcceptedAgain(log: ConfigLog, key: Keys.Key, p: Proposal, now: int) returns (after: ConfigLog)
    requires ValidLog(Mutate, log) && StampsInOrder(log, key) && Lookup(log, key).None? && NoneLater(log, key, now)
    requires now < p.editedAt && OutranksCreate(p)
    ensures log < after && CommitsAgain(log, after, key, p, |after| - 1)
  {
    var created := Recreates(log, key, p.payload, now);
    AcceptsOverCreated(p, Recreate(key, p.payload).1, now);
    var again := Event(key, MutateOfflineEdit(p, ValueOf(Lookup(created, key)), now).op, Cas(0, OfflineEdit(p)), now);
    after := created + [again];
    assert after[..|created|] == created;
    Extends(created, again);
  }

  /** After a tombstone the key is gone already; after a content edit the user deletes it first, or, where
      the controller offers no delete of the whole key, an operator does. */
  lemma EarlyAcceptanceCanRepeat(log: ConfigLog, p: Proposal) returns (after: ConfigLog)
    requires ValidLog(Mutate, log) && log != []
    requires var last := log[|log| - 1]; IsEdit(last, p) && StampsInOrder(log, last.key) && last.now < p.editedAt
    requires OutranksCreate(p)
    ensures log < after && CommitsAgain(log, after, log[|log| - 1].key, p, |after| - 1)
  {
    var last := log[|log| - 1];
    var at := EditReplacesOlderValue(log, |log| - 1, p);
    if p.payload.None? {
      after := RecreatedAndAcceptedAgain(log, last.key, p, last.now);
    } else {
      var gone := Event(last.key, Delete, if last.key.HsiKey? then Cas(0, DeleteHsi) else Plain, last.now);
      assert (log + [gone])[..|log|] == log;
      Extends(log, gone);
      after := RecreatedAndAcceptedAgain(log + [gone], last.key, p, last.now);
    }
  }

  /** An edit that has just been accepted can commit again in some order-respecting continuation exactly
      when the controller's clock was still behind the edit's own time. */
  lemma CommitsAgainExactlyWhen(log: ConfigLog, p: Proposal)
    requires ValidLog(Mutate, log) && log != []
    requires var last := log[|log| - 1]; IsEdit(last, p) && StampsInOrder(log, last.key)
    requires OutranksCreate(p)
    ensures CanCommitAgain(log, log[|log| - 1].key, p) <==> log[|log| - 1].now < p.editedAt
  {
    var n, key := |log| - 1, log[|log| - 1].key;
    if log[n].now < p.editedAt {
      var after := EarlyAcceptanceCanRepeat(log, p);
    } else {
      forall after: ConfigLog, j: nat ensures !CommitsAgain(log, after, key, p, j) {
        if CommitsAgain(log, after, key, p, j) {
          AcceptedOnce(after, n, j, p);
        }
      }
    }
  }

  /** Every accepted edit outranks a create, unless the version counter has wrapped around before it. */
  lemma AcceptedEditsOutrankCreates(log: ConfigLog, p: Proposal)
    requires ValidLog(Mutate, log) && log != [] && IsEdit(log[|log| - 1], p)
    requires GenerationLength(log[..|log| - 1], log[|log| - 1].key) <= INT64_MAX
    ensures OutranksCreate(p)
  {
    var n := |log| - 1;
    assert ValidEvent(Mutate, log, n);
    ValidPrefix(Mutate, log, n);
    VersionIsPosition(log[..n], log[n].key);
  }

  // ----- why the hypotheses are there -----

  function Count5(version: nat, now: int): Stored {
    Document(Some(Count("5")), Some(Metadata("n", Digits(version), "u", Utc(now))))
  }

  const EDIT_TO_9 := Proposal("n", Some(Count("9")), Digits(10), 100)
  const ACCEPTED := Document(Some(Count("9")), Some(Metadata("n", Digits(2), OFFLINE_WRITER, Utc(20))))

  /** A node whose clock runs ahead of the controller's: its edit, stamped 100, is accepted at 20,
      overwritten at 30, and accepted again when redelivered at 40. */
  const AHEAD_OF_TIME: ConfigLog :=
    [Event(Keys.CountKey("n"), Put(Count5(1, 10)), Cas(0, SetCount("n", "5", "u")), 10),
     Event(Keys.CountKey("n"), Put(ACCEPTED), Cas(1, OfflineEdit(EDIT_TO_9)), 20),
     Event(Keys.CountKey("n"), Put(Count5(3, 30)), Cas(2, SetCount("n", "5", "u")), 30),
     Event(Keys.CountKey("n"), Put(ACCEPTED.(metadata := Some(Metadata("n", Digits(4), OFFLINE_WRITER, Utc(40))))),
       Cas(3, OfflineEdit(EDIT_TO_9)), 40)]

  lemma FutureEditCommitsTwice()
    ensures ValidLog(Mutate, AHEAD_OF_TIME) && StampsInOrder(AHEAD_OF_TIME, Keys.CountKey("n"))
    ensures IsEdit(AHEAD_OF_TIME[1], EDIT_TO_9) && IsEdit(AHEAD_OF_TIME[3], EDIT_TO_9)
  {
    var log, key := AHEAD_OF_TIME, Keys.CountKey("n");
    forall i | 0 <= i < |log| ensures ValidEvent(Mutate, log, i) {
      if i > 0 {
        LiveIsLatest(log, key, i, i - 1);
      }
    }
  }

  /** A slow set-count that read "missing" at 10 and commits after a delete at 60: the stamp order
      breaks, and an edit made at 50 writes over a key that already carried a write stamped 55. */
  const EDIT_AT_50 := EDIT_TO_9.(editedAt := 50)
  const OLD_STAMP_AGAIN: ConfigLog :=
    [Event(Keys.CountKey("n"), Put(Count5(1, 55)), Cas(0, SetCount("n", "5", "u")), 55),
     Event(Keys.CountKey("n"), Delete, Plain, 60),
     Event(Keys.CountKey("n"), Put(Count5(1, 10)), Cas(1, SetCount("n", "5", "u")), 10),
     Event(Keys.CountKey("n"), Put(ACCEPTED.(metadata := Some(Metadata("n", Digits(2), OFFLINE_WRITER, Utc(70))))),
       Cas(2, OfflineEdit(EDIT_AT_50)), 70)]

  lemma OldStampLetsEditsBackIn()
    ensures ValidLog(Mutate, OLD_STAMP_AGAIN) && !StampsInOrder(OLD_STAMP_AGAIN, Keys.CountKey("n"))
    ensures OLD_STAMP_AGAIN[0].now >= EDIT_AT_50.editedAt && IsEdit(OLD_STAMP_AGAIN[3], EDIT_AT_50)
  {
    var log, key := OLD_STAMP_AGAIN, Keys.CountKey("n");
    LiveIsLatest(log, key, 1, 0);
    LiveIsLatest(log, key, 3, 2);
    assert log[..2] == [log[0], log[1]];
    assert ValidEvent(Mutate, log, 0) && ValidEvent(Mutate, log, 1) && ValidEvent(Mutate, log, 2) && ValidEvent(Mutate, log, 3);
  }
}
