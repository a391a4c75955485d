/** The consumer's handlers as sequences of separately durable effects.  A handler that dies after any
    of them is run again from the start when its message is redelivered; with no other writer in
    between, the end is the same as if it had never died, but for what the attempts read off clocks and of compaction. */
module CrashRedelivery {
  import opened Basics
  import opened Etcd
  import opened Config
  import opened ConfigTables
  import opened VersionChain
  import Keys
  import Pppoe

  /** The uniqueness key of node_events. */
  datatype AuditKey = AuditKey(subscriber: Subscriber, eventType: string, eventTime: int, correlationId: string)
  datatype AuditRow = AuditRow(success: Option<bool>, details: seq<string>)

  datatype World = World(
    log: ConfigLog, audits: map<AuditKey, AuditRow>, current: Current, history: History, pppoe: Pppoe.Table)

  /** `correlation` is what the text of `audit.correlationId` reads as. */
  datatype Message =
    | PppoeChange(row: Pppoe.Row)
    | RuntimeError(audit: AuditKey, details: seq<string>)
    | ApplyOk(audit: AuditKey, details: seq<string>, republished: bool, attested: int)
    | ApplyFail(audit: AuditKey, details: seq<string>, applied: Version, correlation: Correlation)
    | OfflineEditEvent(subscriber: Subscriber, edit: Edit, eventTime: int)

  datatype Kind = HsiEdit | DnsEdit | CountEdit | UnknownEdit

  /** config_json after decoding, with the payload read from the field its kind uses. */
  datatype ConfigJson = Empty | Malformed | Envelope(payload: Option<Payload>, metadata: Option<Version>)

  datatype Edit = Edit(kind: Kind, typeMatches: bool, version: Version, editedAt: int, deleted: bool, json: ConfigJson)

  datatype Prepared = Prepared(key: Keys.Key, proposal: Proposal)

  const CONSUMER: nat := 0
  const OFFLINE_EDIT_TYPE := "CONFIG_OFFLINE_EDIT"
  const DISCARDED := "OFFLINE_EDIT_DISCARDED"

  // ----- validating an offline edit -----

  function TargetOf(kind: Kind, s: Subscriber): Option<Keys.Key> {
    match kind
    case HsiEdit => Some(Keys.HsiKey(s.0, s.1))
    case DnsEdit => Some(Keys.DnsKey(s.0, s.1))
    case CountEdit => Some(Keys.CountKey(s.0))
    case UnknownEdit => None
  }

  /** prepareOfflineEdit; `None` is a poison message. */
  function Prepare(s: Subscriber, e: Edit): Option<Prepared> {
    var target := TargetOf(e.kind, s);
    if !e.typeMatches || !Keys.ValidNodeID(s.0) || target.None? then None
    else if (if e.kind.CountEdit? then s.1 != "0" else !Keys.ValidUserID(s.1)) then None
    else if e.deleted then
      if !e.json.Empty? || !e.kind.HsiEdit? then None
      else Some(Prepared(target.value, Proposal(s.0, None, e.version, e.editedAt)))
    else if !e.json.Envelope? || e.json.payload.None? || e.json.metadata != Some(e.version) then None
    else Some(Prepared(target.value, Proposal(s.0, e.json.payload, e.version, e.editedAt)))
  }

  // ----- the durable effects -----

  /** INSERT … ON CONFLICT DO NOTHING. */
  function Audit(w: World, key: AuditKey, row: AuditRow): World {
    if key in w.audits then w else w.(audits := w.audits[key := row])
  }

  function Attempt(log: ConfigLog, key: Keys.Key, request: Request, now: int): Choice<Stored, Error> {
    var seen := Lookup(log, key);
    Mutate(request, ValueOf(seen), RevisionOf(seen), now)
  }

  /** A compare-and-swap nobody interferes with. */
  function Swap(w: World, key: Keys.Key, request: Request, now: int): World {
    match Attempt(w.log, key, request, now)
    case Abort(_) => w
    case Commit(op) => w.(log := w.log + [Event(key, op, Cas(CONSUMER, request), now)])
  }

  /** DeleteSubscriberDNS. */
  function DropDns(w: World, s: Subscriber, now: int): World {
    var key := Keys.DnsKey(s.0, s.1);
    if Lookup(w.log, key).None? then w else w.(log := w.log + [Event(key, Delete, Plain, now)])
  }

  function Confirm(w: World, s: Subscriber, attested: int, compacted: bool, eventTime: int): World {
    match ReadConfirmed(w.log, HsiKeyOf(s), attested, compacted)
    case None => w
    case Some(c) =>
      var row := ConfirmedRow(c, eventTime);
      w.(current := UpsertGuarded(w.current, s, row), history := Append(w.history, HistoryRow(s, row, Success)))
  }

  function RecordFailure(w: World, s: Subscriber): World {
    w.(history := Append(w.history, HistoryRow(s, FAILED_ROW, Failed)))
  }

  function RollbackOf(w: World, m: Message): Request
    requires m.ApplyFail?
  {
    var prev := LastSuccess(w.history, m.audit.subscriber);
    Rollback(if prev.Some? then prev.value.config else None, m.applied, m.correlation)
  }

  function DiscardKey(m: Message): AuditKey
    requires m.OfflineEditEvent?
  {
    AuditKey(m.subscriber, OFFLINE_EDIT_TYPE, m.eventTime, "")
  }

  /** After the arbitration answered `choice`: an accepted or already reflected tombstone cascades to
      the DNS key, a discard leaves an audit row. */
  function AfterArbitration(w: World, m: Message, tombstone: bool, choice: Choice<Stored, Error>, now: int): World
    requires m.OfflineEditEvent?
  {
    if choice.Commit? || choice.error.AlreadyReflected? then (if tombstone then DropDns(w, m.subscriber, now) else w)
    else Audit(w, DiscardKey(m), AuditRow(Some(false), [DISCARDED]))
  }

  /** What one attempt reads of the world around it: the clock inside the swap and at the plain delete
      that may follow, and whether etcd has compacted the attested revision away. */
  datatype Reading = Reading(swap: int, cascade: int, compacted: bool)

  /** The world when the handler of `m` has made its first `k` effects, or all of them. */
  function Prefix(w: World, m: Message, t: Reading, k: nat): World {
    match m
    case PppoeChange(row) => if k == 0 then w else w.(pppoe := Pppoe.Upsert(w.pppoe, row))
    case RuntimeError(audit, details) => if k == 0 then w else Audit(w, audit, AuditRow(None, details))
    case ApplyOk(audit, details, republished, attested) =>
      var audited := if k == 0 || republished then w else Audit(w, audit, AuditRow(Some(true), details));
      if k <= 1 then audited else Confirm(audited, audit.subscriber, attested, t.compacted, audit.eventTime)
    case ApplyFail(audit, details, _, _) =>
      var audited := if k == 0 then w else Audit(w, audit, AuditRow(Some(false), details));
      var swapped := if k <= 1 then audited else Swap(audited, HsiKeyOf(audit.subscriber), RollbackOf(audited, m), t.swap);
      if k <= 2 then swapped else RecordFailure(swapped, audit.subscriber)
    case OfflineEditEvent(_, _, _) => EditPrefix(w, m, t, k)
  }

  function EditPrefix(w: World, m: Message, t: Reading, k: nat): World
    requires m.OfflineEditEvent?
  {
    match Prepare(m.subscriber, m.edit)
    case None => w
    case Some(Prepared(key, p)) =>
      var swapped := if k == 0 then w else Swap(w, key, OfflineEdit(p), t.swap);
      if k <= 1 then swapped
      else AfterArbitration(swapped, m, p.payload.None?, Attempt(w.log, key, OfflineEdit(p), t.swap), t.cascade)
  }

  const ALL: nat := 3

  function Handle(w: World, m: Message, t: Reading): World {
    Prefix(w, m, t, ALL)
  }

  // ----- running again absorbs a crashed attempt -----

  lemma AppendedIsLast(log: ConfigLog, e: Event<Keys.Key, Stored, Request>)
    ensures Lookup(log + [e], e.key) == if e.op.Delete? then None else Some(Entry(e.op.value, |log| + FIRST_REVISION))
    ensures forall key | key != e.key :: Lookup(log + [e], key) == Lookup(log, key)
  {
    assert (log + [e])[..|log|] == log;
  }

  /** Once a rollback has landed it refuses to run again; once an offline edit has landed it finds
      itself already reflected. */
  lemma LandedOnce(w: World, key: Keys.Key, request: Request, now: int, later: int)
    requires request.Rollback? || request.OfflineEdit?
    requires Attempt(w.log, key, request, now).Commit?
    ensures Attempt(Swap(w, key, request, now).log, key, request, later) ==
      Abort(if request.Rollback? then Superseded else AlreadyReflected)
  {
    var op := Attempt(w.log, key, request, now).op;
    AppendedIsLast(w.log, Event(key, op, Cas(CONSUMER, request), now));
  }

  /** The two requests answer the same at every clock reading, but for the stamp. */
  lemma SameAnswerLater(w: World, key: Keys.Key, request: Request, now: int, later: int)
    requires request.Rollback? || request.OfflineEdit?
    ensures Attempt(w.log, key, request, now).Commit? <==> Attempt(w.log, key, request, later).Commit?
    ensures Attempt(w.log, key, request, now).Abort? ==> Attempt(w.log, key, request, now) == Attempt(w.log, key, request, later)
  {
  }

  lemma AppendTwice(history: History, r: HistoryRow)
    ensures Append(Append(history, r), r) == Append(history, r)
  {
    if !Has(history, r) {
      assert SameIdentity(Append(history, r)[|history|], r);
    }
  }

  lemma FailureIsNoSuccess(history: History, s: Subscriber, t: Subscriber)
    ensures LastSuccess(Append(history, HistoryRow(t, FAILED_ROW, Failed)), s) == LastSuccess(history, s)
  {
    var after := Append(history, HistoryRow(t, FAILED_ROW, Failed));
    if after != history {
      assert after[..|history|] == history;
    }
  }

  /** The confirmation of `m` finds something to record. */
  predicate Finds(w: World, m: Message, compacted: bool)
    requires m.ApplyOk?
  {
    ReadConfirmed(w.log, HsiKeyOf(m.audit.subscriber), m.attested, compacted).Some?
  }

  /** Which attempt's readings the final state shows: for each effect, those of the attempt that made
      it.  A confirmation that found nothing made none. */
  function Taken(w: World, m: Message, a: Reading, k: nat, b: Reading): Reading {
    Reading(
      if k >= (if m.ApplyFail? then 2 else 1) then a.swap else b.swap,
      if k >= 2 then a.cascade else b.cascade,
      if m.ApplyOk? && k >= 2 && Finds(w, m, a.compacted) then a.compacted else b.compacted)
  }

  /** Confirming again, perhaps after a compaction: the first reading that found something stands. */
  lemma ConfirmAgain(w: World, s: Subscriber, attested: int, before: bool, after: bool, eventTime: int)
    ensures Confirm(Confirm(w, s, attested, before, eventTime), s, attested, after, eventTime) ==
      Confirm(w, s, attested, if ReadConfirmed(w.log, HsiKeyOf(s), attested, before).Some? then before else after, eventTime)
  {
    var c, d := ReadConfirmed(w.log, HsiKeyOf(s), attested, before), ReadConfirmed(w.log, HsiKeyOf(s), attested, after);
    if c.Some? && d.Some? {
      SameRevisionRecordedOnce(w, s, c.value, d.value, eventTime);
    }
  }

  lemma SameRevisionRecordedOnce(w: World, s: Subscriber, c: Confirmed, d: Confirmed, eventTime: int)
    requires c.modRevision == d.modRevision
    ensures var row, again := ConfirmedRow(c, eventTime), ConfirmedRow(d, eventTime);
      var current, history := UpsertGuarded(w.current, s, row), Append(w.history, HistoryRow(s, row, Success));
      UpsertGuarded(current, s, again) == current && Append(history, HistoryRow(s, again, Success)) == history
  {
    var r := HistoryRow(s, ConfirmedRow(c, eventTime), Success);
    var again := HistoryRow(s, ConfirmedRow(d, eventTime), Success);
    var history := Append(w.history, r);
    if Has(w.history, r) {
      var i :| 0 <= i < |w.history| && SameIdentity(w.history[i], r);
      assert SameIdentity(history[i], again);
    } else {
      assert SameIdentity(history[|w.history|], again);
    }
  }

  lemma OkAbsorbs(w: World, m: Message, a: Reading, k: nat, b: Reading)
    requires m.ApplyOk?
    ensures Handle(Prefix(w, m, a, k), m, b) == Handle(w, m, Taken(w, m, a, k, b))
  {
    if k > 1 {
      ConfirmAgain(Prefix(w, m, a, 1), m.audit.subscriber, m.attested, a.compacted, b.compacted, m.audit.eventTime);
    }
  }

  /** Audited, and with the swap refused: running the handler from here only records the failure. */
  lemma FailureAgain(v: World, m: Message, b: Reading)
    requires m.ApplyFail? && m.audit in v.audits
    requires Attempt(v.log, HsiKeyOf(m.audit.subscriber), RollbackOf(v, m), b.swap).Abort?
    ensures Handle(v, m, b) == RecordFailure(v, m.audit.subscriber)
  {
  }

  /** Whether or not the swap landed, it is refused the next time. */
  lemma SwapSettles(w: World, key: Keys.Key, request: Request, now: int, later: int)
    requires request.Rollback?
    ensures Attempt(Swap(w, key, request, now).log, key, request, later).Abort?
  {
    SameAnswerLater(w, key, request, now, later);
    if Attempt(w.log, key, request, now).Commit? {
      LandedOnce(w, key, request, now, later);
    }
  }

  lemma FailAbsorbs(w: World, m: Message, a: Reading, k: nat, b: Reading)
    requires m.ApplyFail?
    ensures Handle(Prefix(w, m, a, k), m, b) == Handle(w, m, Taken(w, m, a, k, b))
  {
    if k > 1 {
      var s, audited := m.audit.subscriber, Prefix(w, m, a, 1);
      var request := RollbackOf(audited, m);
      var swapped := Swap(audited, HsiKeyOf(s), request, a.swap);
      SwapSettles(audited, HsiKeyOf(s), request, a.swap, b.swap);
      assert Handle(w, m, Taken(w, m, a, k, b)) == RecordFailure(swapped, s);
      AppendTwice(swapped.history, HistoryRow(s, FAILED_ROW, Failed));
      FailureIsNoSuccess(swapped.history, s, s);
      FailureAgain(Prefix(w, m, a, k), m, b);
    }
  }

  /** A content edit that was accepted: the replay finds itself reflected and changes nothing. */
  lemma AcceptedEditAbsorbs(w: World, m: Message, key: Keys.Key, p: Proposal, a: Reading, k: nat, b: Reading)
    requires m.OfflineEditEvent? && Prepare(m.subscriber, m.edit) == Some(Prepared(key, p)) && p.payload.Some?
    requires k > 0 && Attempt(w.log, key, OfflineEdit(p), a.swap).Commit?
    ensures Prefix(w, m, a, k) == Swap(w, key, OfflineEdit(p), a.swap)
    ensures Handle(Prefix(w, m, a, k), m, b) == Swap(w, key, OfflineEdit(p), a.swap)
  {
    LandedOnce(w, key, OfflineEdit(p), a.swap, b.swap);
  }

  /** An edit that was not accepted, nor a tombstone already reflected: the replay gets the same answer,
      and repeats at most an audit row. */
  lemma RefusedEditAbsorbs(w: World, m: Message, key: Keys.Key, p: Proposal, a: Reading, k: nat, b: Reading)
    requires m.OfflineEditEvent? && Prepare(m.subscriber, m.edit) == Some(Prepared(key, p))
    requires var choice := Attempt(w.log, key, OfflineEdit(p), a.swap);
      && choice.Abort? && (p.payload.None? ==> !choice.error.AlreadyReflected?)
      && choice == Attempt(w.log, key, OfflineEdit(p), b.swap)
    ensures Handle(Prefix(w, m, a, k), m, b) == Handle(w, m, a) == Handle(w, m, b)
  {
    var refused := AfterArbitration(w, m, p.payload.None?, Attempt(w.log, key, OfflineEdit(p), a.swap), a.cascade);
    assert refused.log == w.log;
    assert Handle(w, m, a) == refused && Handle(w, m, b) == refused;
    assert Prefix(w, m, a, k) == if k <= 1 then w else refused;
  }

  /** A content edit: nothing follows the swap but, if it lost, an audit row. */
  lemma ContentEditAbsorbs(w: World, m: Message, a: Reading, k: nat, b: Reading)
    requires m.OfflineEditEvent? && Prepare(m.subscriber, m.edit).Some? && !m.edit.deleted
    ensures Handle(Prefix(w, m, a, k), m, b) == Handle(w, m, Taken(w, m, a, k, b))
  {
    var Prepared(key, p) := Prepare(m.subscriber, m.edit).value;
    var t := Taken(w, m, a, k, b);
    if k > 0 {
      SameAnswerLater(w, key, OfflineEdit(p), a.swap, b.swap);
      if Attempt(w.log, key, OfflineEdit(p), a.swap).Commit? {
        AcceptedEditAbsorbs(w, m, key, p, a, k, b);
        AcceptedEditAbsorbs(w, m, key, p, t, ALL, t);
      } else {
        RefusedEditAbsorbs(w, m, key, p, a, k, b);
        RefusedEditAbsorbs(w, m, key, p, a, k, t);
      }
    }
  }

  lemma DropDnsTwice(w: World, s: Subscriber, now: int, later: int)
    ensures DropDns(DropDns(w, s, now), s, later) == DropDns(w, s, now)
    ensures Lookup(DropDns(w, s, now).log, HsiKeyOf(s)) == Lookup(w.log, HsiKeyOf(s))
  {
    AppendedIsLast(w.log, Event(Keys.DnsKey(s.0, s.1), Delete, Plain, now));
  }

  /** The swap of a tombstone has been made, or refused, in `w`: running the handler from here only
      repairs the DNS cascade, if that is missing. */
  lemma TombstoneAgain(w: World, m: Message, key: Keys.Key, p: Proposal, t: Reading)
    requires m.OfflineEditEvent? && Prepare(m.subscriber, m.edit) == Some(Prepared(key, p)) && m.edit.deleted
    requires Attempt(w.log, key, OfflineEdit(p), t.swap) == Abort(AlreadyReflected)
    ensures Handle(w, m, t) == DropDns(w, m.subscriber, t.cascade)
  {
  }

  /** An accepted tombstone, or one whose key is gone already: the swap, and then the cascade. */
  lemma GonePrefix(w: World, m: Message, key: Keys.Key, p: Proposal, a: Reading, k: nat)
    requires m.OfflineEditEvent? && Prepare(m.subscriber, m.edit) == Some(Prepared(key, p)) && p.payload.None?
    requires k > 0
    requires var choice := Attempt(w.log, key, OfflineEdit(p), a.swap); choice.Commit? || choice.error.AlreadyReflected?
    ensures var swapped := Swap(w, key, OfflineEdit(p), a.swap);
      Prefix(w, m, a, k) == (if k == 1 then swapped else DropDns(swapped, m.subscriber, a.cascade))
  {
  }

  /** The key of the tombstone is gone after the swap, and the cascade does not bring it back. */
  lemma GoneStaysGone(w: World, s: Subscriber, p: Proposal, a: Reading, b: Reading)
    requires p.payload.None?
    requires var choice := Attempt(w.log, HsiKeyOf(s), OfflineEdit(p), a.swap); choice.Commit? || choice.error.AlreadyReflected?
    ensures var swapped := Swap(w, HsiKeyOf(s), OfflineEdit(p), a.swap);
      && Attempt(swapped.log, HsiKeyOf(s), OfflineEdit(p), b.swap) == Abort(AlreadyReflected)
      && Attempt(DropDns(swapped, s, a.cascade).log, HsiKeyOf(s), OfflineEdit(p), b.swap) == Abort(AlreadyReflected)
  {
    if Attempt(w.log, HsiKeyOf(s), OfflineEdit(p), a.swap).Commit? {
      LandedOnce(w, HsiKeyOf(s), OfflineEdit(p), a.swap, b.swap);
    } else {
      SameAnswerLater(w, HsiKeyOf(s), OfflineEdit(p), a.swap, b.swap);
    }
    DropDnsTwice(Swap(w, HsiKeyOf(s), OfflineEdit(p), a.swap), s, a.cascade, b.cascade);
  }

  lemma GoneAbsorbs(w: World, m: Message, key: Keys.Key, p: Proposal, a: Reading, k: nat, b: Reading)
    requires m.OfflineEditEvent? && Prepare(m.subscriber, m.edit) == Some(Prepared(key, p)) && p.payload.None?
    requires k > 0 && key == HsiKeyOf(m.subscriber)
    requires var choice := Attempt(w.log, key, OfflineEdit(p), a.swap); choice.Commit? || choice.error.AlreadyReflected?
    ensures Handle(Prefix(w, m, a, k), m, b) ==
      DropDns(Swap(w, key, OfflineEdit(p), a.swap), m.subscriber, if k == 1 then b.cascade else a.cascade)
  {
    GonePrefix(w, m, key, p, a, k);
    GoneStaysGone(w, m.subscriber, p, a, b);
    DropDnsTwice(Swap(w, key, OfflineEdit(p), a.swap), m.subscriber, a.cascade, b.cascade);
    TombstoneAgain(Prefix(w, m, a, k), m, key, p, b);
  }

  lemma TombstoneAbsorbs(w: World, m: Message, a: Reading, k: nat, b: Reading)
    requires m.OfflineEditEvent? && Prepare(m.subscriber, m.edit).Some? && m.edit.deleted
    ensures Handle(Prefix(w, m, a, k), m, b) == Handle(w, m, Taken(w, m, a, k, b))
  {
    if k > 0 {
      var Prepared(key, p) := Prepare(m.subscriber, m.edit).value;
      var t, choice := Taken(w, m, a, k, b), Attempt(w.log, key, OfflineEdit(p), a.swap);
      SameAnswerLater(w, key, OfflineEdit(p), a.swap, b.swap);
      if choice.Commit? || choice.error.AlreadyReflected? {
        GoneAbsorbs(w, m, key, p, a, k, b);
        GonePrefix(w, m, key, p, t, ALL);
      } else {
        RefusedEditAbsorbs(w, m, key, p, a, k, b);
        RefusedEditAbsorbs(w, m, key, p, a, k, t);
      }
    }
  }

  lemma SingleEffectAbsorbs(w: World, m: Message, a: Reading, k: nat, b: Reading)
    requires m.PppoeChange? || m.RuntimeError?
    ensures Handle(Prefix(w, m, a, k), m, b) == Handle(w, m, Taken(w, m, a, k, b))
  {
  }

  /** Handling a message again after a crash ends where the crashed attempt would have ended. */
  lemma Absorbs(w: World, m: Message, a: Reading, k: nat, b: Reading)
    ensures Handle(Prefix(w, m, a, k), m, b) == Handle(w, m, Taken(w, m, a, k, b))
  {
    match m
    case PppoeChange(_) => SingleEffectAbsorbs(w, m, a, k, b);
    case RuntimeError(_, _) => SingleEffectAbsorbs(w, m, a, k, b);
    case ApplyOk(_, _, _, _) => OkAbsorbs(w, m, a, k, b);
    case ApplyFail(_, _, _, _) => FailAbsorbs(w, m, a, k, b);
    case OfflineEditEvent(s, e, _) =>
      if Prepare(s, e).Some? {
        if e.deleted { TombstoneAbsorbs(w, m, a, k, b); } else { ContentEditAbsorbs(w, m, a, k, b); }
      }
  }

  /** Attempts that each died after some number of effects, then one that ran to the end. */
  datatype Crash = Crash(reading: Reading, effects: nat)

  function Redelivered(w: World, m: Message, crashes: seq<Crash>, last: Reading): World
    decreases |crashes|
  {
    if crashes == [] then Handle(w, m, last)
    else Redelivered(Prefix(w, m, crashes[0].reading, crashes[0].effects), m, crashes[1..], last)
  }

  function FinalReading(w: World, m: Message, crashes: seq<Crash>, last: Reading): Reading
    decreases |crashes|
  {
    if crashes == [] then last
    else
      var first := crashes[0];
      Taken(w, m, first.reading, first.effects,
        FinalReading(Prefix(w, m, first.reading, first.effects), m, crashes[1..], last))
  }

  /** However often the handler is killed and wherever, and whether or not etcd is compacted in between,
      etcd and the tables end as after a single uninterrupted run with readings of some of the attempts. */
  lemma {:induction false} RedeliveryConverges(w: World, m: Message, crashes: seq<Crash>, last: Reading)
    ensures Redelivered(w, m, crashes, last) == Handle(w, m, FinalReading(w, m, crashes, last))
    decreases |crashes|
  {
    if crashes != [] {
      var first := crashes[0];
      var next := Prefix(w, m, first.reading, first.effects);
      RedeliveryConverges(next, m, crashes[1..], last);
      Absorbs(w, m, first.reading, first.effects, FinalReading(next, m, crashes[1..], last));
    }
  }

  /** The final readings are not invented: each is a reading of one of the attempts. */
  lemma {:induction false} FinalReadingWasRead(w: World, m: Message, crashes: seq<Crash>, last: Reading)
    ensures var t := FinalReading(w, m, crashes, last);
      && (t.swap == last.swap || exists i | 0 <= i < |crashes| :: crashes[i].reading.swap == t.swap)
      && (t.cascade == last.cascade || exists i | 0 <= i < |crashes| :: crashes[i].reading.cascade == t.cascade)
      && (t.compacted == last.compacted || exists i | 0 <= i < |crashes| :: crashes[i].reading.compacted == t.compacted)
    decreases |crashes|
  {
    if crashes != [] {
      var first := crashes[0];
      FinalReadingWasRead(Prefix(w, m, first.reading, first.effects), m, crashes[1..], last);
      assert forall i | 0 <= i < |crashes| - 1 :: crashes[1..][i] == crashes[i + 1];
    }
  }

  // ----- what a message may touch -----

  /** `after` extends `before` by events on keys of `s` only, at most `n` of them. */
  ghost predicate ExtendsAtHome(before: ConfigLog, after: ConfigLog, s: Subscriber, n: nat) {
    && |before| <= |after| <= |before| + n && after[..|before|] == before
    && forall i | |before| <= i < |after| ::
      after[i].key in {Keys.HsiKey(s.0, s.1), Keys.DnsKey(s.0, s.1), Keys.CountKey(s.0)}
  }

  lemma SwapStaysAtHome(w: World, s: Subscriber, key: Keys.Key, request: Request, now: int)
    requires key in {Keys.HsiKey(s.0, s.1), Keys.DnsKey(s.0, s.1), Keys.CountKey(s.0)}
    ensures ExtendsAtHome(w.log, Swap(w, key, request, now).log, s, 1)
  {
  }

  lemma CascadeStaysAtHome(w: World, between: World, m: Message, choice: Choice<Stored, Error>, tombstone: bool, now: int)
    requires m.OfflineEditEvent? && ExtendsAtHome(w.log, between.log, m.subscriber, 1)
    ensures ExtendsAtHome(w.log, AfterArbitration(between, m, tombstone, choice, now).log, m.subscriber, if tombstone then 2 else 1)
  {
  }

  lemma FailureStaysAtHome(w: World, m: Message, t: Reading)
    requires m.ApplyFail?
    ensures ExtendsAtHome(w.log, Handle(w, m, t).log, m.audit.subscriber, 1)
  {
    var audited := Prefix(w, m, t, 1);
    SwapStaysAtHome(audited, m.audit.subscriber, HsiKeyOf(m.audit.subscriber), RollbackOf(audited, m), t.swap);
  }

  lemma EditStaysAtHome(w: World, m: Message, t: Reading)
    requires m.OfflineEditEvent? && Prepare(m.subscriber, m.edit).Some?
    ensures ExtendsAtHome(w.log, Handle(w, m, t).log, m.subscriber, if m.edit.deleted then 2 else 1)
  {
    var Prepared(key, p) := Prepare(m.subscriber, m.edit).value;
    SwapStaysAtHome(w, m.subscriber, key, OfflineEdit(p), t.swap);
    CascadeStaysAtHome(w, Swap(w, key, OfflineEdit(p), t.swap), m, Attempt(w.log, key, OfflineEdit(p), t.swap),
      p.payload.None?, t.cascade);
  }

  /** A message writes to etcd at most once per key, and only to its own subscriber's keys; a poison
      edit, an error report, a confirmation and a link state change write nothing there. */
  lemma StaysAtHome(w: World, m: Message, t: Reading)
    ensures m.ApplyFail? ==> ExtendsAtHome(w.log, Handle(w, m, t).log, m.audit.subscriber, 1)
    ensures m.OfflineEditEvent? ==> ExtendsAtHome(w.log, Handle(w, m, t).log, m.subscriber, if m.edit.deleted then 2 else 1)
    ensures m.OfflineEditEvent? && Prepare(m.subscriber, m.edit).None? ==> Handle(w, m, t) == w
    ensures m.PppoeChange? || m.RuntimeError? || m.ApplyOk? ==> Handle(w, m, t).log == w.log
  {
    if m.ApplyFail? {
      FailureStaysAtHome(w, m, t);
    } else if m.OfflineEditEvent? && Prepare(m.subscriber, m.edit).Some? {
      EditStaysAtHome(w, m, t);
    }
  }

  // ----- offline edits, family by family -----

  /** A message fit for arbitration: a tombstone is an HSI one without content, anything else carries
      its payload and repeats its version in the metadata. */
  predicate WellFormed(s: Subscriber, e: Edit) {
    && e.typeMatches && Keys.ValidNodeID(s.0) && !e.kind.UnknownEdit?
    && (if e.kind.CountEdit? then s.1 == "0" else Keys.ValidUserID(s.1))
    && (if e.deleted then e.kind.HsiEdit? && e.json.Empty?
        else e.json.Envelope? && e.json.payload.Some? && e.json.metadata == Some(e.version))
  }

  /** Exactly the well-formed edits are put to arbitration, each under the key of its own kind, node and
      subscriber; the others are poison. */
  lemma PreparedExactlyWhen(s: Subscriber, e: Edit)
    ensures Prepare(s, e).Some? <==> WellFormed(s, e)
    ensures WellFormed(s, e) ==>
      var p := Prepare(s, e).value;
      && Keys.Print(p.key) ==
           (if e.kind.HsiEdit? then "configs" + "/" + s.0 + "/" + "hsi" + "/" + s.1
            else if e.kind.DnsEdit? then "configs" + "/" + s.0 + "/" + "dns" + "/" + s.1
            else "user_counts" + "/" + s.0 + "/" + "")
      && p.proposal == Proposal(s.0, if e.deleted then None else e.json.payload, e.version, e.editedAt)
  {
    Keys.PrintedKeys(s.0, s.1);
  }

  /** The keys an edit may touch: its own family's, and for a tombstone the DNS key it cascades to. */
  predicate MayTouch(s: Subscriber, e: Edit, key: Keys.Key) {
    || (e.kind.HsiEdit? && key == Keys.HsiKey(s.0, s.1))
    || (e.kind.DnsEdit? && key == Keys.DnsKey(s.0, s.1))
    || (e.kind.CountEdit? && key == Keys.CountKey(s.0))
    || (e.deleted && key == Keys.DnsKey(s.0, s.1))
  }

  lemma SwapTouchesOneKey(w: World, key: Keys.Key, request: Request, now: int, other: Keys.Key)
    requires other != key
    ensures Lookup(Swap(w, key, request, now).log, other) == Lookup(w.log, other)
  {
    var choice := Attempt(w.log, key, request, now);
    if choice.Commit? {
      AppendedIsLast(w.log, Event(key, choice.op, Cas(CONSUMER, request), now));
    }
  }

  lemma CascadeTouchesOneKey(w: World, s: Subscriber, now: int, other: Keys.Key)
    requires other != Keys.DnsKey(s.0, s.1)
    ensures Lookup(DropDns(w, s, now).log, other) == Lookup(w.log, other)
  {
    AppendedIsLast(w.log, Event(Keys.DnsKey(s.0, s.1), Delete, Plain, now));
  }

  /** A DNS edit leaves the HSI config and the count as they were, a content edit of the HSI config the
      DNS records and the count, a count edit everything under configs/. */
  lemma EditStaysInItsFamily(w: World, m: Message, t: Reading, key: Keys.Key)
    requires m.OfflineEditEvent? && !MayTouch(m.subscriber, m.edit, key)
    ensures Lookup(Handle(w, m, t).log, key) == Lookup(w.log, key)
  {
    if Prepare(m.subscriber, m.edit).Some? {
      var Prepared(own, p) := Prepare(m.subscriber, m.edit).value;
      SwapTouchesOneKey(w, own, OfflineEdit(p), t.swap, key);
      if m.edit.deleted {
        CascadeTouchesOneKey(Swap(w, own, OfflineEdit(p), t.swap), m.subscriber, t.cascade, key);
      }
    }
  }

  /** The key that the edit is about. */
  function OwnKey(s: Subscriber, e: Edit): Keys.Key {
    if e.kind.DnsEdit? then Keys.DnsKey(s.0, s.1) else if e.kind.CountEdit? then Keys.CountKey(s.0) else Keys.HsiKey(s.0, s.1)
  }

  /** A well-formed edit is its swap at its own key and what the arbitration's answer calls for. */
  lemma HandleIsArbitration(w: World, m: Message, t: Reading)
    requires m.OfflineEditEvent? && WellFormed(m.subscriber, m.edit)
    ensures var own, p := OwnKey(m.subscriber, m.edit), Prepare(m.subscriber, m.edit).value.proposal;
      && p.payload == (if m.edit.deleted then None else m.edit.json.payload)
      && Handle(w, m, t) == AfterArbitration(Swap(w, own, OfflineEdit(p), t.swap), m, m.edit.deleted,
           Attempt(w.log, own, OfflineEdit(p), t.swap), t.cascade)
  {
  }

  /** An accepted content edit is then read at its own key. */
  lemma CommittedEditIsReadBack(w: World, m: Message, t: Reading)
    requires m.OfflineEditEvent? && WellFormed(m.subscriber, m.edit) && !m.edit.deleted
    requires |Handle(w, m, t).log| > |w.log|
    ensures var live := Lookup(Handle(w, m, t).log, OwnKey(m.subscriber, m.edit));
      live.Some? && live.value.value.Document? && live.value.value.payload == m.edit.json.payload
  {
    var own, p := OwnKey(m.subscriber, m.edit), Prepare(m.subscriber, m.edit).value.proposal;
    var choice := Attempt(w.log, own, OfflineEdit(p), t.swap);
    HandleIsArbitration(w, m, t);
    assert choice.Commit?;
    AppendedIsLast(w.log, Event(own, choice.op, Cas(CONSUMER, OfflineEdit(p)), t.swap));
  }

  /** A tombstone that commits, or finds the config gone, leaves neither config nor DNS records. */
  lemma TombstoneLeavesNothing(w: World, m: Message, t: Reading)
    requires m.OfflineEditEvent? && WellFormed(m.subscriber, m.edit) && m.edit.deleted
    requires var s := m.subscriber;
      Lookup(w.log, Keys.HsiKey(s.0, s.1)).None? || Lookup(Handle(w, m, t).log, Keys.HsiKey(s.0, s.1)).None?
    ensures var s, after := m.subscriber, Handle(w, m, t).log;
      Lookup(after, Keys.HsiKey(s.0, s.1)).None? && Lookup(after, Keys.DnsKey(s.0, s.1)).None?
  {
    var s, p := m.subscriber, Prepare(m.subscriber, m.edit).value.proposal;
    var choice := Attempt(w.log, Keys.HsiKey(s.0, s.1), OfflineEdit(p), t.swap);
    if choice.Commit? || choice.error.AlreadyReflected? {
      var swapped := Swap(w, Keys.HsiKey(s.0, s.1), OfflineEdit(p), t.swap);
      assert Handle(w, m, t) == DropDns(swapped, s, t.cascade);
      if choice.Commit? {
        AppendedIsLast(w.log, Event(Keys.HsiKey(s.0, s.1), choice.op, Cas(CONSUMER, OfflineEdit(p)), t.swap));
      }
      DropDnsTwice(swapped, s, t.cascade, t.cascade);
      AppendedIsLast(swapped.log, Event(Keys.DnsKey(s.0, s.1), Delete, Plain, t.cascade));
    }
  }

  // ----- the audit trail -----

  function Recorded(audits: map<AuditKey, AuditRow>, key: AuditKey, row: AuditRow): map<AuditKey, AuditRow> {
    if key in audits then audits else audits[key := row]
  }

  /** Each report leaves one row of its own outcome, the first time it is handled; a restated success and
      a link state change leave none. */
  lemma ReportsAreAudited(w: World, m: Message, t: Reading)
    requires !m.OfflineEditEvent?
    ensures Handle(w, m, t).audits ==
      match m
      case PppoeChange(_) => w.audits
      case RuntimeError(key, details) => Recorded(w.audits, key, AuditRow(None, details))
      case ApplyOk(key, details, republished, _) => if republished then w.audits else Recorded(w.audits, key, AuditRow(Some(true), details))
      case ApplyFail(key, details, _, _) => Recorded(w.audits, key, AuditRow(Some(false), details))
  {
  }

  /** An edit that neither commits nor finds itself reflected leaves etcd alone and its discard row in
      node_events; one that does leaves no row. */
  lemma DiscardsAreAudited(w: World, m: Message, t: Reading)
    requires m.OfflineEditEvent? && WellFormed(m.subscriber, m.edit)
    ensures var p := Prepare(m.subscriber, m.edit).value.proposal;
      var choice := MutateOfflineEdit(p, ValueOf(Lookup(w.log, OwnKey(m.subscriber, m.edit))), t.swap);
      var key := AuditKey(m.subscriber, "CONFIG_OFFLINE_EDIT", m.eventTime, "");
      if choice.Abort? && choice.error != AlreadyReflected then
        Handle(w, m, t).log == w.log && Handle(w, m, t).audits == Recorded(w.audits, key, AuditRow(Some(false), ["OFFLINE_EDIT_DISCARDED"]))
      else Handle(w, m, t).audits == w.audits
  {
    var own, p := OwnKey(m.subscriber, m.edit), Prepare(m.subscriber, m.edit).value.proposal;
    var choice := Attempt(w.log, own, OfflineEdit(p), t.swap);
    var swapped := Swap(w, own, OfflineEdit(p), t.swap);
    HandleIsArbitration(w, m, t);
    assert swapped.audits == w.audits && (choice.Abort? ==> swapped == w);
  }

  /** In particular a content edit of a key that is gone is not lost without a trace. */
  lemma EditOfMissingKeyIsAudited(w: World, m: Message, t: Reading)
    requires m.OfflineEditEvent? && WellFormed(m.subscriber, m.edit) && !m.edit.deleted
    requires Lookup(w.log, OwnKey(m.subscriber, m.edit)).None?
    ensures Handle(w, m, t).log == w.log
    ensures AuditKey(m.subscriber, "CONFIG_OFFLINE_EDIT", m.eventTime, "") in Handle(w, m, t).audits
  {
    DiscardsAreAudited(w, m, t);
  }

  // ----- the order of the effects -----

  /** Wherever the handler of a report dies, nothing it did is without its audit row. */
  lemma EffectsAreAudited(w: World, m: Message, t: Reading, k: nat)
    requires m.ApplyFail? || (m.ApplyOk? && !m.republished)
    ensures var v := Prefix(w, m, t, k);
      v.log != w.log || v.current != w.current || v.history != w.history ==> m.audit in v.audits
  {
    if m.ApplyFail? {
      FailureKeepsItsAuditRow(w, m, t, k);
    } else {
      SuccessKeepsItsAuditRow(w, m, t, k);
    }
  }

  lemma FailureKeepsItsAuditRow(w: World, m: Message, t: Reading, k: nat)
    requires m.ApplyFail?
    ensures if k == 0 then Prefix(w, m, t, k) == w else m.audit in Prefix(w, m, t, k).audits
  {
    var audited := Audit(w, m.audit, AuditRow(Some(false), m.details));
    assert m.audit in audited.audits;
    assert Swap(audited, HsiKeyOf(m.audit.subscriber), RollbackOf(audited, m), t.swap).audits == audited.audits;
  }

  lemma SuccessKeepsItsAuditRow(w: World, m: Message, t: Reading, k: nat)
    requires m.ApplyOk? && !m.republished
    ensures if k == 0 then Prefix(w, m, t, k) == w else m.audit in Prefix(w, m, t, k).audits
  {
    var audited := Audit(w, m.audit, AuditRow(Some(true), m.details));
    assert m.audit in audited.audits;
    assert Confirm(audited, m.audit.subscriber, m.attested, t.compacted, m.audit.eventTime).audits == audited.audits;
  }

  /** A failure is recorded only when its rollback has landed or been refused for good. */
  lemma FailureRowComesLast(w: World, m: Message, t: Reading, k: nat, later: int)
    requires m.ApplyFail? && Prefix(w, m, t, k).history != w.history
    ensures Attempt(Prefix(w, m, t, k).log, HsiKeyOf(m.audit.subscriber), RollbackOf(w, m), later).Abort?
  {
    SwapSettles(Prefix(w, m, t, 1), HsiKeyOf(m.audit.subscriber), RollbackOf(w, m), t.swap, later);
  }

  /** A tombstone that is accepted or finds itself reflected has left no config. */
  lemma SettledTombstoneIsGone(w: World, key: Keys.Key, p: Proposal, now: int)
    requires p.payload.None?
    requires var choice := Attempt(w.log, key, OfflineEdit(p), now); choice.Commit? || choice.error.AlreadyReflected?
    ensures Lookup(Swap(w, key, OfflineEdit(p), now).log, key).None?
  {
    var choice := Attempt(w.log, key, OfflineEdit(p), now);
    if choice.Commit? {
      AppendedIsLast(w.log, Event(key, choice.op, Cas(CONSUMER, OfflineEdit(p)), now));
    }
  }

  /** A tombstone touches the DNS records only once the config is gone. */
  lemma CascadeComesLast(w: World, m: Message, t: Reading, k: nat)
    requires m.OfflineEditEvent? && WellFormed(m.subscriber, m.edit) && m.edit.deleted
    requires var dns := Keys.DnsKey(m.subscriber.0, m.subscriber.1); Lookup(Prefix(w, m, t, k).log, dns) != Lookup(w.log, dns)
    ensures Lookup(Prefix(w, m, t, k).log, Keys.HsiKey(m.subscriber.0, m.subscriber.1)).None?
  {
    var s, p := m.subscriber, Prepare(m.subscriber, m.edit).value.proposal;
    var hsi := Keys.HsiKey(s.0, s.1);
    SwapTouchesOneKey(w, hsi, OfflineEdit(p), t.swap, Keys.DnsKey(s.0, s.1));
    var swapped := Swap(w, hsi, OfflineEdit(p), t.swap);
    var choice := Attempt(w.log, hsi, OfflineEdit(p), t.swap);
    assert Prefix(w, m, t, k).log != swapped.log;
    assert choice.Commit? || choice.error.AlreadyReflected?;
    assert Prefix(w, m, t, k) == DropDns(swapped, s, t.cascade);
    SettledTombstoneIsGone(w, hsi, p, t.swap);
    CascadeTouchesOneKey(swapped, s, t.cascade, hsi);
  }

  // ----- what a rollback restores -----

  /** A failure report that makes its swap carries the report's own markers; it deletes the key if the
      history has no success of the subscriber, and else puts back the payload of the success of
      greatest id. */
  lemma RestoresTheLastSuccess(w: World, m: Message, t: Reading)
    requires m.ApplyFail? && |Handle(w, m, t).log| > |w.log|
    ensures var success, e := LastSuccess(w.history, m.audit.subscriber), Handle(w, m, t).log[|w.log|];
      && Handle(w, m, t).log == w.log + [e]
      && e.key == Keys.HsiKey(m.audit.subscriber.0, m.audit.subscriber.1)
      && e.writer == Cas(CONSUMER, Rollback(if success.Some? then success.value.config else None, m.applied, m.correlation))
      && (success.None? ==> e.op.Delete?)
      && (success.Some? ==>
        && success.value.config.Some? && success.value.config.value.Document?
        && e.op.Put? && e.op.value.Document?
        && e.op.value.payload == success.value.config.value.payload)
  {
    LastSuccessHasConfig(w.history, m.audit.subscriber);
  }

  lemma {:induction false} LastSuccessHasConfig(history: History, s: Subscriber)
    ensures LastSuccess(history, s).Some? ==> LastSuccess(history, s).value.config.Some?
  {
    if history != [] {
      LastSuccessHasConfig(history[..|history| - 1], s);
    }
  }

  /** Handling a report with both markers changes etcd only while the value written at the reported
      ModRevision is still the live one. */
  lemma FailureHitsTheReportedVersion(w: World, m: Message, t: Reading, revision: int)
    requires m.ApplyFail? && !m.applied.Missing? && m.correlation == ModRevision(revision)
    requires |Handle(w, m, t).log| > |w.log|
    ensures var live := Lookup(w.log, Keys.HsiKey(m.audit.subscriber.0, m.audit.subscriber.1));
      live.Some? && live.value.modRevision == revision && ParseUint(m.applied) == UintVersion(live.value.value)
  {
  }

  lemma SwapKeepsTables(w: World, key: Keys.Key, request: Request, now: int)
    ensures Swap(w, key, request, now).history == w.history && Swap(w, key, request, now).current == w.current
  {
  }

  lemma FailureIsKept(history: History, s: Subscriber)
    ensures Failures(Append(history, HistoryRow(s, FAILED_ROW, Failed)), s) > 0
  {
    NoFailureExactlyWhen(history, s);
    FailuresAppend(history, HistoryRow(s, FAILED_ROW, Failed), s);
  }

  /** And a failed row of revision 0 is there afterwards, whatever the swap did. */
  lemma FailureIsRecorded(w: World, m: Message, t: Reading)
    requires m.ApplyFail?
    ensures Failures(Handle(w, m, t).history, m.audit.subscriber) > 0
    ensures Handle(w, m, t).current == w.current
  {
    var audited := Audit(w, m.audit, AuditRow(Some(false), m.details));
    var swapped := Swap(audited, HsiKeyOf(m.audit.subscriber), RollbackOf(audited, m), t.swap);
    SwapKeepsTables(audited, HsiKeyOf(m.audit.subscriber), RollbackOf(audited, m), t.swap);
    assert Handle(w, m, t) == RecordFailure(swapped, m.audit.subscriber);
    FailureIsKept(w.history, m.audit.subscriber);
  }

  // ----- what a confirmation records -----

  /** The revision a success report confirms, if etcd can tell: the attested one, unless nothing was there
      at it; the live one when the node attests none. */
  function ConfirmedRevision(log: ConfigLog, key: Keys.Key, attested: int, compacted: bool): Option<int> {
    var live := Lookup(log, key);
    if attested <= 0 then (if live.Some? then Some(live.value.modRevision) else None)
    else if attested > Revision(log) then None
    else if compacted then (if live.Some? then Some(attested) else None)
    else if HeldAt(log, key, attested).Some? then Some(attested)
    else None
  }

  lemma ReadsTheConfirmedRevision(log: ConfigLog, key: Keys.Key, attested: int, compacted: bool)
    ensures var c, revision := ReadConfirmed(log, key, attested, compacted), ConfirmedRevision(log, key, attested, compacted);
      if c.None? then revision.None? else revision == Some(c.value.modRevision)
  {
  }

  /** Row `row` of `s` is recorded: a success of its revision in the history, and a current row not
      behind it, which is this one if it is news. */
  ghost predicate IsRecorded(w: World, after: World, s: Subscriber, revision: int, eventTime: int) {
    && s in after.current && after.current[s].modRevision >= revision
    && (s !in w.current || w.current[s].modRevision < revision ==>
          && after.current[s].modRevision == revision && after.current[s].updatedBy == "node"
          && after.current[s].updatedAt == Utc(eventTime) && after.current[s].action.Upserted?
          && after.current[s].desire == "" && after.current[s].version.Missing?)
    && exists i | 0 <= i < |after.history| ::
         IsSuccessOf(after.history[i], s) && after.history[i].row.modRevision == revision
  }

  lemma AppendedIsThere(history: History, r: HistoryRow)
    requires r.status.Success?
    ensures exists i | 0 <= i < |Append(history, r)| ::
      IsSuccessOf(Append(history, r)[i], r.subscriber) && Append(history, r)[i].row.modRevision == r.row.modRevision
  {
    var after := Append(history, r);
    if Has(history, r) {
      var i :| 0 <= i < |history| && SameIdentity(history[i], r);
      assert IsSuccessOf(after[i], r.subscriber);
    } else {
      assert IsSuccessOf(after[|history|], r.subscriber);
    }
  }

  /** Handling a success report records exactly that revision; with nothing to confirm it leaves both
      tables alone. */
  lemma ConfirmationIsRecorded(w: World, m: Message, t: Reading)
    requires m.ApplyOk?
    ensures var s, after := m.audit.subscriber, Handle(w, m, t);
      var revision := ConfirmedRevision(w.log, Keys.HsiKey(s.0, s.1), m.attested, t.compacted);
      if revision.None? then after.current == w.current && after.history == w.history
      else IsRecorded(w, after, s, revision.value, m.audit.eventTime)
  {
    var s, audited := m.audit.subscriber, Prefix(w, m, t, 1);
    ReadsTheConfirmedRevision(w.log, HsiKeyOf(s), m.attested, t.compacted);
    var c := ReadConfirmed(w.log, HsiKeyOf(s), m.attested, t.compacted);
    assert audited.log == w.log && audited.current == w.current && audited.history == w.history;
    assert Handle(w, m, t) == Confirm(audited, s, m.attested, t.compacted, m.audit.eventTime);
    if c.Some? {
      AppendedIsThere(w.history, HistoryRow(s, ConfirmedRow(c.value, m.audit.eventTime), Success));
    }
  }

  // ----- the handlers themselves -----

  /** The consumer's view of etcd and the database.  Every method may be killed: `k` says after how many
      durable effects, and `ALL` that it is not. */
  class Handler {
    const repo: ConfigRepo
    var log: ConfigLog
    var audits: map<AuditKey, AuditRow>
    var pppoe: Pppoe.Table

    constructor (repo: ConfigRepo)
      ensures this.repo == repo && log == [] && audits == map[] && pppoe == map[]
    {
      this.repo, log, audits, pppoe := repo, [], map[], map[];
    }

    function View(): World
      reads this, repo
    {
      World(log, audits, repo.current, repo.history, pppoe)
    }

    method InsertNodeEvent(key: AuditKey, row: AuditRow) returns (inserted: bool)
      modifies this`audits
      ensures View() == Audit(old(View()), key, row)
      ensures inserted <==> key !in old(audits)
    {
      inserted := key !in audits;
      if inserted {
        audits := audits[key := row];
      }
    }

    method CAS(key: Keys.Key, request: Request, now: int) returns (choice: Choice<Stored, Error>)
      modifies this`log
      ensures choice == Attempt(old(log), key, request, now)
      ensures View() == Swap(old(View()), key, request, now)
    {
      choice := Attempt(log, key, request, now);
      if choice.Commit? {
        log := log + [Event(key, choice.op, Cas(CONSUMER, request), now)];
      }
    }

    method DeleteSubscriberDNS(s: Subscriber, now: int)
      modifies this`log
      ensures View() == DropDns(old(View()), s, now)
    {
      var key := Keys.DnsKey(s.0, s.1);
      if Lookup(log, key).Some? {
        log := log + [Event(key, Delete, Plain, now)];
      }
    }

    method HandleConfigApplyOk(m: Message, t: Reading, k: nat)
      requires m.ApplyOk?
      modifies this`audits, repo
      ensures View() == Prefix(old(View()), m, t, k)
    {
      if k == 0 {
        return;
      }
      if !m.republished {
        var _ := InsertNodeEvent(m.audit, AuditRow(Some(true), m.details));
      }
      if k == 1 {
        return;
      }
      var confirmed := ReadConfirmed(log, HsiKeyOf(m.audit.subscriber), m.attested, t.compacted);
      if confirmed.Some? {
        var _ := repo.UpsertCurrentWithHistory(
          m.audit.subscriber, ConfirmedRow(confirmed.value, m.audit.eventTime), Success, true);
      }
    }

    method HandleConfigApplyFail(m: Message, t: Reading, k: nat)
      requires m.ApplyFail?
      modifies this, repo
      ensures View() == Prefix(old(View()), m, t, k)
    {
      if k == 0 {
        return;
      }
      var _ := InsertNodeEvent(m.audit, AuditRow(Some(false), m.details));
      var previous := repo.GetLastSuccessfulConfig(m.audit.subscriber);
      if k == 1 {
        return;
      }
      var request := Rollback(if previous.Some? then previous.value.config else None, m.applied, m.correlation);
      var _ := CAS(HsiKeyOf(m.audit.subscriber), request, t.swap);
      if k == 2 {
        return;
      }
      repo.RollbackToLastSuccessful(m.audit.subscriber);
    }

    /** `poison` is the error that leads to the dead-letter queue. */
    method HandleConfigOfflineEdit(m: Message, t: Reading, k: nat) returns (poison: bool)
      requires m.OfflineEditEvent?
      modifies this, repo
      ensures View() == Prefix(old(View()), m, t, k)
      ensures poison <==> Prepare(m.subscriber, m.edit).None?
    {
      var prepared := Prepare(m.subscriber, m.edit);
      poison := prepared.None?;
      if poison || k == 0 {
        return;
      }
      var p := prepared.value.proposal;
      var choice := CAS(prepared.value.key, OfflineEdit(p), t.swap);
      if k == 1 {
        return;
      }
      if choice.Commit? || choice.error.AlreadyReflected? {
        if p.payload.None? {
          DeleteSubscriberDNS(m.subscriber, t.cascade);
        }
      } else {
        var _ := InsertNodeEvent(DiscardKey(m), AuditRow(Some(false), [DISCARDED]));
      }
    }

    method HandleEvent(m: Message, t: Reading, k: nat)
      modifies this, repo
      ensures View() == Prefix(old(View()), m, t, k)
    {
      match m
      case PppoeChange(row) => if k > 0 && Pppoe.Accepts(pppoe, row) { pppoe := pppoe[Pppoe.Key(row) := row]; }
      case RuntimeError(audit, details) => if k > 0 { var _ := InsertNodeEvent(audit, AuditRow(None, details)); }
      case ApplyOk(_, _, _, _) => HandleConfigApplyOk(m, t, k);
      case ApplyFail(_, _, _, _) => HandleConfigApplyFail(m, t, k);
      case OfflineEditEvent(_, _, _) => var _ := HandleConfigOfflineEdit(m, t, k);
    }

    /** Redelivery with the process killed again and again. */
    method HandleUntilDone(m: Message, crashes: seq<Crash>, last: Reading)
      modifies this, repo
      ensures View() == Handle(old(View()), m, FinalReading(old(View()), m, crashes, last))
    {
      ghost var w := View();
      for i := 0 to |crashes|
        invariant Redelivered(View(), m, crashes[i..], last) == Redelivered(w, m, crashes, last)
      {
        assert crashes[i..][1..] == crashes[i + 1..];
        HandleEvent(m, crashes[i].reading, crashes[i].effects);
      }
      HandleEvent(m, last, ALL);
      RedeliveryConverges(w, m, crashes, last);
    }
  }
}
