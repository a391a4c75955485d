/** The projection: any number of workers, each restarting, relisting and crashing at will, turn the
    config events of etcd into pending history rows under one shared checkpoint. */
module Projection {
  import opened Basics
  import opened Etcd
  import opened Config
  import opened VersionChain
  import opened ConfigTables
  import Keys

  type ConfigEvent = Event<Keys.Key, Stored, Request>

  /** Under configs/, so delivered to the watch. */
  predicate IsWatched(key: Keys.Key) {
    key.HsiKey? || key.DnsKey?
  }

  function SubscriberOf(key: Keys.Key): Subscriber
    requires key.HsiKey?
  {
    (key.node, key.user)
  }

  /** buildRow. */
  function BuildRow(value: Stored, revision: nat): ConfigRow {
    var config := DecodeHsi(value);
    var meta := if config.Some? && value.metadata.Some? then value.metadata.value else Metadata("", Missing, "", Unusable);
    ConfigRow(Upserted, Some(value), if config.Some? && config.value.desire != "" then config.value.desire else DISCONNECT,
      revision, meta.version, meta.updatedBy, meta.updatedAt)
  }

  /** The row that event `i` of an HSI key is recorded as. */
  function EventRow(log: ConfigLog, i: nat): HistoryRow
    requires i < |log| && log[i].key.HsiKey?
  {
    var revision := i + FIRST_REVISION;
    HistoryRow(SubscriberOf(log[i].key),
      match log[i].op
      case Put(value) => BuildRow(value, revision)
      case Delete => ConfigRow(Deleted, None, "", revision, Missing, "", Unusable),
      Pending)
  }

  datatype Worker =
    | Stopped
    | ToList(initial: bool)        // decided to list, not asked etcd yet
    | Listing(revision: nat, done: set<Subscriber>, initial: bool)
    | Watching(from: nat)          // every event up to `from` has been dealt with
    | Recorded(revision: nat)      // history written, checkpoint not yet

  datatype State = State(
    log: ConfigLog, history: History, checkpoint: Option<nat>, workers: map<nat, Worker>,
    relists: set<nat>)             // revisions of the relists that completed

  datatype Step =
    | EtcdWrites(e: ConfigEvent)
    | Start(w: nat)
    | TakeList(w: nat)
    | ListOne(w: nat, s: Subscriber)
    | ListDone(w: nat)
    | Compacted(w: nat)
    | Record(w: nat)
    | Advance(w: nat)
    | Crash(w: nat)
    | OtherHistory(r: HistoryRow)

  /** The first watched event that the watch from `from` delivers next, or the length. */
  function NextWatched(log: ConfigLog, from: nat): (i: nat)
    requires from >= 1
    ensures i <= |log| || i == from - 1
    ensures from - 1 <= i
    ensures i < |log| ==> IsWatched(log[i].key)
    ensures forall k | from - 1 <= k < i && k < |log| :: !IsWatched(log[k].key)
    decreases |log| - from
  {
    if from - 1 >= |log| || IsWatched(log[from - 1].key) then from - 1 else NextWatched(log, from + 1)
  }

  function WorkerOf(st: State, w: nat): Worker {
    if w in st.workers then st.workers[w] else Stopped
  }

  function Set(st: State, w: nat, worker: Worker): State {
    st.(workers := st.workers[w := worker])
  }

  function LiveRow(log: ConfigLog, s: Subscriber, revision: nat): Option<HistoryRow>
    requires 1 <= revision <= Revision(log)
  {
    match HeldAt(log, HsiKeyOf(s), revision)
    case None => None
    case Some(e) => Some(HistoryRow(s, BuildRow(e.value, e.modRevision), Pending))
  }

  ghost predicate Listed(log: ConfigLog, revision: nat, done: set<Subscriber>)
    requires 1 <= revision <= Revision(log)
  {
    forall s :: LiveRow(log, s, revision).Some? ==> s in done
  }

  /** reconcile appends the live version of one listed key. */
  function ListOneStep(st: State, w: nat, s: Subscriber): State {
    match WorkerOf(st, w)
    case Listing(revision, done, initial) =>
      if 1 <= revision <= Revision(st.log) && LiveRow(st.log, s, revision).Some? then
        Set(st.(history := Append(st.history, LiveRow(st.log, s, revision).value)), w, Listing(revision, done + {s}, initial))
      else st
    case _ => st
  }

  /** reconcile has appended them all: it stores the list revision.  A first listing goes on to watch
      from there; one forced by compaction goes back to reading the checkpoint. */
  ghost function ListDoneStep(st: State, w: nat): State {
    match WorkerOf(st, w)
    case Listing(revision, done, initial) =>
      if 1 <= revision <= Revision(st.log) && Listed(st.log, revision, done) then
        Set(st.(checkpoint := Some(revision), relists := st.relists + {revision}), w,
          if initial then Watching(revision) else Stopped)
      else st
    case _ => st
  }

  /** handleEvent up to its first durable effect; a DNS event has only the second one. */
  function RecordStep(st: State, w: nat): State {
    match WorkerOf(st, w)
    case Watching(from) =>
      if from >= 1 && NextWatched(st.log, from) < |st.log| then
        var i := NextWatched(st.log, from);
        Set(if st.log[i].key.HsiKey? then st.(history := Append(st.history, EventRow(st.log, i))) else st,
          w, Recorded(i + FIRST_REVISION))
      else st
    case _ => st
  }

  /** One durable effect or one local move of one worker; a step that is not enabled does nothing. */
  ghost function Next(st: State, step: Step): State {
    match step
    case EtcdWrites(e) => st.(log := st.log + [e])
    case OtherHistory(r) => if r.status.Pending? then st else st.(history := Append(st.history, r))
    case Crash(w) => Set(st, w, Stopped)
    case Start(w) =>
      if !WorkerOf(st, w).Stopped? then st
      else if st.checkpoint.None? then Set(st, w, ToList(true))
      else Set(st, w, Watching(if st.checkpoint.value == 0 then Revision(st.log) else st.checkpoint.value))
    case Compacted(w) =>
      if WorkerOf(st, w).Watching? then Set(st, w, ToList(false)) else st
    case TakeList(w) =>
      if WorkerOf(st, w).ToList? then Set(st, w, Listing(Revision(st.log), {}, WorkerOf(st, w).initial)) else st
    case ListOne(w, s) => ListOneStep(st, w, s)
    case ListDone(w) => ListDoneStep(st, w)
    case Record(w) => RecordStep(st, w)
    case Advance(w) =>
      if WorkerOf(st, w).Recorded? then
        Set(st.(checkpoint := Some(WorkerOf(st, w).revision)), w, Watching(WorkerOf(st, w).revision))
      else st
  }

  ghost function Run(steps: seq<Step>): State {
    if steps == [] then State.State([], [], None, map[], {}) else Next(Run(steps[..|steps| - 1]), steps[|steps| - 1])
  }

  // ----- the invariant -----

  ghost predicate Once(history: History, r: HistoryRow) {
    exists i | 0 <= i < |history| :: history[i] == r && forall j | 0 <= j < |history| && SameIdentity(history[j], r) :: j == i
  }

  ghost predicate Unique(history: History) {
    forall i, j | 0 <= i < j < |history| :: !SameIdentity(history[i], history[j])
  }

  /** No pending row was invented: each is the row of the event that made its revision. */
  ghost predicate Truthful(log: ConfigLog, history: History) {
    forall n | 0 <= n < |history| && history[n].status.Pending? :: FromEvent(log, history[n])
  }

  ghost predicate FromEvent(log: ConfigLog, r: HistoryRow) {
    var i := r.row.modRevision - FIRST_REVISION;
    0 <= i < |log| && log[i].key.HsiKey? && r == EventRow(log, i)
  }

  /** Every HSI event after the relists and up to `upTo` is in the history. */
  ghost predicate Covered(st: State, upTo: nat) {
    && 1 <= upTo <= Revision(st.log)
    && forall i | 0 <= i < |st.log| && st.log[i].key.HsiKey? && i + FIRST_REVISION <= upTo && AfterRelists(st.relists, i + FIRST_REVISION) ::
         EventRow(st.log, i) in st.history
  }

  predicate AfterRelists(relists: set<nat>, revision: nat) {
    forall r | r in relists :: r < revision
  }

  ghost predicate RowsListed(log: ConfigLog, history: History, revision: nat, done: set<Subscriber>) {
    && 1 <= revision <= Revision(log)
    && forall s | s in done && LiveRow(log, s, revision).Some? :: LiveRow(log, s, revision).value in history
  }

  /** Every HSI key that was live at `revision` has its live version in the history. */
  ghost predicate RelistRecorded(log: ConfigLog, history: History, revision: nat) {
    && 1 <= revision <= Revision(log)
    && forall s | LiveRow(log, s, revision).Some? :: LiveRow(log, s, revision).value in history
  }

  ghost predicate WorkerInv(st: State, worker: Worker) {
    match worker
    case Stopped => true
    case ToList(_) => true
    case Listing(revision, done, _) => RowsListed(st.log, st.history, revision, done)
    case Watching(from) => Covered(st, from)
    case Recorded(revision) => Covered(st, revision)
  }

  ghost predicate Inv(st: State) {
    && Unique(st.history) && Truthful(st.log, st.history)
    && (st.checkpoint.Some? ==> Covered(st, st.checkpoint.value))
    && (forall w | w in st.workers :: WorkerInv(st, st.workers[w]))
    && (forall r | r in st.relists :: RelistRecorded(st.log, st.history, r))
  }

  // ----- what each step does to it -----

  /** Appending a truthful row puts exactly that row into the history, whoever got there first. */
  lemma AppendRecords(log: ConfigLog, history: History, r: HistoryRow)
    requires Unique(history) && Truthful(log, history) && (r.status.Pending? ==> FromEvent(log, r))
    ensures Unique(Append(history, r)) && Truthful(log, Append(history, r)) && history <= Append(history, r)
    ensures r.status.Pending? ==> r in Append(history, r)
  {
    if Has(history, r) && r.status.Pending? {
      var i :| 0 <= i < |history| && SameIdentity(history[i], r);
      assert FromEvent(log, history[i]);
    } else if !Has(history, r) {
      assert Append(history, r)[|history|] == r;
    }
  }

  lemma LiveRowIsEventRow(log: ConfigLog, s: Subscriber, revision: nat)
    requires 1 <= revision <= Revision(log) && LiveRow(log, s, revision).Some?
    ensures FromEvent(log, LiveRow(log, s, revision).value)
  {
    LookupIsLive(log, HsiKeyOf(s), revision - 1);
  }

  /** Longer logs, longer histories and more relists keep whatever a worker knows. */
  lemma WorkerInvGrows(st: State, after: State, worker: Worker)
    requires WorkerInv(st, worker) && st.log <= after.log && st.history <= after.history && st.relists <= after.relists
    ensures WorkerInv(after, worker)
  {
    match worker
    case Stopped =>
    case ToList(_) =>
    case Listing(revision, done, _) => RowsListedGrows(st.log, st.history, after.log, after.history, revision, done);
    case Watching(from) => CoveredGrows(st, after, from);
    case Recorded(revision) => CoveredGrows(st, after, revision);
  }

  lemma CoveredGrows(st: State, after: State, upTo: nat)
    requires Covered(st, upTo) && st.log <= after.log && st.history <= after.history && st.relists <= after.relists
    ensures Covered(after, upTo)
  {
    forall i | 0 <= i < |after.log| && after.log[i].key.HsiKey? && i + FIRST_REVISION <= upTo && AfterRelists(after.relists, i + FIRST_REVISION)
      ensures EventRow(after.log, i) in after.history
    {
      assert after.log[i] == st.log[i];
      assert AfterRelists(st.relists, i + FIRST_REVISION);
      assert EventRow(st.log, i) in st.history;
    }
  }

  lemma LiveRowStays(log: ConfigLog, after: ConfigLog, s: Subscriber, revision: nat)
    requires log <= after && 1 <= revision <= Revision(log)
    ensures LiveRow(after, s, revision) == LiveRow(log, s, revision)
  {
    assert after[..revision - 1] == log[..revision - 1];
  }

  lemma RowsListedGrows(log: ConfigLog, history: History, log': ConfigLog, history': History, revision: nat, done: set<Subscriber>)
    requires RowsListed(log, history, revision, done) && log <= log' && history <= history'
    ensures RowsListed(log', history', revision, done)
  {
    forall s | s in done && LiveRow(log', s, revision).Some? ensures LiveRow(log', s, revision).value in history' {
      LiveRowStays(log, log', s, revision);
    }
  }

  lemma RelistGrows(log: ConfigLog, history: History, log': ConfigLog, history': History, revision: nat)
    requires RelistRecorded(log, history, revision) && log <= log' && history <= history'
    ensures RelistRecorded(log', history', revision)
  {
    forall s | LiveRow(log', s, revision).Some? ensures LiveRow(log', s, revision).value in history' {
      LiveRowStays(log, log', s, revision);
    }
  }

  /** A step that only adds events, truthful rows and finished relists, moves one worker and perhaps
      the checkpoint, keeps the invariant if the movers' own parts hold. */
  lemma GrowthKeepsInv(st: State, after: State, w: nat)
    requires Inv(st) && st.log <= after.log && st.history <= after.history && st.relists <= after.relists
    requires Unique(after.history) && Truthful(after.log, after.history)
    requires after.workers == st.workers || after.workers == st.workers[w := WorkerOf(after, w)]
    requires WorkerInv(after, WorkerOf(after, w))
    requires after.checkpoint != st.checkpoint ==> after.checkpoint.Some? && Covered(after, after.checkpoint.value)
    requires forall r | r in after.relists && r !in st.relists :: RelistRecorded(after.log, after.history, r)
    ensures Inv(after)
  {
    if st.checkpoint.Some? {
      CoveredGrows(st, after, st.checkpoint.value);
    }
    forall v | v in after.workers ensures WorkerInv(after, after.workers[v]) {
      if v != w {
        WorkerInvGrows(st, after, st.workers[v]);
      }
    }
    forall r | r in after.relists ensures RelistRecorded(after.log, after.history, r) {
      if r in st.relists {
        RelistGrows(st.log, st.history, after.log, after.history, r);
      }
    }
  }

  lemma TruthfulGrows(log: ConfigLog, after: ConfigLog, history: History)
    requires Truthful(log, history) && log <= after
    ensures Truthful(after, history)
  {
    forall n | 0 <= n < |history| && history[n].status.Pending? ensures FromEvent(after, history[n]) {
      assert FromEvent(log, history[n]);
    }
  }

  lemma WorkerHasInv(st: State, w: nat)
    requires Inv(st)
    ensures WorkerInv(st, WorkerOf(st, w))
  {
  }

  lemma ListOneKeepsInv(st: State, w: nat, s: Subscriber)
    requires Inv(st)
    ensures Inv(Next(st, ListOne(w, s)))
  {
    WorkerHasInv(st, w);
    var after := Next(st, ListOne(w, s));
    match WorkerOf(st, w)
    case Listing(revision, done, initial) =>
      if LiveRow(st.log, s, revision).Some? {
        LiveRowIsEventRow(st.log, s, revision);
        AppendRecords(st.log, st.history, LiveRow(st.log, s, revision).value);
        RowsListedGrows(st.log, st.history, after.log, after.history, revision, done);
        GrowthKeepsInv(st, after, w);
      }
    case _ =>
  }

  lemma ListDoneKeepsInv(st: State, w: nat)
    requires Inv(st)
    ensures Inv(Next(st, ListDone(w)))
  {
    WorkerHasInv(st, w);
    var after := Next(st, ListDone(w));
    match WorkerOf(st, w)
    case Listing(revision, done, initial) =>
      if Listed(st.log, revision, done) {
        assert RelistRecorded(after.log, after.history, revision);
        assert revision in after.relists;
        assert Covered(after, revision);
        GrowthKeepsInv(st, after, w);
      }
    case _ =>
  }

  lemma RecordKeepsInv(st: State, w: nat)
    requires Inv(st)
    ensures Inv(Next(st, Record(w)))
  {
    WorkerHasInv(st, w);
    var after := Next(st, Record(w));
    match WorkerOf(st, w)
    case Watching(from) =>
      var i := NextWatched(st.log, from);
      if i < |st.log| {
        if st.log[i].key.HsiKey? {
          AppendRecords(st.log, st.history, EventRow(st.log, i));
        }
        CoveredGrows(st, after, from);
        CoverNext(after, from, i);
        GrowthKeepsInv(st, after, w);
      }
    case _ =>
  }

  /** With the next watched event recorded too, the cover reaches that event. */
  lemma CoverNext(st: State, from: nat, i: nat)
    requires Covered(st, from) && from >= 1 && i == NextWatched(st.log, from) < |st.log|
    requires st.log[i].key.HsiKey? ==> EventRow(st.log, i) in st.history
    ensures Covered(st, i + FIRST_REVISION)
  {
    forall k | 0 <= k < |st.log| && st.log[k].key.HsiKey? && k + FIRST_REVISION <= i + FIRST_REVISION && AfterRelists(st.relists, k + FIRST_REVISION)
      ensures EventRow(st.log, k) in st.history
    {
    }
  }

  lemma LocalStepsKeepInv(st: State, step: Step)
    requires Inv(st) && (step.EtcdWrites? || step.OtherHistory? || step.Crash? || step.Start? || step.Compacted? || step.TakeList? || step.Advance?)
    ensures Inv(Next(st, step))
  {
    var after := Next(st, step);
    match step
    case EtcdWrites(e) =>
      TruthfulGrows(st.log, after.log, st.history);
      WorkerHasInv(st, 0);
      WorkerInvGrows(st, after, WorkerOf(st, 0));
      GrowthKeepsInv(st, after, 0);
    case OtherHistory(r) =>
      if !r.status.Pending? {
        AppendRecords(st.log, st.history, r);
      }
      WorkerHasInv(st, 0);
      WorkerInvGrows(st, after, WorkerOf(st, 0));
      GrowthKeepsInv(st, after, 0);
    case Crash(w) => GrowthKeepsInv(st, after, w);
    case Start(w) =>
      WorkerHasInv(st, w);
      WorkerInvGrows(st, after, WorkerOf(st, w));
      if WorkerOf(st, w).Stopped? && st.checkpoint.Some? {
        CoveredGrows(st, after, st.checkpoint.value);
      }
      GrowthKeepsInv(st, after, w);
    case Compacted(w) =>
      WorkerHasInv(st, w);
      WorkerInvGrows(st, after, WorkerOf(st, w));
      GrowthKeepsInv(st, after, w);
    case TakeList(w) =>
      WorkerHasInv(st, w);
      WorkerInvGrows(st, after, WorkerOf(st, w));
      GrowthKeepsInv(st, after, w);
    case Advance(w) =>
      WorkerHasInv(st, w);
      WorkerInvGrows(st, after, WorkerOf(st, w));
      GrowthKeepsInv(st, after, w);
  }

  lemma {:induction false} RunKeepsInv(steps: seq<Step>)
    ensures Inv(Run(steps))
  {
    if steps != [] {
      RunKeepsInv(steps[..|steps| - 1]);
      var st, step := Run(steps[..|steps| - 1]), steps[|steps| - 1];
      match step
      case ListOne(w, s) => ListOneKeepsInv(st, w, s);
      case ListDone(w) => ListDoneKeepsInv(st, w);
      case Record(w) => RecordKeepsInv(st, w);
      case _ => LocalStepsKeepInv(st, step);
    }
  }

  // ----- the promises -----

  lemma StartsWithConfigs(node: string, kind: string, user: string)
    ensures "configs/" <= "configs" + "/" + node + "/" + kind + "/" + user
  {
    var head, tail := "configs" + "/", node + "/" + kind + "/" + user;
    assert head == "configs/";
    assert head <= head + tail;
    assert head + tail == "configs" + "/" + node + "/" + kind + "/" + user;
  }

  lemma StartsOtherwise(first: string, rest: string)
    requires first != "" && first[0] != 'c'
    ensures !("configs/" <= first + rest)
  {
    assert (first + rest)[0] == first[0];
  }

  /** The watch delivers exactly the keys printed under configs/. */
  lemma WatchedExactlyUnderConfigs(key: Keys.Key)
    ensures IsWatched(key) <==> "configs/" <= Keys.Print(key)
  {
    match key
    case HsiKey(node, user) =>
      Keys.JoinFour("configs", node, "hsi", user);
      StartsWithConfigs(node, "hsi", user);
    case DnsKey(node, user) =>
      Keys.JoinFour("configs", node, "dns", user);
      StartsWithConfigs(node, "dns", user);
    case CountKey(node) =>
      StartsOtherwise("user_counts", "/" + Keys.Join([node, ""]));
      Keys.JoinCons("user_counts", [node, ""]);
      assert ["user_counts"] + [node, ""] == ["user_counts", node, ""];
      assert "user_counts" + ("/" + Keys.Join([node, ""])) == "user_counts" + "/" + Keys.Join([node, ""]);
    case NodeKey(node) =>
      StartsOtherwise("nodes", "/" + node);
      Keys.JoinTwo("nodes", node);
      assert "nodes" + ("/" + node) == "nodes" + "/" + node;
  }

  /** A row is filed under the identifiers its key is read back as. */
  lemma FiledUnderItsKey(key: Keys.Key)
    requires Keys.ValidKey(key)
    ensures key.HsiKey? ==> Keys.ParseHSIKey(Keys.Print(key)) == Some(SubscriberOf(key)) && HsiKeyOf(SubscriberOf(key)) == key
    ensures !key.HsiKey? ==> Keys.ParseHSIKey(Keys.Print(key)).None?
  {
    Keys.KeysRoundTrip(key);
  }

  /** What a history row says happened: which key, what to it, at which revision. */
  function HappenedBy(r: HistoryRow): (Keys.Key, Option<Option<Stored>>, int) {
    (Keys.HsiKey(r.subscriber.0, r.subscriber.1),
     match r.row.action case Upserted => (if r.row.config.Some? then Some(r.row.config) else None) case Deleted => Some(None) case ApplyFailed => None,
     r.row.modRevision)
  }

  /** The history is a transcript: the row of an event tells the event's key, its value if it put one, and
      its revision; so no two events share a row. */
  lemma RowTellsTheEvent(log: ConfigLog, i: nat)
    requires i < |log| && log[i].key.HsiKey?
    ensures HappenedBy(EventRow(log, i)) ==
      (log[i].key, Some(if log[i].op.Put? then Some(log[i].op.value) else None), i + 2)
    ensures EventRow(log, i).status.Pending? && (EventRow(log, i).row.action.Deleted? <==> log[i].op.Delete?)
  {
  }

  /** The row of a committed HSI write shows what its writer stamped, and an offline edit's or rollback's
      row is readable like any other. */
  lemma RowShowsTheWrite(request: Request, current: Option<Stored>, modRevision: nat, now: int, revision: nat)
    requires Mutate(request, current, modRevision, now).Commit? && Mutate(request, current, modRevision, now).op.Put?
    requires DecodeHsi(Mutate(request, current, modRevision, now).op.value).Some?
    ensures var value := Mutate(request, current, modRevision, now).op.value;
      var row := BuildRow(value, revision);
      && row.config == Some(value) && row.modRevision == revision && row.updatedAt == Utc(now)
      && row.version == VersionOf(value)
      && (request.SetDesire? ==> row.desire == (if request.connect then CONNECT else DISCONNECT))
      && (request.CreateHsi? ==> row.desire == DISCONNECT && row.updatedBy == request.user)
      && (request.Rollback? ==> row.updatedBy == ROLLBACK_WRITER)
      && (request.OfflineEdit? ==> row.updatedBy == OFFLINE_WRITER)
  {
    EveryPutIsStamped(request, current, modRevision, now);
  }

  /** With any number of overlapping workers, crashes, restarts and checkpoints moving backward: every
      put or delete of an HSI key after the greatest relist revision and at or before the stored
      checkpoint is in the history, exactly once, as the pending row of that very event. */
  lemma EventsAreRecordedOnce(steps: seq<Step>, i: nat)
    requires var st := Run(steps);
      && i < |st.log| && st.log[i].key.HsiKey? && AfterRelists(st.relists, i + FIRST_REVISION)
      && st.checkpoint.Some? && i + FIRST_REVISION <= st.checkpoint.value
    ensures var st := Run(steps); Once(st.history, EventRow(st.log, i))
  {
    RunKeepsInv(steps);
    InHistoryOnce(Run(steps).history, EventRow(Run(steps).log, i));
  }

  lemma InHistoryOnce(history: History, r: HistoryRow)
    requires Unique(history) && r in history
    ensures Once(history, r)
  {
    var i :| 0 <= i < |history| && history[i] == r;
    forall j | 0 <= j < |history| && SameIdentity(history[j], r) ensures j == i {
    }
  }

  /** A completed relist has recorded, exactly once, the live version of every HSI key. */
  lemma RelistRecordsLiveVersions(steps: seq<Step>, revision: nat, s: Subscriber)
    requires revision in Run(steps).relists
    ensures var st := Run(steps);
      && 1 <= revision <= Revision(st.log)
      && (LiveRow(st.log, s, revision).Some? ==> Once(st.history, LiveRow(st.log, s, revision).value))
  {
    RunKeepsInv(steps);
    var st := Run(steps);
    assert RelistRecorded(st.log, st.history, revision);
    if LiveRow(st.log, s, revision).Some? {
      InHistoryOnce(st.history, LiveRow(st.log, s, revision).value);
    }
  }

  /** And no pending row is invented: each is the row of an event etcd really had. */
  lemma PendingRowsAreEvents(steps: seq<Step>, r: HistoryRow)
    requires r in Run(steps).history && r.status.Pending?
    ensures FromEvent(Run(steps).log, r)
  {
    RunKeepsInv(steps);
  }
}
