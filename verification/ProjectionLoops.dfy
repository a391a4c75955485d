/** The loops of one projection worker, with the others standing still: each is a run of the steps
    that the interleaved model is made of. */
module ProjectionLoops {
  import opened Basics
  import opened Etcd
  import opened VersionChain
  import opened Projection
  import ConfigTables

  function Elements(listed: seq<ConfigTables.Subscriber>): set<ConfigTables.Subscriber> {
    set s | s in listed
  }

  ghost function ListedAll(st: State, w: nat, listed: seq<ConfigTables.Subscriber>): State {
    if listed == [] then st
    else Next(ListedAll(st, w, listed[..|listed| - 1]), ListOne(w, listed[|listed| - 1]))
  }

  /** What ListConfigs answers: the HSI keys that are live. */
  ghost predicate IsListing(log: ConfigLog, listed: seq<ConfigTables.Subscriber>) {
    forall s :: s in listed <==> Lookup(log, ConfigTables.HsiKeyOf(s)).Some?
  }

  /** `after` is `st` with the worker's listing advanced to `done`, and rows perhaps added. */
  ghost predicate Advanced(st: State, after: State, w: nat, done: set<ConfigTables.Subscriber>, initial: bool) {
    && WorkerOf(after, w) == Listing(Revision(st.log), done, initial)
    && after.log == st.log && after.checkpoint == st.checkpoint && after.relists == st.relists
  }

  lemma ListOneAdvances(st: State, before: State, w: nat, s: ConfigTables.Subscriber, done: set<ConfigTables.Subscriber>, initial: bool)
    requires Advanced(st, before, w, done, initial) && LiveRow(st.log, s, Revision(st.log)).Some?
    ensures Advanced(st, Next(before, ListOne(w, s)), w, done + {s}, initial)
  {
  }

  ghost predicate AllLive(log: ConfigLog, listed: seq<ConfigTables.Subscriber>) {
    forall s <- listed :: LiveRow(log, s, Revision(log)).Some?
  }

  lemma FrontAndLast(log: ConfigLog, listed: seq<ConfigTables.Subscriber>)
    requires AllLive(log, listed) && listed != []
    ensures var front, last := listed[..|listed| - 1], listed[|listed| - 1];
      AllLive(log, front) && LiveRow(log, last, Revision(log)).Some? && Elements(listed) == Elements(front) + {last}
  {
    var front, last := listed[..|listed| - 1], listed[|listed| - 1];
    assert listed == front + [last];
  }

  lemma FrontIsLive(log: ConfigLog, listed: seq<ConfigTables.Subscriber>, n: nat)
    requires AllLive(log, listed) && n <= |listed|
    ensures AllLive(log, listed[..n])
  {
    assert forall s <- listed[..n] :: s in listed;
  }

  lemma {:induction false} ListedAllListing(st: State, w: nat, listed: seq<ConfigTables.Subscriber>, initial: bool)
    requires WorkerOf(st, w) == Listing(Revision(st.log), {}, initial) && AllLive(st.log, listed)
    ensures Advanced(st, ListedAll(st, w, listed), w, Elements(listed), initial)
  {
    if listed == [] {
      assert Elements(listed) == {};
    } else {
      var front, s := listed[..|listed| - 1], listed[|listed| - 1];
      FrontAndLast(st.log, listed);
      ListedAllListing(st, w, front, initial);
      ListOneAdvances(st, ListedAll(st, w, front), w, s, Elements(front), initial);
    }
  }

  lemma {:induction false} ListedAllKeepsInv(st: State, w: nat, listed: seq<ConfigTables.Subscriber>)
    requires Inv(st)
    ensures Inv(ListedAll(st, w, listed))
  {
    if listed != [] {
      ListedAllKeepsInv(st, w, listed[..|listed| - 1]);
      ListOneKeepsInv(ListedAll(st, w, listed[..|listed| - 1]), w, listed[|listed| - 1]);
    }
  }

  lemma ListingIsLive(log: ConfigLog, listed: seq<ConfigTables.Subscriber>)
    requires IsListing(log, listed)
    ensures AllLive(log, listed)
    ensures Listed(log, Revision(log), Elements(listed))
  {
    assert log[..|log|] == log;
  }

  /** The appends and the checkpoint of reconcile when the first `works` of them succeed.  An error sends
      the worker back to the start of its restart loop. */
  ghost function FinishedListing(st: State, w: nat, listed: seq<ConfigTables.Subscriber>, works: nat): State {
    if works <= |listed| then Next(ListedAll(st, w, listed[..works]), Crash(w))
    else Next(ListedAll(st, w, listed), ListDone(w))
  }

  /** reconcile when its first `calls` calls succeed, of which the list is the first. */
  ghost function Reconciled(st: State, w: nat, listed: seq<ConfigTables.Subscriber>, calls: nat): State {
    if calls == 0 then Next(st, Crash(w)) else FinishedListing(Next(st, TakeList(w)), w, listed, calls - 1)
  }

  lemma ReconciledKeepsInv(st: State, w: nat, listed: seq<ConfigTables.Subscriber>, calls: nat)
    requires Inv(st)
    ensures Inv(Reconciled(st, w, listed, calls))
  {
    if calls == 0 {
      LocalStepsKeepInv(st, Crash(w));
    } else {
      LocalStepsKeepInv(st, TakeList(w));
      var taken := Next(st, TakeList(w));
      if calls - 1 <= |listed| {
        ListedAllKeepsInv(taken, w, listed[..calls - 1]);
        LocalStepsKeepInv(ListedAll(taken, w, listed[..calls - 1]), Crash(w));
      } else {
        ListedAllKeepsInv(taken, w, listed);
        ListDoneKeepsInv(ListedAll(taken, w, listed), w);
      }
    }
  }

  /** handleEvent, with the append and the checkpoint write each working or not.  A DNS event has no
      append. */
  ghost function Handled(st: State, w: nat, appendWorks: bool, storeWorks: bool): State {
    if !appendWorks && NextIsHsi(st, w) then Next(st, Crash(w))
    else Next(Next(st, Record(w)), if storeWorks then Advance(w) else Crash(w))
  }

  ghost predicate HasNext(st: State, w: nat) {
    && WorkerOf(st, w).Watching? && WorkerOf(st, w).from >= 1
    && NextWatched(st.log, WorkerOf(st, w).from) < |st.log|
  }

  ghost predicate NextIsHsi(st: State, w: nat) {
    HasNext(st, w) && st.log[NextWatched(st.log, WorkerOf(st, w).from)].key.HsiKey?
  }

  /** What the watch meets next: an event, if etcd has one; a compaction of its revision; shutdown. */
  datatype Fate = Arrives(appendWorks: bool, storeWorks: bool) | Compaction | Cancellation

  ghost function Met(st: State, w: nat, fate: Fate): State {
    match fate
    case Arrives(appendWorks, storeWorks) => if HasNext(st, w) then Handled(st, w, appendWorks, storeWorks) else st
    case Compaction => Next(st, Compacted(w))
    case Cancellation => Next(st, Crash(w))
  }

  ghost function Watched(st: State, w: nat, fates: seq<Fate>): State {
    if fates == [] then st
    else
      var before := Watched(st, w, fates[..|fates| - 1]);
      if WorkerOf(before, w).Watching? then Met(before, w, fates[|fates| - 1]) else before
  }

  lemma HandledKeepsInv(st: State, w: nat, appendWorks: bool, storeWorks: bool)
    requires Inv(st)
    ensures Inv(Handled(st, w, appendWorks, storeWorks))
  {
    if !appendWorks && NextIsHsi(st, w) {
      LocalStepsKeepInv(st, Crash(w));
    } else {
      RecordKeepsInv(st, w);
      LocalStepsKeepInv(Next(st, Record(w)), if storeWorks then Advance(w) else Crash(w));
    }
  }

  lemma {:induction false} WatchedKeepsInv(st: State, w: nat, fates: seq<Fate>)
    requires Inv(st)
    ensures Inv(Watched(st, w, fates))
  {
    if fates != [] {
      WatchedKeepsInv(st, w, fates[..|fates| - 1]);
      var before := Watched(st, w, fates[..|fates| - 1]);
      match fates[|fates| - 1]
      case Arrives(appendWorks, storeWorks) => HandledKeepsInv(before, w, appendWorks, storeWorks);
      case Compaction => LocalStepsKeepInv(before, Compacted(w));
      case Cancellation => LocalStepsKeepInv(before, Crash(w));
    }
  }

  lemma {:induction false} WatchedStaysEnded(st: State, w: nat, fates: seq<Fate>, n: nat)
    requires n <= |fates| && !WorkerOf(Watched(st, w, fates[..n]), w).Watching?
    ensures Watched(st, w, fates) == Watched(st, w, fates[..n])
    decreases |fates|
  {
    if n < |fates| {
      assert fates[..|fates| - 1][..n] == fates[..n];
      WatchedStaysEnded(st, w, fates[..|fates| - 1], n);
    } else {
      assert fates[..n] == fates;
    }
  }

  /** Every delivery works and nothing ends the watch. */
  ghost predicate AllArrive(fates: seq<Fate>) {
    forall n | 0 <= n < |fates| :: fates[n] == Arrives(true, true)
  }

  /** The watch goes on, and is past one more revision after each delivery unless nothing is left. */
  ghost predicate Progressed(st: State, after: State, w: nat, from: nat, n: nat) {
    && after.log == st.log && after.relists == st.relists
    && WorkerOf(after, w).Watching? && WorkerOf(after, w).from >= 1
    && (HasNext(after, w) ==> WorkerOf(after, w).from >= from + n)
  }

  lemma DeliveryProgresses(st: State, before: State, w: nat, from: nat, n: nat)
    requires Progressed(st, before, w, from, n)
    ensures Progressed(st, Met(before, w, Arrives(true, true)), w, from, n + 1)
  {
    if HasNext(before, w) {
      var i := NextWatched(before.log, WorkerOf(before, w).from);
      assert WorkerOf(Handled(before, w, true, true), w) == Watching(i + FIRST_REVISION);
    }
  }

  lemma {:induction false} WatchProgresses(st: State, w: nat, fates: seq<Fate>)
    requires WorkerOf(st, w).Watching? && WorkerOf(st, w).from >= 1 && AllArrive(fates)
    ensures Progressed(st, Watched(st, w, fates), w, WorkerOf(st, w).from, |fates|)
  {
    if fates != [] {
      WatchProgresses(st, w, fates[..|fates| - 1]);
      DeliveryProgresses(st, Watched(st, w, fates[..|fates| - 1]), w, WorkerOf(st, w).from, |fates| - 1);
    }
  }

  /** A worker that watches from a safe state while every write works leaves nothing behind: after as many
      deliveries as etcd has events, every HSI event after the relists is in the history, once. */
  lemma WatchCatchesUp(st: State, w: nat, fates: seq<Fate>, i: nat)
    requires Inv(st) && WorkerOf(st, w).Watching? && WorkerOf(st, w).from >= 1
    requires AllArrive(fates) && |fates| >= |st.log|
    requires i < |st.log| && st.log[i].key.HsiKey? && AfterRelists(st.relists, i + FIRST_REVISION)
    ensures Once(Watched(st, w, fates).history, EventRow(st.log, i))
  {
    var after := Watched(st, w, fates);
    WatchedKeepsInv(st, w, fates);
    WatchProgresses(st, w, fates);
    WorkerHasInv(after, w);
    var from := WorkerOf(after, w).from;
    assert NextWatched(after.log, from) >= |after.log|;
    assert i + FIRST_REVISION <= from;
    InHistoryOnce(after.history, EventRow(st.log, i));
  }

  lemma ListedAllStep(st: State, w: nat, listed: seq<ConfigTables.Subscriber>, i: nat)
    requires i < |listed|
    ensures ListedAll(st, w, listed[..i + 1]) == Next(ListedAll(st, w, listed[..i]), ListOne(w, listed[i]))
  {
    assert listed[..i + 1][..i] == listed[..i];
  }

  /** Before its i-th append the listing loop holds the first i keys, and the next one is live. */
  lemma ReadyToAppend(st: State, w: nat, listed: seq<ConfigTables.Subscriber>, i: nat, initial: bool)
    requires WorkerOf(st, w) == Listing(Revision(st.log), {}, initial) && IsListing(st.log, listed) && i < |listed|
    ensures Advanced(st, ListedAll(st, w, listed[..i]), w, Elements(listed[..i]), initial)
    ensures Lookup(st.log, ConfigTables.HsiKeyOf(listed[i])).Some?
  {
    ListingIsLive(st.log, listed);
    FrontIsLive(st.log, listed, i);
    ListedAllListing(st, w, listed[..i], initial);
    assert listed[i] in listed;
  }

  /** What the append loop leaves of the worker when `works` of its appends succeed. */
  lemma AppendsLeave(st: State, w: nat, listed: seq<ConfigTables.Subscriber>, works: nat, initial: bool)
    requires WorkerOf(st, w) == Listing(Revision(st.log), {}, initial) && IsListing(st.log, listed)
    ensures var done := listed[..Min(works, |listed|)];
      Advanced(st, ListedAll(st, w, done), w, Elements(done), initial)
    ensures Listed(st.log, Revision(st.log), Elements(listed))
    ensures works >= |listed| ==> listed[..Min(works, |listed|)] == listed
  {
    ListingIsLive(st.log, listed);
    FrontIsLive(st.log, listed, Min(works, |listed|));
    ListedAllListing(st, w, listed[..Min(works, |listed|)], initial);
  }

  class Projector {
    const id: nat
    const repo: ConfigTables.ConfigRepo
    var log: ConfigLog
    var checkpoint: Option<nat>
    ghost var workers: map<nat, Worker>
    ghost var relists: set<nat>

    constructor (id: nat, repo: ConfigTables.ConfigRepo)
      ensures this.id == id && this.repo == repo && checkpoint == None && workers == map[] && relists == {} && log == []
    {
      this.id, this.repo, log, checkpoint, workers, relists := id, repo, [], None, map[], {};
    }

    ghost function View(): State
      reads this, repo
    {
      State.State(log, repo.history, checkpoint, workers, relists)
    }

    method AppendListed(s: ConfigTables.Subscriber)
      requires WorkerOf(View(), id).Listing? && WorkerOf(View(), id).revision == Revision(log)
      requires Lookup(log, ConfigTables.HsiKeyOf(s)).Some?
      modifies this`workers, repo`history
      ensures View() == Next(old(View()), ListOne(id, s))
    {
      assert log[..|log|] == log;
      ghost var worker := WorkerOf(View(), id);
      var entry := Lookup(log, ConfigTables.HsiKeyOf(s)).value;
      repo.AppendHistoryWithStatus(s, BuildRow(entry.value, entry.modRevision), ConfigTables.Pending);
      workers := workers[id := worker.(done := worker.done + {s})];
    }

    /** The append loop of reconcile; it stops at the first append that fails. */
    method AppendAllListed(listed: seq<ConfigTables.Subscriber>, works: nat, ghost initial: bool)
      requires WorkerOf(View(), id) == Listing(Revision(log), {}, initial) && IsListing(log, listed)
      modifies this`workers, repo`history
      ensures View() == ListedAll(old(View()), id, listed[..Min(works, |listed|)])
    {
      ghost var st := View();
      for i := 0 to Min(works, |listed|)
        invariant View() == ListedAll(st, id, listed[..i])
      {
        ReadyToAppend(st, id, listed, i, initial);
        ListedAllStep(st, id, listed, i);
        AppendListed(listed[i]);
      }
    }

    method Stop()
      modifies this`workers
      ensures View() == Next(old(View()), Crash(id))
      ensures WorkerOf(View(), id) == Stopped
    {
      workers := workers[id := Stopped];
    }

    method TakeListing(ghost initial: bool) returns (revision: nat)
      requires WorkerOf(View(), id) == ToList(initial)
      modifies this`workers
      ensures View() == Next(old(View()), TakeList(id))
      ensures revision == Revision(log) && WorkerOf(View(), id) == Listing(revision, {}, initial)
    {
      revision := Revision(log);
      workers := workers[id := Listing(revision, {}, initial)];
    }

    method FinishListing(listed: seq<ConfigTables.Subscriber>, works: nat, ghost initial: bool) returns (ok: bool)
      requires WorkerOf(View(), id) == Listing(Revision(log), {}, initial) && IsListing(log, listed)
      modifies this`checkpoint, this`workers, this`relists, repo`history
      ensures View() == FinishedListing(old(View()), id, listed, works)
      ensures ok <==> works > |listed|
      ensures checkpoint == if ok then Some(Revision(log)) else old(checkpoint)
      ensures relists == if ok then old(relists) + {Revision(log)} else old(relists)
      ensures WorkerOf(View(), id) == if ok && initial then Watching(Revision(log)) else Stopped
    {
      ghost var st := View();
      AppendAllListed(listed, works, initial);
      AppendsLeave(st, id, listed, works, initial);
      ok := works > |listed|;
      if ok {
        StoreListRevision(Revision(log), initial);
      } else {
        Stop();
      }
    }

    /** reconcile: list, append the live version of each listed key, then store the list revision.  The
        first `calls` calls to etcd and the database succeed. */
    method Reconcile(listed: seq<ConfigTables.Subscriber>, calls: nat, ghost initial: bool) returns (ok: bool)
      requires WorkerOf(View(), id) == ToList(initial) && IsListing(log, listed)
      modifies this, repo`history
      ensures View() == Reconciled(old(View()), id, listed, calls)
      ensures ok <==> calls >= |listed| + 2
      ensures checkpoint == if ok then Some(Revision(log)) else old(checkpoint)
      ensures relists == if ok then old(relists) + {Revision(log)} else old(relists)
      ensures WorkerOf(View(), id) == if ok && initial then Watching(Revision(log)) else Stopped
      ensures Inv(old(View())) ==> Inv(View())
    {
      if Inv(View()) {
        ReconciledKeepsInv(View(), id, listed, calls);
      }
      if calls == 0 {
        Stop();
        return false;
      }
      var _ := TakeListing(initial);
      ok := FinishListing(listed, calls - 1, initial);
    }

    method StoreListRevision(revision: nat, ghost initial: bool)
      requires WorkerOf(View(), id).Listing? && WorkerOf(View(), id).revision == revision
      requires WorkerOf(View(), id).initial == initial && 1 <= revision <= Revision(log)
      requires Listed(log, revision, WorkerOf(View(), id).done)
      modifies this`checkpoint, this`workers, this`relists
      ensures View() == Next(old(View()), ListDone(id)) && checkpoint == Some(revision)
      ensures relists == old(relists) + {revision} && WorkerOf(View(), id) == if initial then Watching(revision) else Stopped
    {
      checkpoint := Some(revision);
      relists := relists + {revision};
      workers := workers[id := if initial then Watching(revision) else Stopped];
    }

    method RecordEvent(i: nat)
      requires HasNext(View(), id) && NextWatched(log, WorkerOf(View(), id).from) == i
      modifies this`workers, repo`history
      ensures View() == Next(old(View()), Record(id))
      ensures WorkerOf(View(), id) == Projection.Recorded(i + FIRST_REVISION)
    {
      if log[i].key.HsiKey? {
        var r := EventRow(log, i);
        repo.AppendHistoryWithStatus(r.subscriber, r.row, r.status);
      }
      workers := workers[id := Projection.Recorded(i + FIRST_REVISION)];
    }

    /** handleEvent for event `i`. */
    method HandleEvent(i: nat, appendWorks: bool, storeWorks: bool) returns (ok: bool)
      requires HasNext(View(), id) && NextWatched(log, WorkerOf(View(), id).from) == i
      modifies this`checkpoint, this`workers, repo`history
      ensures View() == Handled(old(View()), id, appendWorks, storeWorks)
      ensures ok <==> storeWorks && (log[i].key.HsiKey? ==> appendWorks)
      ensures WorkerOf(View(), id) == if ok then Watching(i + FIRST_REVISION) else Stopped
      ensures checkpoint == if ok then Some(i + FIRST_REVISION) else old(checkpoint)
    {
      if log[i].key.HsiKey? && !appendWorks {
        Stop();
        return false;
      }
      RecordEvent(i);
      if !storeWorks {
        Stop();
        return false;
      }
      checkpoint := Some(i + FIRST_REVISION);
      workers := workers[id := Watching(i + FIRST_REVISION)];
      ok := true;
    }

    method Meet(fate: Fate, from: nat) returns (from': nat, ended: bool)
      requires 1 <= from && WorkerOf(View(), id) == Watching(from)
      modifies this`checkpoint, this`workers, repo`history
      ensures View() == Met(old(View()), id, fate)
      ensures ended <==> !WorkerOf(View(), id).Watching?
      ensures !ended ==> from' >= 1 && WorkerOf(View(), id) == Watching(from')
    {
      from', ended := from, true;
      match fate {
        case Arrives(appendWorks, storeWorks) =>
          var i := NextWatched(log, from);
          ended := false;
          if i < |log| {
            var ok := HandleEvent(i, appendWorks, storeWorks);
            from', ended := i + FIRST_REVISION, !ok;
          }
        case Compaction =>
          workers := workers[id := ToList(false)];
        case Cancellation =>
          Stop();
      }
    }

    /** The watch loop.  It ends with the first handler error, compaction or shutdown; until then the
        events after `fromRevision` are handled one by one, in order. */
    method WatchConfigs(fromRevision: nat, fates: seq<Fate>)
      requires 1 <= fromRevision && WorkerOf(View(), id) == Watching(fromRevision)
      modifies this`checkpoint, this`workers, repo`history
      ensures View() == Watched(old(View()), id, fates)
      ensures Inv(old(View())) ==> Inv(View())
    {
      ghost var st := View();
      if Inv(st) {
        WatchedKeepsInv(st, id, fates);
      }
      var from, ended := fromRevision, false;
      for n := 0 to |fates|
        invariant View() == Watched(st, id, fates[..n])
        invariant from >= 1 && WorkerOf(View(), id) == Watching(from)
      {
        assert fates[..n + 1][..n] == fates[..n];
        from, ended := Meet(fates[n], from);
        if ended {
          WatchedStaysEnded(st, id, fates, n + 1);
          return;
        }
      }
      assert fates[..|fates|] == fates;
    }
  }
}
