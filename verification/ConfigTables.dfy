/** hsi_config_current and hsi_config_history, and the handler that records what nodes confirm. */
module ConfigTables {
  import opened Basics
  import opened Etcd
  import opened Config
  import opened VersionChain
  import Keys

  type Subscriber = (string, string)

  datatype Status = Pending | Success | Failed
  datatype Action = Upserted | Deleted | ApplyFailed

  /** `config` is `None` for a null column. */
  datatype ConfigRow = ConfigRow(
    action: Action, config: Option<Stored>, desire: string, modRevision: int,
    version: Version, updatedBy: string, updatedAt: Stamp)

  datatype HistoryRow = HistoryRow(subscriber: Subscriber, row: ConfigRow, status: Status)

  type Current = map<Subscriber, ConfigRow>

  /** In insertion order: the position stands for the serial id. */
  type History = seq<HistoryRow>

  function HsiKeyOf(s: Subscriber): Keys.Key {
    Keys.HsiKey(s.0, s.1)
  }

  predicate SameIdentity(a: HistoryRow, b: HistoryRow) {
    a.subscriber == b.subscriber && a.row.modRevision == b.row.modRevision && a.status == b.status
  }

  predicate Has(history: History, r: HistoryRow) {
    exists i | 0 <= i < |history| :: SameIdentity(history[i], r)
  }

  /** INSERT … ON CONFLICT (node, user, mod_revision, status) DO NOTHING: the first row wins. */
  function Append(history: History, r: HistoryRow): History {
    if Has(history, r) then history else history + [r]
  }

  /** INSERT … ON CONFLICT DO UPDATE … WHERE stored.mod_revision < new.mod_revision. */
  function UpsertGuarded(current: Current, s: Subscriber, row: ConfigRow): Current {
    if s !in current || current[s].modRevision < row.modRevision then current[s := row] else current
  }

  /** The success row of greatest id. */
  function LastSuccess(history: History, s: Subscriber): Option<ConfigRow> {
    if history == [] then None
    else
      var last := history[|history| - 1];
      if last.subscriber == s && last.status.Success? && last.row.action.Upserted? && last.row.config.Some? then Some(last.row)
      else LastSuccess(history[..|history| - 1], s)
  }

  /** A row the rollback could restore. */
  predicate CouldRestore(r: HistoryRow, s: Subscriber) {
    r.subscriber == s && r.status.Success? && r.row.action.Upserted? && r.row.config.Some?
  }

  predicate LatestToRestore(history: History, s: Subscriber, i: nat)
    requires i < |history|
  {
    CouldRestore(history[i], s) && forall j | i < j < |history| :: !CouldRestore(history[j], s)
  }

  /** The last success is the row of greatest id that could be restored, if there is any. */
  lemma {:induction false} LastSuccessIsTheLatest(history: History, s: Subscriber)
    ensures match LastSuccess(history, s)
      case None => forall i | 0 <= i < |history| :: !CouldRestore(history[i], s)
      case Some(row) => exists i | 0 <= i < |history| :: history[i].row == row && LatestToRestore(history, s, i)
  {
    if history != [] {
      var front, n := history[..|history| - 1], |history| - 1;
      LastSuccessIsTheLatest(front, s);
      if CouldRestore(history[n], s) {
        assert LatestToRestore(history, s, n);
      } else if LastSuccess(front, s).Some? {
        var i :| 0 <= i < |front| && front[i].row == LastSuccess(front, s).value && LatestToRestore(front, s, i);
        assert history[i].row == LastSuccess(front, s).value;
        assert LatestToRestore(history, s, i) by {
          forall j | i < j < |history| ensures !CouldRestore(history[j], s) {
            if j < n {
              assert front[j] == history[j];
            }
          }
        }
      }
    }
  }

  const FAILED_ROW := ConfigRow(ApplyFailed, None, DISCONNECT, 0, Missing, "system", Unusable)

  class ConfigRepo {
    var current: Current
    var history: History

    method UpsertCurrent(s: Subscriber, row: ConfigRow)
      modifies this`current
      ensures current == UpsertGuarded(old(current), s, row)
    {
      if s !in current || current[s].modRevision < row.modRevision {
        current := current[s := row];
      }
    }

    method AppendHistoryWithStatus(s: Subscriber, row: ConfigRow, status: Status)
      modifies this`history
      ensures history == Append(old(history), HistoryRow(s, row, status))
    {
      var r := HistoryRow(s, row, status);
      for i := 0 to |history|
        invariant history == old(history)
        invariant forall j | 0 <= j < i :: !SameIdentity(history[j], r)
      {
        if SameIdentity(history[i], r) {
          return;
        }
      }
      history := history + [r];
    }

    /** Both writes or neither. */
    method UpsertCurrentWithHistory(s: Subscriber, row: ConfigRow, status: Status, commits: bool) returns (ok: bool)
      modifies this
      ensures ok == commits
      ensures current == if ok then UpsertGuarded(old(current), s, row) else old(current)
      ensures history == if ok then Append(old(history), HistoryRow(s, row, status)) else old(history)
    {
      var savedCurrent, savedHistory := current, history;
      UpsertCurrent(s, row);
      AppendHistoryWithStatus(s, row, status);
      if !commits {
        current, history := savedCurrent, savedHistory;
      }
      ok := commits;
    }

    /** ORDER BY id DESC LIMIT 1. */
    method GetLastSuccessfulConfig(s: Subscriber) returns (found: Option<ConfigRow>)
      ensures found == LastSuccess(history, s)
    {
      var i := |history|;
      assert history[..i] == history;
      while i > 0
        invariant 0 <= i <= |history| && LastSuccess(history, s) == LastSuccess(history[..i], s)
      {
        var r := history[i - 1];
        assert history[..i][..i - 1] == history[..i - 1];
        if r.subscriber == s && r.status.Success? && r.row.action.Upserted? && r.row.config.Some? {
          return Some(r.row);
        }
        i := i - 1;
      }
      found := None;
    }

    method RollbackToLastSuccessful(s: Subscriber)
      modifies this`history
      ensures history == Append(old(history), HistoryRow(s, FAILED_ROW, Failed))
    {
      AppendHistoryWithStatus(s, FAILED_ROW, Failed);
    }
  }

  // ----- what a node confirms -----

  /** What etcd held for `key` at `revision`. */
  function HeldAt(log: ConfigLog, key: Keys.Key, revision: nat): Option<Entry<Stored>>
    requires 1 <= revision <= Revision(log)
  {
    Lookup(log[..revision - 1], key)
  }

  datatype Confirmed = Confirmed(value: Stored, modRevision: int)

  /** readConfirmedConfig.  A revision etcd has not reached is an error like any other outage, retried
      without effect; both read as "nothing to record". */
  function ReadConfirmed(log: ConfigLog, key: Keys.Key, attested: int, compacted: bool): Option<Confirmed> {
    if attested <= 0 then
      match Lookup(log, key) case None => None case Some(e) => Some(Confirmed(e.value, e.modRevision))
    else if attested > Revision(log) then None
    else
      match if compacted then Lookup(log, key) else HeldAt(log, key, attested)
      case None => None
      case Some(e) => Some(Confirmed(e.value, attested))
  }

  function ConfirmedRow(c: Confirmed, eventTime: int): ConfigRow {
    ConfigRow(Upserted, Some(c.value), "", c.modRevision, Missing, "node", Utc(eventTime))
  }

  datatype State = State(log: ConfigLog, current: Current, history: History)

  datatype Step =
    | EtcdWrites(e: Event<Keys.Key, Stored, Request>)
    | ApplyOk(s: Subscriber, attested: int, eventTime: int, compacted: bool)
    | OtherHistory(r: HistoryRow)   // pending and failed rows, by the projection and by failure reports

  function Next(st: State, step: Step): State {
    match step
    case EtcdWrites(e) => st.(log := st.log + [e])
    case OtherHistory(r) => if r.status.Success? then st else st.(history := Append(st.history, r))
    case ApplyOk(s, attested, eventTime, compacted) =>
      match ReadConfirmed(st.log, HsiKeyOf(s), attested, compacted)
      case None => st
      case Some(c) =>
        var row := ConfirmedRow(c, eventTime);
        st.(current := UpsertGuarded(st.current, s, row), history := Append(st.history, HistoryRow(s, row, Success)))
  }

  function Run(steps: seq<Step>): State {
    if steps == [] then State([], map[], []) else Next(Run(steps[..|steps| - 1]), steps[|steps| - 1])
  }

  predicate IsSuccessOf(r: HistoryRow, s: Subscriber) {
    r.subscriber == s && r.status.Success?
  }

  /** The current row is the success row of greatest mod_revision; there is one exactly when the
      subscriber has ever been confirmed. */
  ghost predicate CurrentIsGreatest(st: State, s: Subscriber) {
    && (s in st.current ==>
      && (exists i | 0 <= i < |st.history| :: st.history[i] == HistoryRow(s, st.current[s], Success))
      && forall i | 0 <= i < |st.history| && IsSuccessOf(st.history[i], s) :: st.history[i].row.modRevision <= st.current[s].modRevision)
    && (s !in st.current ==> forall i | 0 <= i < |st.history| :: !IsSuccessOf(st.history[i], s))
  }

  lemma ApplyOkKeepsGreatest(current: Current, history: History, log: ConfigLog, s: Subscriber, t: Subscriber, row: ConfigRow)
    requires CurrentIsGreatest(State(log, current, history), s)
    ensures CurrentIsGreatest(State(log, UpsertGuarded(current, t, row), Append(history, HistoryRow(t, row, Success))), s)
  {
    var r := HistoryRow(t, row, Success);
    var after := Append(history, r);
    if s in current {
      var i :| 0 <= i < |history| && history[i] == HistoryRow(s, current[s], Success);
      assert after[i] == HistoryRow(s, current[s], Success);
    }
    if !Has(history, r) {
      assert after[|history|] == r;
    } else if s == t {
      var i :| 0 <= i < |history| && SameIdentity(history[i], r);
      assert IsSuccessOf(history[i], s);
    }
  }

  /** For any order and multiplicity of confirmations, with etcd written to and compacted in between. */
  lemma {:induction false} CurrentIsGreatestSuccess(steps: seq<Step>, s: Subscriber)
    ensures CurrentIsGreatest(Run(steps), s)
  {
    if steps != [] {
      CurrentIsGreatestSuccess(steps[..|steps| - 1], s);
      var st, step := Run(steps[..|steps| - 1]), steps[|steps| - 1];
      match step
      case EtcdWrites(_) =>
      case OtherHistory(r) =>
        var after := Append(st.history, r);
        assert forall i | 0 <= i < |st.history| :: after[i] == st.history[i];
      case ApplyOk(t, attested, eventTime, compacted) =>
        var c := ReadConfirmed(st.log, HsiKeyOf(t), attested, compacted);
        if c.Some? {
          ApplyOkKeepsGreatest(st.current, st.history, st.log, s, t, ConfirmedRow(c.value, eventTime));
        }
    }
  }

  lemma ConfirmedRevisionNeverDecreases(st: State, step: Step, s: Subscriber)
    requires s in st.current
    ensures s in Next(st, step).current && st.current[s].modRevision <= Next(st, step).current[s].modRevision
  {
  }

  ghost predicate NoCompaction(steps: seq<Step>) {
    forall i | 0 <= i < |steps| && steps[i].ApplyOk? :: !steps[i].compacted
  }

  /** The row's content is what etcd held for the subscriber at the row's revision. */
  ghost predicate Genuine(log: ConfigLog, s: Subscriber, row: ConfigRow) {
    && 1 <= row.modRevision <= Revision(log)
    && HeldAt(log, HsiKeyOf(s), row.modRevision).Some?
    && row.config == Some(HeldAt(log, HsiKeyOf(s), row.modRevision).value.value)
  }

  lemma GenuineStays(log: ConfigLog, e: Event<Keys.Key, Stored, Request>, s: Subscriber, row: ConfigRow)
    requires Genuine(log, s, row)
    ensures Genuine(log + [e], s, row)
  {
    assert (log + [e])[..row.modRevision - 1] == log[..row.modRevision - 1];
  }

  lemma ReadingIsGenuine(log: ConfigLog, s: Subscriber, attested: int, eventTime: int)
    requires ReadConfirmed(log, HsiKeyOf(s), attested, false).Some?
    ensures Genuine(log, s, ConfirmedRow(ReadConfirmed(log, HsiKeyOf(s), attested, false).value, eventTime))
  {
    if attested <= 0 {
      assert log[..|log|] == log;
      LookupIsLive(log, HsiKeyOf(s), |log|);
      var at := Lookup(log, HsiKeyOf(s)).value.modRevision - FIRST_REVISION;
      LiveIsLatest(log, HsiKeyOf(s), at + 1, at);
    }
  }

  /** Without compaction every current row is genuine: a config pushed after the node reported is never
      mistaken for one it applied. */
  lemma {:induction false} CurrentIsGenuine(steps: seq<Step>, s: Subscriber)
    requires NoCompaction(steps)
    ensures s in Run(steps).current ==> Genuine(Run(steps).log, s, Run(steps).current[s])
  {
    if steps != [] {
      var front, step := steps[..|steps| - 1], steps[|steps| - 1];
      assert NoCompaction(front);
      CurrentIsGenuine(front, s);
      var st := Run(front);
      match step
      case EtcdWrites(e) => if s in st.current { GenuineStays(st.log, e, s, st.current[s]); }
      case OtherHistory(_) =>
      case ApplyOk(t, attested, eventTime, compacted) =>
        assert !steps[|steps| - 1].compacted;
        if ReadConfirmed(st.log, HsiKeyOf(t), attested, false).Some? {
          ReadingIsGenuine(st.log, t, attested, eventTime);
        }
    }
  }

  /** A confirmation of `s` among the steps gave this row: by its event time, and at the attested revision
      if the node attested one. */
  ghost predicate Reported(steps: seq<Step>, s: Subscriber, row: ConfigRow) {
    exists i | 0 <= i < |steps| :: ReportedBy(steps[i], s, row)
  }

  predicate ReportedBy(step: Step, s: Subscriber, row: ConfigRow) {
    && step.ApplyOk? && step.s == s
    && row.updatedAt == Utc(step.eventTime) && row.updatedBy == "node" && row.action.Upserted?
    && (step.attested > 0 ==> row.modRevision == step.attested)
  }

  /** Every current row is one that the subscriber's own node reported. */
  lemma {:induction false} CurrentIsReported(steps: seq<Step>, s: Subscriber)
    ensures s in Run(steps).current ==> Reported(steps, s, Run(steps).current[s])
  {
    if steps != [] {
      var front, step := steps[..|steps| - 1], steps[|steps| - 1];
      CurrentIsReported(front, s);
      if s in Run(steps).current {
        var row := Run(steps).current[s];
        if s in Run(front).current && Run(front).current[s] == row {
          var i :| 0 <= i < |front| && ReportedBy(front[i], s, row);
          assert ReportedBy(steps[i], s, row);
        } else {
          assert ReportedBy(steps[|steps| - 1], s, row);
        }
      }
    }
  }

  /** The rollback's "last success" is the row of greatest id, not of greatest revision.  One
      confirmation makes the two agree exactly when it is newer than the current row, or is a repeat
      and they agreed already. */
  lemma LastSuccessAgreesExactlyWhen(st: State, s: Subscriber, c: Confirmed, eventTime: int)
    requires CurrentIsGreatest(st, s)
    ensures
      var row := ConfirmedRow(c, eventTime);
      var r := HistoryRow(s, row, Success);
      var current, history := UpsertGuarded(st.current, s, row), Append(st.history, r);
      LastSuccess(history, s) == Some(current[s]) <==>
        (if Has(st.history, r) then s in st.current && LastSuccess(st.history, s) == Some(st.current[s])
         else s !in st.current || st.current[s].modRevision < c.modRevision)
  {
    var row := ConfirmedRow(c, eventTime);
    var r := HistoryRow(s, row, Success);
    if Has(st.history, r) {
      var i :| 0 <= i < |st.history| && SameIdentity(st.history[i], r);
      assert IsSuccessOf(st.history[i], s);
    } else if s in st.current {
      var i :| 0 <= i < |st.history| && st.history[i] == HistoryRow(s, st.current[s], Success);
      assert SameIdentity(st.history[i], r) <==> st.current[s].modRevision == c.modRevision;
    }
  }

  lemma RunSnoc(steps: seq<Step>, step: Step)
    ensures Run(steps + [step]) == Next(Run(steps), step)
  {
    assert (steps + [step])[..|steps|] == steps;
  }

  /** They do part: two writes at revisions 2 and 3, confirmed newest first, leave the second row
      current and the first one the last success by id. */
  lemma ConfirmedOutOfOrder(s: Subscriber, e2: Event<Keys.Key, Stored, Request>, e3: Event<Keys.Key, Stored, Request>, t: int, u: int)
    requires e2.key == HsiKeyOf(s) == e3.key && e2.op.Put? && e3.op.Put?
    ensures var st := Run([EtcdWrites(e2), EtcdWrites(e3), ApplyOk(s, 3, t, false), ApplyOk(s, 2, u, false)]);
      && s in st.current && st.current[s] == ConfirmedRow(Confirmed(e3.op.value, 3), t)
      && LastSuccess(st.history, s) == Some(ConfirmedRow(Confirmed(e2.op.value, 2), u))
  {
    var log := [e2, e3];
    assert log[..1] == [e2] && log[..2] == log && [e2][..0] == [];
    assert HeldAt(log, HsiKeyOf(s), 2) == Some(Entry(e2.op.value, 2));
    assert HeldAt(log, HsiKeyOf(s), 3) == Some(Entry(e3.op.value, 3));
    var newer, older := ConfirmedRow(Confirmed(e3.op.value, 3), t), ConfirmedRow(Confirmed(e2.op.value, 2), u);
    RunSnoc([], EtcdWrites(e2));
    RunSnoc([EtcdWrites(e2)], EtcdWrites(e3));
    assert [] + [e2] == [e2] && [e2] + [e3] == log && [] + [EtcdWrites(e2)] == [EtcdWrites(e2)];
    assert [EtcdWrites(e2)] + [EtcdWrites(e3)] == [EtcdWrites(e2), EtcdWrites(e3)];
    assert Run([EtcdWrites(e2), EtcdWrites(e3)]) == State(log, map[], []);
    BothConfirmed(State(log, map[], []), s, newer, older);
    RunSnoc([EtcdWrites(e2), EtcdWrites(e3)], ApplyOk(s, 3, t, false));
    RunSnoc([EtcdWrites(e2), EtcdWrites(e3), ApplyOk(s, 3, t, false)], ApplyOk(s, 2, u, false));
    assert [EtcdWrites(e2), EtcdWrites(e3)] + [ApplyOk(s, 3, t, false)] == [EtcdWrites(e2), EtcdWrites(e3), ApplyOk(s, 3, t, false)];
    assert [EtcdWrites(e2), EtcdWrites(e3), ApplyOk(s, 3, t, false)] + [ApplyOk(s, 2, u, false)] ==
      [EtcdWrites(e2), EtcdWrites(e3), ApplyOk(s, 3, t, false), ApplyOk(s, 2, u, false)];
  }

  lemma BothConfirmed(empty: State, s: Subscriber, newer: ConfigRow, older: ConfigRow)
    requires empty.current == map[] && empty.history == [] && older.modRevision < newer.modRevision
    requires older.action.Upserted? && older.config.Some?
    ensures var history := Append([], HistoryRow(s, newer, Success));
      && history == [HistoryRow(s, newer, Success)]
      && Append(history, HistoryRow(s, older, Success)) == [HistoryRow(s, newer, Success), HistoryRow(s, older, Success)]
      && LastSuccess([HistoryRow(s, newer, Success), HistoryRow(s, older, Success)], s) == Some(older)
    ensures UpsertGuarded(UpsertGuarded(empty.current, s, newer), s, older) == map[s := newer]
  {
    assert !Has([], HistoryRow(s, newer, Success));
    assert [] + [HistoryRow(s, newer, Success)] == [HistoryRow(s, newer, Success)];
    assert !Has([HistoryRow(s, newer, Success)], HistoryRow(s, older, Success));
  }

  // ----- failures -----

  predicate IsFailureOf(r: HistoryRow, s: Subscriber) {
    r.subscriber == s && r.status.Failed? && r.row.modRevision == 0
  }

  function Failures(history: History, s: Subscriber): nat {
    if history == [] then 0
    else Failures(history[..|history| - 1], s) + if IsFailureOf(history[|history| - 1], s) then 1 else 0
  }

  /** RollbackToLastSuccessful, once per reported failure, with other rows appended at will. */
  datatype Report = Failure(s: Subscriber) | OtherRow(r: HistoryRow)

  function AfterReports(history: History, reports: seq<Report>): History {
    if reports == [] then history
    else
      var before := AfterReports(history, reports[..|reports| - 1]);
      match reports[|reports| - 1]
      case Failure(s) => Append(before, HistoryRow(s, FAILED_ROW, Failed))
      case OtherRow(r) => if r.status.Failed? then before else Append(before, r)
  }

  lemma {:induction false} NoFailureExactlyWhen(history: History, s: Subscriber)
    ensures Failures(history, s) == 0 <==> !Has(history, HistoryRow(s, FAILED_ROW, Failed))
  {
    if history != [] {
      var front, r := history[..|history| - 1], HistoryRow(s, FAILED_ROW, Failed);
      NoFailureExactlyWhen(front, s);
      assert Has(history, r) <==> Has(front, r) || SameIdentity(history[|history| - 1], r) by {
        assert forall i | 0 <= i < |front| :: front[i] == history[i];
      }
    }
  }

  lemma FailuresAppend(history: History, r: HistoryRow, s: Subscriber)
    ensures Failures(history + [r], s) == Failures(history, s) + if IsFailureOf(r, s) then 1 else 0
  {
    assert (history + [r])[..|history|] == history;
  }

  /** Recording a failure adds a row exactly when the subscriber has none at revision 0 yet. */
  lemma FailureAddsRowExactlyWhen(history: History, s: Subscriber)
    ensures var after := Append(history, HistoryRow(s, FAILED_ROW, Failed));
      after == history + [HistoryRow(s, FAILED_ROW, Failed)] <==> Failures(history, s) == 0
  {
    NoFailureExactlyWhen(history, s);
    assert |history + [HistoryRow(s, FAILED_ROW, Failed)]| == |history| + 1;
  }

  predicate Reports(reports: seq<Report>, s: Subscriber) {
    exists i | 0 <= i < |reports| :: reports[i] == Failure(s)
  }

  /** However many failures of a subscriber are reported, and whatever else is appended in between,
      the history keeps exactly one of them: the first. */
  lemma {:induction false} OnlyFirstFailureIsKept(history: History, reports: seq<Report>, s: Subscriber)
    requires Failures(history, s) == 0
    ensures Failures(AfterReports(history, reports), s) == if Reports(reports, s) then 1 else 0
  {
    if reports != [] {
      var front, last := reports[..|reports| - 1], reports[|reports| - 1];
      OnlyFirstFailureIsKept(history, front, s);
      var before := AfterReports(history, front);
      assert Reports(reports, s) <==> Reports(front, s) || last == Failure(s) by {
        assert forall i | 0 <= i < |front| :: front[i] == reports[i];
      }
      var r := if last.Failure? then HistoryRow(last.s, FAILED_ROW, Failed) else last.r;
      FailuresAppend(before, r, s);
      NoFailureExactlyWhen(before, s);
    }
  }
}
