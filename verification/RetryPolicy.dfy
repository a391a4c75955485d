/** What the consumer does with one message that keeps failing: wait out an outage for as long as it
    lasts, count every other failure, and dead-letter at the fifth. */
module RetryPolicy {
  import opened Basics

  const MAX_RETRIES: nat := 5
  const INFRA_INITIAL_S: int := 2
  const INFRA_MAX_S: int := 30
  const RETRY_INITIAL_NS: int := 100_000_000

  /** An error as the handler wraps it; the SQLSTATE is missing when the server never answered. */
  datatype Failure = Database(sqlState: Option<string>) | Etcd | Unwrapped

  datatype Outcome = Ok | Err(failure: Failure)

  predicate HasPrefix(s: string, prefix: string) {
    |prefix| <= |s| && s[..|prefix|] == prefix
  }

  predicate TransientSqlState(code: string) {
    || code == "40001" || code == "40P01"
    || HasPrefix(code, "08") || HasPrefix(code, "53") || HasPrefix(code, "57")
  }

  predicate IsDatabaseUnavailable(f: Failure) {
    f.Database? && (f.sqlState.None? || TransientSqlState(f.sqlState.value))
  }

  predicate IsInfra(f: Failure) {
    IsDatabaseUnavailable(f) || f.Etcd?
  }

  predicate Outage(o: Outcome) {
    o.Err? && IsInfra(o.failure)
  }

  /** A failure that counts. */
  predicate Strike(o: Outcome) {
    o.Err? && !IsInfra(o.failure)
  }

  // ----- the policy, as functions of the outcomes so far -----

  function Strikes(outcomes: seq<Outcome>): nat {
    if outcomes == [] then 0
    else Strikes(outcomes[..|outcomes| - 1]) + if Strike(outcomes[|outcomes| - 1]) then 1 else 0
  }

  /** How many outages in a row end the sequence. */
  function Streak(outcomes: seq<Outcome>): nat {
    if outcomes == [] || !Outage(outcomes[|outcomes| - 1]) then 0 else 1 + Streak(outcomes[..|outcomes| - 1])
  }

  /** `Undecided` means shutdown came first. */
  datatype Verdict = Undecided | Settled | Exhausted

  function VerdictOf(outcomes: seq<Outcome>): Verdict {
    if outcomes == [] then Undecided
    else
      var before := VerdictOf(outcomes[..|outcomes| - 1]);
      if before != Undecided then before
      else if outcomes[|outcomes| - 1].Ok? then Settled
      else if Strikes(outcomes) >= MAX_RETRIES then Exhausted
      else Undecided
  }

  datatype Pause = Seconds(s: int) | Nanoseconds(ns: int)

  function Pow(b: nat, k: nat): nat {
    if k == 0 then 1 else b * Pow(b, k - 1)
  }

  function InfraDelay(k: nat): int {
    Min(INFRA_INITIAL_S * Pow(2, k), INFRA_MAX_S)
  }

  /** Half as long again each time, truncated to whole nanoseconds. */
  function RetryDelay(k: nat): int {
    if k == 0 then RETRY_INITIAL_NS else RetryDelay(k - 1) * 3 / 2
  }

  /** The pause that follows the last of `outcomes`, a failure that did not decide. */
  function PauseAfter(outcomes: seq<Outcome>): Pause
    requires outcomes != []
  {
    var front := outcomes[..|outcomes| - 1];
    if Outage(outcomes[|outcomes| - 1]) then Seconds(InfraDelay(Streak(front))) else Nanoseconds(RetryDelay(Strikes(front)))
  }

  function Pauses(outcomes: seq<Outcome>): seq<Pause> {
    if outcomes == [] then []
    else
      Pauses(outcomes[..|outcomes| - 1]) + if VerdictOf(outcomes) == Undecided then [PauseAfter(outcomes)] else []
  }

  // ----- the loops -----

  /** `waits` counts the waits handed out since the start or the last reset. */
  class InfraRetryBackoff {
    var current: int
    ghost var waits: nat

    ghost predicate Valid()
      reads this
    {
      current == InfraDelay(waits)
    }

    constructor ()
      ensures Valid() && waits == 0
    {
      current, waits := INFRA_INITIAL_S, 0;
    }

    /** The wait handed out k-th, from 0, is min(2 * 2^k, 30) seconds. */
    method Next() returns (delay: int)
      requires Valid()
      modifies this
      ensures Valid() && waits == old(waits) + 1
      ensures delay == InfraDelay(old(waits))
    {
      InfraDelayDoubles(waits);
      delay := current;
      current := Min(current * 2, INFRA_MAX_S);
      waits := waits + 1;
    }

    method Reset()
      modifies this
      ensures Valid() && waits == 0
    {
      current, waits := INFRA_INITIAL_S, 0;
    }
  }

  lemma InfraDelayDoubles(k: nat)
    ensures InfraDelay(k + 1) == Min(InfraDelay(k) * 2, INFRA_MAX_S)
  {
  }

  lemma FirstDecisionStands(outcomes: seq<Outcome>, n: nat)
    requires n <= |outcomes| && VerdictOf(outcomes[..n]) != Undecided
    ensures VerdictOf(outcomes) == VerdictOf(outcomes[..n]) && Pauses(outcomes) == Pauses(outcomes[..n])
    decreases |outcomes|
  {
    if n < |outcomes| {
      assert outcomes[..|outcomes| - 1][..n] == outcomes[..n];
      FirstDecisionStands(outcomes[..|outcomes| - 1], n);
    } else {
      assert outcomes[..n] == outcomes;
    }
  }

  /** The attempt loop.  `outcomes` is what the handler would answer, attempt by attempt, until the
      consumer is shut down; the loop reads only the first `used` of them. */
  method AttemptUntilDecided(outcomes: seq<Outcome>) returns (failed: bool, used: nat, pauses: seq<Pause>)
    ensures used <= |outcomes| && VerdictOf(outcomes) == VerdictOf(outcomes[..used])
    ensures VerdictOf(outcomes) != Undecided ==> 0 < used && VerdictOf(outcomes[..used - 1]) == Undecided
    ensures VerdictOf(outcomes) != Undecided ==> failed == VerdictOf(outcomes).Exhausted?
    ensures pauses == Pauses(outcomes)
  {
    var infraBackoff := new InfraRetryBackoff();
    var attempt, backoff := 1, RETRY_INITIAL_NS;
    failed, used, pauses := false, 0, [];
    while used < |outcomes|
      invariant used <= |outcomes| && VerdictOf(outcomes[..used]) == Undecided
      invariant attempt == 1 + Strikes(outcomes[..used]) && attempt <= MAX_RETRIES
      invariant backoff == RetryDelay(attempt - 1)
      invariant infraBackoff.Valid() && infraBackoff.waits == Streak(outcomes[..used])
      invariant fresh(infraBackoff)
      invariant pauses == Pauses(outcomes[..used])
    {
      var outcome := outcomes[used];
      assert outcomes[..used + 1][..used] == outcomes[..used];
      used := used + 1;
      if outcome.Ok? {
        failed := false;
        FirstDecisionStands(outcomes, used);
        return;
      }
      failed := true;
      if IsInfra(outcome.failure) {
        var delay := infraBackoff.Next();
        pauses := pauses + [Seconds(delay)];
      } else {
        infraBackoff.Reset();
        if attempt >= MAX_RETRIES {
          FirstDecisionStands(outcomes, used);
          return;
        }
        pauses := pauses + [Nanoseconds(backoff)];
        backoff := backoff * 3 / 2;
        attempt := attempt + 1;
      }
    }
    assert outcomes[..used] == outcomes;
  }

  /** `tries` is what the insert would answer until shutdown.  Without a database nothing is stored and
      nothing is waited for. */
  method WaitAndSendToDLQ(tries: seq<bool>, hasDatabase: bool) returns (stored: bool, shutdown: bool)
    ensures stored <==> hasDatabase && true in tries
    ensures shutdown <==> hasDatabase && true !in tries
  {
    if !hasDatabase {
      return false, false;
    }
    for i := 0 to |tries|
      invariant true !in tries[..i]
    {
      if tries[i] {
        return true, false;
      }
    }
    assert tries[..|tries|] == tries;
    return false, true;
  }

  /** The offset of the message is handed over. */
  predicate Acknowledges(outcomes: seq<Outcome>, tries: seq<bool>, hasDatabase: bool, stopsAfter: bool) {
    && !stopsAfter
    && (VerdictOf(outcomes).Settled? || (VerdictOf(outcomes).Exhausted? && (hasDatabase ==> true in tries)))
  }

  predicate DeadLetters(outcomes: seq<Outcome>, tries: seq<bool>, hasDatabase: bool) {
    VerdictOf(outcomes).Exhausted? && hasDatabase && true in tries
  }

  method HandleOne(outcomes: seq<Outcome>, tries: seq<bool>, hasDatabase: bool, stopsAfter: bool)
    returns (goOn: bool, deadLettered: bool, pauses: seq<Pause>)
    ensures goOn == Acknowledges(outcomes, tries, hasDatabase, stopsAfter)
    ensures deadLettered == DeadLetters(outcomes, tries, hasDatabase)
    ensures pauses == Pauses(outcomes)
  {
    var failed, used;
    failed, used, pauses := AttemptUntilDecided(outcomes);
    if VerdictOf(outcomes) == Undecided {
      return false, false, pauses;
    }
    var shutdown := false;
    deadLettered := false;
    if failed {
      deadLettered, shutdown := WaitAndSendToDLQ(tries, hasDatabase);
    }
    goOn := !shutdown && !stopsAfter;
  }

  // ----- what the policy promises -----

  /** A failure of the handler counts exactly when it is no etcd failure and, if it is the database's, the
      server answered and the answer is neither a connection, resource or operator class of SQLSTATE nor
      one of the two transaction conflicts. */
  lemma FailureCountsExactlyWhen(f: Failure)
    ensures Strike(Err(f)) <==>
      f.Unwrapped? || (f.Database? && f.sqlState.Some? && var code := f.sqlState.value;
        && code !in {"40001", "40P01"}
        && (|code| >= 2 ==> code[..2] !in {"08", "53", "57"}))
  {
  }

  predicate NoSuccess(outcomes: seq<Outcome>) {
    forall i | 0 <= i < |outcomes| :: !outcomes[i].Ok?
  }

  lemma {:induction false} UndecidedExactlyWhen(outcomes: seq<Outcome>)
    ensures VerdictOf(outcomes) == Undecided <==> NoSuccess(outcomes) && Strikes(outcomes) < MAX_RETRIES
  {
    if outcomes != [] {
      var front := outcomes[..|outcomes| - 1];
      UndecidedExactlyWhen(front);
      assert NoSuccess(outcomes) <==> NoSuccess(front) && !outcomes[|outcomes| - 1].Ok?;
    }
  }

  /** Dead-lettering begins at attempt `i` exactly when that attempt is the fifth failure that counts,
      with no success before it. */
  lemma {:induction false} DeadLetteringBeginsExactlyAt(outcomes: seq<Outcome>, i: nat)
    requires i < |outcomes|
    ensures VerdictOf(outcomes[..i]) == Undecided && VerdictOf(outcomes[..i + 1]).Exhausted? <==>
      Strike(outcomes[i]) && Strikes(outcomes[..i]) == 4 && NoSuccess(outcomes[..i])
  {
    assert outcomes[..i + 1][..i] == outcomes[..i];
    UndecidedExactlyWhen(outcomes[..i]);
  }

  predicate FailedUpTo(outcomes: seq<Outcome>, n: nat)
    requires n <= |outcomes|
  {
    NoSuccess(outcomes[..n]) && Strikes(outcomes[..n]) >= 5
  }

  /** At some moment there had been no success and five failures that count. */
  ghost predicate FiveFailuresFirst(outcomes: seq<Outcome>) {
    exists n | 0 <= n <= |outcomes| :: FailedUpTo(outcomes, n)
  }

  lemma FiveFailuresInFrontOrWhole(outcomes: seq<Outcome>)
    requires outcomes != []
    ensures FiveFailuresFirst(outcomes) <==>
      FiveFailuresFirst(outcomes[..|outcomes| - 1]) || (NoSuccess(outcomes) && Strikes(outcomes) >= 5)
  {
    var front := outcomes[..|outcomes| - 1];
    assert FailedUpTo(outcomes, |outcomes|) <==> NoSuccess(outcomes) && Strikes(outcomes) >= 5 by {
      assert outcomes[..|outcomes|] == outcomes;
    }
    forall n: nat | n <= |front| ensures FailedUpTo(front, n) <==> FailedUpTo(outcomes, n) {
      assert front[..n] == outcomes[..n];
    }
  }

  lemma {:induction false} NeverSettled(outcomes: seq<Outcome>)
    requires NoSuccess(outcomes)
    ensures !VerdictOf(outcomes).Settled?
  {
    if outcomes != [] {
      assert forall i | 0 <= i < |outcomes| - 1 :: outcomes[..|outcomes| - 1][i] == outcomes[i];
      NeverSettled(outcomes[..|outcomes| - 1]);
    }
  }

  /** A message is given up exactly when five counted failures come before any success. */
  lemma {:induction false} ExhaustedExactlyWhen(outcomes: seq<Outcome>)
    ensures VerdictOf(outcomes).Exhausted? <==> FiveFailuresFirst(outcomes)
  {
    if outcomes != [] {
      var front := outcomes[..|outcomes| - 1];
      ExhaustedExactlyWhen(front);
      UndecidedExactlyWhen(front);
      UndecidedExactlyWhen(outcomes);
      FiveFailuresInFrontOrWhole(outcomes);
      if NoSuccess(outcomes) {
        NeverSettled(outcomes);
      }
    }
  }

  /** Attempt `i` is the first success, and comes before the fifth failure that counts. */
  predicate SucceedsAt(outcomes: seq<Outcome>, i: nat)
    requires i < |outcomes|
  {
    outcomes[i].Ok? && NoSuccess(outcomes[..i]) && Strikes(outcomes[..i]) < 5
  }

  ghost predicate SucceedsInTime(outcomes: seq<Outcome>) {
    exists i | 0 <= i < |outcomes| :: SucceedsAt(outcomes, i)
  }

  lemma SucceedsInFrontOrLast(outcomes: seq<Outcome>)
    requires outcomes != []
    ensures SucceedsInTime(outcomes) <==>
      SucceedsInTime(outcomes[..|outcomes| - 1]) || SucceedsAt(outcomes, |outcomes| - 1)
  {
    var front := outcomes[..|outcomes| - 1];
    forall i: nat | i < |front| ensures SucceedsAt(front, i) <==> SucceedsAt(outcomes, i) {
      assert front[..i] == outcomes[..i];
    }
  }

  lemma {:induction false} SettledExactlyWhen(outcomes: seq<Outcome>)
    ensures VerdictOf(outcomes).Settled? <==> SucceedsInTime(outcomes)
  {
    if outcomes != [] {
      var front := outcomes[..|outcomes| - 1];
      SettledExactlyWhen(front);
      UndecidedExactlyWhen(front);
      SucceedsInFrontOrLast(outcomes);
      if VerdictOf(front).Exhausted? && SucceedsAt(outcomes, |outcomes| - 1) {
        UndecidedExactlyWhen(front);
      }
    }
  }

  /** An offset is handed over exactly when the consumer is not shutting down and the message either
      succeeded in time, or failed five times first and was stored, or could not be for want of a
      database. */
  lemma HandedOverExactlyWhen(outcomes: seq<Outcome>, tries: seq<bool>, hasDatabase: bool, stopsAfter: bool)
    ensures Acknowledges(outcomes, tries, hasDatabase, stopsAfter) <==>
      !stopsAfter && (SucceedsInTime(outcomes) || (FiveFailuresFirst(outcomes) && (true in tries || !hasDatabase)))
    ensures DeadLetters(outcomes, tries, hasDatabase) <==> FiveFailuresFirst(outcomes) && true in tries && hasDatabase
  {
    SettledExactlyWhen(outcomes);
    ExhaustedExactlyWhen(outcomes);
  }

  function WithoutOutages(outcomes: seq<Outcome>): seq<Outcome> {
    if outcomes == [] then []
    else
      WithoutOutages(outcomes[..|outcomes| - 1]) +
      if Outage(outcomes[|outcomes| - 1]) then [] else [outcomes[|outcomes| - 1]]
  }

  /** Outages never use up an attempt: the verdict is what it would be had none of them happened. */
  lemma {:induction false} OutagesNeverCount(outcomes: seq<Outcome>)
    ensures VerdictOf(outcomes) == VerdictOf(WithoutOutages(outcomes))
    ensures Strikes(outcomes) == Strikes(WithoutOutages(outcomes))
  {
    if outcomes != [] {
      var front, last := outcomes[..|outcomes| - 1], outcomes[|outcomes| - 1];
      OutagesNeverCount(front);
      UndecidedExactlyWhen(front);
      var kept := WithoutOutages(outcomes);
      if !Outage(last) {
        assert kept[..|kept| - 1] == WithoutOutages(front);
      } else {
        assert kept == WithoutOutages(front);
      }
    }
  }

  /** The loop ends however long the outages last: five attempts outside them always decide. */
  lemma {:induction false} FiveAttemptsDecide(outcomes: seq<Outcome>)
    requires |WithoutOutages(outcomes)| >= 5
    ensures VerdictOf(outcomes) != Undecided
  {
    OutagesNeverCount(outcomes);
    UndecidedExactlyWhen(WithoutOutages(outcomes));
    if NoSuccess(WithoutOutages(outcomes)) {
      AllStrikes(outcomes);
    }
  }

  lemma {:induction false} AllStrikes(outcomes: seq<Outcome>)
    requires NoSuccess(WithoutOutages(outcomes))
    ensures Strikes(WithoutOutages(outcomes)) == |WithoutOutages(outcomes)|
  {
    if outcomes != [] {
      var kept, front := WithoutOutages(outcomes), WithoutOutages(outcomes[..|outcomes| - 1]);
      assert forall i | 0 <= i < |front| :: kept[i] == front[i];
      AllStrikes(outcomes[..|outcomes| - 1]);
      if kept != front {
        assert kept[..|kept| - 1] == front;
        assert !kept[|kept| - 1].Ok?;
      }
    }
  }

  ghost predicate OutageFromTo(outcomes: seq<Outcome>, i: nat, j: nat) {
    i <= j <= |outcomes| && forall k | i <= k < j :: Outage(outcomes[k])
  }

  lemma {:induction false} StreakCounts(outcomes: seq<Outcome>, i: nat, k: nat)
    requires OutageFromTo(outcomes, i, i + k) && (i > 0 ==> !Outage(outcomes[i - 1]))
    ensures Streak(outcomes[..i + k]) == k
    decreases k
  {
    assert i + k > 0 ==> outcomes[..i + k][..i + k - 1] == outcomes[..i + k - 1];
    if k > 0 {
      StreakCounts(outcomes, i, k - 1);
    }
  }

  lemma {:induction false} OnePausePerAttempt(outcomes: seq<Outcome>, n: nat)
    requires n < |outcomes| && VerdictOf(outcomes) == Undecided
    ensures |Pauses(outcomes)| == |outcomes| && Pauses(outcomes)[n] == PauseAfter(outcomes[..n + 1])
    decreases |outcomes|
  {
    var front := outcomes[..|outcomes| - 1];
    if |front| > 0 {
      OnePausePerAttempt(front, if n < |front| then n else 0);
    }
    if n < |front| {
      assert outcomes[..n + 1] == front[..n + 1];
    } else {
      assert outcomes[..n + 1] == outcomes;
    }
  }

  /** The pause after consecutive outage number `k`, from 0, is min(2 * 2^k, 30) seconds: 2, 4, 8, 16
      and then 30, starting over after any other failure. */
  lemma OutagePauses(outcomes: seq<Outcome>, i: nat, k: nat)
    requires VerdictOf(outcomes) == Undecided
    requires OutageFromTo(outcomes, i, i + k + 1) && (i > 0 ==> !Outage(outcomes[i - 1]))
    ensures |Pauses(outcomes)| == |outcomes| && Pauses(outcomes)[i + k] == Seconds(Min(2 * Pow(2, k), 30))
  {
    OnePausePerAttempt(outcomes, i + k);
    StreakCounts(outcomes, i, k);
    assert outcomes[..i + k + 1][..i + k] == outcomes[..i + k];
  }

  /** The four pauses between counted failures are exact: 100, 150, 225 and 337.5 ms. */
  lemma CountedPauses(outcomes: seq<Outcome>, n: nat)
    requires n < |outcomes| && VerdictOf(outcomes) == Undecided && Strike(outcomes[n])
    ensures |Pauses(outcomes)| == |outcomes| && Strikes(outcomes[..n]) < 4
    ensures Pauses(outcomes)[n].Nanoseconds?
    ensures Pauses(outcomes)[n].ns * Pow(2, Strikes(outcomes[..n])) == 100_000_000 * Pow(3, Strikes(outcomes[..n]))
  {
    OnePausePerAttempt(outcomes, n);
    assert outcomes[..n + 1][..n] == outcomes[..n];
    UndecidedExactlyWhen(outcomes);
    StrikesGrow(outcomes, n + 1);
    RetryDelayIsExact(Strikes(outcomes[..n]));
  }

  lemma {:induction false} StrikesGrow(outcomes: seq<Outcome>, n: nat)
    requires n <= |outcomes|
    ensures Strikes(outcomes[..n]) <= Strikes(outcomes)
    decreases |outcomes|
  {
    if n < |outcomes| {
      assert outcomes[..|outcomes| - 1][..n] == outcomes[..n];
      StrikesGrow(outcomes[..|outcomes| - 1], n);
    } else {
      assert outcomes[..n] == outcomes;
    }
  }

  lemma RetryDelayIsExact(k: nat)
    requires k < 4
    ensures RetryDelay(k) * Pow(2, k) == RETRY_INITIAL_NS * Pow(3, k)
  {
    assert RetryDelay(1) == 150_000_000;
    assert RetryDelay(2) == 225_000_000;
    assert RetryDelay(3) == 337_500_000;
    assert Pow(3, 2) == 9 && Pow(3, 3) == 27 && Pow(2, 2) == 4 && Pow(2, 3) == 8;
    assert k == 0 || k == 1 || k == 2 || k == 3;
  }
}
