/** The config-confirmation sweep: which active nodes run behind the config pushed to them, and when
    each of them is asked to restate its status.  Times are in seconds. */
module Sweep {
  import opened Basics

  const CONFIRM_TIMEOUT: int := 60
  const BACKOFF_MAX: int := 900

  type Node = string

  datatype Target = Target(node: Node, ip: string, port: nat)
  datatype ConfigKey = ConfigKey(node: Node, user: string)

  /** A node's place in the backoff; it exists only while the node is pending. */
  datatype ConfirmState = ConfirmState(unconfirmedSince: int, nextNudge: int, backoff: int)

  type Tracked = map<Node, ConfirmState>
  type Targets = map<Node, Target>

  predicate Named(targets: Targets) {
    forall n <- targets :: targets[n].node == n
  }

  // ----- who is pending -----

  /** A config with no confirmed row reads as confirmed at revision 0. */
  predicate Behind(confirmed: map<ConfigKey, int>, pushed: map<ConfigKey, int>, key: ConfigKey) {
    && key in pushed
    && (if key in confirmed then confirmed[key] else 0) < pushed[key]
  }

  /** A config is behind exactly when it was confirmed at an older revision than it was pushed at, or
      never; one confirmed at the very revision is not. */
  lemma BehindExactlyWhen(confirmed: map<ConfigKey, int>, pushed: map<ConfigKey, int>, key: ConfigKey)
    ensures key in pushed && key in confirmed ==> (Behind(confirmed, pushed, key) <==> confirmed[key] < pushed[key])
    ensures key in pushed && key !in confirmed ==> (Behind(confirmed, pushed, key) <==> pushed[key] > 0)
    ensures key !in pushed ==> !Behind(confirmed, pushed, key)
  {
  }

  method UnconfirmedFromRevisions(active: Targets, confirmed: map<ConfigKey, int>, pushed: map<ConfigKey, int>)
    returns (pending: Targets)
    ensures forall n :: n in pending <==> n in active && exists key: ConfigKey :: key.node == n && Behind(confirmed, pushed, key)
    ensures forall n <- pending :: pending[n] == active[n]
  {
    pending := map[];
    var rest := pushed.Keys;
    while rest != {}
      invariant rest <= pushed.Keys
      invariant forall n :: n in pending <==>
        n in active && exists key: ConfigKey :: key.node == n && key !in rest && Behind(confirmed, pushed, key)
      invariant forall n <- pending :: pending[n] == active[n]
      decreases |rest|
    {
      var key :| key in rest;
      ghost var before, was := rest, pending;
      rest := rest - {key};
      if key.node in active && (if key in confirmed then confirmed[key] else 0) < pushed[key] {
        pending := pending[key.node := active[key.node]];
        assert Behind(confirmed, pushed, key);
      }
      forall n ensures n in pending <==>
        n in active && exists k: ConfigKey :: k.node == n && k !in rest && Behind(confirmed, pushed, k)
      {
        if k: ConfigKey :| k.node == n && k !in rest && Behind(confirmed, pushed, k) {
          assert k == key || k !in before;
        }
        if n in was {
          var k: ConfigKey :| k.node == n && k !in before && Behind(confirmed, pushed, k);
          assert k !in rest;
        }
      }
    }
  }

  // ----- when a pending node is asked -----

  function Advance(seen: Tracked, n: Node, now: int): ConfirmState {
    if n !in seen then ConfirmState(now, now + CONFIRM_TIMEOUT, CONFIRM_TIMEOUT)
    else if now < seen[n].nextNudge then seen[n]
    else
      var backoff := Min(seen[n].backoff * 2, BACKOFF_MAX);
      seen[n].(backoff := backoff, nextNudge := now + backoff)
  }

  predicate Due(seen: Tracked, n: Node, now: int) {
    n in seen && now >= seen[n].nextNudge
  }

  function SweepStep(seen: Tracked, pending: Targets, now: int): Tracked {
    map n | n in pending :: Advance(seen, n, now)
  }

  /** The tracked states when the nodes in `rest` have yet to be visited. */
  function Halfway(seen: Tracked, pending: Targets, rest: set<Node>, now: int): Tracked {
    map n | n in pending && (n in seen || n !in rest) :: if n in rest then seen[n] else Advance(seen, n, now)
  }

  lemma HalfwayStep(seen: Tracked, pending: Targets, rest: set<Node>, n: Node, now: int)
    requires n in pending && n in rest
    ensures var before := Halfway(seen, pending, rest, now);
      && Halfway(seen, pending, rest - {n}, now) == before[n := Advance(before, n, now)]
      && Due(before, n, now) == Due(seen, n, now)
  {
  }

  /** `due` holds exactly the targets of the visited nodes that may be asked, each once. */
  ghost predicate Asks(due: seq<Target>, seen: Tracked, pending: Targets, rest: set<Node>, now: int) {
    && (forall n <- pending :: pending[n] in due <==> n !in rest && Due(seen, n, now))
    && (forall t <- due :: t.node in pending && pending[t.node] == t)
    && forall i, j | 0 <= i < j < |due| :: due[i].node != due[j].node
  }

  class Monitor {
    var confirmState: Tracked

    method ForgetConverged(pending: Targets)
      modifies this
      ensures confirmState == map n | n in old(confirmState) && n in pending :: old(confirmState)[n]
    {
      ghost var seen := confirmState;
      var rest := confirmState.Keys;
      while rest != {}
        invariant rest <= seen.Keys
        invariant confirmState == map n | n in seen && (n in rest || n in pending) :: seen[n]
        decreases |rest|
      {
        var n :| n in rest;
        rest := rest - {n};
        if n !in pending {
          confirmState := confirmState - {n};
        }
      }
    }

    /** One node's turn; `asked` tells whether it is to be asked now. */
    method Visit(n: Node, now: int) returns (asked: bool)
      modifies this
      ensures asked == Due(old(confirmState), n, now)
      ensures confirmState == old(confirmState)[n := Advance(old(confirmState), n, now)]
    {
      asked := false;
      if n !in confirmState {
        confirmState := confirmState[n := ConfirmState(now, now + CONFIRM_TIMEOUT, CONFIRM_TIMEOUT)];
      } else if now >= confirmState[n].nextNudge {
        var backoff := Min(confirmState[n].backoff * 2, BACKOFF_MAX);
        confirmState := confirmState[n := confirmState[n].(backoff := backoff, nextNudge := now + backoff)];
        asked := true;
      }
    }

    method DueForNudge(pending: Targets, now: int) returns (due: seq<Target>)
      requires Named(pending)
      modifies this
      ensures confirmState == SweepStep(old(confirmState), pending, now)
      ensures Asks(due, old(confirmState), pending, {}, now)
    {
      ghost var seen := confirmState;
      ForgetConverged(pending);
      due := [];
      var rest := pending.Keys;
      while rest != {}
        invariant rest <= pending.Keys
        invariant confirmState == Halfway(seen, pending, rest, now)
        invariant Asks(due, seen, pending, rest, now)
        decreases |rest|
      {
        var n :| n in rest;
        AskOne(due, seen, pending, rest, n, now);
        HalfwayStep(seen, pending, rest, n, now);
        var asked := Visit(n, now);
        if asked {
          due := due + [pending[n]];
        }
        rest := rest - {n};
      }
    }
  }

  lemma AskOne(due: seq<Target>, seen: Tracked, pending: Targets, rest: set<Node>, n: Node, now: int)
    requires Named(pending) && n in pending && n in rest && Asks(due, seen, pending, rest, now)
    ensures Asks(if Due(seen, n, now) then due + [pending[n]] else due, seen, pending, rest - {n}, now)
  {
    var after := if Due(seen, n, now) then due + [pending[n]] else due;
    forall m <- pending ensures pending[m] in after <==> m !in rest - {n} && Due(seen, m, now) {
      assert pending[m].node == m;
    }
  }

  // ----- runs -----

  /** One sweep that managed to compare revisions; one that fails earlier changes nothing. */
  datatype Round = Round(pending: Targets, now: int)

  function Run(rounds: seq<Round>): Tracked {
    if rounds == [] then map[]
    else
      var last := rounds[|rounds| - 1];
      SweepStep(Run(rounds[..|rounds| - 1]), last.pending, last.now)
  }

  lemma TrackedIsLastPending(rounds: seq<Round>)
    ensures Run(rounds).Keys == if rounds == [] then {} else rounds[|rounds| - 1].pending.Keys
  {
  }

  /** The node falls behind at round `i` and stays behind up to round `j`. */
  ghost predicate Stretch(rounds: seq<Round>, n: Node, i: nat, j: nat) {
    && i < j <= |rounds|
    && (i == 0 || n !in rounds[i - 1].pending)
    && forall k | i <= k < j :: n in rounds[k].pending
  }

  /** When the node was asked during rounds `i` to `j`. */
  function Nudges(rounds: seq<Round>, n: Node, i: nat, j: nat): seq<int>
    requires i <= j <= |rounds|
    decreases j
  {
    if i == j then []
    else
      Nudges(rounds, n, i, j - 1) +
      (if Due(Run(rounds[..j - 1]), n, rounds[j - 1].now) then [rounds[j - 1].now] else [])
  }

  function Pow2(k: nat): nat {
    if k == 0 then 1 else 2 * Pow2(k - 1)
  }

  /** The wait before request number `k`, counting from 0. */
  function Wait(k: nat): int {
    Min(CONFIRM_TIMEOUT * Pow2(k), BACKOFF_MAX)
  }

  function TotalWait(k: nat): int {
    Wait(k) + if k == 0 then 0 else TotalWait(k - 1)
  }

  lemma WaitDoubles(k: nat)
    ensures Wait(k + 1) == Min(Wait(k) * 2, BACKOFF_MAX) && Wait(k) >= CONFIRM_TIMEOUT
  {
    if k > 0 {
      WaitDoubles(k - 1);
    }
  }

  /** 60, 120, 240, 480 s, and then 15 minutes each. */
  lemma WaitsInSeconds(k: nat)
    ensures Wait(k) == Min(60 * Pow2(k), 900)
    ensures NextDue(0, []) == 60
  {
  }

  /** The next moment the node may be asked, from its history alone. */
  function NextDue(since: int, nudges: seq<int>): int {
    if nudges == [] then since + CONFIRM_TIMEOUT else nudges[|nudges| - 1] + Wait(|nudges|)
  }

  ghost predicate FollowsHistory(seen: Tracked, n: Node, since: int, nudges: seq<int>) {
    n in seen && seen[n] == ConfirmState(since, NextDue(since, nudges), Wait(|nudges|))
  }

  lemma StepFollowsHistory(seen: Tracked, n: Node, r: Round, since: int, nudges: seq<int>)
    requires FollowsHistory(seen, n, since, nudges) && n in r.pending
    ensures FollowsHistory(SweepStep(seen, r.pending, r.now), n, since,
      nudges + if Due(seen, n, r.now) then [r.now] else [])
    ensures r.now < NextDue(since, nudges + if Due(seen, n, r.now) then [r.now] else [])
  {
    WaitDoubles(|nudges|);
  }

  lemma {:induction false} StateIsHistory(rounds: seq<Round>, n: Node, i: nat, j: nat)
    requires Stretch(rounds, n, i, j)
    ensures FollowsHistory(Run(rounds[..j]), n, rounds[i].now, Nudges(rounds, n, i, j))
    decreases j
  {
    assert rounds[..j][..j - 1] == rounds[..j - 1];
    if i == j - 1 {
      TrackedIsLastPending(rounds[..i]);
    } else {
      StateIsHistory(rounds, n, i, j - 1);
      StepFollowsHistory(Run(rounds[..j - 1]), n, rounds[j - 1], rounds[i].now, Nudges(rounds, n, i, j - 1));
    }
  }

  /** A node that has been pending since round `i` is asked at a later round exactly when its own
      request history says so: 60 s after it fell behind, then after 120, 240, 480 and 900 s. */
  lemma AskedExactlyWhen(rounds: seq<Round>, n: Node, i: nat, j: nat)
    requires Stretch(rounds, n, i, j) && j < |rounds|
    ensures Due(Run(rounds[..j]), n, rounds[j].now) <==>
      rounds[j].now >= NextDue(rounds[i].now, Nudges(rounds, n, i, j))
  {
    StateIsHistory(rounds, n, i, j);
  }

  /** The first round never asks: falling behind again starts over from the full timeout. */
  lemma NotAskedAtOnce(rounds: seq<Round>, n: Node, i: nat)
    requires Stretch(rounds, n, i, i + 1)
    ensures Nudges(rounds, n, i, i + 1) == []
  {
    TrackedIsLastPending(rounds[..i]);
  }

  lemma NextDueIsLate(since: int, nudges: seq<int>)
    requires nudges != [] ==> nudges[|nudges| - 1] >= since + TotalWait(|nudges| - 1)
    ensures NextDue(since, nudges) >= since + TotalWait(|nudges|)
  {
  }

  /** The request of round `j - 1`, given that the one before it was not early. */
  lemma LastIsNotEarly(rounds: seq<Round>, n: Node, i: nat, j: nat)
    requires Stretch(rounds, n, i, j) && i < j - 1
    requires var nudges := Nudges(rounds, n, i, j - 1);
      && |Nudges(rounds, n, i, j)| > |nudges|
      && (nudges != [] ==> nudges[|nudges| - 1] >= rounds[i].now + TotalWait(|nudges| - 1))
    ensures var nudges := Nudges(rounds, n, i, j - 1);
      Nudges(rounds, n, i, j) == nudges + [rounds[j - 1].now] && rounds[j - 1].now >= rounds[i].now + TotalWait(|nudges|)
  {
    AskedExactlyWhen(rounds, n, i, j - 1);
    NextDueIsLate(rounds[i].now, Nudges(rounds, n, i, j - 1));
  }

  /** No request comes early. */
  lemma {:induction false} NeverEarly(rounds: seq<Round>, n: Node, i: nat, j: nat, m: nat)
    requires Stretch(rounds, n, i, j) && m < |Nudges(rounds, n, i, j)|
    ensures Nudges(rounds, n, i, j)[m] >= rounds[i].now + TotalWait(m)
    decreases j
  {
    var nudges := Nudges(rounds, n, i, j - 1);
    if i == j - 1 {
      NotAskedAtOnce(rounds, n, i);
    } else if m < |nudges| {
      NeverEarly(rounds, n, i, j - 1, m);
    } else {
      if m > 0 {
        NeverEarly(rounds, n, i, j - 1, m - 1);
      }
      LastIsNotEarly(rounds, n, i, j);
    }
  }

  /** The last sweep of a stretch is never past the next due time: it would have asked. */
  lemma NeverOverdue(rounds: seq<Round>, n: Node, i: nat, j: nat)
    requires Stretch(rounds, n, i, j)
    ensures rounds[j - 1].now < NextDue(rounds[i].now, Nudges(rounds, n, i, j))
  {
    if i == j - 1 {
      NotAskedAtOnce(rounds, n, i);
    } else {
      StateIsHistory(rounds, n, i, j - 1);
      StepFollowsHistory(Run(rounds[..j - 1]), n, rounds[j - 1], rounds[i].now, Nudges(rounds, n, i, j - 1));
    }
  }

  ghost predicate SweepsEvery(rounds: seq<Round>, gap: int) {
    forall k | 0 < k < |rounds| :: rounds[k].now <= rounds[k - 1].now + gap
  }

  /** No request comes late: the first within the timeout plus one sweep gap of falling behind, every
      later one within its backoff plus one sweep gap of the one before. */
  lemma {:induction false} NeverLate(rounds: seq<Round>, n: Node, i: nat, j: nat, m: nat, gap: int)
    requires Stretch(rounds, n, i, j) && m < |Nudges(rounds, n, i, j)| && SweepsEvery(rounds, gap)
    ensures Nudges(rounds, n, i, j)[m] < NextDue(rounds[i].now, Nudges(rounds, n, i, j)[..m]) + gap
    decreases j
  {
    var nudges, all := Nudges(rounds, n, i, j - 1), Nudges(rounds, n, i, j);
    if i == j - 1 {
      NotAskedAtOnce(rounds, n, i);
    } else if m < |nudges| {
      NeverLate(rounds, n, i, j - 1, m, gap);
      assert all[..m] == nudges[..m];
    } else {
      NeverOverdue(rounds, n, i, j - 1);
      assert all[..m] == nudges;
    }
  }
}
