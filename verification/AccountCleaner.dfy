/**
  The account cleaner: builds run until enough of them in a row succeeded or enough of them failed.

  The outer time limit of the state machine is not modelled; `builds` tells how each build would end.
 */
module AccountCleaner {

  type Builds = nat -> bool

  datatype Initialization =
    | Claimed(successesToFinish: int, failuresToCancel: int)
    | CleanupAlreadyInProgress
    | InitializationError

  datatype CleanupEvent = AccountCleanupSuccessful | AccountCleanupFailure

  datatype ExecutionStatus = Succeeded | Failed

  /** How many successes in a row, or failures in all, end the clean-up; at least one build always runs. */
  function Needed(configured: int): (n: int)
    ensures n >= 1
  {
    if configured < 1 then 1 else configured
  }

  function Failures(builds: Builds, n: nat): (f: nat)
    ensures f <= n
  {
    if n == 0 then 0 else Failures(builds, n - 1) + if builds(n - 1) then 0 else 1
  }

  /** The last `k` of the first `n` builds exist and all succeeded. */
  predicate LastSucceeded(builds: Builds, n: nat, k: int) {
    k <= n && forall i: nat :: n - k <= i < n ==> builds(i)
  }

  predicate EndsInSuccess(builds: Builds, n: nat, successes: int, failures: int) {
    LastSucceeded(builds, n, Needed(successes)) && Failures(builds, n) < Needed(failures)
  }

  predicate EndsInFailure(builds: Builds, n: nat, failures: int) {
    n > 0 && !builds(n - 1) && Failures(builds, n) == Needed(failures)
  }

  /** The first number of builds after which the clean-up ends one way or the other. */
  ghost predicate EndsAfter(builds: Builds, n: nat, successes: int, failures: int) {
    && (EndsInSuccess(builds, n, successes, failures) || EndsInFailure(builds, n, failures))
    && forall m: nat :: m < n ==> !EndsInSuccess(builds, m, successes, failures) && !EndsInFailure(builds, m, failures)
  }

  /** The first build after which `row` builds in a row have succeeded or `all` builds in all have failed. */
  ghost predicate DecidesFirst(builds: Builds, n: nat, row: int, all: int) {
    && (LastSucceeded(builds, n, row) || Failures(builds, n) == all)
    && forall m: nat :: m < n ==> !LastSucceeded(builds, m, row) && Failures(builds, m) < all
  }

  /**
    The clean-up ends with the first build after which as many as configured have succeeded in a row or failed in all;
    a configured number below one counts as one.
   */
  lemma EndsWhenConfigured(builds: Builds, n: nat, successes: int, failures: int)
    ensures var row, all := if successes >= 1 then successes else 1, if failures >= 1 then failures else 1;
            EndsAfter(builds, n, successes, failures) <==> DecidesFirst(builds, n, row, all)
  {
    var row, all := if successes >= 1 then successes else 1, if failures >= 1 then failures else 1;
    if EndsAfter(builds, n, successes, failures) {
      NoFailureBefore(builds, n, successes, failures, n);
      forall m: nat | m < n
        ensures !LastSucceeded(builds, m, row) && Failures(builds, m) < all
      {
        NoFailureBefore(builds, n, successes, failures, m);
        assert !EndsInSuccess(builds, m, successes, failures);
      }
    }
    if DecidesFirst(builds, n, row, all) {
      assert n > 0 && Failures(builds, n - 1) < all;
      assert Failures(builds, n) < all ==> EndsInSuccess(builds, n, successes, failures);
      assert Failures(builds, n) >= all ==> EndsInFailure(builds, n, failures);
    }
  }

  lemma {:induction false} NoFailureBefore(builds: Builds, n: nat, successes: int, failures: int, m: nat)
    requires m <= n && forall o: nat :: o < n ==> !EndsInFailure(builds, o, failures)
    ensures m < n ==> Failures(builds, m) < Needed(failures)
    ensures m == n ==> Failures(builds, m) <= Needed(failures)
    ensures m == n && Failures(builds, m) == Needed(failures) ==> EndsInFailure(builds, m, failures)
  {
    if m > 0 {
      NoFailureBefore(builds, n, successes, failures, m - 1);
      if m < n {
        assert !EndsInFailure(builds, m, failures);
      }
    }
  }

  lemma NextRound(rounds: int, perRound: int)
    ensures (rounds + 1) * perRound == rounds * perRound + perRound
  {
  }

  lemma FewerRounds(rounds: int, most: int, perRound: int)
    requires rounds <= most && perRound >= 0
    ensures rounds * perRound <= most * perRound
  {
  }

  /** The loop of the state machine, from the first build to the event that it sends. */
  method RunBuilds(builds: Builds, successesToFinish: int, failuresToCancel: int)
    returns (started: nat, event: CleanupEvent)
    ensures EndsAfter(builds, started, successesToFinish, failuresToCancel)
    ensures started <= Needed(failuresToCancel) * Needed(successesToFinish)
    ensures event.AccountCleanupSuccessful? <==> EndsInSuccess(builds, started, successesToFinish, failuresToCancel)
    ensures event.AccountCleanupFailure? <==> EndsInFailure(builds, started, failuresToCancel)
  {
    ghost var perRound, most := Needed(successesToFinish), Needed(failuresToCancel);
    var succeeded, failed := 0, 0;
    started := 0;
    while true
      invariant 0 <= succeeded < perRound && 0 <= failed < most && succeeded <= started
      invariant failed == Failures(builds, started)
      invariant LastSucceeded(builds, started, succeeded)
      invariant succeeded < started ==> !builds(started - succeeded - 1)
      invariant started <= failed * perRound + succeeded
      invariant forall m: nat :: m <= started ==>
                  && !EndsInSuccess(builds, m, successesToFinish, failuresToCancel)
                  && !EndsInFailure(builds, m, failuresToCancel)
      decreases most * perRound - started
    {
      NextRound(failed, perRound);
      FewerRounds(failed + 1, most, perRound);
      started := started + 1;
      if builds(started - 1) {
        succeeded := succeeded + 1;
        if succeeded >= successesToFinish {
          return started, AccountCleanupSuccessful;
        }
      } else {
        succeeded, failed := 0, failed + 1;
        if !(failed < failuresToCancel) {
          return started, AccountCleanupFailure;
        }
      }
    }
  }

  /** A whole execution: it sends at most one event, and none when a clean-up is already in progress. */
  method Execute(initialization: Initialization, builds: Builds)
    returns (events: seq<CleanupEvent>, status: ExecutionStatus, started: nat)
    ensures initialization.CleanupAlreadyInProgress? ==> events == [] && status == Succeeded && started == 0
    ensures initialization.InitializationError? ==> events == [AccountCleanupFailure] && status == Failed && started == 0
    ensures initialization.Claimed? ==>
              && |events| == 1
              && (status == Succeeded <==> events == [AccountCleanupSuccessful])
              && EndsAfter(builds, started, initialization.successesToFinish, initialization.failuresToCancel)
              && started <= Needed(initialization.failuresToCancel) * Needed(initialization.successesToFinish)
              && (events == [AccountCleanupSuccessful] <==>
                    EndsInSuccess(builds, started, initialization.successesToFinish, initialization.failuresToCancel))
              && (events == [AccountCleanupFailure] <==>
                    EndsInFailure(builds, started, initialization.failuresToCancel))
  {
    match initialization
    case CleanupAlreadyInProgress =>
      events, status, started := [], Succeeded, 0;
    case InitializationError =>
      events, status, started := [AccountCleanupFailure], Failed, 0;
    case Claimed(successesToFinish, failuresToCancel) =>
      var event;
      started, event := RunBuilds(builds, successesToFinish, failuresToCancel);
      events, status := [event], if event == AccountCleanupSuccessful then Succeeded else Failed;
  }

  // ----- The bound is reached -----

  /** Each run of successes falls one short of `perRound` and is followed by a failure. */
  function NearMisses(perRound: int): Builds
    requires perRound >= 1
  {
    i => (i + 1) % perRound != 0
  }

  lemma {:induction false} FailuresOfNearMisses(perRound: int, n: nat)
    requires perRound >= 1
    ensures Failures(NearMisses(perRound), n) == n / perRound
  {
    if n > 0 {
      FailuresOfNearMisses(perRound, n - 1);
      StepDivides(n, perRound);
    }
  }

  lemma StepDivides(n: int, d: int)
    requires n > 0 && d >= 1
    ensures n / d == (n - 1) / d + if n % d == 0 then 1 else 0
  {
    var q, r := (n - 1) / d, (n - 1) % d;
    assert n - 1 == q * d + r;
    if r == d - 1 {
      NextRound(q, d);
      DivisionIs(n, d, q + 1, 0);
    } else {
      DivisionIs(n, d, q, r + 1);
    }
  }

  lemma DivisionIs(n: int, d: int, q: int, r: int)
    requires d >= 1 && 0 <= r < d && n == q * d + r
    ensures n / d == q && n % d == r
  {
    var diff := n / d - q;
    assert diff * d == r - n % d;
    if diff >= 1 {
      FewerRounds(1, diff, d);
    } else if diff <= -1 {
      FewerRounds(diff, -1, d);
    }
  }

  /** Among any `perRound` builds in a row one fails. */
  lemma OneInEveryRoundFails(perRound: int, m: nat) returns (i: nat)
    requires 1 <= perRound <= m
    ensures m - perRound <= i < m && !NearMisses(perRound)(i)
  {
    var q := m / perRound;
    FewerRounds(1, q, perRound);
    i := q * perRound - 1;
    DivisionIs(i + 1, perRound, q, 0);
  }

  /** There are builds that take the clean-up to the very limit on their number. */
  lemma LimitIsReached(successes: int, failures: int)
    ensures EndsAfter(NearMisses(Needed(successes)), Needed(failures) * Needed(successes), successes, failures)
  {
    var perRound, most := Needed(successes), Needed(failures);
    var n, builds := most * perRound, NearMisses(perRound);
    FewerRounds(1, most, perRound);
    DivisionIs(n, perRound, most, 0);
    FailuresOfNearMisses(perRound, n);
    forall m: nat | m < n
      ensures !EndsInSuccess(builds, m, successes, failures) && !EndsInFailure(builds, m, failures)
    {
      FailuresOfNearMisses(perRound, m);
      if m / perRound >= most { FewerRounds(most, m / perRound, perRound); }
      if perRound <= m { var _ := OneInEveryRoundFails(perRound, m); }
    }
  }
}
