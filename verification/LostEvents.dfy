/**
  A request whose last step fails: the event of an automatic approval is not accepted by the event bus. The error is
  caught like one of the approval itself, and the new lease is deleted although its approval has been carried out.
 */
module LostEvents {
  import opened Domain
  import opened SandboxState
  import opened Lifecycle
  import OperationOutcomes

  function RequestLosingEvent(
    s: State, k: LeaseKey, t: Template, onBehalf: bool, maxLeasesPerUser: int, pick: Option<AccountId>): Reply
    requires pick.Some? ==> pick.value in s.accounts
  {
    if |OpenLeases(s, k.userEmail)| >= maxLeasesPerUser then Reply(s, Fail(MaxNumberOfLeasesExceeded))
    else if k in s.leases then Reply(Tick(s), Fail(LeaseAlreadyExists))
    else
      var created := PutLease(s, k, RequestedLease(t));
      if t.requiresApproval && !onBehalf then Reply(created, Fail(CallFailed))
      else
        var approved := ApproveSpec(created, k, created.leases[k], "AUTO_APPROVED", pick);
        Reply(approved.state.(leases := approved.state.leases - {k}, events := s.events),
              if approved.outcome.Ok? then Fail(CallFailed) else approved.outcome)
  }

  /**
    Losing the event changes nothing of a request that fails anyway. One that waits stays, unannounced; of one that was
    approved everything stays but the lease.
   */
  lemma LosingIs(s: State, k: LeaseKey, t: Template, onBehalf: bool, maxLeasesPerUser: int, pick: Option<AccountId>)
    requires pick.Some? ==> pick.value in s.accounts
    ensures var r := RequestSpec(s, k, t, onBehalf, maxLeasesPerUser, pick);
            RequestLosingEvent(s, k, t, onBehalf, maxLeasesPerUser, pick) ==
            if r.outcome.Fail? then r
            else
              Reply(r.state.(events := s.events,
                             leases := if t.requiresApproval && !onBehalf then r.state.leases else s.leases),
                    Fail(CallFailed))
  {
    hide ApproveSpec;
    if k !in s.leases {
      var created := PutLease(s, k, RequestedLease(t));
      OperationOutcomes.ApproveOutcome(created, k, created.leases[k], "AUTO_APPROVED", pick);
      var approved := ApproveSpec(created, k, created.leases[k], "AUTO_APPROVED", pick);
      assert approved.state.leases - {k} == s.leases;
    }
  }

  /** The request is approved at once, and there is an account for it. */
  predicate IsApprovedAtOnce(
    s: State, k: LeaseKey, t: Template, onBehalf: bool, maxLeasesPerUser: int, pick: Option<AccountId>)
  {
    |OpenLeases(s, k.userEmail)| < maxLeasesPerUser && k !in s.leases && (!t.requiresApproval || onBehalf) && pick.Some?
  }

  /** The account is in use and open to the user, and no lease is on it that could ever be ended. */
  ghost predicate UsedWithoutLease(s: State, a: AccountId, u: Email) {
    InOu(s, a, Ou.Active) && (a, u) in s.grants && forall l :: !MonitoredOn(s, l, a)
  }

  /**
    The loss of the event breaks the invariant of the life cycle exactly when the request was approved at once: the
    account then stays in use by a user who has no lease.
   */
  lemma LosingTheEventIsSafeIff(
    s: State, k: LeaseKey, t: Template, onBehalf: bool, maxLeasesPerUser: int, pick: Option<AccountId>)
    requires Inv(s) && Enabled(s, Request(k, t, onBehalf, pick))
    ensures var r := RequestLosingEvent(s, k, t, onBehalf, maxLeasesPerUser, pick);
            && r.outcome.Fail?
            && (Inv(r.state) <==> !IsApprovedAtOnce(s, k, t, onBehalf, maxLeasesPerUser, pick))
            && (IsApprovedAtOnce(s, k, t, onBehalf, maxLeasesPerUser, pick) ==>
                  UsedWithoutLease(r.state, pick.value, k.userEmail))
  {
    hide ApproveSpec;
    var r := RequestLosingEvent(s, k, t, onBehalf, maxLeasesPerUser, pick);
    if IsApprovedAtOnce(s, k, t, onBehalf, maxLeasesPerUser, pick) {
      hide Inv, RequestLosingEvent;
      ApprovedAtOnceIsLost(s, k, t, onBehalf, maxLeasesPerUser, pick);
      UsedWithoutLeaseIsWrong(r.state, pick.value, k.userEmail);
    } else if |OpenLeases(s, k.userEmail)| < maxLeasesPerUser && k !in s.leases {
      var created := PutLease(s, k, RequestedLease(t));
      CreateKeepsInv(s, k, t);
      if !t.requiresApproval || onBehalf {
        ApproveEffect(created, k, "AUTO_APPROVED", pick);
        assert created.leases - {k} == s.leases;
        SameTablesKeepInv(s, r.state);
      }
    } else {
      SameTablesKeepInv(s, r.state);
    }
  }

  lemma UsedWithoutLeaseIsWrong(s: State, a: AccountId, u: Email)
    requires UsedWithoutLease(s, a, u)
    ensures !Inv(s)
  {
    assert !Leases(s, u, a);
    assert !AccountInv(s, a);
  }

  lemma ApprovedAtOnceIsLost(
    s: State, k: LeaseKey, t: Template, onBehalf: bool, maxLeasesPerUser: int, pick: Option<AccountId>)
    requires Inv(s) && Enabled(s, Request(k, t, onBehalf, pick))
    requires IsApprovedAtOnce(s, k, t, onBehalf, maxLeasesPerUser, pick)
    ensures UsedWithoutLease(
              RequestLosingEvent(s, k, t, onBehalf, maxLeasesPerUser, pick).state, pick.value, k.userEmail)
  {
    hide ApproveSpec;
    var a := pick.value;
    var created := PutLease(s, k, RequestedLease(t));
    CreateKeepsInv(s, k, t);
    ApproveEffect(created, k, "AUTO_APPROVED", pick);
    assert AccountInv(s, a);
    assert forall l :: !MonitoredOn(s, l, a);
  }
}
