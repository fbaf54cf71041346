/**
  The account and lease life cycle over whole runs.

  A run is a sequence of atomic operations, each as the API handlers and the event handlers issue it: the handler reads
  the record, checks its status and calls the operation. Late and repeated events are allowed.
 */
module Lifecycle {
  import opened Domain
  import opened SandboxState

  datatype Op =
    | Register(accountId: AccountId, described: bool)
    | Request(key: LeaseKey, template: Template, onBehalf: bool, pick: Option<AccountId>)
    | Approve(key: LeaseKey, approver: string, pick: Option<AccountId>)
    | Deny(key: LeaseKey, denier: string)
    | Freeze(key: LeaseKey)
    | Unfreeze(key: LeaseKey)
    | Terminate(key: LeaseKey, reason: LeaseStatus)
    | Patch(key: LeaseKey, patch: LeasePatch)
    | MonitorWrite(key: LeaseKey, cost: real)
    | RetryCleanup(accountId: AccountId)
    | Eject(accountId: AccountId, listing: seq<LeaseKey>)
    | CleanupSucceeded(accountId: AccountId)
    | CleanupFailed(accountId: AccountId, listing: seq<LeaseKey>)
    | ClaimCleanup(accountId: AccountId, context: CleanupContext)
    | PassTime(millis: nat)

  /** What `PATCH` may change of a monitored lease. */
  datatype LeasePatch = LeasePatch(
    maxSpend: Option<real>,
    budgetThresholds: seq<BudgetThreshold>,
    durationThresholds: seq<DurationThreshold>,
    expirationDate: Option<int>)

  datatype Config = Config(maxLeasesPerUser: nat)

  /** The choices an operation leaves open are made as the code may make them. */
  ghost predicate Enabled(s: State, op: Op) {
    match op
    case Request(k, t, _, pick) => ValidPick(PutLease(s, k, RequestedLease(t)), pick) && k.userEmail in s.directory
    case Approve(_, _, pick) => ValidPick(s, pick)
    case Terminate(_, reason) => reason in {Expired, BudgetExceeded, ManuallyTerminated}
    case Eject(a, listing) => IsLeaseListing(s, a, listing)
    case CleanupFailed(a, listing) => IsLeaseListing(s, a, listing)
    case _ => true
  }

  ghost function Apply(s: State, op: Op, c: Config): Reply
    requires Enabled(s, op)
  {
    match op
    case Register(a, described) => RegisterSpec(s, a, described)
    case Request(k, t, onBehalf, pick) => RequestSpec(s, k, t, onBehalf, c.maxLeasesPerUser, pick)
    case Approve(k, approver, pick) =>
      if k !in s.leases then Reply(s, Fail(UnknownLease))
      else if !s.leases[k].status.PendingApproval? then Reply(s, Fail(Conflict))
      else ApproveSpec(s, k, s.leases[k], approver, pick)
    case Deny(k, denier) =>
      if k !in s.leases then Reply(s, Fail(UnknownLease))
      else if !s.leases[k].status.PendingApproval? then Reply(s, Fail(Conflict))
      else DenySpec(s, k, s.leases[k], denier)
    case Freeze(k) =>
      if k !in s.leases then Reply(s, Fail(UnknownLease))
      else if !IsMonitored(s.leases[k].status) then Reply(s, Fail(Conflict))
      else FreezeSpec(s, k, s.leases[k])
    case Unfreeze(k) =>
      if k !in s.leases then Reply(s, Fail(UnknownLease))
      else if !s.leases[k].status.Frozen? then Reply(s, Fail(Conflict))
      else UnfreezeSpec(s, k, s.leases[k])
    case Terminate(k, reason) =>
      if k !in s.leases then Reply(s, Fail(UnknownLease))
      else if !IsMonitored(s.leases[k].status) then Reply(s, Fail(Conflict))
      else TerminateSpec(s, k, s.leases[k], reason, true)
    case Patch(k, p) =>
      if k !in s.leases then Reply(s, Fail(UnknownLease))
      else if !IsMonitored(s.leases[k].status) then Reply(s, Fail(BadRequest))
      else
        Reply(PutLease(s, k, s.leases[k].(maxSpend := p.maxSpend, budgetThresholds := p.budgetThresholds,
                durationThresholds := p.durationThresholds, expirationDate := p.expirationDate)), Ok)
    case MonitorWrite(k, cost) =>
      if k in s.leases && IsMonitored(s.leases[k].status)
      then Reply(PutLease(s, k, s.leases[k].(totalCostAccrued := cost, lastCheckedDate := s.clock)), Ok)
      else Reply(s, Ok)
    case RetryCleanup(a) =>
      if a in s.accounts then RetryCleanupSpec(s, a, s.accounts[a]) else Reply(s, Fail(CouldNotFindAccount))
    case Eject(a, listing) =>
      if a in s.accounts then EjectSpec(s, a, s.accounts[a], listing) else Reply(s, Fail(CouldNotFindAccount))
    case CleanupSucceeded(a) => CleanupSucceededSpec(s, a)
    case CleanupFailed(a, listing) => QuarantineSpec(s, a, Ou.CleanUp, listing)
    case ClaimCleanup(a, context) =>
      if a in s.accounts
      then Reply(s.(accounts := s.accounts[a := s.accounts[a].(cleanupContext := Some(context))]), Ok)
      else Reply(s, Fail(CouldNotFindAccount))
    case PassTime(millis) => Reply(s.(clock := s.clock + millis), Ok)
  }

  // ----- The invariant -----

  function OuOfStatus(status: LeaseStatus): Ou
    requires IsMonitored(status)
  {
    if status.Active? then Ou.Active else Ou.Frozen
  }

  /** `u` is the user of an active lease on `a`. */
  ghost predicate Leases(s: State, u: Email, a: AccountId) {
    exists k :: MonitoredOn(s, k, a) && ActiveAt(s, k) && k.userEmail == u
  }

  /** The invariant as seen from one account. */
  ghost predicate AccountInv(s: State, a: AccountId) {
    // the table agrees with the organizational units, and what is in the sandbox is in the table
    && (a in s.accounts ==> InOu(s, a, s.accounts[a].status) && StorableStatus(s.accounts[a].status))
    && (a !in s.accounts && a in s.ou ==> s.ou[a] == Ou.Entry || s.ou[a] == Ou.Exit)
    // a monitored lease on the account has the status of the account, and there is at most one
    && (forall k :: MonitoredOn(s, k, a) ==> a in s.accounts && s.accounts[a].status == OuOfStatus(s.leases[k].status))
    && (forall k, l :: MonitoredOn(s, k, a) && MonitoredOn(s, l, a) ==> k == l)
    // only the user of an active lease has access
    && (forall u :: (a, u) in s.grants ==> Leases(s, u, a))
  }

  /** A lease names an account once it was approved, and the identity store resolves the user of every lease. */
  ghost predicate LeasesWellFormed(s: State) {
    forall k :: k in s.leases ==>
      && k.userEmail in s.directory
      && (s.leases[k].awsAccountId.Some? <==> !s.leases[k].status.PendingApproval? && !s.leases[k].status.ApprovalDenied?)
  }

  ghost predicate Inv(s: State) {
    LeasesWellFormed(s) && forall a :: AccountInv(s, a)
  }

  /** A freshly installed sandbox: nothing is registered, accounts wait in the entry unit. */
  ghost predicate Init(s: State) {
    && s.accounts == map[] && s.leases == map[] && s.grants == {} && s.events == []
    && forall a :: a in s.ou ==> s.ou[a] == Ou.Entry || s.ou[a] == Ou.Exit
  }

  // ----- One step keeps the invariant -----

  /** What the invariant says of account `a` depends on the same facts in both states. */
  ghost predicate SameAt(s: State, t: State, a: AccountId) {
    && (a in t.accounts <==> a in s.accounts)
    && (a in s.accounts ==> t.accounts[a].status == s.accounts[a].status)
    && (a in t.ou <==> a in s.ou)
    && (a in s.ou ==> t.ou[a] == s.ou[a])
    && (forall k :: MonitoredOn(t, k, a) <==> MonitoredOn(s, k, a))
    && (forall k :: MonitoredOn(s, k, a) ==> t.leases[k].status == s.leases[k].status)
    && (forall u :: (a, u) in t.grants ==> (a, u) in s.grants)
  }

  lemma SameAtKeeps(s: State, t: State, a: AccountId)
    requires AccountInv(s, a) && SameAt(s, t, a)
    ensures AccountInv(t, a)
  {
    forall u | (a, u) in t.grants
      ensures Leases(t, u, a)
    {
      var k :| MonitoredOn(s, k, a) && ActiveAt(s, k) && k.userEmail == u;
      assert MonitoredOn(t, k, a) && ActiveAt(t, k);
    }
  }

  /** A step that only concerns account `a` keeps the invariant when it keeps it at `a`. */
  lemma LocalStep(s: State, t: State, a: AccountId)
    requires Inv(s) && LeasesWellFormed(t) && AccountInv(t, a)
    requires forall b :: b != a ==> SameAt(s, t, b)
    ensures Inv(t)
  {
    forall b
      ensures AccountInv(t, b)
    {
      assert AccountInv(s, b);
      if b != a {
        SameAtKeeps(s, t, b);
      }
    }
  }

  /** The states differ only in lease `k`, which is or comes to be on account `a`, and in what concerns that account. */
  ghost predicate OnlyAt(s: State, t: State, k: LeaseKey, a: AccountId) {
    && k in t.leases && t.leases == s.leases[k := t.leases[k]] && t.leases[k].awsAccountId == Some(a)
    && (k in s.leases ==> s.leases[k].awsAccountId.None? || s.leases[k].awsAccountId == Some(a))
    && a in t.ou && t.ou == s.ou[a := t.ou[a]] && a in t.accounts && t.accounts == s.accounts[a := t.accounts[a]]
    && (forall b, u :: b != a && (b, u) in t.grants ==> (b, u) in s.grants)
    && t.directory == s.directory
  }

  lemma OnlyAtIsSameElsewhere(s: State, t: State, k: LeaseKey, a: AccountId, b: AccountId)
    requires OnlyAt(s, t, k, a) && b != a
    ensures SameAt(s, t, b)
  {
    assert forall l :: MonitoredOn(t, l, b) <==> MonitoredOn(s, l, b);
  }

  /** The account carries no other monitored lease, and is open to nobody but the user of this one, if it is active. */
  ghost predicate LeaseFits(s: State, t: State, k: LeaseKey, a: AccountId)
    requires k in t.leases && a in t.accounts
  {
    && (forall l :: MonitoredOn(s, l, a) ==> l == k)
    && InOu(t, a, t.accounts[a].status) && StorableStatus(t.accounts[a].status)
    && (IsMonitored(t.leases[k].status) ==> t.accounts[a].status == OuOfStatus(t.leases[k].status))
    && (forall u :: (a, u) in t.grants ==> u == k.userEmail && t.leases[k].status.Active?)
  }

  lemma FittingLeaseKeepsAccount(s: State, t: State, k: LeaseKey, a: AccountId)
    requires OnlyAt(s, t, k, a) && LeaseFits(s, t, k, a)
    ensures AccountInv(t, a)
  {
    assert forall l :: MonitoredOn(t, l, a) ==> l == k || MonitoredOn(s, l, a);
    assert t.leases[k].status.Active? ==> MonitoredOn(t, k, a) && ActiveAt(t, k);
  }

  /** A step that changes one lease and its account keeps the invariant when the lease fits the account. */
  lemma LeaseChangeKeepsInv(s: State, t: State, k: LeaseKey, a: AccountId)
    requires Inv(s) && OnlyAt(s, t, k, a) && LeaseFits(s, t, k, a)
    requires k.userEmail in s.directory
    requires !t.leases[k].status.PendingApproval? && !t.leases[k].status.ApprovalDenied?
    ensures Inv(t)
  {
    hide AccountInv, MonitoredOn, LeaseFits, SameAt;
    FittingLeaseKeepsAccount(s, t, k, a);
    forall b | b != a
      ensures SameAt(s, t, b)
    {
      OnlyAtIsSameElsewhere(s, t, k, a, b);
    }
    LocalStep(s, t, a);
  }

  /** A lease on `a` ends; the account stays in use or goes to clean-up. */
  lemma EndLeaseKeepsInv(s: State, t: State, k: LeaseKey, a: AccountId)
    requires Inv(s) && MonitoredOn(s, k, a)
    requires k in t.leases && t.leases == s.leases[k := t.leases[k]]
    requires IsExpired(t.leases[k].status) && t.leases[k].awsAccountId == Some(a)
    requires t.grants == GrantsWithout(s.grants, a) && t.directory == s.directory
    requires || (t.ou == s.ou && t.accounts == s.accounts)
             || (a in s.accounts && t.ou == s.ou[a := Ou.CleanUp]
                 && t.accounts == s.accounts[a := s.accounts[a].(status := Ou.CleanUp)])
    ensures Inv(t)
    ensures forall l :: !MonitoredOn(t, l, a)
  {
    assert AccountInv(s, a);
    assert forall l :: MonitoredOn(t, l, a) ==> MonitoredOn(s, l, a) && l != k;
    assert OnlyAt(s, t, k, a) && LeaseFits(s, t, k, a);
    hide AccountInv, OnlyAt, LeaseFits;
    LeaseChangeKeepsInv(s, t, k, a);
  }

  lemma TerminateKeepsInv(s: State, k: LeaseKey, a: AccountId, reason: LeaseStatus, autoCleanup: bool)
    requires Inv(s) && MonitoredOn(s, k, a) && IsExpired(reason)
    ensures var r := TerminateSpec(s, k, s.leases[k], reason, autoCleanup);
            && Inv(r.state)
            && (r.outcome.Ok? <==> !ReasonUndefined(s.leases[k], reason))
            && (forall l :: !MonitoredOn(r.state, l, a))
            && (forall u :: (a, u) !in r.state.grants)
  {
    assert AccountInv(s, a);
    assert s.accounts[a].status != Ou.CleanUp;
    EndLeaseKeepsInv(s, TerminateSpec(s, k, s.leases[k], reason, autoCleanup).state, k, a);
  }

  /** The monitored leases on `a` end for the given reason, all others are as before. */
  ghost predicate EndsLeasesOn(s: State, t: State, a: AccountId, reason: LeaseStatus) {
    && t.leases.Keys == s.leases.Keys
    && forall l :: l in s.leases ==>
         if MonitoredOn(s, l, a) then t.leases[l].status == reason && t.leases[l].awsAccountId == Some(a)
         else t.leases[l] == s.leases[l]
  }

  /** Terminating what is listed on an account leaves it without a lease and without access; nothing else moves. */
  lemma TerminateAllKeepsInv(s: State, a: AccountId, listing: seq<LeaseKey>, reason: LeaseStatus)
    requires Inv(s) && IsLeaseListing(s, a, listing)
    requires reason == Ejected || reason == AccountQuarantined
    ensures var r := TerminateAllSpec(s, listing, reason);
            && r.outcome.Ok? && Inv(r.state)
            && (forall k :: !MonitoredOn(r.state, k, a))
            && (forall u :: (a, u) !in r.state.grants)
            && r.state.accounts == s.accounts && r.state.ou == s.ou
            && EndsLeasesOn(s, r.state, a, reason)
  {
    assert AccountInv(s, a);
    if listing != [] {
      var k := listing[0];
      assert forall i | 0 <= i < |listing| :: listing[i] in listing && MonitoredOn(s, listing[i], a);
      assert forall i | 0 <= i < |listing| :: listing[i] == k;
      TerminateKeepsInv(s, k, a, reason, false);
      assert listing[|listing| - 1] == k;
      assert listing[1..] == [];
      assert TerminateAllSpec(s, listing, reason) == TerminateSpec(s, k, s.leases[k], reason, false);
    } else {
      assert forall k :: MonitoredOn(s, k, a) ==> k in listing;
    }
  }

  /** What an approval does in a state that satisfies the invariant. */
  lemma ApproveEffect(s: State, k: LeaseKey, approver: string, pick: Option<AccountId>)
    requires Inv(s) && k in s.leases && s.leases[k].status.PendingApproval? && ValidPick(s, pick)
    ensures var r := ApproveSpec(s, k, s.leases[k], approver, pick);
            && (pick.None? ==> r == Reply(s, Fail(NoAccountsAvailable)))
            && (pick.Some? ==> r.outcome.Ok? && IsApproved(s, k, pick.value, r.state))
  {
    if pick.Some? {
      assert AccountInv(s, pick.value);
    }
  }

  ghost predicate IsApproved(s: State, k: LeaseKey, a: AccountId, t: State) {
    && InOu(s, a, Ou.Available) && a in s.accounts && s.accounts[a].status == Ou.Available
    && k in t.leases && t.leases == s.leases[k := t.leases[k]]
    && t.leases[k].status.Active? && t.leases[k].awsAccountId == Some(a)
    && t.ou == s.ou[a := Ou.Active] && t.accounts == s.accounts[a := s.accounts[a].(status := Ou.Active)]
    && t.grants == s.grants + {(a, k.userEmail)} && t.directory == s.directory
    && s.events <= t.events && |t.events| == |s.events| + 1 && t.events[|s.events|] == LeaseApproved(k)
  }

  lemma ApproveKeepsInv(s: State, k: LeaseKey, approver: string, pick: Option<AccountId>)
    requires Inv(s) && k in s.leases && s.leases[k].status.PendingApproval? && ValidPick(s, pick)
    ensures var r := ApproveSpec(s, k, s.leases[k], approver, pick);
            && Inv(r.state)
            && (r.outcome.Ok? <==> pick.Some?)
            && (r.outcome.Ok? ==> MonitoredOn(r.state, k, pick.value) && ActiveAt(r.state, k))
            && (!r.outcome.Ok? ==> r.state == s)
  {
    ApproveEffect(s, k, approver, pick);
    hide ApproveSpec;
    if pick.Some? {
      ApprovedKeepsInv(s, k, pick.value, ApproveSpec(s, k, s.leases[k], approver, pick).state);
    }
  }

  lemma ApprovedKeepsInv(s: State, k: LeaseKey, a: AccountId, t: State)
    requires Inv(s) && k in s.leases && s.leases[k].status.PendingApproval? && IsApproved(s, k, a, t)
    ensures Inv(t) && MonitoredOn(t, k, a) && ActiveAt(t, k)
  {
    assert AccountInv(s, a);
    assert OnlyAt(s, t, k, a) && LeaseFits(s, t, k, a);
    hide AccountInv, OnlyAt, LeaseFits;
    LeaseChangeKeepsInv(s, t, k, a);
  }

  lemma CreateKeepsInv(s: State, k: LeaseKey, t: Template)
    requires Inv(s) && k !in s.leases && k.userEmail in s.directory
    ensures Inv(PutLease(s, k, RequestedLease(t)))
  {
    var created := PutLease(s, k, RequestedLease(t));
    assert forall l, a :: MonitoredOn(created, l, a) <==> MonitoredOn(s, l, a);
    InvFromSameEverywhere(s, created);
  }

  lemma RequestKeepsInv(
    s: State, k: LeaseKey, t: Template, onBehalf: bool, maxLeasesPerUser: int, pick: Option<AccountId>)
    requires Inv(s) && Enabled(s, Request(k, t, onBehalf, pick))
    ensures Inv(RequestSpec(s, k, t, onBehalf, maxLeasesPerUser, pick).state)
  {
    hide Inv, ApproveSpec;
    var r := RequestSpec(s, k, t, onBehalf, maxLeasesPerUser, pick);
    if |OpenLeases(s, k.userEmail)| >= maxLeasesPerUser || k in s.leases {
      SameTablesKeepInv(s, r.state);
    } else {
      var created := PutLease(s, k, RequestedLease(t));
      CreateKeepsInv(s, k, t);
      if t.requiresApproval && !onBehalf {
        SameTablesKeepInv(created, r.state);
      } else {
        ApproveKeepsInv(created, k, "AUTO_APPROVED", pick);
        if r.outcome.Fail? {
          assert created.leases - {k} == s.leases;
          SameTablesKeepInv(s, r.state);
        }
      }
    }
  }

  lemma SameTablesKeepInv(s: State, t: State)
    requires Inv(s) && t.ou == s.ou && t.accounts == s.accounts && t.leases == s.leases
    requires t.grants == s.grants && t.directory == s.directory
    ensures Inv(t)
  {
    InvFromSameEverywhere(s, t);
  }

  /** A step that changes nothing the invariant looks at. */
  lemma InvFromSameEverywhere(s: State, t: State)
    requires Inv(s) && LeasesWellFormed(t)
    requires forall a :: SameAt(s, t, a)
    ensures Inv(t)
  {
    forall a
      ensures AccountInv(t, a)
    {
      SameAtKeeps(s, t, a);
    }
  }

  /** What freezing and unfreezing do in a state that satisfies the invariant. */
  ghost predicate IsSwitched(s: State, k: LeaseKey, to: LeaseStatus, t: State)
    requires IsMonitored(to)
  {
    && k in s.leases && s.leases[k].awsAccountId.Some?
    && var a := s.leases[k].awsAccountId.value;
       && MonitoredOn(s, k, a) && a in s.accounts && InOu(s, a, s.accounts[a].status)
       && k in t.leases && t.leases == s.leases[k := t.leases[k]]
       && t.leases[k].status == to && t.leases[k].awsAccountId == Some(a)
       && t.ou == s.ou[a := OuOfStatus(to)] && t.accounts == s.accounts[a := s.accounts[a].(status := OuOfStatus(to))]
       && t.grants == (if to.Active? then s.grants + {(a, k.userEmail)} else GrantsWithout(s.grants, a))
       && t.directory == s.directory && s.events <= t.events && |t.events| == |s.events| + 1
       && t.events[|s.events|] == if to.Active? then LeaseUnfrozen(k, a) else LeaseFrozen(k, a)
  }

  lemma FreezeEffect(s: State, k: LeaseKey)
    requires Inv(s) && k in s.leases
    ensures var r := FreezeSpec(s, k, s.leases[k]);
            if s.leases[k].status.Active? then r.outcome.Ok? && IsSwitched(s, k, LeaseStatus.Frozen, r.state)
            else r == Reply(s, Fail(AccountNotInActive))
  {
    hide GrantsWithout;
    if s.leases[k].status.Active? {
      var a := s.leases[k].awsAccountId.value;
      assert MonitoredOn(s, k, a) && AccountInv(s, a);
    }
  }

  lemma UnfreezeEffect(s: State, k: LeaseKey)
    requires Inv(s) && k in s.leases
    ensures var r := UnfreezeSpec(s, k, s.leases[k]);
            if s.leases[k].status.Frozen? then r.outcome.Ok? && IsSwitched(s, k, LeaseStatus.Active, r.state)
            else r == Reply(s, Fail(AccountNotInFrozen))
  {
    if s.leases[k].status.Frozen? {
      var a := s.leases[k].awsAccountId.value;
      assert MonitoredOn(s, k, a) && AccountInv(s, a);
    }
  }

  lemma SwitchedKeepsInv(s: State, k: LeaseKey, to: LeaseStatus, t: State)
    requires Inv(s) && IsMonitored(to) && IsSwitched(s, k, to, t)
    ensures Inv(t)
  {
    var a := s.leases[k].awsAccountId.value;
    assert AccountInv(s, a);
    assert to.Active? ==> forall u :: (a, u) in s.grants ==> Leases(s, u, a);
    assert OnlyAt(s, t, k, a) && LeaseFits(s, t, k, a);
    hide AccountInv, OnlyAt, LeaseFits;
    LeaseChangeKeepsInv(s, t, k, a);
  }

  lemma FreezeKeepsInv(s: State, k: LeaseKey)
    requires Inv(s) && k in s.leases
    ensures var r := FreezeSpec(s, k, s.leases[k]);
            && Inv(r.state)
            && (r.outcome.Ok? <==> s.leases[k].status.Active?)
  {
    hide FreezeSpec, IsSwitched, Inv;
    FreezeEffect(s, k);
    if s.leases[k].status.Active? {
      SwitchedKeepsInv(s, k, LeaseStatus.Frozen, FreezeSpec(s, k, s.leases[k]).state);
    }
  }

  lemma UnfreezeKeepsInv(s: State, k: LeaseKey)
    requires Inv(s) && k in s.leases
    ensures var r := UnfreezeSpec(s, k, s.leases[k]);
            && Inv(r.state)
            && (r.outcome.Ok? <==> s.leases[k].status.Frozen?)
  {
    hide UnfreezeSpec, IsSwitched, Inv;
    UnfreezeEffect(s, k);
    if s.leases[k].status.Frozen? {
      SwitchedKeepsInv(s, k, LeaseStatus.Active, UnfreezeSpec(s, k, s.leases[k]).state);
    }
  }

  /** Operations that rewrite a lease without changing its account, and its status only by denying a request. */
  lemma LeaseRewriteKeepsInv(s: State, t: State, k: LeaseKey)
    requires Inv(s) && k in s.leases && k in t.leases
    requires t.accounts == s.accounts && t.ou == s.ou && t.grants == s.grants && t.directory == s.directory
    requires t.leases == s.leases[k := t.leases[k]]
    requires t.leases[k].awsAccountId == s.leases[k].awsAccountId
    requires || t.leases[k].status == s.leases[k].status
             || (s.leases[k].status.PendingApproval? && t.leases[k].status.ApprovalDenied?)
    ensures Inv(t)
  {
    forall a
      ensures SameAt(s, t, a)
    {
      assert forall l :: MonitoredOn(t, l, a) <==> MonitoredOn(s, l, a);
    }
    InvFromSameEverywhere(s, t);
  }

  /** Operations that only concern one account, which carries no monitored lease. */
  lemma AccountStepKeepsInv(s: State, t: State, a: AccountId)
    requires Inv(s) && t.leases == s.leases && t.grants == s.grants && t.directory == s.directory
    requires forall b :: b != a ==> (b in t.accounts <==> b in s.accounts) && (b in t.ou <==> b in s.ou)
    requires forall b :: b != a && b in s.accounts ==> t.accounts[b].status == s.accounts[b].status
    requires forall b :: b != a && b in s.ou ==> t.ou[b] == s.ou[b]
    requires forall k :: !MonitoredOn(s, k, a)
    requires a in t.accounts ==> InOu(t, a, t.accounts[a].status) && StorableStatus(t.accounts[a].status)
    requires a !in t.accounts && a in t.ou ==> t.ou[a] == Ou.Entry || t.ou[a] == Ou.Exit
    ensures Inv(t)
  {
    assert AccountInv(s, a);
    assert forall l, b :: MonitoredOn(t, l, b) <==> MonitoredOn(s, l, b);
    forall b | b != a
      ensures SameAt(s, t, b)
    {
    }
    LocalStep(s, t, a);
  }

  lemma EjectKeepsInv(s: State, a: AccountId, listing: seq<LeaseKey>)
    requires Inv(s) && IsLeaseListing(s, a, listing) && a in s.accounts
    ensures var r := EjectSpec(s, a, s.accounts[a], listing);
            && Inv(r.state)
            && (r.outcome.Ok? <==> s.accounts[a].status != Ou.CleanUp)
            && (r.outcome.Ok? ==> r.state.accounts == s.accounts - {a} && EndsLeasesOn(s, r.state, a, Ejected))
            && (r.outcome.Fail? ==> r.state == s)
  {
    assert AccountInv(s, a);
    if s.accounts[a].status != Ou.CleanUp {
      TerminateAllKeepsInv(s, a, listing, Ejected);
      var ended := TerminateAllSpec(s, listing, Ejected).state;
      AccountStepKeepsInv(ended, EjectSpec(s, a, s.accounts[a], listing).state, a);
    }
  }

  lemma QuarantineKeepsInv(s: State, a: AccountId, listing: seq<LeaseKey>)
    requires Inv(s) && IsLeaseListing(s, a, listing)
    ensures var r := QuarantineSpec(s, a, Ou.CleanUp, listing);
            && Inv(r.state)
            && (r.outcome.Ok? <==> InOu(s, a, Ou.CleanUp))
            && (forall k :: !MonitoredOn(r.state, k, a))
            && EndsLeasesOn(s, r.state, a, AccountQuarantined)
            && r.state.accounts ==
                 if r.outcome.Ok? then s.accounts[a := RecordOrNew(s, a).(status := Ou.Quarantine)] else s.accounts
  {
    TerminateAllKeepsInv(s, a, listing, AccountQuarantined);
    var ended := TerminateAllSpec(s, listing, AccountQuarantined).state;
    var r := QuarantineSpec(s, a, Ou.CleanUp, listing);
    assert r.state.leases == ended.leases;
    assert forall k :: MonitoredOn(r.state, k, a) <==> MonitoredOn(ended, k, a);
    if r.outcome.Ok? {
      AccountStepKeepsInv(ended, r.state, a);
    }
  }

  lemma LeaseStepKeepsInv(s: State, op: Op, c: Config)
    requires Inv(s) && Enabled(s, op)
    requires op.Approve? || op.Deny? || op.Freeze? || op.Unfreeze? || op.Terminate? || op.Patch? || op.MonitorWrite?
    ensures Inv(Apply(s, op, c).state)
  {
    var t := Apply(s, op, c).state;
    var k := op.key;
    if k in s.leases {
      if op.Freeze? {
        FreezeKeepsInv(s, k);
      } else if op.Unfreeze? {
        UnfreezeKeepsInv(s, k);
      } else if op.Approve? {
        if s.leases[k].status.PendingApproval? { ApproveKeepsInv(s, k, op.approver, op.pick); }
      } else if op.Terminate? {
        if IsMonitored(s.leases[k].status) { TerminateKeepsInv(s, k, s.leases[k].awsAccountId.value, op.reason, true); }
      } else if t != s {
        LeaseRewriteKeepsInv(s, t, k);
      }
    }
  }

  /** An account is moved and its record written, nothing else. */
  ghost predicate IsMoved(s: State, a: AccountId, from: Ou, to: Ou, t: State) {
    && InOu(s, a, from) && t.ou == s.ou[a := to] && StorableStatus(to)
    && a in t.accounts && t.accounts[a].status == to && t.accounts == s.accounts[a := t.accounts[a]]
    && t.leases == s.leases && t.grants == s.grants && t.directory == s.directory
  }

  lemma MovedKeepsInv(s: State, a: AccountId, from: Ou, to: Ou, t: State)
    requires Inv(s) && IsMoved(s, a, from, to, t) && from != Ou.Active && from != Ou.Frozen
    ensures Inv(t)
  {
    assert AccountInv(s, a);
    hide AccountInv;
    AccountStepKeepsInv(s, t, a);
  }

  /** Registration, retry and a successful clean-up move one account, or leave the tables alone. */
  lemma AccountOpEffect(s: State, op: Op, c: Config)
    requires Enabled(s, op) && (op.Register? || op.RetryCleanup? || op.CleanupSucceeded?)
    ensures var a, t := op.accountId, Apply(s, op, c).state;
            || (t.ou == s.ou && t.accounts == s.accounts && t.leases == s.leases
                && t.grants == s.grants && t.directory == s.directory)
            || (op.Register? && IsMoved(s, a, Ou.Entry, Ou.CleanUp, t))
            || (op.RetryCleanup? && IsMoved(s, a, Ou.Quarantine, Ou.CleanUp, t)
                && a in s.accounts && s.accounts[a].status == Ou.Quarantine)
            || (op.CleanupSucceeded? && IsMoved(s, a, Ou.CleanUp, Ou.Available, t)
                && a in s.accounts && s.accounts[a].status == Ou.CleanUp)
  {
    hide RequestSpec, ApproveSpec, DenySpec, FreezeSpec, UnfreezeSpec, TerminateSpec, EjectSpec, QuarantineSpec;
  }

  lemma AccountOpKeepsInv(s: State, op: Op, c: Config)
    requires Inv(s) && Enabled(s, op)
    requires op.Register? || op.RetryCleanup? || op.CleanupSucceeded? || op.ClaimCleanup? || op.PassTime?
    ensures Inv(Apply(s, op, c).state)
  {
    var t := Apply(s, op, c).state;
    if op.ClaimCleanup? {
      ClaimKeepsInv(s, op, c);
    } else if op.PassTime? {
      SameTablesKeepInv(s, t);
    } else {
      AccountOpEffect(s, op, c);
      hide Apply, Inv, IsMoved;
      if t.ou == s.ou && t.accounts == s.accounts && t.leases == s.leases && t.grants == s.grants
         && t.directory == s.directory {
        SameTablesKeepInv(s, t);
      } else if op.Register? {
        MovedKeepsInv(s, op.accountId, Ou.Entry, Ou.CleanUp, t);
      } else if op.RetryCleanup? {
        MovedKeepsInv(s, op.accountId, Ou.Quarantine, Ou.CleanUp, t);
      } else {
        MovedKeepsInv(s, op.accountId, Ou.CleanUp, Ou.Available, t);
      }
    }
  }

  lemma ClaimKeepsInv(s: State, op: Op, c: Config)
    requires Inv(s) && Enabled(s, op) && op.ClaimCleanup?
    ensures Inv(Apply(s, op, c).state)
  {
    hide AccountInv;
    InvFromSameEverywhere(s, Apply(s, op, c).state);
  }

  /** Every operation keeps the invariant, also when it fails. */
  lemma StepKeepsInv(s: State, op: Op, c: Config)
    requires Inv(s) && Enabled(s, op)
    ensures Inv(Apply(s, op, c).state)
  {
    hide Inv;
    if op.Request? {
      RequestKeepsInv(s, op.key, op.template, op.onBehalf, c.maxLeasesPerUser, op.pick);
    } else if op.Eject? {
      if op.accountId in s.accounts { EjectKeepsInv(s, op.accountId, op.listing); }
    } else if op.CleanupFailed? {
      QuarantineKeepsInv(s, op.accountId, op.listing);
    } else if op.Register? || op.RetryCleanup? || op.CleanupSucceeded? || op.ClaimCleanup? || op.PassTime? {
      AccountOpKeepsInv(s, op, c);
    } else {
      LeaseStepKeepsInv(s, op, c);
    }
  }

  // ----- Whole runs -----

  ghost predicate IsRun(states: seq<State>, ops: seq<Op>, c: Config) {
    && |states| == |ops| + 1
    && Init(states[0])
    && forall i :: 0 <= i < |ops| ==> Enabled(states[i], ops[i]) && states[i + 1] == Apply(states[i], ops[i], c).state
  }

  lemma {:induction false} RunsKeepInv(states: seq<State>, ops: seq<Op>, c: Config, i: nat)
    requires IsRun(states, ops, c) && i <= |ops|
    ensures Inv(states[i])
  {
    if i == 0 {
      assert Inv(states[0]) by {
        forall a
          ensures AccountInv(states[0], a)
        {
        }
      }
    } else {
      RunsKeepInv(states, ops, c, i - 1);
      assert Enabled(states[i - 1], ops[i - 1]) && states[i] == Apply(states[i - 1], ops[i - 1], c).state;
      StepKeepsInv(states[i - 1], ops[i - 1], c);
    }
  }

  /**
    Safety of every run: the table agrees with the units, a monitored lease holds a tracked account of its own status
    that no other monitored lease holds, and an account is open to one user at most, the user of its active lease.
   */
  lemma RunSafety(states: seq<State>, ops: seq<Op>, c: Config, i: nat)
    requires IsRun(states, ops, c) && i <= |ops|
    ensures var s := states[i];
            && (forall a :: a in s.accounts ==> a in s.ou && s.ou[a] == s.accounts[a].status)
            && (forall a :: a in s.ou && a !in s.accounts ==> s.ou[a] == Ou.Entry || s.ou[a] == Ou.Exit)
            && (forall k :: k in s.leases && IsMonitored(s.leases[k].status) ==>
                  && Tracked(s, s.leases[k].awsAccountId)
                  && s.accounts[s.leases[k].awsAccountId.value].status == OuOfStatus(s.leases[k].status))
            && (forall k, l, a :: MonitoredOn(s, k, a) && MonitoredOn(s, l, a) ==> k == l)
            && (forall a, u :: (a, u) in s.grants ==> Leases(s, u, a))
            && (forall a, u, v :: (a, u) in s.grants && (a, v) in s.grants ==> u == v)
  {
    RunsKeepInv(states, ops, c, i);
    var s := states[i];
    assert forall a :: a in s.accounts || a in s.ou ==> AccountInv(s, a);
    assert forall k, a :: MonitoredOn(s, k, a) ==> AccountInv(s, a);
    assert forall a, u :: (a, u) in s.grants ==> AccountInv(s, a);
    forall k | k in s.leases && IsMonitored(s.leases[k].status)
      ensures Tracked(s, s.leases[k].awsAccountId)
      ensures s.accounts[s.leases[k].awsAccountId.value].status == OuOfStatus(s.leases[k].status)
    {
      assert MonitoredOn(s, k, s.leases[k].awsAccountId.value);
    }
  }
}
