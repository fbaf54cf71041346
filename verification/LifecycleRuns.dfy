/** What whole runs of the life cycle guarantee beyond the invariant: lease histories, lease limits, clean-up requests. */
module LifecycleRuns {
  import opened Domain
  import opened SandboxState
  import opened Lifecycle

  // ----- What each operation may move -----

  function StatusOf(s: State, a: AccountId): Option<Ou> {
    if a in s.accounts then Some(s.accounts[a].status) else None
  }

  /** The account keeps its status, or makes the one move that the operation stands for. */
  ghost predicate AccountMove(s: State, op: Op, t: State, a: AccountId) {
    var x, y := StatusOf(s, a), StatusOf(t, a);
    x == y ||
    match op
    case Register(b, _) => b == a && x == None && y == Some(Ou.CleanUp)
    case Request(k, _, _, pick) =>
      pick == Some(a) && x == Some(Ou.Available) && y == Some(Ou.Active) && MonitoredOn(t, k, a)
    case Approve(k, _, pick) =>
      pick == Some(a) && x == Some(Ou.Available) && y == Some(Ou.Active) && MonitoredOn(t, k, a)
    case Freeze(k) => MonitoredOn(s, k, a) && x == Some(Ou.Active) && y == Some(Ou.Frozen)
    case Unfreeze(k) => MonitoredOn(s, k, a) && x == Some(Ou.Frozen) && y == Some(Ou.Active)
    case Terminate(k, _) => MonitoredOn(s, k, a) && y == Some(Ou.CleanUp)
    case RetryCleanup(b) => b == a && x == Some(Ou.Quarantine) && y == Some(Ou.CleanUp)
    case Eject(b, _) => b == a && x != Some(Ou.CleanUp) && y == None
    case CleanupSucceeded(b) => b == a && x == Some(Ou.CleanUp) && y == Some(Ou.Available)
    case CleanupFailed(b, _) => b == a && x == Some(Ou.CleanUp) && y == Some(Ou.Quarantine)
    case _ => false
  }

  /** The same for a lease; only a request brings a new one. */
  ghost predicate LeaseMove(s: State, op: Op, t: State, k: LeaseKey)
    requires k in t.leases
  {
    var y := t.leases[k].status;
    if k !in s.leases then op.Request? && op.key == k && (y.PendingApproval? || y.Active?)
    else
      var x := s.leases[k].status;
      && (s.leases[k].awsAccountId.Some? ==> t.leases[k].awsAccountId == s.leases[k].awsAccountId)
      && (x == y ||
          match op
          case Approve(l, _, _) => l == k && x.PendingApproval? && y.Active?
          case Deny(l, _) => l == k && x.PendingApproval? && y.ApprovalDenied?
          case Freeze(l) => l == k && x.Active? && y.Frozen?
          case Unfreeze(l) => l == k && x.Frozen? && y.Active?
          case Terminate(l, reason) => l == k && IsMonitored(x) && y == reason
          case Eject(a, _) => MonitoredOn(s, k, a) && y.Ejected?
          case CleanupFailed(a, _) => MonitoredOn(s, k, a) && y.AccountQuarantined?
          case _ => false)
  }

  ghost predicate Moves(s: State, op: Op, t: State) {
    && s.leases.Keys <= t.leases.Keys
    && (forall k :: k in t.leases ==> LeaseMove(s, op, t, k))
    && (forall a :: AccountMove(s, op, t, a))
  }

  lemma SameTablesMove(s: State, op: Op, t: State)
    requires t.accounts == s.accounts && t.leases == s.leases
    ensures Moves(s, op, t)
  {
  }

  /** The account of a lease that is approved becomes active. */
  ghost predicate Activates(s: State, k: LeaseKey, a: AccountId, t: State) {
    && a in s.accounts && s.accounts[a].status == Ou.Available
    && t.accounts == s.accounts[a := s.accounts[a].(status := Ou.Active)]
    && MonitoredOn(t, k, a) && t.leases[k].status.Active?
  }

  lemma RequestedMoves(s: State, op: Op, t: State)
    requires op.Request? && op.key !in s.leases && op.key in t.leases
    requires t.leases == s.leases[op.key := t.leases[op.key]]
    requires || (t.accounts == s.accounts && t.leases[op.key].status.PendingApproval?)
             || (op.pick.Some? && Activates(s, op.key, op.pick.value, t))
    ensures Moves(s, op, t)
  {
  }

  lemma RequestMoves(s: State, op: Op, c: Config)
    requires Inv(s) && Enabled(s, op) && op.Request?
    ensures Moves(s, op, Apply(s, op, c).state)
  {
    hide Inv, ApproveSpec, Moves;
    var k, t := op.key, Apply(s, op, c).state;
    if |OpenLeases(s, k.userEmail)| >= c.maxLeasesPerUser || k in s.leases {
      SameTablesMove(s, op, t);
    } else {
      var created := PutLease(s, k, RequestedLease(op.template));
      CreateKeepsInv(s, k, op.template);
      if op.template.requiresApproval && !op.onBehalf {
        RequestedMoves(s, op, t);
      } else {
        ApproveEffect(created, k, "AUTO_APPROVED", op.pick);
        if op.pick.Some? {
          RequestedMoves(s, op, t);
        } else {
          assert created.leases - {k} == s.leases;
          SameTablesMove(s, op, t);
        }
      }
    }
  }

  lemma ApprovedMoves(s: State, op: Op, t: State)
    requires op.Approve? && op.pick.Some? && op.key in s.leases && op.key in t.leases
    requires s.leases[op.key].status.PendingApproval? && s.leases[op.key].awsAccountId.None?
    requires t.leases == s.leases[op.key := t.leases[op.key]] && Activates(s, op.key, op.pick.value, t)
    ensures Moves(s, op, t)
  {
  }

  lemma ApproveMoves(s: State, op: Op, c: Config)
    requires Inv(s) && Enabled(s, op) && op.Approve?
    ensures Moves(s, op, Apply(s, op, c).state)
  {
    hide ApproveSpec, Moves, AccountInv;
    var t := Apply(s, op, c).state;
    if op.key in s.leases && s.leases[op.key].status.PendingApproval? && op.pick.Some? {
      ApproveEffect(s, op.key, op.approver, op.pick);
      ApprovedMoves(s, op, t);
    } else {
      if op.key in s.leases && s.leases[op.key].status.PendingApproval? {
        ApproveEffect(s, op.key, op.approver, op.pick);
      }
      SameTablesMove(s, op, t);
    }
  }

  /** A lease is written back with its account; only a denial changes its status. */
  lemma RewrittenMoves(s: State, op: Op, t: State)
    requires (op.Deny? || op.Patch? || op.MonitorWrite?) && op.key in s.leases && op.key in t.leases
    requires t.accounts == s.accounts && t.leases == s.leases[op.key := t.leases[op.key]]
    requires t.leases[op.key].awsAccountId == s.leases[op.key].awsAccountId
    requires var x, y := s.leases[op.key].status, t.leases[op.key].status;
             x == y || (op.Deny? && x.PendingApproval? && y.ApprovalDenied?)
    ensures Moves(s, op, t)
  {
  }

  lemma ReviewMoves(s: State, op: Op, c: Config)
    requires Inv(s) && Enabled(s, op) && (op.Deny? || op.Patch? || op.MonitorWrite?)
    ensures Moves(s, op, Apply(s, op, c).state)
  {
    hide Inv, Moves;
    var t := Apply(s, op, c).state;
    if op.key in s.leases && t.leases != s.leases {
      RewrittenMoves(s, op, t);
    } else {
      SameTablesMove(s, op, t);
    }
  }

  lemma SwitchedMoves(s: State, op: Op, to: LeaseStatus, t: State)
    requires Inv(s) && IsMonitored(to) && (op.Freeze? || op.Unfreeze?) && IsSwitched(s, op.key, to, t)
    requires if op.Freeze? then s.leases[op.key].status.Active? && to.Frozen?
             else s.leases[op.key].status.Frozen? && to.Active?
    ensures Moves(s, op, t)
  {
    var a := s.leases[op.key].awsAccountId.value;
    assert AccountInv(s, a);
    assert s.accounts[a].status == OuOfStatus(s.leases[op.key].status);
    hide Inv, AccountInv;
  }

  lemma FreezeMoves(s: State, op: Op, c: Config)
    requires Inv(s) && Enabled(s, op) && (op.Freeze? || op.Unfreeze?)
    ensures Moves(s, op, Apply(s, op, c).state)
  {
    hide Inv, Moves, FreezeSpec, UnfreezeSpec, IsSwitched;
    var k, t := op.key, Apply(s, op, c).state;
    if k !in s.leases {
      SameTablesMove(s, op, t);
    } else if op.Freeze? {
      FreezeEffect(s, k);
      if s.leases[k].status.Active? { SwitchedMoves(s, op, LeaseStatus.Frozen, t); } else { SameTablesMove(s, op, t); }
    } else {
      UnfreezeEffect(s, k);
      if s.leases[k].status.Frozen? { SwitchedMoves(s, op, LeaseStatus.Active, t); } else { SameTablesMove(s, op, t); }
    }
  }

  lemma EndedMoves(s: State, op: Op, a: AccountId, t: State)
    requires op.Terminate? && MonitoredOn(s, op.key, a) && op.key in t.leases
    requires t.leases == s.leases[op.key := t.leases[op.key]]
    requires t.leases[op.key].status == op.reason && t.leases[op.key].awsAccountId == Some(a)
    requires a in s.accounts && t.accounts == s.accounts[a := s.accounts[a].(status := Ou.CleanUp)]
    ensures Moves(s, op, t)
  {
  }

  lemma TerminateMoves(s: State, op: Op, c: Config)
    requires Inv(s) && Enabled(s, op) && op.Terminate?
    ensures var t := Apply(s, op, c).state;
            && Moves(s, op, t)
            && forall a :: MonitoredOn(s, op.key, a) ==> InOu(t, a, Ou.CleanUp)
  {
    hide Moves;
    var t := Apply(s, op, c).state;
    if op.key in s.leases && IsMonitored(s.leases[op.key].status) {
      var a := s.leases[op.key].awsAccountId.value;
      assert MonitoredOn(s, op.key, a) && AccountInv(s, a);
      hide Inv, AccountInv;
      EndedMoves(s, op, a, t);
    } else {
      SameTablesMove(s, op, t);
    }
  }

  lemma EjectMoves(s: State, op: Op, c: Config)
    requires Inv(s) && Enabled(s, op) && op.Eject?
    ensures var t := Apply(s, op, c).state;
            && Moves(s, op, t)
            && (t.leases != s.leases ==> op.accountId !in t.accounts)
  {
    hide EjectSpec, IsLeaseListing;
    if op.accountId in s.accounts {
      EjectKeepsInv(s, op.accountId, op.listing);
    }
  }

  lemma CleanupFailedMoves(s: State, op: Op, c: Config)
    requires Inv(s) && Enabled(s, op) && op.CleanupFailed?
    ensures Moves(s, op, Apply(s, op, c).state)
  {
    hide QuarantineSpec, IsLeaseListing;
    assert AccountInv(s, op.accountId);
    QuarantineKeepsInv(s, op.accountId, op.listing);
  }

  lemma MovedMoves(s: State, op: Op, from: Ou, to: Ou, t: State)
    requires Inv(s) && (op.Register? || op.RetryCleanup? || op.CleanupSucceeded?)
    requires IsMoved(s, op.accountId, from, to, t)
    requires if op.Register? then from == Ou.Entry && to == Ou.CleanUp
             else op.accountId in s.accounts && s.accounts[op.accountId].status == from
                  && if op.RetryCleanup? then from == Ou.Quarantine && to == Ou.CleanUp
                     else from == Ou.CleanUp && to == Ou.Available
    ensures Moves(s, op, t)
  {
    assert AccountInv(s, op.accountId);
    hide Inv, AccountInv;
  }

  lemma AccountMoves(s: State, op: Op, c: Config)
    requires Inv(s) && Enabled(s, op)
    requires op.Register? || op.RetryCleanup? || op.CleanupSucceeded?
    ensures Moves(s, op, Apply(s, op, c).state)
  {
    AccountOpEffect(s, op, c);
    hide Apply, Moves, Inv, IsMoved;
    var t := Apply(s, op, c).state;
    if t.accounts == s.accounts && t.leases == s.leases {
      SameTablesMove(s, op, t);
    } else if op.Register? {
      MovedMoves(s, op, Ou.Entry, Ou.CleanUp, t);
    } else if op.RetryCleanup? {
      MovedMoves(s, op, Ou.Quarantine, Ou.CleanUp, t);
    } else {
      MovedMoves(s, op, Ou.CleanUp, Ou.Available, t);
    }
  }

  lemma QuietMoves(s: State, op: Op, c: Config)
    requires Inv(s) && Enabled(s, op) && (op.ClaimCleanup? || op.PassTime?)
    ensures Moves(s, op, Apply(s, op, c).state)
  {
    hide Inv;
  }

  lemma StepMoves(s: State, op: Op, c: Config)
    requires Inv(s) && Enabled(s, op)
    ensures Moves(s, op, Apply(s, op, c).state)
  {
    hide *;
    if op.Request? {
      RequestMoves(s, op, c);
    } else if op.Approve? {
      ApproveMoves(s, op, c);
    } else if op.Deny? || op.Patch? || op.MonitorWrite? {
      ReviewMoves(s, op, c);
    } else if op.Freeze? || op.Unfreeze? {
      FreezeMoves(s, op, c);
    } else if op.Terminate? {
      TerminateMoves(s, op, c);
    } else if op.Eject? {
      EjectMoves(s, op, c);
    } else if op.CleanupFailed? {
      CleanupFailedMoves(s, op, c);
    } else if op.ClaimCleanup? || op.PassTime? {
      QuietMoves(s, op, c);
    } else {
      AccountMoves(s, op, c);
    }
  }

  // ----- Lease histories -----

  /** One move of the life cycle Pending -> (Denied or Active <-> Frozen -> expired), or no move. */
  predicate Edge(x: LeaseStatus, y: LeaseStatus) {
    || x == y
    || (x.PendingApproval? && (y.ApprovalDenied? || y.Active?))
    || (x.Active? && y.Frozen?)
    || (x.Frozen? && y.Active?)
    || (IsMonitored(x) && IsExpired(y))
  }

  /** The statuses that `x` leads to. */
  predicate CanBecome(x: LeaseStatus, y: LeaseStatus) {
    || x == y
    || x.PendingApproval?
    || (IsMonitored(x) && (IsMonitored(y) || IsExpired(y)))
  }

  predicate IsTerminal(status: LeaseStatus) {
    status.ApprovalDenied? || IsExpired(status)
  }

  lemma EdgeExtends(x: LeaseStatus, y: LeaseStatus, z: LeaseStatus)
    requires (x == y || CanBecome(x, y)) && (IsTerminal(x) ==> x == y) && (y == z || Edge(y, z))
    ensures CanBecome(x, z) && (IsTerminal(x) ==> z == x)
  {
  }

  lemma RunStep(states: seq<State>, ops: seq<Op>, c: Config, j: nat)
    requires IsRun(states, ops, c) && j < |ops|
    ensures Inv(states[j]) && Enabled(states[j], ops[j]) && states[j + 1] == Apply(states[j], ops[j], c).state
  {
    RunsKeepInv(states, ops, c, j);
  }

  /** One step of a lease. */
  lemma LeaseStep(s: State, op: Op, c: Config, t: State, k: LeaseKey)
    requires Enabled(s, op) && Moves(s, op, t) && k in s.leases
    ensures k in t.leases && Edge(s.leases[k].status, t.leases[k].status)
    ensures s.leases[k].awsAccountId.Some? ==> t.leases[k].awsAccountId == s.leases[k].awsAccountId
  {
    assert LeaseMove(s, op, t, k);
  }

  /**
    Over any stretch of any run a lease stays in the table, its status only goes forward (a denied or expired lease never
    changes again), and the account it was assigned never changes.
   */
  lemma {:induction false} LeaseHistory(states: seq<State>, ops: seq<Op>, c: Config, i: nat, j: nat, k: LeaseKey)
    requires |states| == |ops| + 1 && IsRun(states, ops, c) && i <= j <= |ops| && k in states[i].leases
    ensures k in states[j].leases && (i < j ==> k in states[j - 1].leases)
    ensures var x, y := states[i].leases[k], states[j].leases[k];
            && CanBecome(x.status, y.status)
            && (IsTerminal(x.status) ==> y.status == x.status)
            && (x.awsAccountId.Some? ==> y.awsAccountId == x.awsAccountId)
            && (i < j ==> Edge(states[j - 1].leases[k].status, y.status))
    decreases j
  {
    if i < j {
      hide Inv, Enabled, Apply, IsRun, Moves, CanBecome, Edge, IsTerminal;
      LeaseHistory(states, ops, c, i, j - 1, k);
      RunStep(states, ops, c, j - 1);
      StepMoves(states[j - 1], ops[j - 1], c);
      LeaseStep(states[j - 1], ops[j - 1], c, states[j], k);
      EdgeExtends(states[i].leases[k].status, states[j - 1].leases[k].status, states[j].leases[k].status);
    } else {
      EdgeExtends(states[i].leases[k].status, states[i].leases[k].status, states[i].leases[k].status);
    }
  }

  // ----- The lease limit -----

  lemma OpenLeasesShrink(s: State, op: Op, t: State, user: Email)
    requires Moves(s, op, t)
    requires op.Request? && op.key !in s.leases ==> op.key.userEmail != user || op.key !in t.leases
    ensures |OpenLeases(t, user)| <= |OpenLeases(s, user)|
  {
    forall k | k in OpenLeases(t, user)
      ensures k in OpenLeases(s, user)
    {
      assert LeaseMove(s, op, t, k);
    }
    Subset(OpenLeases(t, user), OpenLeases(s, user));
  }

  lemma {:induction false} Subset<T>(a: set<T>, b: set<T>)
    requires a <= b
    ensures |a| <= |b|
  {
    if a != {} {
      var x :| x in a;
      Subset(a - {x}, b - {x});
    }
  }

  /** Only a request below the limit opens a lease. */
  lemma StepKeepsLimit(s: State, op: Op, c: Config, user: Email)
    requires Inv(s) && Enabled(s, op) && |OpenLeases(s, user)| <= c.maxLeasesPerUser
    ensures |OpenLeases(Apply(s, op, c).state, user)| <= c.maxLeasesPerUser
  {
    var t := Apply(s, op, c).state;
    StepMoves(s, op, c);
    if op.Request? && op.key !in s.leases && op.key.userEmail == user {
      if op.key in t.leases {
        RequestIsBelowLimit(s, op, c);
        OpenLeasesGrowByOne(s, op, t, user);
      } else {
        OpenLeasesShrink(s, op, t, user);
      }
    } else {
      OpenLeasesShrink(s, op, t, user);
    }
  }

  lemma RequestIsBelowLimit(s: State, op: Op, c: Config)
    requires Enabled(s, op) && op.Request? && op.key !in s.leases && op.key in Apply(s, op, c).state.leases
    ensures |OpenLeases(s, op.key.userEmail)| < c.maxLeasesPerUser
  {
  }

  lemma OpenLeasesGrowByOne(s: State, op: Op, t: State, user: Email)
    requires Moves(s, op, t) && op.Request? && op.key !in s.leases
    ensures |OpenLeases(t, user)| <= |OpenLeases(s, user)| + 1
  {
    assert forall k :: k in OpenLeases(t, user) ==> LeaseMove(s, op, t, k);
    Subset(OpenLeases(t, user), OpenLeases(s, user) + {op.key});
  }

  /** No user ever holds more open leases than allowed, failed automatic approvals included. */
  lemma {:induction false} LeaseLimitHolds(states: seq<State>, ops: seq<Op>, c: Config, i: nat, user: Email)
    requires |states| == |ops| + 1 && IsRun(states, ops, c) && i <= |ops|
    ensures |OpenLeases(states[i], user)| <= c.maxLeasesPerUser
  {
    if i == 0 {
      assert OpenLeases(states[0], user) == {};
    } else {
      hide Inv, Enabled, Apply, IsRun, OpenLeases;
      LeaseLimitHolds(states, ops, c, i - 1, user);
      RunStep(states, ops, c, i - 1);
      StepKeepsLimit(states[i - 1], ops[i - 1], c, user);
    }
  }

  // ----- Clean-up requests -----

  /** The step from `s` to `t` sent a request to clean `a`. */
  predicate AsksToClean(s: State, t: State, a: AccountId) {
    s.events <= t.events && CleanAccountRequest(a) in t.events[|s.events|..]
  }

  /** The lease of the expiry has no duration, so that its termination event cannot be built. */
  predicate ExpiresWithoutDuration(s: State, op: Op) {
    op.Terminate? && op.key in s.leases && ReasonUndefined(s.leases[op.key], op.reason)
  }

  /**
    An account enters CleanUp only on registration, termination of its lease or an admin's retry. The step that brings
    it there requests its clean-up, except exactly when it expires a lease that has no duration.
   */
  lemma EnteringCleanUpAsks(s: State, op: Op, c: Config, a: AccountId)
    requires Inv(s) && Enabled(s, op)
    requires var t := Apply(s, op, c).state; !InOu(s, a, Ou.CleanUp) && InOu(t, a, Ou.CleanUp)
    ensures AsksToClean(s, Apply(s, op, c).state, a) <==> !ExpiresWithoutDuration(s, op)
  {
    EnteringCleanUpIs(s, op, c, a);
    match op
    case Register(_, _) => RegisterAsks(s, op, c, a);
    case Terminate(_, _) => TerminateAsks(s, op, c, a);
    case RetryCleanup(_) => RegisterAsks(s, op, c, a);
  }

  lemma EnteringCleanUpIs(s: State, op: Op, c: Config, a: AccountId)
    requires Inv(s) && Enabled(s, op)
    requires var t := Apply(s, op, c).state; !InOu(s, a, Ou.CleanUp) && InOu(t, a, Ou.CleanUp)
    ensures || ((op.Register? || op.RetryCleanup?) && op.accountId == a)
            || (op.Terminate? && MonitoredOn(s, op.key, a))
  {
    hide Apply;
    var t := Apply(s, op, c).state;
    StepMoves(s, op, c);
    StepKeepsInv(s, op, c);
    assert AccountInv(s, a) && AccountInv(t, a);
    assert AccountMove(s, op, t, a);
  }

  lemma RegisterAsks(s: State, op: Op, c: Config, a: AccountId)
    requires Enabled(s, op) && (op.Register? || op.RetryCleanup?) && op.accountId == a
    requires var t := Apply(s, op, c).state; !InOu(s, a, Ou.CleanUp) && InOu(t, a, Ou.CleanUp)
    ensures AsksToClean(s, Apply(s, op, c).state, a)
  {
    assert Apply(s, op, c).state.events[|s.events|..] == [CleanAccountRequest(a)];
  }

  lemma TerminateAsks(s: State, op: Op, c: Config, a: AccountId)
    requires Inv(s) && Enabled(s, op) && op.Terminate? && MonitoredOn(s, op.key, a)
    ensures AsksToClean(s, Apply(s, op, c).state, a) <==> !ExpiresWithoutDuration(s, op)
  {
    assert AccountInv(s, a);
    var t := Apply(s, op, c).state;
    if ReasonUndefined(s.leases[op.key], op.reason) {
      assert t.events[|s.events|..] == [];
    } else {
      assert t.events[|s.events|..] == [CleanAccountRequest(a), LeaseTerminated(op.key, a, op.reason)];
    }
  }

  /** Between the steps `j` and `i` the account never left CleanUp, and step `j` brought it there. */
  ghost predicate InCleanUpSince(states: seq<State>, j: nat, i: nat, a: AccountId) {
    && j < i < |states|
    && !InOu(states[j], a, Ou.CleanUp)
    && forall m :: j < m <= i ==> InOu(states[m], a, Ou.CleanUp)
  }

  /** Whenever an account is in CleanUp, the step by which it last came there has requested its clean-up. */
  lemma {:induction false} CleanUpWasRequested(states: seq<State>, ops: seq<Op>, c: Config, i: nat, a: AccountId)
      returns (j: nat)
    requires IsRun(states, ops, c) && i <= |ops|
    requires forall m :: 0 <= m < |ops| ==> !ExpiresWithoutDuration(states[m], ops[m])
    requires InOu(states[i], a, Ou.CleanUp)
    ensures InCleanUpSince(states, j, i, a) && AsksToClean(states[j], states[j + 1], a)
    decreases i
  {
    assert i > 0;
    if InOu(states[i - 1], a, Ou.CleanUp) {
      j := CleanUpWasRequested(states, ops, c, i - 1, a);
    } else {
      j := i - 1;
      RunStep(states, ops, c, j);
      hide Inv, Enabled, Apply, IsRun;
      EnteringCleanUpAsks(states[j], ops[j], c, a);
    }
  }

  // ----- Accounts without a lease -----

  /** Every account that is in use carries a lease. */
  ghost predicate UsedAccountsAreLeased(s: State) {
    forall a :: a in s.accounts && (s.accounts[a].status == Ou.Active || s.accounts[a].status == Ou.Frozen) ==>
      exists k :: MonitoredOn(s, k, a)
  }

  /** A clean-up failure is reported for an account that has meanwhile been leased again. */
  predicate ReportsLate(s: State, op: Op) {
    && op.CleanupFailed? && op.accountId in s.accounts
    && (s.accounts[op.accountId].status == Ou.Active || s.accounts[op.accountId].status == Ou.Frozen)
  }

  /**
    That a used account carries a lease is not an invariant: `quarantineAccount` first terminates the leases and only
    then tries the move, from CleanUp. It is lost exactly when a clean-up failure is reported late; the account then
    stays in use, without a lease, and nothing will clean it.
   */
  lemma UsedAccountsStayLeasedUnlessReportedLate(s: State, op: Op, c: Config)
    requires Inv(s) && Enabled(s, op) && UsedAccountsAreLeased(s)
    ensures UsedAccountsAreLeased(Apply(s, op, c).state) <==> !ReportsLate(s, op)
  {
    var r := Apply(s, op, c);
    var t := r.state;
    if ReportsLate(s, op) {
      var a := op.accountId;
      assert AccountInv(s, a);
      TerminateAllKeepsInv(s, a, op.listing, AccountQuarantined);
      assert t == TerminateAllSpec(s, op.listing, AccountQuarantined).state;
    } else {
      forall a | a in t.accounts && (t.accounts[a].status == Ou.Active || t.accounts[a].status == Ou.Frozen)
        ensures exists k :: MonitoredOn(t, k, a)
      {
        var k := UsedAccountIsLeased(s, op, c, a);
      }
    }
  }

  predicate InUse(s: State, a: AccountId) {
    StatusOf(s, a) == Some(Ou.Active) || StatusOf(s, a) == Some(Ou.Frozen)
  }

  /** A lease only ends together with the use of its account. */
  lemma UsedAccountKeepsLease(s: State, op: Op, c: Config, a: AccountId, k: LeaseKey)
    requires Inv(s) && Enabled(s, op) && MonitoredOn(s, k, a) && !ReportsLate(s, op)
    requires InUse(Apply(s, op, c).state, a)
    ensures MonitoredOn(Apply(s, op, c).state, k, a)
  {
    hide Apply;
    var t := Apply(s, op, c).state;
    StepMoves(s, op, c);
    StepKeepsInv(s, op, c);
    assert AccountInv(s, a) && AccountInv(t, a);
    assert LeaseMove(s, op, t, k);
    if op.Terminate? {
      TerminateMoves(s, op, c);
    } else if op.Eject? {
      EjectMoves(s, op, c);
    }
  }

  /** An account in use after the step carries a lease, the old one or one just approved. */
  lemma UsedAccountIsLeased(s: State, op: Op, c: Config, a: AccountId) returns (k: LeaseKey)
    requires Inv(s) && Enabled(s, op) && UsedAccountsAreLeased(s) && !ReportsLate(s, op)
    requires InUse(Apply(s, op, c).state, a)
    ensures MonitoredOn(Apply(s, op, c).state, k, a)
  {
    hide Apply;
    if InUse(s, a) {
      k :| MonitoredOn(s, k, a);
      UsedAccountKeepsLease(s, op, c, a, k);
    } else {
      var t := Apply(s, op, c).state;
      StepMoves(s, op, c);
      assert AccountInv(s, a);
      assert AccountMove(s, op, t, a);
      k := op.key;
    }
  }
}
