/**
  What each operation of the sandbox achieves, in every state and with every refusal: when it succeeds, with which error
  it fails, and everything it changes, down to the fields of the records and the events in their order.
 */
module OperationOutcomes {
  import opened Domain
  import opened SandboxState
  import opened LeaseStore
  import opened Lifecycle

  // ----- Accounts -----

  /** An account is onboarded iff it exists and waits in the entry unit; otherwise nothing changes. */
  lemma RegisterOutcome(s: State, a: AccountId, described: bool)
    ensures RegisterSpec(s, a, described) ==
            if !described then Reply(s, Fail(CouldNotFindAccount))
            else if a !in s.ou || s.ou[a] != Ou.Entry then Reply(s, Fail(TransactionFailedAndRolledBack))
            else
              Reply(s.(ou := s.ou[a := Ou.CleanUp],
                       accounts := s.accounts[a := AccountRecord(Ou.CleanUp, false, None)],
                       groupGrants := s.groupGrants + {(a, Manager), (a, Admin)},
                       events := s.events + [CleanAccountRequest(a)]),
                    Ok)
  {
  }

  /** An account is picked whenever one is available, and one that was not cleaned within 24 hours if there is such. */
  lemma PickIsRestedIfPossible(s: State, pick: Option<AccountId>)
    requires ValidPick(s, pick)
    ensures pick.Some? <==> exists a :: a in s.accounts && s.accounts[a].status == Ou.Available
    ensures pick.Some? ==> pick.value in s.accounts && s.accounts[pick.value].status == Ou.Available
    ensures forall a ::
              && a in s.accounts && s.accounts[a].status == Ou.Available
              && (s.accounts[a].cleanupContext.Some? ==>
                    s.clock - s.accounts[a].cleanupContext.value.startTime >= 86400000) ==>
              var picked := s.accounts[pick.value].cleanupContext;
              picked.Some? ==> s.clock - picked.value.startTime >= 86400000
  {
    assert forall a :: IsAvailable(s, a) <==> a in s.accounts && s.accounts[a].status == Ou.Available;
  }

  lemma RetryCleanupOutcome(s: State, a: AccountId, record: AccountRecord)
    ensures RetryCleanupSpec(s, a, record) ==
            match record.status {
              case CleanUp => Reply(s.(events := s.events + [CleanAccountRequest(a)]), Ok)
              case Quarantine =>
                if a !in s.ou || s.ou[a] != Ou.Quarantine then Reply(s, Fail(TransactionFailedAndRolledBack))
                else
                  Reply(s.(ou := s.ou[a := Ou.CleanUp],
                           accounts := s.accounts[a := record.(status := Ou.CleanUp)],
                           events := s.events + [CleanAccountRequest(a)]),
                        Ok)
              case _ => Reply(s, Fail(AccountNotInQuarantine))
            }
  {
  }

  lemma CleanupSucceededOutcome(s: State, a: AccountId)
    ensures var r := CleanupSucceededSpec(s, a);
            && (r.outcome.Ok? <==> a in s.accounts && s.accounts[a].status == Ou.CleanUp && InOu(s, a, Ou.CleanUp))
            && (r.outcome.Ok? ==>
                  r.state == s.(ou := s.ou[a := Ou.Available],
                                accounts := s.accounts[a := s.accounts[a].(status := Ou.Available)]))
            && (r.outcome.Fail? ==>
                  && r.state == s
                  && (r.outcome.error.CouldNotFindAccount? <==> a !in s.accounts)
                  && (r.outcome.error.Conflict? <==> a in s.accounts && s.accounts[a].status != Ou.CleanUp)
                  && r.outcome.error in {CouldNotFindAccount, Conflict, TransactionFailedAndRolledBack})
  {
  }

  // ----- Granting a lease -----

  /** The term of a lease that was approved at `now` for account `a`; what was agreed with the request stays. */
  predicate HasApprovedTerm(stored: Lease, requested: Lease, approver: string, a: AccountId, now: int) {
    && stored.status.Active? && stored.awsAccountId == Some(a) && stored.approvedBy == Some(approver)
    && stored.startDate == now && stored.lastCheckedDate == now && stored.totalCostAccrued == 0.0
    && (stored.expirationDate.Some? <==>
          requested.leaseDurationInHours.Some? && requested.leaseDurationInHours.value > 0)
    && (stored.expirationDate.Some? ==>
          stored.expirationDate.value - stored.startDate == 3600000 * requested.leaseDurationInHours.value)
    && stored.maxSpend == requested.maxSpend && stored.leaseDurationInHours == requested.leaseDurationInHours
    && stored.budgetThresholds == requested.budgetThresholds
    && stored.durationThresholds == requested.durationThresholds && stored.endDate == requested.endDate
    && EditTime(stored) == Some(now) && KeepsCreation(requested, stored)
  }

  /** The item still bears the time at which it was created. */
  predicate KeepsCreation(before: Lease, after: Lease) {
    before.meta.Some? && before.meta.value.createdTime.Some? ==>
      after.meta.Some? && after.meta.value.createdTime == before.meta.value.createdTime
  }

  /** When an approval succeeds, what it refuses, and what it leaves in either case. */
  lemma ApproveOutcome(s: State, k: LeaseKey, lease: Lease, approver: string, pick: Option<AccountId>)
    requires pick.Some? ==> pick.value in s.accounts
    ensures var r := ApproveSpec(s, k, lease, approver, pick);
            && (r.outcome.Ok? <==>
                  pick.Some? && InOu(s, pick.value, Ou.Available) && k in s.leases && k.userEmail in s.directory)
            && (r.outcome.Ok? ==>
                  var a := pick.value;
                  && k in r.state.leases && HasApprovedTerm(r.state.leases[k], lease, approver, a, s.clock)
                  && r.state == s.(ou := s.ou[a := Ou.Active],
                                   accounts := s.accounts[a := s.accounts[a].(status := Ou.Active)],
                                   leases := s.leases[k := r.state.leases[k]],
                                   grants := s.grants + {(a, k.userEmail)},
                                   events := s.events + [LeaseApproved(k)],
                                   clock := s.clock + 1))
            && (r.outcome.Fail? ==>
                  && r.outcome.error == (if pick.None? then NoAccountsAvailable
                                         else if k.userEmail !in s.directory then CouldNotRetrieveUser
                                         else TransactionFailedAndRolledBack)
                  && IsRolledBack(s, k, r))
  {
    if pick.Some? && k.userEmail in s.directory {
      LeaseMoveGrantOutcome(s, k, ApprovedLease(lease, approver, pick.value, s.clock), pick.value,
                            s.accounts[pick.value], Ou.Available, Ou.Active);
    }
  }

  /** Nothing is left of a call but the clock, and a new stamp on the lease if that was written and written back. */
  predicate IsRolledBack(s: State, k: LeaseKey, r: Reply) {
    var t := r.state;
    if !r.outcome.Fail? || !r.outcome.error.TransactionFailedAndRolledBack? then t == s
    else if k !in s.leases then t == s.(clock := s.clock + 1)
    else
      && k in t.leases && SameContent(t.leases[k], s.leases[k])
      && EditTime(t.leases[k]) == Some(s.clock + 1) && KeepsCreation(s.leases[k], t.leases[k])
      && t == s.(leases := s.leases[k := t.leases[k]], clock := s.clock + 2)
  }

  lemma LeaseMoveGrantOutcome(
    s: State, k: LeaseKey, lease: Lease, a: AccountId, record: AccountRecord, from: Ou, to: Ou)
    requires from != to && StorableStatus(to)
    ensures var (t, ok) := LeaseMoveGrantSpec(s, k, lease, a, record, from, to);
            && (ok <==> k in s.leases && InOu(s, a, from))
            && (ok ==> t == s.(ou := s.ou[a := to], accounts := s.accounts[a := record.(status := to)],
                               leases := s.leases[k := WithUpdatedMetadata(lease, s.clock)],
                               grants := s.grants + {(a, k.userEmail)}, clock := s.clock + 1))
            && (!ok ==> IsRolledBack(s, k, Reply(t, Fail(TransactionFailedAndRolledBack))))
  {
    if k in s.leases && !InOu(s, a, from) {
      WrittenBack(s, k, lease);
      hide PutLease, IsRolledBack, WithUpdatedMetadata;
      assert PutLease(s, k, lease).ou == s.ou;
    }
  }

  lemma WrittenBack(s: State, k: LeaseKey, lease: Lease)
    requires k in s.leases
    ensures PutLease(s, k, lease).ou == s.ou
    ensures var t := PutLease(PutLease(s, k, lease), k, s.leases[k]);
            IsRolledBack(s, k, Reply(t, Fail(TransactionFailedAndRolledBack)))
  {
    var x, y := WithUpdatedMetadata(lease, s.clock), WithUpdatedMetadata(s.leases[k], s.clock + 1);
    assert s.leases[k := x][k := y] == s.leases[k := y];
  }

  /** A request has the terms of its template, and nothing is decided yet. */
  predicate IsPendingRequest(stored: Lease, t: Template, now: int) {
    && stored.status.PendingApproval? && stored.awsAccountId.None? && stored.approvedBy.None?
    && stored.startDate == 0 && stored.lastCheckedDate == 0 && stored.totalCostAccrued == 0.0
    && stored.expirationDate.None? && stored.endDate.None?
    && stored.maxSpend == t.maxSpend && stored.leaseDurationInHours == t.leaseDurationInHours
    && stored.budgetThresholds == t.budgetThresholds && stored.durationThresholds == t.durationThresholds
    && stored.meta == Some(Metadata(Some(now), Some(now)))
  }

  /** A request waits for approval iff its template asks for it and the user acts alone; else it is decided at once. */
  lemma RequestOutcome(
    s: State, k: LeaseKey, t: Template, onBehalf: bool, maxLeasesPerUser: int, pick: Option<AccountId>)
    requires pick.Some? ==> pick.value in s.accounts
    ensures var r := RequestSpec(s, k, t, onBehalf, maxLeasesPerUser, pick);
            if |OpenLeases(s, k.userEmail)| >= maxLeasesPerUser then r == Reply(s, Fail(MaxNumberOfLeasesExceeded))
            else if k in s.leases then r == Reply(s.(clock := s.clock + 1), Fail(LeaseAlreadyExists))
            else if t.requiresApproval && !onBehalf then
              && k in r.state.leases && IsPendingRequest(r.state.leases[k], t, s.clock)
              && r == Reply(s.(leases := s.leases[k := r.state.leases[k]], events := s.events + [LeaseRequested(k)],
                               clock := s.clock + 1), Ok)
            else IsDecidedRequest(s, k, t, pick, r)
  {
    hide ApproveSpec, IsDecidedRequest;
    if |OpenLeases(s, k.userEmail)| < maxLeasesPerUser && k !in s.leases && (!t.requiresApproval || onBehalf) {
      DecidedRequestOutcome(s, k, t, onBehalf, maxLeasesPerUser, pick);
    }
  }

  /** The request was approved at once, or nothing but the time is left of it. */
  predicate IsDecidedRequest(s: State, k: LeaseKey, t: Template, pick: Option<AccountId>, r: Reply) {
    if pick.None? then r == Reply(s.(clock := r.state.clock), Fail(NoAccountsAvailable))
    else if k.userEmail !in s.directory then r == Reply(s.(clock := r.state.clock), Fail(CouldNotRetrieveUser))
    else if !InOu(s, pick.value, Ou.Available) then
      r == Reply(s.(clock := r.state.clock), Fail(TransactionFailedAndRolledBack))
    else
      r.outcome.Ok? && IsApprovedRequest(s, k, t, pick.value, r.state)
  }

  predicate IsApprovedRequest(s: State, k: LeaseKey, t: Template, a: AccountId, u: State) {
    && a in s.accounts && k in u.leases
    && HasApprovedTerm(u.leases[k], RequestedLease(t), "AUTO_APPROVED", a, s.clock + 1)
    && u.leases[k].meta == Some(Metadata(Some(s.clock), Some(s.clock + 1))) && u.leases[k].endDate.None?
    && u.leases[k].maxSpend == t.maxSpend && u.leases[k].leaseDurationInHours == t.leaseDurationInHours
    && u.leases[k].budgetThresholds == t.budgetThresholds && u.leases[k].durationThresholds == t.durationThresholds
    && u == s.(ou := s.ou[a := Ou.Active], accounts := s.accounts[a := s.accounts[a].(status := Ou.Active)],
               leases := s.leases[k := u.leases[k]], grants := s.grants + {(a, k.userEmail)},
               events := s.events + [LeaseApproved(k)], clock := s.clock + 2)
  }

  lemma DecidedRequestOutcome(
    s: State, k: LeaseKey, t: Template, onBehalf: bool, maxLeasesPerUser: int, pick: Option<AccountId>)
    requires pick.Some? ==> pick.value in s.accounts
    requires |OpenLeases(s, k.userEmail)| < maxLeasesPerUser && k !in s.leases && (!t.requiresApproval || onBehalf)
    ensures IsDecidedRequest(s, k, t, pick, RequestSpec(s, k, t, onBehalf, maxLeasesPerUser, pick))
  {
    hide ApproveSpec, IsApprovedRequest, HasApprovedTerm, IsRolledBack, LeaseStore.WithUpdatedMetadata;
    var created := PutLease(s, k, RequestedLease(t));
    ApproveOutcome(created, k, created.leases[k], "AUTO_APPROVED", pick);
    if ApproveSpec(created, k, created.leases[k], "AUTO_APPROVED", pick).outcome.Ok? {
      ApprovedRequestIs(s, k, t, pick.value);
    } else {
      RefusedRequestIs(s, k, t, pick);
    }
  }

  lemma ApprovedRequestIs(s: State, k: LeaseKey, t: Template, a: AccountId)
    requires a in s.accounts && k !in s.leases
    ensures var created := PutLease(s, k, RequestedLease(t));
            var r := ApproveSpec(created, k, created.leases[k], "AUTO_APPROVED", Some(a));
            r.outcome.Ok? ==> IsApprovedRequest(s, k, t, a, r.state)
  {
    hide ApproveSpec;
    var created := PutLease(s, k, RequestedLease(t));
    ApproveOutcome(created, k, created.leases[k], "AUTO_APPROVED", Some(a));
  }

  lemma RefusedRequestIs(s: State, k: LeaseKey, t: Template, pick: Option<AccountId>)
    requires k !in s.leases && (pick.Some? ==> pick.value in s.accounts)
    ensures var created := PutLease(s, k, RequestedLease(t));
            var r := ApproveSpec(created, k, created.leases[k], "AUTO_APPROVED", pick);
            r.outcome.Fail? ==> r.state.(leases := r.state.leases - {k}) == s.(clock := r.state.clock)
  {
    hide ApproveSpec;
    var created := PutLease(s, k, RequestedLease(t));
    ApproveOutcome(created, k, created.leases[k], "AUTO_APPROVED", pick);
    assert ApproveSpec(created, k, created.leases[k], "AUTO_APPROVED", pick).state.leases - {k} == s.leases;
  }

  // ----- Deciding about a lease -----

  /** The lease is stored with the given content, stamped with the time of the write. */
  predicate IsStored(s: State, u: State, k: LeaseKey, lease: Lease) {
    && k in u.leases && u.leases == s.leases[k := u.leases[k]]
    && SameContent(u.leases[k], lease) && EditTime(u.leases[k]) == Some(s.clock) && KeepsCreation(lease, u.leases[k])
    && u.clock == s.clock + 1
  }

  lemma DenyOutcome(s: State, k: LeaseKey, lease: Lease, denier: string)
    ensures var r := DenySpec(s, k, lease, denier);
            && (k !in s.leases ==> r == Reply(s.(clock := s.clock + 1), Fail(UnknownLease)))
            && (k in s.leases ==>
                  && r.outcome.Ok?
                  && IsStored(s, r.state, k, lease.(status := ApprovalDenied, approvedBy := Some(denier)))
                  && r.state == s.(leases := r.state.leases, clock := r.state.clock,
                                   events := s.events + [LeaseDenied(k)]))
  {
  }

  /**
    Freezing takes all access to the account away and moves lease and account to Frozen. When it is refused after that,
    the access is lost; when the lease is unknown, the record has been given the status Active again.
   */
  lemma FreezeOutcome(s: State, k: LeaseKey, lease: Lease)
    ensures var r := FreezeSpec(s, k, lease);
            if !lease.status.Active? then r == Reply(s, Fail(AccountNotInActive))
            else if lease.awsAccountId.None? || lease.awsAccountId.value !in s.accounts then
              r == Reply(s, Fail(CouldNotFindAccount))
            else if k.userEmail !in s.directory then r == Reply(s, Fail(CouldNotRetrieveUser))
            else IsFrozenOrNot(s, k, lease, lease.awsAccountId.value, r)
  {
    if lease.status.Active? && Tracked(s, lease.awsAccountId) && k.userEmail in s.directory {
      FreezeAttempt(s, k, lease, lease.awsAccountId.value);
    }
  }

  ghost predicate IsFrozenOrNot(s: State, k: LeaseKey, lease: Lease, a: AccountId, r: Reply)
    requires a in s.accounts
  {
    && (forall b, u :: (b, u) in r.state.grants <==> (b, u) in s.grants && b != a)
    && if !InOu(s, a, Ou.Active) then
         r == Reply(s.(grants := r.state.grants), Fail(TransactionFailedAndRolledBack))
       else if k !in s.leases then
         r == Reply(s.(grants := r.state.grants, accounts := s.accounts[a := s.accounts[a].(status := Ou.Active)],
                       clock := s.clock + 1), Fail(TransactionFailedAndRolledBack))
       else
         && IsStored(s, r.state, k, lease.(status := LeaseStatus.Frozen))
         && r == Reply(s.(grants := r.state.grants, leases := r.state.leases, clock := r.state.clock,
                          ou := s.ou[a := Ou.Frozen], accounts := s.accounts[a := s.accounts[a].(status := Ou.Frozen)],
                          events := s.events + [LeaseFrozen(k, a)]), Ok)
  }

  lemma FreezeAttempt(s: State, k: LeaseKey, lease: Lease, a: AccountId)
    requires lease.status.Active? && lease.awsAccountId == Some(a) && a in s.accounts && k.userEmail in s.directory
    ensures IsFrozenOrNot(s, k, lease, a, FreezeSpec(s, k, lease))
  {
    assert InOu(s, a, Ou.Active) ==> s.ou[a := Ou.Active] == s.ou;
  }

  lemma UnfreezeOutcome(s: State, k: LeaseKey, lease: Lease)
    ensures var r := UnfreezeSpec(s, k, lease);
            if !lease.status.Frozen? then r == Reply(s, Fail(AccountNotInFrozen))
            else if lease.awsAccountId.None? || lease.awsAccountId.value !in s.accounts then
              r == Reply(s, Fail(CouldNotFindAccount))
            else if k.userEmail !in s.directory then r == Reply(s, Fail(CouldNotRetrieveUser))
            else
              var a := lease.awsAccountId.value;
              if k !in s.leases || !InOu(s, a, Ou.Frozen) then
                r == Reply(r.state, Fail(TransactionFailedAndRolledBack)) && IsRolledBack(s, k, r)
              else
                && IsStored(s, r.state, k, lease.(status := LeaseStatus.Active))
                && r == Reply(s.(grants := s.grants + {(a, k.userEmail)}, leases := r.state.leases,
                                 clock := r.state.clock, ou := s.ou[a := Ou.Active],
                                 accounts := s.accounts[a := s.accounts[a].(status := Ou.Active)],
                                 events := s.events + [LeaseUnfrozen(k, a)]), Ok)
  {
    hide LeaseMoveGrantSpec, IsRolledBack;
    if Tracked(s, lease.awsAccountId) {
      var a := lease.awsAccountId.value;
      LeaseMoveGrantOutcome(
        s, k, lease.(status := LeaseStatus.Active), a, s.accounts[a], Ou.Frozen, Ou.Active);
    }
  }

  // ----- Ending leases -----

  /** The lease has ended for `reason`, nobody has access to its account, and nothing else about leases has changed. */
  ghost predicate IsEnded(s: State, k: LeaseKey, lease: Lease, reason: LeaseStatus, a: AccountId, t: State) {
    && IsStored(s, t, k, lease.(status := reason, endDate := Some(s.clock)))
    && (forall b, u :: (b, u) in t.grants <==> (b, u) in s.grants && b != a)
    && t.groupGrants == s.groupGrants && t.directory == s.directory
  }

  lemma EndOutcome(
    s: State, k: LeaseKey, lease: Lease, reason: LeaseStatus, a: AccountId, pending: seq<Event>)
    ensures var r := EndSpec(s, k, lease, reason, a, pending);
            && r.state.ou == s.ou && r.state.accounts == s.accounts
            && if k !in s.leases then r == Reply(s.(clock := s.clock + 1), Fail(UnknownLease))
               else
                 && IsEnded(s, k, lease, reason, a, r.state)
                 && if reason.Expired? && lease.leaseDurationInHours.None? then
                      r.outcome == Fail(LeaseDurationUndefined) && r.state.events == s.events
                    else
                      r.outcome.Ok? && r.state.events == s.events + pending + [LeaseTerminated(k, a, reason)]
  {
    var last := [LeaseTerminated(k, a, reason)];
    assert s.events + (pending + last) == s.events + pending + last;
  }

  /** The account is moved to CleanUp in unit and table. */
  predicate IsSentToCleanUp(s: State, a: AccountId, t: State)
    requires a in s.accounts
  {
    t.ou == s.ou[a := Ou.CleanUp] && t.accounts == s.accounts[a := s.accounts[a].(status := Ou.CleanUp)]
  }

  /**
    A termination by a user or a monitor also sends the account to clean-up, one by an ejection or a quarantine does not.
    The lease, the access and the account are changed even when no event can be built for the reason.
   */
  lemma TerminateOutcome(s: State, k: LeaseKey, lease: Lease, reason: LeaseStatus, autoCleanup: bool)
    ensures var r := TerminateSpec(s, k, lease, reason, autoCleanup);
            if lease.awsAccountId.None? || lease.awsAccountId.value !in s.accounts then
              r == Reply(s, Fail(CouldNotFindAccount))
            else if k.userEmail !in s.directory then r == Reply(s, Fail(CouldNotRetrieveUser))
            else
              var a := lease.awsAccountId.value;
              var status := s.accounts[a].status;
              if autoCleanup && (status == Ou.CleanUp || !InOu(s, a, status)) then
                r == Reply(s, Fail(TransactionFailedAndRolledBack))
              else
                && (if autoCleanup then IsSentToCleanUp(s, a, r.state)
                    else r.state.ou == s.ou && r.state.accounts == s.accounts)
                && if k !in s.leases then
                     r == Reply(s.(ou := r.state.ou, accounts := r.state.accounts, clock := s.clock + 1),
                                Fail(UnknownLease))
                   else
                     && IsEnded(s, k, lease, reason, a, r.state)
                     && if reason.Expired? && lease.leaseDurationInHours.None? then
                          r.outcome == Fail(LeaseDurationUndefined) && r.state.events == s.events
                        else
                          r.outcome.Ok?
                          && r.state.events == s.events + (if autoCleanup then [CleanAccountRequest(a)] else [])
                                                        + [LeaseTerminated(k, a, reason)]
  {
    hide EndSpec;
    if Tracked(s, lease.awsAccountId) {
      var a := lease.awsAccountId.value;
      EndOutcome(s, k, lease, reason, a, []);
      EndOutcome(MoveAndPut(s, a, s.accounts[a], Ou.CleanUp), k, lease, reason, a, [CleanAccountRequest(a)]);
    }
  }

  /** What stops a termination that leaves the account alone. */
  predicate CanEnd(s: State, k: LeaseKey) {
    && k in s.leases && s.leases[k].awsAccountId.Some? && s.leases[k].awsAccountId.value in s.accounts
    && k.userEmail in s.directory
  }

  function WhyNotEnded(s: State, k: LeaseKey): SandboxError
    requires k in s.leases && !CanEnd(s, k)
  {
    if s.leases[k].awsAccountId.Some? && s.leases[k].awsAccountId.value in s.accounts then CouldNotRetrieveUser
    else CouldNotFindAccount
  }

  /** The account of a lease that can be ended. */
  function AccountOf(s: State, k: LeaseKey): AccountId
    requires CanEnd(s, k)
  {
    s.leases[k].awsAccountId.value
  }

  predicate EndedAt(before: Lease, after: Lease, reason: LeaseStatus, time: int) {
    && SameContent(after, before.(status := reason, endDate := Some(time)))
    && EditTime(after) == Some(time) && KeepsCreation(before, after)
  }

  /** The first `n` listed leases have ended one after the other; no other lease has changed. */
  ghost predicate LeasesEnded(s: State, listing: seq<LeaseKey>, reason: LeaseStatus, n: nat, t: State)
    requires n <= |listing| && forall k :: k in listing ==> k in s.leases
  {
    && t.leases.Keys == s.leases.Keys
    && (forall i :: 0 <= i < n ==> EndedAt(s.leases[listing[i]], t.leases[listing[i]], reason, s.clock + i))
    && (forall k :: k in s.leases && k !in listing[..n] ==> t.leases[k] == s.leases[k])
  }

  /** Nobody has access to the accounts of the first `n` leases; no other access has changed. */
  ghost predicate AccessEnded(s: State, listing: seq<LeaseKey>, n: nat, t: State)
    requires n <= |listing| && forall i :: 0 <= i < n ==> CanEnd(s, listing[i])
  {
    forall b, u :: (b, u) in t.grants <==>
      (b, u) in s.grants && forall i :: 0 <= i < n ==> AccountOf(s, listing[i]) != b
  }

  function Terminations(s: State, listing: seq<LeaseKey>, reason: LeaseStatus, n: nat): seq<Event>
    requires n <= |listing| && forall i :: 0 <= i < n ==> CanEnd(s, listing[i])
  {
    seq(n, i requires 0 <= i < n => LeaseTerminated(listing[i], AccountOf(s, listing[i]), reason))
  }

  /**
    The first `n` listed leases end one after the other and each is reported; the first one that cannot be ended stops the
    rest, and its error is that of the whole call.
   */
  lemma {:induction false} TerminateAllOutcome(s: State, listing: seq<LeaseKey>, reason: LeaseStatus, n: nat)
    requires forall k :: k in listing ==> k in s.leases
    requires forall i, j :: 0 <= i < j < |listing| ==> listing[i] != listing[j]
    requires n <= |listing| && !reason.Expired?
    requires forall i :: 0 <= i < n ==> CanEnd(s, listing[i])
    requires n < |listing| ==> !CanEnd(s, listing[n])
    ensures var r := TerminateAllSpec(s, listing, reason);
            && r.state == s.(leases := r.state.leases, grants := r.state.grants, clock := s.clock + n,
                             events := s.events + Terminations(s, listing, reason, n))
            && LeasesEnded(s, listing, reason, n, r.state) && AccessEnded(s, listing, n, r.state)
            && r.outcome == (if n == |listing| then Ok else Fail(WhyNotEnded(s, listing[n])))
    decreases |listing|
  {
    hide *;
    if n == 0 {
      NoneEnds(s, listing, reason);
    } else {
      var k := listing[0];
      var t := TerminateSpec(s, k, s.leases[k], reason, false).state;
      OneEnds(s, k, reason);
      OthersStay(s, k, reason, t, listing);
      TerminateAllUnfolds(s, listing, reason);
      TerminateAllOutcome(t, listing[1..], reason, n - 1);
      var u := TerminateAllSpec(t, listing[1..], reason).state;
      LeasesEndedExtends(s, listing, reason, n, t, u);
      AccessEndedExtends(s, listing, reason, n, t, u);
      TerminationsExtend(s, listing, reason, n, t);
    }
  }

  lemma TerminateAllUnfolds(s: State, listing: seq<LeaseKey>, reason: LeaseStatus)
    requires listing != [] && forall k :: k in listing ==> k in s.leases
    requires TerminateSpec(s, listing[0], s.leases[listing[0]], reason, false).outcome.Ok?
    ensures var t := TerminateSpec(s, listing[0], s.leases[listing[0]], reason, false).state;
            && (forall k :: k in listing[1..] ==> k in t.leases)
            && TerminateAllSpec(s, listing, reason) == TerminateAllSpec(t, listing[1..], reason)
  {
  }

  lemma NoneEnds(s: State, listing: seq<LeaseKey>, reason: LeaseStatus)
    requires forall k :: k in listing ==> k in s.leases
    requires listing != [] ==> !CanEnd(s, listing[0])
    ensures var r := TerminateAllSpec(s, listing, reason);
            && r.state == s && LeasesEnded(s, listing, reason, 0, s) && AccessEnded(s, listing, 0, s)
            && Terminations(s, listing, reason, 0) == []
            && r.outcome == (if listing == [] then Ok else Fail(WhyNotEnded(s, listing[0])))
  {
  }

  /** What ending one lease without moving its account changes. */
  ghost predicate EndsOne(s: State, k: LeaseKey, reason: LeaseStatus, t: State)
    requires CanEnd(s, k)
  {
    && IsStored(s, t, k, s.leases[k].(status := reason, endDate := Some(s.clock)))
    && (forall b, u :: (b, u) in t.grants <==> (b, u) in s.grants && b != AccountOf(s, k))
    && t == s.(leases := t.leases, grants := t.grants, clock := s.clock + 1,
               events := s.events + [LeaseTerminated(k, AccountOf(s, k), reason)])
  }

  lemma OneEnds(s: State, k: LeaseKey, reason: LeaseStatus)
    requires CanEnd(s, k) && !reason.Expired?
    ensures var r := TerminateSpec(s, k, s.leases[k], reason, false);
            r.outcome.Ok? && EndsOne(s, k, reason, r.state)
  {
    hide TerminateSpec;
    TerminateOutcome(s, k, s.leases[k], reason, false);
    assert s.events + [] == s.events;
  }

  lemma OthersStay(s: State, k: LeaseKey, reason: LeaseStatus, t: State, listing: seq<LeaseKey>)
    requires CanEnd(s, k) && EndsOne(s, k, reason, t) && listing != [] && listing[0] == k
    requires forall l :: l in listing ==> l in s.leases
    requires forall i, j :: 0 <= i < j < |listing| ==> listing[i] != listing[j]
    ensures t.clock == s.clock + 1 && t.leases == s.leases[k := t.leases[k]]
    ensures EndedAt(s.leases[k], t.leases[k], reason, s.clock)
    ensures t.events == s.events + [LeaseTerminated(k, AccountOf(s, k), reason)]
    ensures t == s.(leases := t.leases, grants := t.grants, clock := t.clock, events := t.events)
    ensures forall i :: 0 <= i < |listing[1..]| ==>
              && t.leases[listing[1..][i]] == s.leases[listing[i + 1]]
              && (CanEnd(t, listing[1..][i]) <==> CanEnd(s, listing[i + 1]))
              && (CanEnd(s, listing[i + 1]) ==> AccountOf(t, listing[1..][i]) == AccountOf(s, listing[i + 1]))
              && (!CanEnd(s, listing[i + 1]) ==> WhyNotEnded(t, listing[1..][i]) == WhyNotEnded(s, listing[i + 1]))
  {
  }

  lemma LaterLeaseEnds(
    s: State, listing: seq<LeaseKey>, reason: LeaseStatus, n: nat, t: State, u: State, i: nat)
    requires 0 < n <= |listing| && forall k :: k in listing ==> k in s.leases && k in t.leases
    requires forall i, j :: 0 <= i < j < |listing| ==> listing[i] != listing[j]
    requires t.clock == s.clock + 1 && t.leases == s.leases[listing[0] := t.leases[listing[0]]]
    requires LeasesEnded(t, listing[1..], reason, n - 1, u)
    requires 0 < i < n
    ensures listing[i] in u.leases && EndedAt(s.leases[listing[i]], u.leases[listing[i]], reason, s.clock + i)
  {
    hide EndedAt;
    var rest := listing[1..];
    assert rest[i - 1] == listing[i] && listing[i] != listing[0];
    assert EndedAt(t.leases[rest[i - 1]], u.leases[rest[i - 1]], reason, t.clock + (i - 1));
  }

  lemma OtherLeaseStays(
    s: State, listing: seq<LeaseKey>, reason: LeaseStatus, n: nat, t: State, u: State, k: LeaseKey)
    requires 0 < n <= |listing| && forall k :: k in listing ==> k in s.leases && k in t.leases
    requires forall i, j :: 0 <= i < j < |listing| ==> listing[i] != listing[j]
    requires t.clock == s.clock + 1 && t.leases == s.leases[listing[0] := t.leases[listing[0]]]
    requires LeasesEnded(t, listing[1..], reason, n - 1, u)
    requires k in s.leases && k !in listing[1..][..n - 1]
    ensures k in u.leases && u.leases[k] == t.leases[k]
  {
    hide EndedAt;
  }

  lemma LeasesEndedExtends(
    s: State, listing: seq<LeaseKey>, reason: LeaseStatus, n: nat, t: State, u: State)
    requires 0 < n <= |listing| && forall k :: k in listing ==> k in s.leases && k in t.leases
    requires forall i, j :: 0 <= i < j < |listing| ==> listing[i] != listing[j]
    requires t.clock == s.clock + 1 && t.leases == s.leases[listing[0] := t.leases[listing[0]]]
    requires LeasesEnded(t, listing[1..], reason, n - 1, u)
    requires EndedAt(s.leases[listing[0]], t.leases[listing[0]], reason, s.clock)
    ensures LeasesEnded(s, listing, reason, n, u)
  {
    assert u.leases.Keys == t.leases.Keys;
    hide LeasesEnded, EndedAt;
    forall i | 0 <= i < n
      ensures listing[i] in u.leases && EndedAt(s.leases[listing[i]], u.leases[listing[i]], reason, s.clock + i)
    {
      if i > 0 {
        LaterLeaseEnds(s, listing, reason, n, t, u, i);
      } else {
        FirstIsNotLater(listing, n);
        OtherLeaseStays(s, listing, reason, n, t, u, listing[0]);
      }
    }
    forall k | k in s.leases && k !in listing[..n]
      ensures k in u.leases && u.leases[k] == s.leases[k]
    {
      FirstIsNotLater(listing, n);
      OtherLeaseStays(s, listing, reason, n, t, u, k);
    }
    LeasesEndedIs(s, listing, reason, n, u);
  }

  lemma FirstIsNotLater(listing: seq<LeaseKey>, n: nat)
    requires 0 < n <= |listing| && forall i, j :: 0 <= i < j < |listing| ==> listing[i] != listing[j]
    ensures listing[0] !in listing[1..][..n - 1]
    ensures forall k :: k in listing[..n] <==> k == listing[0] || k in listing[1..][..n - 1]
  {
    assert listing[..n] == [listing[0]] + listing[1..][..n - 1];
  }

  lemma LeasesEndedIs(s: State, listing: seq<LeaseKey>, reason: LeaseStatus, n: nat, u: State)
    requires n <= |listing| && (forall k :: k in listing ==> k in s.leases) && u.leases.Keys == s.leases.Keys
    requires forall i :: 0 <= i < n ==> EndedAt(s.leases[listing[i]], u.leases[listing[i]], reason, s.clock + i)
    requires forall k :: k in s.leases && k !in listing[..n] ==> u.leases[k] == s.leases[k]
    ensures LeasesEnded(s, listing, reason, n, u)
  {
    hide EndedAt;
  }

  lemma AccessEndedExtends(
    s: State, listing: seq<LeaseKey>, reason: LeaseStatus, n: nat, t: State, u: State)
    requires 0 < n <= |listing| && forall i :: 0 <= i < n ==> CanEnd(s, listing[i])
    requires EndsOne(s, listing[0], reason, t)
    requires forall i :: 0 <= i < n - 1 ==>
               CanEnd(t, listing[1..][i]) && AccountOf(t, listing[1..][i]) == AccountOf(s, listing[i + 1])
    requires AccessEnded(t, listing[1..], n - 1, u)
    ensures AccessEnded(s, listing, n, u)
  {
    hide IsStored, AccountOf, CanEnd;
    forall b, v
      ensures (b, v) in u.grants <==>
                (b, v) in s.grants && forall i :: 0 <= i < n ==> AccountOf(s, listing[i]) != b
    {
      assert forall i :: 0 < i < n ==> AccountOf(t, listing[1..][i - 1]) == AccountOf(s, listing[i]);
    }
  }

  lemma TerminationsExtend(s: State, listing: seq<LeaseKey>, reason: LeaseStatus, n: nat, t: State)
    requires 0 < n <= |listing| && forall i :: 0 <= i < n ==> CanEnd(s, listing[i])
    requires forall i :: 0 <= i < n - 1 ==>
               CanEnd(t, listing[1..][i]) && AccountOf(t, listing[1..][i]) == AccountOf(s, listing[i + 1])
    ensures [LeaseTerminated(listing[0], AccountOf(s, listing[0]), reason)]
              + Terminations(t, listing[1..], reason, n - 1) == Terminations(s, listing, reason, n)
  {
  }

  // ----- Taking an account out of use -----

  /** `n` is where ending the listed leases stops: all of them end, or the lease at `n` cannot be ended. */
  ghost predicate StopsAt(s: State, listing: seq<LeaseKey>, n: nat) {
    && (forall k :: k in listing ==> k in s.leases)
    && (forall i, j :: 0 <= i < j < |listing| ==> listing[i] != listing[j])
    && n <= |listing| && (forall i :: 0 <= i < n ==> CanEnd(s, listing[i]))
    && (n < |listing| ==> !CanEnd(s, listing[n]))
  }

  /** Leases, access and clock after the first `n` leases have ended. */
  ghost predicate EndsListed(s: State, listing: seq<LeaseKey>, reason: LeaseStatus, n: nat, t: State)
    requires StopsAt(s, listing, n)
  {
    LeasesEnded(s, listing, reason, n, t) && AccessEnded(s, listing, n, t) && t.clock == s.clock + n
  }

  /**
    An ejection ends as many of the leases as it can, whatever stops it. The account then goes from the unit of its record
    to the exit unit, the groups lose their access and the record is deleted; if it is not in that unit, it stays.
   */
  lemma EjectOutcome(s: State, a: AccountId, record: AccountRecord, listing: seq<LeaseKey>, n: nat)
    requires StopsAt(s, listing, n)
    ensures var r := EjectSpec(s, a, record, listing);
            if record.status == Ou.CleanUp then r == Reply(s, Fail(AccountInCleanUp))
            else
              var ended := s.(leases := r.state.leases, grants := r.state.grants, clock := r.state.clock,
                              events := s.events + Terminations(s, listing, Ejected, n));
              && EndsListed(s, listing, Ejected, n, r.state)
              && r == if InOu(s, a, record.status) && record.status != Ou.Exit then
                        Reply(ended.(ou := s.ou[a := Ou.Exit], accounts := s.accounts - {a},
                                     groupGrants := s.groupGrants - {(a, Manager), (a, Admin)}), Ok)
                      else Reply(ended, Fail(MoveRefused))
  {
    hide TerminateAllSpec, Terminations, CanEnd, WhyNotEnded, EndedAt, AccountOf;
    TerminateAllOutcome(s, listing, Ejected, n);
  }

  /**
    A quarantine stops with the first lease that cannot be ended, else moves the account from the unit that the caller
    gives; what had ended before stays ended. An account without a record gets one that is marked as drifted.
   */
  lemma QuarantineOutcome(s: State, a: AccountId, currentOu: Ou, listing: seq<LeaseKey>, n: nat)
    requires StopsAt(s, listing, n)
    ensures var r := QuarantineSpec(s, a, currentOu, listing);
            var ended := s.(leases := r.state.leases, grants := r.state.grants, clock := r.state.clock,
                            events := s.events + Terminations(s, listing, AccountQuarantined, n));
            && EndsListed(s, listing, AccountQuarantined, n, r.state)
            && r == if n < |listing| then Reply(ended, Fail(WhyNotEnded(s, listing[n])))
                    else if !InOu(s, a, currentOu) || currentOu == Ou.Quarantine then
                      Reply(ended, Fail(TransactionFailedAndRolledBack))
                    else
                      Reply(ended.(
                        ou := s.ou[a := Ou.Quarantine],
                        accounts := s.accounts[a := if a in s.accounts then s.accounts[a].(status := Ou.Quarantine)
                                                    else AccountRecord(Ou.Quarantine, true, None)],
                        events := ended.events + [AccountQuarantinedEvent(a)]), Ok)
  {
    hide TerminateAllSpec, Terminations, CanEnd, WhyNotEnded, EndedAt, AccountOf;
    TerminateAllOutcome(s, listing, AccountQuarantined, n);
  }

  /** A drift alert without a unit only deletes the record; any other quarantines the account from the unit it tells. */
  lemma HandleDriftOutcome(s: State, a: AccountId, actualOu: Option<Ou>, listing: seq<LeaseKey>)
    requires forall k :: k in listing ==> k in s.leases
    ensures HandleDriftSpec(s, a, actualOu, listing) ==
            if actualOu == None then Reply(s.(accounts := s.accounts - {a}), Ok)
            else QuarantineSpec(s, a, actualOu.value, listing)
  {
  }

  // ----- The handlers -----

  /** What the handlers of the lease API refuse before they call an operation, and that it leaves everything alone. */
  lemma HandlersRefuse(s: State, op: Op, c: Config)
    requires Enabled(s, op) && (op.Approve? || op.Deny? || op.Terminate? || op.Patch? || op.Freeze? || op.Unfreeze?)
    ensures op.key !in s.leases ==> Apply(s, op, c) == Reply(s, Fail(UnknownLease))
    ensures op.key in s.leases ==>
              var status, r := s.leases[op.key].status, Apply(s, op, c);
              && ((op.Approve? || op.Deny?) && !status.PendingApproval? ==> r == Reply(s, Fail(Conflict)))
              && (op.Terminate? && !status.Active? && !status.Frozen? ==> r == Reply(s, Fail(Conflict)))
              && (op.Patch? && !status.Active? && !status.Frozen? ==> r == Reply(s, Fail(BadRequest)))
              && (op.Freeze? && !status.Active? ==>
                    r == Reply(s, Fail(if status.Frozen? then AccountNotInActive else Conflict)))
              && (op.Unfreeze? && !status.Frozen? ==> r == Reply(s, Fail(Conflict)))
  {
    hide ApproveSpec, DenySpec, TerminateSpec;
  }

  /**
    In every state of a run, a request below the limit waits, undecided and with nothing taken, iff its template asks for
    approval and the user acts alone. Otherwise it is granted at once iff any account is available, and else leaves no
    trace.
   */
  lemma HandledRequest(s: State, k: LeaseKey, t: Template, onBehalf: bool, pick: Option<AccountId>, c: Config)
    requires Inv(s) && Enabled(s, Request(k, t, onBehalf, pick))
    requires |OpenLeases(s, k.userEmail)| < c.maxLeasesPerUser && k !in s.leases
    ensures var r := Apply(s, Request(k, t, onBehalf, pick), c);
            if t.requiresApproval && !onBehalf then
              && r.outcome.Ok? && k in r.state.leases && IsPendingRequest(r.state.leases[k], t, s.clock)
              && r.state == s.(leases := s.leases[k := r.state.leases[k]], events := s.events + [LeaseRequested(k)],
                               clock := s.clock + 1)
            else
              && (r.outcome.Ok? <==> exists a :: a in s.accounts && s.accounts[a].status == Ou.Available)
              && (r.outcome.Ok? ==> pick.Some? && IsApprovedRequest(s, k, t, pick.value, r.state))
              && (r.outcome.Fail? ==> r.outcome.error.NoAccountsAvailable? && r.state == s.(clock := s.clock + 1))
  {
    RequestOutcome(s, k, t, onBehalf, c.maxLeasesPerUser, pick);
    PickIsRestedIfPossible(PutLease(s, k, RequestedLease(t)), pick);
    if pick.Some? {
      assert AccountInv(s, pick.value);
    }
  }

  /** In every state of a run, a pending lease is approved iff any account is available, and then for its whole term. */
  lemma HandledApproval(s: State, k: LeaseKey, approver: string, pick: Option<AccountId>, c: Config)
    requires Inv(s) && Enabled(s, Approve(k, approver, pick))
    ensures var r := Apply(s, Approve(k, approver, pick), c);
            && (r.outcome.Ok? <==>
                  && k in s.leases && s.leases[k].status.PendingApproval?
                  && exists a :: a in s.accounts && s.accounts[a].status == Ou.Available)
            && (r.outcome.Ok? ==>
                  && pick.Some? && InOu(s, pick.value, Ou.Available) && k in r.state.leases
                  && HasApprovedTerm(r.state.leases[k], s.leases[k], approver, pick.value, s.clock)
                  && r.state == s.(ou := s.ou[pick.value := Ou.Active],
                                   accounts := s.accounts[pick.value := s.accounts[pick.value].(status := Ou.Active)],
                                   leases := s.leases[k := r.state.leases[k]],
                                   grants := s.grants + {(pick.value, k.userEmail)},
                                   events := s.events + [LeaseApproved(k)],
                                   clock := s.clock + 1))
            && (r.outcome.Fail? ==> r.state == s)
  {
    hide ApproveSpec;
    PickIsRestedIfPossible(s, pick);
    if k in s.leases && s.leases[k].status.PendingApproval? {
      ApproveOutcome(s, k, s.leases[k], approver, pick);
      if pick.Some? {
        assert AccountInv(s, pick.value);
      }
    }
  }

  /** In every state of a run, the termination of a monitored lease ends it and sends its account to clean-up. */
  lemma HandledTermination(s: State, k: LeaseKey, reason: LeaseStatus, c: Config)
    requires Inv(s) && Enabled(s, Terminate(k, reason))
    requires k in s.leases && (s.leases[k].status.Active? || s.leases[k].status.Frozen?)
    ensures s.leases[k].awsAccountId.Some? && s.leases[k].awsAccountId.value in s.accounts
    ensures var r, a := Apply(s, Terminate(k, reason), c), s.leases[k].awsAccountId.value;
            && IsEnded(s, k, s.leases[k], reason, a, r.state) && IsSentToCleanUp(s, a, r.state)
            && if reason.Expired? && s.leases[k].leaseDurationInHours.None? then
                 r.outcome == Fail(LeaseDurationUndefined) && r.state.events == s.events
               else
                 && r.outcome.Ok?
                 && r.state.events == s.events + [CleanAccountRequest(a)] + [LeaseTerminated(k, a, reason)]
  {
    hide TerminateSpec;
    var a := s.leases[k].awsAccountId.value;
    assert MonitoredOn(s, k, a) && AccountInv(s, a);
    TerminateOutcome(s, k, s.leases[k], reason, true);
  }

  /** A denial succeeds iff the lease is pending. */
  lemma HandledDenial(s: State, k: LeaseKey, denier: string, c: Config)
    ensures var r := Apply(s, Deny(k, denier), c);
            if k in s.leases && s.leases[k].status.PendingApproval? then
              && IsStored(s, r.state, k, s.leases[k].(status := ApprovalDenied, approvedBy := Some(denier)))
              && r == Reply(s.(leases := r.state.leases, clock := r.state.clock,
                               events := s.events + [LeaseDenied(k)]), Ok)
            else r == Reply(s, Fail(if k in s.leases then Conflict else UnknownLease))
  {
  }

  /** In every state of a run, a clean-up can be retried iff the account is in quarantine or in clean-up already. */
  lemma HandledRetry(s: State, a: AccountId, c: Config)
    requires Inv(s)
    ensures var r := Apply(s, Op.RetryCleanup(a), c);
            && (r.outcome.Ok? <==>
                  a in s.accounts && (s.accounts[a].status == Ou.Quarantine || s.accounts[a].status == Ou.CleanUp))
            && (r.outcome.Ok? ==> r.state == s.(ou := s.ou[a := Ou.CleanUp],
                                                accounts := s.accounts[a := s.accounts[a].(status := Ou.CleanUp)],
                                                events := s.events + [CleanAccountRequest(a)]))
            && (r.outcome.Fail? ==>
                  r == Reply(s, Fail(if a in s.accounts then AccountNotInQuarantine else CouldNotFindAccount)))
  {
    assert AccountInv(s, a);
    if a in s.accounts && s.accounts[a].status == Ou.CleanUp {
      assert s.ou[a := Ou.CleanUp] == s.ou;
      assert s.accounts[a := s.accounts[a].(status := Ou.CleanUp)] == s.accounts;
    }
  }

  /** In every state of a run a tracked account can be ejected unless it is in clean-up, and then nothing of it is left. */
  lemma HandledEjection(s: State, a: AccountId, listing: seq<LeaseKey>, c: Config)
    requires Inv(s) && Enabled(s, Op.Eject(a, listing))
    ensures var r := Apply(s, Op.Eject(a, listing), c);
            && (r.outcome.Ok? <==> a in s.accounts && s.accounts[a].status != Ou.CleanUp)
            && (r.outcome.Fail? ==>
                  r == Reply(s, Fail(if a in s.accounts then AccountInCleanUp else CouldNotFindAccount)))
            && (r.outcome.Ok? ==>
                  && r.state.ou == s.ou[a := Ou.Exit] && r.state.accounts == s.accounts - {a}
                  && r.state.groupGrants == s.groupGrants - {(a, Manager), (a, Admin)}
                  && (forall u :: (a, u) !in r.state.grants)
                  && EndsLeasesOn(s, r.state, a, Ejected))
  {
    hide Inv, EjectSpec, TerminateAllSpec, EndsLeasesOn;
    if a in s.accounts {
      EjectionInCleanUp(s, a, listing);
      EjectKeepsInv(s, a, listing);
      if s.accounts[a].status != Ou.CleanUp {
        TerminateAllKeepsInv(s, a, listing, Ejected);
        EjectedAccountIsClosed(s, a, listing);
      }
    }
  }

  lemma EjectionInCleanUp(s: State, a: AccountId, listing: seq<LeaseKey>)
    requires a in s.accounts && forall k :: k in listing ==> k in s.leases
    ensures s.accounts[a].status == Ou.CleanUp ==>
              EjectSpec(s, a, s.accounts[a], listing) == Reply(s, Fail(AccountInCleanUp))
  {
  }

  lemma EjectedAccountIsClosed(s: State, a: AccountId, listing: seq<LeaseKey>)
    requires forall k :: k in listing ==> k in s.leases
    requires a in s.accounts && EjectSpec(s, a, s.accounts[a], listing).outcome.Ok?
    requires TerminateAllSpec(s, listing, Ejected).state.ou == s.ou
    ensures var t, ended := EjectSpec(s, a, s.accounts[a], listing).state, TerminateAllSpec(s, listing, Ejected).state;
            t.ou == s.ou[a := Ou.Exit] && t.grants == ended.grants
    ensures EjectSpec(s, a, s.accounts[a], listing).state.groupGrants == s.groupGrants - {(a, Manager), (a, Admin)}
  {
    EndingKeepsGroups(s, listing, Ejected);
    hide TerminateAllSpec;
  }

  lemma {:induction false} EndingKeepsGroups(s: State, listing: seq<LeaseKey>, reason: LeaseStatus)
    requires forall k :: k in listing ==> k in s.leases
    ensures TerminateAllSpec(s, listing, reason).state.groupGrants == s.groupGrants
    decreases |listing|
  {
    hide TerminateSpec;
    if listing != [] {
      TerminateOutcome(s, listing[0], s.leases[listing[0]], reason, false);
      var first := TerminateSpec(s, listing[0], s.leases[listing[0]], reason, false);
      if first.outcome.Ok? {
        EndingKeepsGroups(first.state, listing[1..], reason);
      }
    }
  }

  /** A patch changes the terms of a monitored lease, a scan its cost and the time of its last check, nothing else. */
  lemma HandledEdits(s: State, op: Op, c: Config)
    requires op.Patch? || op.MonitorWrite? || op.ClaimCleanup? || op.PassTime?
    ensures var r := Apply(s, op, c);
            match op {
              case Patch(k, p) =>
                k in s.leases && (s.leases[k].status.Active? || s.leases[k].status.Frozen?) ==>
                  && r == Reply(s.(leases := r.state.leases, clock := r.state.clock), Ok)
                  && IsStored(s, r.state, k,
                              s.leases[k].(maxSpend := p.maxSpend, budgetThresholds := p.budgetThresholds,
                                durationThresholds := p.durationThresholds, expirationDate := p.expirationDate))
              case MonitorWrite(k, cost) =>
                if k in s.leases && (s.leases[k].status.Active? || s.leases[k].status.Frozen?) then
                  && r == Reply(s.(leases := r.state.leases, clock := r.state.clock), Ok)
                  && IsStored(s, r.state, k, s.leases[k].(totalCostAccrued := cost, lastCheckedDate := s.clock))
                else r == Reply(s, Ok)
              case ClaimCleanup(a, context) =>
                if a !in s.accounts then r == Reply(s, Fail(CouldNotFindAccount))
                else
                  && a in r.state.accounts && r == Reply(s.(accounts := r.state.accounts), Ok)
                  && r.state.accounts == s.accounts[a := r.state.accounts[a]]
                  && r.state.accounts[a].cleanupContext == Some(context)
                  && r.state.accounts[a].status == s.accounts[a].status
                  && r.state.accounts[a].driftAtLastScan == s.accounts[a].driftAtLastScan
              case PassTime(millis) => r == Reply(s.(clock := s.clock + millis), Ok)
              case _ => true
            }
  {
  }

  /** Statuses: a lease is undecided or denied, or it holds its account, or it has ended. */
  lemma StatusesAre(status: LeaseStatus)
    ensures IsMonitored(status) <==> status == LeaseStatus.Active || status == LeaseStatus.Frozen
    ensures IsOpen(status) <==> IsMonitored(status) || status == PendingApproval
    ensures IsExpired(status) <==> !IsOpen(status) && status != ApprovalDenied
  {
  }
}
