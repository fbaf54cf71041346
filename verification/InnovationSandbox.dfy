/**
  The operations of the sandbox, call by call on the stores and services, each proved to have the outcome that
  `SandboxState` gives for it. A transaction is written out: its steps in order, and on a failure the rollbacks of the
  completed steps in reverse.
 */
module InnovationSandbox {
  import opened Domain
  import opened LeaseStore
  import opened SandboxState
  import opened SandboxServices

  class Sandbox {
    const leaseStore: DynamoLeaseStore
    const accountStore: SandboxAccountStore
    const orgs: SandboxOuService
    const idc: IdcService
    var events: seq<Event>
    var clock: int

    constructor (
      leaseStore: DynamoLeaseStore, accountStore: SandboxAccountStore, orgs: SandboxOuService, idc: IdcService, now: int)
      requires orgs.accountStore == accountStore
      ensures Valid() && events == [] && clock == now
      ensures this.leaseStore == leaseStore && this.accountStore == accountStore && this.orgs == orgs && this.idc == idc
    {
      this.leaseStore, this.accountStore, this.orgs, this.idc := leaseStore, accountStore, orgs, idc;
      events, clock := [], now;
    }

    ghost predicate Valid()
      reads this
    {
      orgs.accountStore == accountStore
    }

    ghost function Snapshot(): State
      reads this, leaseStore, accountStore, orgs, idc
    {
      State(orgs.ou, accountStore.table, leaseStore.table, idc.grants, idc.groupGrants, idc.directory, events, clock)
    }

    method SendIsbEvents(sent: seq<Event>)
      modifies this`events
      ensures events == old(events) + sent
    {
      events := events + sent;
    }

    /** A write to the lease table; it takes one tick of the clock. */
    method UpdateLease(k: LeaseKey, lease: Lease, expected: Option<Lease>) returns (result: WriteResult)
      modifies this`clock, leaseStore
      ensures (result, leaseStore.table) == UpdateSpec(old(leaseStore.table), k, lease, expected, old(clock))
      ensures clock == old(clock) + 1
    {
      result := leaseStore.Update(k, lease, expected, clock);
      clock := clock + 1;
    }

    method RegisterAccount(a: AccountId, described: bool) returns (outcome: Outcome)
      requires Valid()
      modifies this, accountStore, orgs, idc
      ensures Reply(Snapshot(), outcome) == RegisterSpec(old(Snapshot()), a, described)
    {
      if !described {
        return Fail(CouldNotFindAccount);
      }
      var moved := orgs.MoveAccount(a, NEW_ACCOUNT_RECORD, Ou.Entry, Ou.CleanUp);
      if !moved {
        return Fail(TransactionFailedAndRolledBack);
      }
      idc.AssignGroupAccess(a, Manager);
      idc.AssignGroupAccess(a, Admin);
      assert idc.groupGrants == old(idc.groupGrants) + {(a, Manager), (a, Admin)};
      SendIsbEvents([CleanAccountRequest(a)]);
      outcome := Ok;
    }

    method AcquireAvailableAccount(random: nat) returns (pick: Option<AccountId>)
      ensures ValidPick(Snapshot(), pick)
    {
      var available := accountStore.FindByStatus(Ou.Available);
      var preferred, fallback := [], [];
      var i := 0;
      while i < |available|
        invariant 0 <= i <= |available|
        invariant |preferred| + |fallback| == i
        invariant forall a :: a in preferred ==> a in available && Rested(accountStore.table[a], clock)
        invariant forall a :: a in fallback ==> a in available && !Rested(accountStore.table[a], clock)
        invariant forall j :: 0 <= j < i ==> available[j] in preferred || available[j] in fallback
      {
        var a := available[i];
        assert a in available;
        if Rested(accountStore.table[a], clock) {
          preferred := preferred + [a];
        } else {
          fallback := fallback + [a];
        }
        i := i + 1;
      }
      assert forall a :: IsAvailable(Snapshot(), a) ==> a in available;
      if |preferred| > 0 {
        assert preferred[random % |preferred|] in preferred;
        pick := Some(preferred[random % |preferred|]);
      } else if |fallback| > 0 {
        assert fallback[random % |fallback|] in fallback;
        pick := Some(fallback[random % |fallback|]);
      } else {
        pick := None;
      }
    }

    // Single calls, in terms of the whole state.

    method WriteLease(k: LeaseKey, lease: Lease) returns (result: WriteResult)
      requires Valid()
      modifies this`clock, leaseStore
      ensures result.Written? <==> k in old(Snapshot()).leases
      ensures Snapshot() == if result.Written? then PutLease(old(Snapshot()), k, lease) else Tick(old(Snapshot()))
      ensures result.Written? ==>
                k in Snapshot().leases && result.put == PutResult(old(Snapshot()).leases[k], Snapshot().leases[k])
    {
      hide UpdateSpec, PutLease;
      UpdateIsPut(Snapshot(), k, lease);
      result := UpdateLease(k, lease, None);
    }

    /** Writes the old item back while the new one is still stored. */
    method UndoLease(k: LeaseKey, put: PutResult, ghost lease: Lease, ghost s: State)
      requires Valid() && k in s.leases && Snapshot().leases == PutLease(s, k, lease).leases
      requires k in Snapshot().leases && put == PutResult(s.leases[k], Snapshot().leases[k])
      modifies this`clock, leaseStore
      ensures Snapshot() == PutLease(old(Snapshot()), k, s.leases[k])
    {
      hide UpdateSpec, PutLease;
      UndoIsPut(s, k, lease, Snapshot());
      UpdateIsPut(Snapshot(), k, s.leases[k]);
      var undone := UpdateLease(k, put.oldItem, Some(put.newItem));
    }

    method MoveAccount(a: AccountId, record: AccountRecord, from: Ou, to: Ou) returns (ok: bool)
      requires Valid()
      modifies accountStore, orgs
      ensures (Snapshot(), ok) == Move(old(Snapshot()), a, record, from, to, NoFault)
    {
      ok := orgs.MoveAccount(a, record, from, to);
    }

    method GrantAccess(a: AccountId, user: Email)
      requires Valid()
      modifies idc
      ensures Snapshot() == old(Snapshot()).(grants := old(Snapshot()).grants + {(a, user)})
    {
      idc.GrantUserAccess(a, user);
    }

    /** The transaction of approval and unfreezing: lease update, account move and grant, or the lease written back. */
    method LeaseMoveGrant(k: LeaseKey, lease: Lease, a: AccountId, record: AccountRecord, from: Ou, to: Ou)
      returns (committed: bool)
      requires Valid()
      modifies this`clock, leaseStore, accountStore, orgs, idc
      ensures (Snapshot(), committed) == LeaseMoveGrantSpec(old(Snapshot()), k, lease, a, record, from, to)
    {
      hide Snapshot, PutLease, Move;
      ghost var s := Snapshot();
      MoveKeepsLeases(PutLease(s, k, lease), a, record, from, to, NoFault);
      var updated := WriteLease(k, lease);
      if updated.Refused? {
        return false;
      }
      var moved := MoveAccount(a, record, from, to);
      if !moved {
        UndoLease(k, updated.put, lease, s);
        return false;
      }
      GrantAccess(a, k.userEmail);
      committed := true;
    }

    method ApproveLease(k: LeaseKey, lease: Lease, approver: string, random: nat)
      returns (outcome: Outcome, pick: Option<AccountId>)
      requires Valid()
      modifies this, leaseStore, accountStore, orgs, idc
      ensures ValidPick(old(Snapshot()), pick)
      ensures Reply(Snapshot(), outcome) == ApproveSpec(old(Snapshot()), k, lease, approver, pick)
    {
      pick := AcquireAvailableAccount(random);
      if pick.None? {
        return Fail(NoAccountsAvailable), pick;
      }
      if k.userEmail !in idc.directory {
        return Fail(CouldNotRetrieveUser), pick;
      }
      var a := pick.value;
      var freeAccount := accountStore.table[a];
      hide ApprovedLease, LeaseMoveGrantSpec, ValidPick;
      var committed :=
        LeaseMoveGrant(k, ApprovedLease(lease, approver, a, clock), a, freeAccount, Ou.Available, Ou.Active);
      if !committed {
        return Fail(TransactionFailedAndRolledBack), pick;
      }
      SendIsbEvents([LeaseApproved(k)]);
      outcome := Ok;
    }

    method RequestLease(k: LeaseKey, t: Template, onBehalf: bool, maxLeasesPerUser: int, random: nat)
      returns (outcome: Outcome, pick: Option<AccountId>)
      requires Valid()
      modifies this, leaseStore, accountStore, orgs, idc
      ensures (&& |OpenLeases(old(Snapshot()), k.userEmail)| < maxLeasesPerUser
               && k !in old(leaseStore.table)
               && (!t.requiresApproval || onBehalf))
              ==> ValidPick(PutLease(old(Snapshot()), k, RequestedLease(t)), pick)
      ensures pick.Some? ==> pick.value in old(accountStore.table)
      ensures Reply(Snapshot(), outcome) == RequestSpec(old(Snapshot()), k, t, onBehalf, maxLeasesPerUser, pick)
    {
      hide ApproveSpec;
      pick := None;
      var open := set l | l in leaseStore.table && l.userEmail == k.userEmail && IsOpen(leaseStore.table[l].status);
      assert open == OpenLeases(old(Snapshot()), k.userEmail);
      if |open| >= maxLeasesPerUser {
        return Fail(MaxNumberOfLeasesExceeded), pick;
      }
      var created := leaseStore.Create(k, RequestedLease(t), clock);
      clock := clock + 1;
      if created.None? {
        return Fail(LeaseAlreadyExists), pick;
      }
      if !t.requiresApproval || onBehalf {
        assert Snapshot() == PutLease(old(Snapshot()), k, RequestedLease(t));
        outcome, pick := ApproveLease(k, created.value, "AUTO_APPROVED", random);
        if outcome.Fail? {
          var _ := leaseStore.Delete(k);
        }
      } else {
        SendIsbEvents([LeaseRequested(k)]);
        outcome := Ok;
      }
    }

    method DenyLease(k: LeaseKey, lease: Lease, denier: string) returns (outcome: Outcome)
      requires Valid()
      modifies this, leaseStore
      ensures Reply(Snapshot(), outcome) == DenySpec(old(Snapshot()), k, lease, denier)
    {
      var updated := UpdateLease(k, lease.(status := ApprovalDenied, approvedBy := Some(denier)), None);
      if updated.Refused? {
        return Fail(UnknownLease);
      }
      SendIsbEvents([LeaseDenied(k)]);
      outcome := Ok;
    }

    method FreezeLease(k: LeaseKey, lease: Lease) returns (outcome: Outcome)
      requires Valid()
      modifies this, leaseStore, accountStore, orgs, idc
      ensures Reply(Snapshot(), outcome) == FreezeSpec(old(Snapshot()), k, lease)
    {
      hide FreezeTransactionSpec, GrantsWithout;
      if !lease.status.Active? {
        return Fail(AccountNotInActive);
      }
      if lease.awsAccountId.None? {
        return Fail(CouldNotFindAccount);
      }
      var a := lease.awsAccountId.value;
      var account := accountStore.Get(a);
      if account.None? {
        return Fail(CouldNotFindAccount);
      }
      if k.userEmail !in idc.directory {
        return Fail(CouldNotRetrieveUser);
      }
      idc.RevokeAllUserAccess(a);
      assert Snapshot() == RevokeAll(old(Snapshot()), a);
      var committed := FreezeTransaction(k, lease.(status := LeaseStatus.Frozen), a, account.value);
      if !committed {
        return Fail(TransactionFailedAndRolledBack);
      }
      SendIsbEvents([LeaseFrozen(k, a)]);
      outcome := Ok;
    }

    /** The transaction of freezing: account move and lease update, or the account moved back. */
    method FreezeTransaction(k: LeaseKey, lease: Lease, a: AccountId, record: AccountRecord) returns (committed: bool)
      requires Valid()
      modifies this`clock, leaseStore, accountStore, orgs
      ensures (Snapshot(), committed) == FreezeTransactionSpec(old(Snapshot()), k, lease, a, record)
    {
      hide Snapshot, PutLease;
      ghost var s := Snapshot();
      var moved := MoveAccount(a, record, Ou.Active, Ou.Frozen);
      if !moved {
        return false;
      }
      var updated := WriteLease(k, lease);
      if updated.Refused? {
        var undone := MoveAccount(a, record, Ou.Frozen, Ou.Active);
        assert s.ou[a := Ou.Frozen][a := Ou.Active] == s.ou[a := Ou.Active];
        assert s.accounts[a := record.(status := Ou.Frozen)][a := record.(status := Ou.Active)]
            == s.accounts[a := record.(status := Ou.Active)];
        return false;
      }
      committed := true;
    }

    method UnfreezeLease(k: LeaseKey, lease: Lease) returns (outcome: Outcome)
      requires Valid()
      modifies this, leaseStore, accountStore, orgs, idc
      ensures Reply(Snapshot(), outcome) == UnfreezeSpec(old(Snapshot()), k, lease)
    {
      if !lease.status.Frozen? {
        return Fail(AccountNotInFrozen);
      }
      if lease.awsAccountId.None? {
        return Fail(CouldNotFindAccount);
      }
      var a := lease.awsAccountId.value;
      var account := accountStore.Get(a);
      if account.None? {
        return Fail(CouldNotFindAccount);
      }
      if k.userEmail !in idc.directory {
        return Fail(CouldNotRetrieveUser);
      }
      hide LeaseMoveGrantSpec;
      var committed :=
        LeaseMoveGrant(k, lease.(status := LeaseStatus.Active), a, account.value, Ou.Frozen, Ou.Active);
      if !committed {
        return Fail(TransactionFailedAndRolledBack);
      }
      SendIsbEvents([LeaseUnfrozen(k, a)]);
      outcome := Ok;
    }

    method TerminateLease(k: LeaseKey, lease: Lease, expiredStatus: LeaseStatus, autoCleanup: bool)
      returns (outcome: Outcome)
      requires Valid()
      modifies this, leaseStore, accountStore, orgs, idc
      ensures Reply(Snapshot(), outcome) == TerminateSpec(old(Snapshot()), k, lease, expiredStatus, autoCleanup)
    {
      hide EndSpec;
      var eventsToSend := [];
      if lease.awsAccountId.None? {
        return Fail(CouldNotFindAccount);
      }
      var a := lease.awsAccountId.value;
      var account := accountStore.Get(a);
      if account.None? {
        return Fail(CouldNotFindAccount);
      }
      if k.userEmail !in idc.directory {
        return Fail(CouldNotRetrieveUser);
      }
      if autoCleanup {
        var moved := orgs.MoveAccount(a, account.value, account.value.status, Ou.CleanUp);
        if !moved {
          return Fail(TransactionFailedAndRolledBack);
        }
        eventsToSend := eventsToSend + [CleanAccountRequest(a)];
      }
      assert eventsToSend == if autoCleanup then [CleanAccountRequest(a)] else [];
      assert Snapshot() ==
        if autoCleanup then MoveAndPut(old(Snapshot()), a, account.value, Ou.CleanUp) else old(Snapshot());
      outcome := EndLease(k, lease, expiredStatus, a, eventsToSend);
    }

    method EndLease(k: LeaseKey, lease: Lease, expiredStatus: LeaseStatus, a: AccountId, pending: seq<Event>)
      returns (outcome: Outcome)
      requires Valid()
      modifies this, leaseStore, idc
      ensures Reply(Snapshot(), outcome) == EndSpec(old(Snapshot()), k, lease, expiredStatus, a, pending)
    {
      hide GrantsWithout;
      var updated := UpdateLease(k, EndedLease(lease, expiredStatus, clock), None);
      if updated.Refused? {
        return Fail(UnknownLease);
      }
      idc.RevokeAllUserAccess(a);
      if ReasonUndefined(lease, expiredStatus) {
        return Fail(LeaseDurationUndefined);
      }
      SendIsbEvents(pending + [LeaseTerminated(k, a, expiredStatus)]);
      outcome := Ok;
    }

    /** The leases of one status on the account, as the status index lists them. */
    method FindByStatusAndAccountID(status: LeaseStatus, a: AccountId) returns (found: seq<LeaseKey>)
      ensures IsListing(found, set k | k in leaseStore.table && leaseStore.table[k].status == status
                                       && leaseStore.table[k].awsAccountId == Some(a))
    {
      found := Enumerate(set k | k in leaseStore.table && leaseStore.table[k].status == status
                                 && leaseStore.table[k].awsAccountId == Some(a));
    }

    method TerminateLeasesAssociatedWithAccount(a: AccountId, reason: LeaseStatus)
      returns (outcome: Outcome, listing: seq<LeaseKey>)
      requires Valid() && IsExpired(reason)
      modifies this, leaseStore, accountStore, orgs, idc
      ensures IsLeaseListing(old(Snapshot()), a, listing)
      ensures Reply(Snapshot(), outcome) == TerminateAllSpec(old(Snapshot()), listing, reason)
    {
      var active := FindByStatusAndAccountID(LeaseStatus.Active, a);
      var frozen := FindByStatusAndAccountID(LeaseStatus.Frozen, a);
      listing := active + frozen;
      ListingOfBoth(Snapshot(), a, active, frozen);
      outcome := TerminateListed(listing, reason);
    }

    method TerminateListed(listing: seq<LeaseKey>, reason: LeaseStatus) returns (outcome: Outcome)
      requires Valid()
      requires forall k :: k in listing ==> k in leaseStore.table
      modifies this, leaseStore, accountStore, orgs, idc
      ensures Reply(Snapshot(), outcome) == TerminateAllSpec(old(Snapshot()), listing, reason)
    {
      var i := 0;
      while i < |listing|
        invariant 0 <= i <= |listing|
        invariant forall k :: k in listing ==> k in leaseStore.table
        invariant TerminateAllSpec(old(Snapshot()), listing, reason) == TerminateAllSpec(Snapshot(), listing[i..], reason)
      {
        assert listing[i..][0] == listing[i] && listing[i..][1..] == listing[i + 1..];
        outcome := TerminateLease(listing[i], leaseStore.table[listing[i]], reason, false);
        if outcome.Fail? {
          return;
        }
        i := i + 1;
      }
      outcome := Ok;
    }

    method RetryCleanup(a: AccountId, record: AccountRecord) returns (outcome: Outcome)
      requires Valid()
      modifies this, accountStore, orgs
      ensures Reply(Snapshot(), outcome) == RetryCleanupSpec(old(Snapshot()), a, record)
    {
      if record.status != Ou.Quarantine && record.status != Ou.CleanUp {
        return Fail(AccountNotInQuarantine);
      }
      if record.status != Ou.CleanUp {
        var moved := orgs.MoveAccount(a, record, Ou.Quarantine, Ou.CleanUp);
        if !moved {
          return Fail(TransactionFailedAndRolledBack);
        }
      }
      SendIsbEvents([CleanAccountRequest(a)]);
      outcome := Ok;
    }

    method EjectAccount(a: AccountId, record: AccountRecord) returns (outcome: Outcome, listing: seq<LeaseKey>)
      requires Valid()
      modifies this, leaseStore, accountStore, orgs, idc
      ensures record.status != Ou.CleanUp ==> IsLeaseListing(old(Snapshot()), a, listing)
      ensures record.status == Ou.CleanUp ==> listing == []
      ensures Reply(Snapshot(), outcome) == EjectSpec(old(Snapshot()), a, record, listing)
    {
      if record.status == Ou.CleanUp {
        return Fail(AccountInCleanUp), [];
      }
      var ignored;
      ignored, listing := TerminateLeasesAssociatedWithAccount(a, Ejected);
      var moved := orgs.PerformAccountMoveAction(a, record.status, Ou.Exit);
      if !moved {
        return Fail(MoveRefused), listing;
      }
      idc.RevokeGroupAccess(a, Manager);
      idc.RevokeGroupAccess(a, Admin);
      accountStore.Delete(a);
      outcome := Ok;
    }

    method QuarantineAccount(a: AccountId, currentOu: Ou) returns (outcome: Outcome, listing: seq<LeaseKey>)
      requires Valid()
      modifies this, leaseStore, accountStore, orgs, idc
      ensures IsLeaseListing(old(Snapshot()), a, listing)
      ensures Reply(Snapshot(), outcome) == QuarantineSpec(old(Snapshot()), a, currentOu, listing)
    {
      var account := accountStore.Get(a);
      var record := account.GetOr(UNTRACKED_RECORD);
      outcome, listing := TerminateLeasesAssociatedWithAccount(a, AccountQuarantined);
      if outcome.Fail? {
        return;
      }
      var moved := orgs.MoveAccount(a, record, currentOu, Ou.Quarantine);
      if !moved {
        return Fail(TransactionFailedAndRolledBack), listing;
      }
      SendIsbEvents([AccountQuarantinedEvent(a)]);
      outcome := Ok;
    }

    method HandleAccountCleanupSuccessful(a: AccountId) returns (outcome: Outcome)
      requires Valid()
      modifies this, accountStore, orgs
      ensures Reply(Snapshot(), outcome) == CleanupSucceededSpec(old(Snapshot()), a)
    {
      var account := accountStore.Get(a);
      if account.None? {
        return Fail(CouldNotFindAccount);
      }
      if account.value.status != Ou.CleanUp {
        return Fail(Conflict);
      }
      var moved := orgs.MoveAccount(a, account.value, Ou.CleanUp, Ou.Available);
      outcome := if moved then Ok else Fail(TransactionFailedAndRolledBack);
    }

    method HandleAccountDrift(a: AccountId, actualOu: Option<Ou>) returns (outcome: Outcome, listing: seq<LeaseKey>)
      requires Valid()
      modifies this, leaseStore, accountStore, orgs, idc
      ensures actualOu.Some? ==> IsLeaseListing(old(Snapshot()), a, listing)
      ensures actualOu.None? ==> listing == []
      ensures Reply(Snapshot(), outcome) == HandleDriftSpec(old(Snapshot()), a, actualOu, listing)
    {
      if actualOu.None? {
        accountStore.Delete(a);
        return Ok, [];
      }
      outcome, listing := QuarantineAccount(a, actualOu.value);
    }
  }

  /** The listings of the two monitored statuses, one after the other. */
  lemma ListingOfBoth(s: State, a: AccountId, active: seq<LeaseKey>, frozen: seq<LeaseKey>)
    requires IsListing(active, set k | k in s.leases && s.leases[k].status == LeaseStatus.Active
                                       && s.leases[k].awsAccountId == Some(a))
    requires IsListing(frozen, set k | k in s.leases && s.leases[k].status == LeaseStatus.Frozen
                                       && s.leases[k].awsAccountId == Some(a))
    ensures IsLeaseListing(s, a, active + frozen)
  {
    var both := active + frozen;
    forall i, j | 0 <= i < j < |both|
      ensures both[i] != both[j]
      ensures ActiveAt(s, both[j]) ==> ActiveAt(s, both[i])
    {
      assert both[i] == if i < |active| then active[i] else frozen[i - |active|];
      assert both[j] == if j < |active| then active[j] else frozen[j - |active|];
      assert i < |active| ==> active[i] in active;
      assert j >= |active| ==> frozen[j - |active|] in frozen;
    }
  }
}
