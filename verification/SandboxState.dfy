/**
  The whole state that the sandbox operations act on, and what each operation does to it.

  Every `...Spec` function gives the outcome of one operation: the state it leaves, also when it fails half way, and the
  answer or error of the call. The imperative operations of `InnovationSandbox` are proved equal to these functions.
 */
module SandboxState {
  import opened Domain
  import LeaseStore

  datatype Role = Manager | Admin

  datatype Event =
    | CleanAccountRequest(accountId: AccountId)
    | LeaseRequested(key: LeaseKey)
    | LeaseApproved(key: LeaseKey)
    | LeaseDenied(key: LeaseKey)
    | LeaseFrozen(key: LeaseKey, accountId: AccountId)
    | LeaseUnfrozen(key: LeaseKey, accountId: AccountId)
    | LeaseTerminated(key: LeaseKey, accountId: AccountId, reason: LeaseStatus)
    | AccountQuarantinedEvent(accountId: AccountId)

  /** `directory` holds the users that the identity store resolves; `clock` advances with every write to the leases. */
  datatype State = State(
    ou: map<AccountId, Ou>,
    accounts: map<AccountId, AccountRecord>,
    leases: map<LeaseKey, Lease>,
    grants: set<(AccountId, Email)>,
    groupGrants: set<(AccountId, Role)>,
    directory: set<Email>,
    events: seq<Event>,
    clock: int)

  datatype SandboxError =
    | NoAccountsAvailable
    | MaxNumberOfLeasesExceeded
    | AccountNotInQuarantine
    | AccountInCleanUp
    | AccountNotInActive
    | AccountNotInFrozen
    | CouldNotFindAccount
    | CouldNotRetrieveUser
    | TransactionFailedAndRolledBack
    | RollbackFailedError
    | CallFailed
    | MoveRefused
    | UnknownLease
    | LeaseAlreadyExists
    | LeaseDurationUndefined
    | Conflict
    | BadRequest

  datatype Outcome = Ok | Fail(error: SandboxError)

  datatype Reply = Reply(state: State, outcome: Outcome)

  // ----- Reading the state -----

  predicate InOu(s: State, a: AccountId, ou: Ou) {
    a in s.ou && s.ou[a] == ou
  }

  predicate Tracked(s: State, a: Option<AccountId>) {
    a.Some? && a.value in s.accounts
  }

  predicate MonitoredOn(s: State, k: LeaseKey, a: AccountId) {
    k in s.leases && IsMonitored(s.leases[k].status) && s.leases[k].awsAccountId == Some(a)
  }

  predicate ActiveAt(s: State, k: LeaseKey) {
    k in s.leases && s.leases[k].status.Active?
  }

  function OpenLeases(s: State, user: Email): set<LeaseKey> {
    set k | k in s.leases && k.userEmail == user && IsOpen(s.leases[k].status)
  }

  function GrantsWithout(grants: set<(AccountId, Email)>, a: AccountId): set<(AccountId, Email)> {
    set g | g in grants && g.0 != a
  }

  // ----- Choosing a free account -----

  const COOLDOWN_MILLIS: int := 24 * MILLIS_PER_HOUR

  predicate IsAvailable(s: State, a: AccountId) {
    a in s.accounts && s.accounts[a].status == Ou.Available
  }

  /** The account has no recorded clean-up that started within the last 24 hours. */
  predicate Rested(record: AccountRecord, now: int) {
    record.cleanupContext.Some? ==> record.cleanupContext.value.startTime <= now - COOLDOWN_MILLIS
  }

  /** A pick is an available account, a rested one whenever there is one; there is none only when none is available. */
  ghost predicate ValidPick(s: State, pick: Option<AccountId>) {
    match pick
    case None => forall a :: !IsAvailable(s, a)
    case Some(p) =>
      && IsAvailable(s, p)
      && (Rested(s.accounts[p], s.clock) || forall a :: IsAvailable(s, a) ==> !Rested(s.accounts[a], s.clock))
  }

  // ----- Leaf actions -----

  /** Organizations moves an account only out of the unit it is in, and not onto itself. */
  predicate CanMove(s: State, a: AccountId, from: Ou, to: Ou) {
    InOu(s, a, from) && from != to
  }

  function MoveOu(s: State, a: AccountId, to: Ou): State {
    s.(ou := s.ou[a := to])
  }

  /** A unit move followed by the write of the record with its new status. */
  function MoveAndPut(s: State, a: AccountId, record: AccountRecord, to: Ou): State {
    s.(ou := s.ou[a := to], accounts := s.accounts[a := record.(status := to)])
  }

  /** How a move may fail for reasons other than the state: it is two remote calls, and the second one may fail alone. */
  datatype MoveFault = NoFault | UnitMoveFails | RecordPutFails

  /** What a move leaves, and whether it returned. A record that is refused is refused after the account was moved. */
  function Move(s: State, a: AccountId, record: AccountRecord, from: Ou, to: Ou, fault: MoveFault): (State, bool) {
    if !CanMove(s, a, from, to) || fault.UnitMoveFails? then (s, false)
    else if !StorableStatus(to) || fault.RecordPutFails? then (MoveOu(s, a, to), false)
    else (MoveAndPut(s, a, record, to), true)
  }

  lemma MoveKeepsLeases(s: State, a: AccountId, record: AccountRecord, from: Ou, to: Ou, fault: MoveFault)
    ensures Move(s, a, record, from, to, fault).0.leases == s.leases
  {
  }

  function PutLease(s: State, k: LeaseKey, lease: Lease): State {
    s.(leases := s.leases[k := LeaseStore.WithUpdatedMetadata(lease, s.clock)], clock := s.clock + 1)
  }

  /** Writing a lease is an unconditional update of the table, and takes one tick. */
  lemma UpdateIsPut(s: State, k: LeaseKey, lease: Lease)
    ensures var t := PutLease(s, k, lease);
            && t == s.(leases := t.leases, clock := s.clock + 1)
            && (k in s.leases ==>
                  k in t.leases
                  && LeaseStore.UpdateSpec(s.leases, k, lease, None, s.clock)
                  == (LeaseStore.Written(LeaseStore.PutResult(s.leases[k], t.leases[k])), t.leases))
            && (k !in s.leases ==>
                  LeaseStore.UpdateSpec(s.leases, k, lease, None, s.clock)
                  == (LeaseStore.Refused(LeaseStore.UnknownItem), s.leases))
  {
  }

  /** While the written lease is still there, the conditional update that undoes it writes the old one. */
  lemma UndoIsPut(s: State, k: LeaseKey, lease: Lease, u: State)
    requires k in s.leases && u.leases == PutLease(s, k, lease).leases
    ensures var t := PutLease(u, k, s.leases[k]);
            && k in u.leases && k in t.leases
            && LeaseStore.UpdateSpec(u.leases, k, s.leases[k], Some(u.leases[k]), u.clock)
            == (LeaseStore.Written(LeaseStore.PutResult(u.leases[k], t.leases[k])), t.leases)
  {
  }

  function Tick(s: State): State {
    s.(clock := s.clock + 1)
  }

  function RevokeAll(s: State, a: AccountId): State {
    s.(grants := GrantsWithout(s.grants, a))
  }

  function Send(s: State, sent: seq<Event>): State {
    s.(events := s.events + sent)
  }

  // ----- The operations -----

  const NEW_ACCOUNT_RECORD := AccountRecord(Ou.CleanUp, false, None)

  function RegisterSpec(s: State, a: AccountId, described: bool): Reply {
    if !described then Reply(s, Fail(CouldNotFindAccount))
    else if !CanMove(s, a, Ou.Entry, Ou.CleanUp) then Reply(s, Fail(TransactionFailedAndRolledBack))
    else
      var moved := MoveAndPut(s, a, NEW_ACCOUNT_RECORD, Ou.CleanUp);
      var onboarded := moved.(groupGrants := s.groupGrants + {(a, Manager), (a, Admin)});
      Reply(Send(onboarded, [CleanAccountRequest(a)]), Ok)
  }

  /** The lease as `approveLease` stores it, before it is stamped. */
  function ApprovedLease(lease: Lease, approver: string, a: AccountId, now: int): Lease {
    lease.(
      status := LeaseStatus.Active,
      approvedBy := Some(approver),
      awsAccountId := Some(a),
      startDate := now,
      expirationDate :=
        if lease.leaseDurationInHours.Some? && lease.leaseDurationInHours.value != 0
        then Some(now + lease.leaseDurationInHours.value * MILLIS_PER_HOUR) else None,
      totalCostAccrued := 0.0,
      lastCheckedDate := now)
  }

  /** Lease update, account move and grant: all of them, or the old lease written back with a new stamp. */
  function LeaseMoveGrantSpec(
    s: State, k: LeaseKey, lease: Lease, a: AccountId, record: AccountRecord, from: Ou, to: Ou): (State, bool)
  {
    if k !in s.leases then (Tick(s), false)
    else
      var (moved, ok) := Move(PutLease(s, k, lease), a, record, from, to, NoFault);
      if ok then (moved.(grants := moved.grants + {(a, k.userEmail)}), true)
      else (PutLease(moved, k, s.leases[k]), false)
  }

  function ApproveSpec(s: State, k: LeaseKey, lease: Lease, approver: string, pick: Option<AccountId>): Reply
    requires pick.Some? ==> pick.value in s.accounts
  {
    if pick.None? then Reply(s, Fail(NoAccountsAvailable))
    else if k.userEmail !in s.directory then Reply(s, Fail(CouldNotRetrieveUser))
    else
      var a := pick.value;
      var approved := ApprovedLease(lease, approver, a, s.clock);
      var (t, committed) := LeaseMoveGrantSpec(s, k, approved, a, s.accounts[a], Ou.Available, Ou.Active);
      if committed then Reply(Send(t, [LeaseApproved(k)]), Ok) else Reply(t, Fail(TransactionFailedAndRolledBack))
  }

  datatype Template = Template(
    requiresApproval: bool,
    maxSpend: Option<real>,
    budgetThresholds: seq<BudgetThreshold>,
    durationThresholds: seq<DurationThreshold>,
    leaseDurationInHours: Option<nat>)

  function RequestedLease(t: Template): Lease {
    Lease(PendingApproval, None, None, t.maxSpend, t.budgetThresholds, t.durationThresholds, t.leaseDurationInHours,
          0, None, 0, 0.0, None, None)
  }

  function RequestSpec(
    s: State, k: LeaseKey, t: Template, onBehalf: bool, maxLeasesPerUser: int, pick: Option<AccountId>): Reply
    requires pick.Some? ==> pick.value in s.accounts
  {
    if |OpenLeases(s, k.userEmail)| >= maxLeasesPerUser then Reply(s, Fail(MaxNumberOfLeasesExceeded))
    else if k in s.leases then Reply(Tick(s), Fail(LeaseAlreadyExists))
    else
      var created := PutLease(s, k, RequestedLease(t));
      if t.requiresApproval && !onBehalf then
        Reply(Send(created, [LeaseRequested(k)]), Ok)
      else
        var approved := ApproveSpec(created, k, created.leases[k], "AUTO_APPROVED", pick);
        if approved.outcome.Ok? then approved
        else Reply(approved.state.(leases := approved.state.leases - {k}), approved.outcome)
  }

  function DenySpec(s: State, k: LeaseKey, lease: Lease, denier: string): Reply {
    if k !in s.leases then Reply(Tick(s), Fail(UnknownLease))
    else
      var denied := PutLease(s, k, lease.(status := ApprovalDenied, approvedBy := Some(denier)));
      Reply(Send(denied, [LeaseDenied(k)]), Ok)
  }

  /** Account move and lease update; undoing the move also writes the status Active. */
  function FreezeTransactionSpec(s: State, k: LeaseKey, lease: Lease, a: AccountId, record: AccountRecord): (State, bool) {
    if !CanMove(s, a, Ou.Active, Ou.Frozen) then (s, false)
    else if k !in s.leases then (MoveAndPut(Tick(s), a, record, Ou.Active), false)
    else (PutLease(MoveAndPut(s, a, record, Ou.Frozen), k, lease), true)
  }

  function FreezeSpec(s: State, k: LeaseKey, lease: Lease): Reply {
    if !lease.status.Active? then Reply(s, Fail(AccountNotInActive))
    else if !Tracked(s, lease.awsAccountId) then Reply(s, Fail(CouldNotFindAccount))
    else if k.userEmail !in s.directory then Reply(s, Fail(CouldNotRetrieveUser))
    else
      var a, frozen := lease.awsAccountId.value, lease.(status := LeaseStatus.Frozen);
      var (t, committed) := FreezeTransactionSpec(RevokeAll(s, a), k, frozen, a, s.accounts[a]);
      if committed then Reply(Send(t, [LeaseFrozen(k, a)]), Ok) else Reply(t, Fail(TransactionFailedAndRolledBack))
  }

  function UnfreezeSpec(s: State, k: LeaseKey, lease: Lease): Reply {
    if !lease.status.Frozen? then Reply(s, Fail(AccountNotInFrozen))
    else if !Tracked(s, lease.awsAccountId) then Reply(s, Fail(CouldNotFindAccount))
    else if k.userEmail !in s.directory then Reply(s, Fail(CouldNotRetrieveUser))
    else
      var a, active := lease.awsAccountId.value, lease.(status := LeaseStatus.Active);
      var (t, committed) := LeaseMoveGrantSpec(s, k, active, a, s.accounts[a], Ou.Frozen, Ou.Active);
      if committed then Reply(Send(t, [LeaseUnfrozen(k, a)]), Ok) else Reply(t, Fail(TransactionFailedAndRolledBack))
  }

  function EndedLease(lease: Lease, expiredStatus: LeaseStatus, now: int): Lease {
    lease.(status := expiredStatus, endDate := Some(now))
  }

  /** `LeaseTerminatedEvent` cannot be built for an expiry without a duration. */
  predicate ReasonUndefined(lease: Lease, expiredStatus: LeaseStatus) {
    expiredStatus.Expired? && lease.leaseDurationInHours.None?
  }

  /** The second half of a termination: the lease ends, access is revoked and the events are sent. */
  function EndSpec(
    s: State, k: LeaseKey, lease: Lease, expiredStatus: LeaseStatus, a: AccountId, pending: seq<Event>): Reply
  {
    if k !in s.leases then Reply(Tick(s), Fail(UnknownLease))
    else
      var ended := RevokeAll(PutLease(s, k, EndedLease(lease, expiredStatus, s.clock)), a);
      if ReasonUndefined(lease, expiredStatus) then Reply(ended, Fail(LeaseDurationUndefined))
      else Reply(Send(ended, pending + [LeaseTerminated(k, a, expiredStatus)]), Ok)
  }

  function TerminateSpec(s: State, k: LeaseKey, lease: Lease, expiredStatus: LeaseStatus, autoCleanup: bool): (r: Reply)
    ensures r.state.leases.Keys == s.leases.Keys
  {
    if !Tracked(s, lease.awsAccountId) then Reply(s, Fail(CouldNotFindAccount))
    else if k.userEmail !in s.directory then Reply(s, Fail(CouldNotRetrieveUser))
    else
      var a := lease.awsAccountId.value;
      var record := s.accounts[a];
      if autoCleanup && !CanMove(s, a, record.status, Ou.CleanUp) then Reply(s, Fail(TransactionFailedAndRolledBack))
      else
        var moved := if autoCleanup then MoveAndPut(s, a, record, Ou.CleanUp) else s;
        EndSpec(moved, k, lease, expiredStatus, a, if autoCleanup then [CleanAccountRequest(a)] else [])
  }

  /** Terminates the listed leases one by one and stops at the first error. */
  function TerminateAllSpec(s: State, listing: seq<LeaseKey>, reason: LeaseStatus): Reply
    requires forall k :: k in listing ==> k in s.leases
    decreases |listing|
  {
    if listing == [] then Reply(s, Ok)
    else
      var k := listing[0];
      var first := TerminateSpec(s, k, s.leases[k], reason, false);
      if first.outcome.Fail? then first
      else TerminateAllSpec(first.state, listing[1..], reason)
  }

  function RetryCleanupSpec(s: State, a: AccountId, record: AccountRecord): Reply {
    if record.status != Ou.Quarantine && record.status != Ou.CleanUp then Reply(s, Fail(AccountNotInQuarantine))
    else if record.status == Ou.CleanUp then Reply(Send(s, [CleanAccountRequest(a)]), Ok)
    else if !CanMove(s, a, Ou.Quarantine, Ou.CleanUp) then Reply(s, Fail(TransactionFailedAndRolledBack))
    else Reply(Send(MoveAndPut(s, a, record, Ou.CleanUp), [CleanAccountRequest(a)]), Ok)
  }

  /** The monitored leases on an account, each once, the active ones first: what the two status queries list. */
  ghost predicate IsLeaseListing(s: State, a: AccountId, listing: seq<LeaseKey>) {
    && (forall k :: k in listing <==> MonitoredOn(s, k, a))
    && (forall i, j :: 0 <= i < j < |listing| ==> listing[i] != listing[j])
    && (forall i, j :: 0 <= i < j < |listing| && ActiveAt(s, listing[j]) ==> ActiveAt(s, listing[i]))
  }

  function EjectSpec(s: State, a: AccountId, record: AccountRecord, listing: seq<LeaseKey>): Reply
    requires forall k :: k in listing ==> k in s.leases
  {
    if record.status == Ou.CleanUp then Reply(s, Fail(AccountInCleanUp))
    else
      // an error while terminating leases is logged and otherwise ignored
      var ended := TerminateAllSpec(s, listing, Ejected).state;
      if !CanMove(ended, a, record.status, Ou.Exit) then Reply(ended, Fail(MoveRefused))
      else
        var moved := MoveOu(ended, a, Ou.Exit);
        Reply(moved.(groupGrants := moved.groupGrants - {(a, Manager), (a, Admin)}, accounts := moved.accounts - {a}), Ok)
  }

  const UNTRACKED_RECORD := AccountRecord(Ou.Quarantine, true, None)

  function RecordOrNew(s: State, a: AccountId): AccountRecord {
    if a in s.accounts then s.accounts[a] else UNTRACKED_RECORD
  }

  function QuarantineSpec(s: State, a: AccountId, currentOu: Ou, listing: seq<LeaseKey>): Reply
    requires forall k :: k in listing ==> k in s.leases
  {
    var ended := TerminateAllSpec(s, listing, AccountQuarantined);
    if ended.outcome.Fail? then ended
    else if !CanMove(ended.state, a, currentOu, Ou.Quarantine) then
      Reply(ended.state, Fail(TransactionFailedAndRolledBack))
    else
      Reply(Send(MoveAndPut(ended.state, a, RecordOrNew(s, a), Ou.Quarantine), [AccountQuarantinedEvent(a)]), Ok)
  }

  function CleanupSucceededSpec(s: State, a: AccountId): Reply {
    if a !in s.accounts then Reply(s, Fail(CouldNotFindAccount))
    else if s.accounts[a].status != Ou.CleanUp then Reply(s, Fail(Conflict))
    else if !CanMove(s, a, Ou.CleanUp, Ou.Available) then Reply(s, Fail(TransactionFailedAndRolledBack))
    else Reply(MoveAndPut(s, a, s.accounts[a], Ou.Available), Ok)
  }

  /** Drift alert: an account that left the sandbox is forgotten, any other is quarantined from where it is. */
  function HandleDriftSpec(s: State, a: AccountId, actualOu: Option<Ou>, listing: seq<LeaseKey>): Reply
    requires forall k :: k in listing ==> k in s.leases
  {
    match actualOu
    case None => Reply(s.(accounts := s.accounts - {a}), Ok)
    case Some(ou) => QuarantineSpec(s, a, ou, listing)
  }
}
