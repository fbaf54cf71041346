/** The records that the account pool, the lease store and the schedulers share. */
module Domain {

  datatype Option<+T> = None | Some(value: T) {
    function GetOr(default: T): T {
      match this
      case Some(v) => v
      case None => default
    }
  }

  datatype AccountId = AccountId(digits: string)

  datatype Email = Email(address: string)

  /** The organizational units of the sandbox. `Entry` and `Exit` are not statuses that an account record may hold. */
  datatype Ou = Available | Active | CleanUp | Quarantine | Frozen | Entry | Exit

  predicate StorableStatus(ou: Ou) {
    ou != Ou.Entry && ou != Ou.Exit
  }

  /** The execution that last claimed the clean-up of an account. */
  datatype CleanupContext = CleanupContext(executionArn: string, startTime: int)

  datatype AccountRecord = AccountRecord(
    status: Ou,
    driftAtLastScan: bool,
    cleanupContext: Option<CleanupContext>)

  datatype LeaseStatus =
    | PendingApproval
    | ApprovalDenied
    | Active
    | Frozen
    | Expired
    | BudgetExceeded
    | ManuallyTerminated
    | AccountQuarantined
    | Ejected

  predicate IsMonitored(status: LeaseStatus) {
    status.Active? || status.Frozen?
  }

  predicate IsExpired(status: LeaseStatus) {
    || status.Expired? || status.BudgetExceeded? || status.ManuallyTerminated?
    || status.AccountQuarantined? || status.Ejected?
  }

  /** The statuses that count against `maxLeasesPerUser`. */
  predicate IsOpen(status: LeaseStatus) {
    status.PendingApproval? || IsMonitored(status)
  }

  datatype ThresholdAction = ALERT | FREEZE_ACCOUNT

  datatype BudgetThreshold = BudgetThreshold(dollarsSpent: real, action: ThresholdAction)

  datatype DurationThreshold = DurationThreshold(hoursRemaining: int, action: ThresholdAction)

  /** The version stamp of a stored item; times are milliseconds. */
  datatype Metadata = Metadata(createdTime: Option<int>, lastEditTime: Option<int>)

  datatype LeaseKey = LeaseKey(userEmail: Email, uuid: string)

  datatype Lease = Lease(
    status: LeaseStatus,
    awsAccountId: Option<AccountId>,
    approvedBy: Option<string>,
    maxSpend: Option<real>,
    budgetThresholds: seq<BudgetThreshold>,
    durationThresholds: seq<DurationThreshold>,
    leaseDurationInHours: Option<nat>,
    startDate: int,
    expirationDate: Option<int>,
    lastCheckedDate: int,
    totalCostAccrued: real,
    endDate: Option<int>,
    meta: Option<Metadata>)

  const MILLIS_PER_HOUR: int := 3600000
}
