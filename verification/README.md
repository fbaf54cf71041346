# Innovation Sandbox: account and lease life cycle

A sandbox hands AWS accounts out on leases. This project models the parts of it where an error costs most and proves
what they keep: the life cycle of accounts and leases, the transactions it is made of, and the control loops around it.

## What is modelled

- `Domain`, `SandboxState`: the records, and the whole state (units, account table, lease table, access, events). Every
  `...Spec` function gives the outcome of one operation, also of one that fails half way.
- `SandboxServices`, `LeaseStore`, `InnovationSandbox`: the stores, the services and the operations as the source has
  them, classes that update their fields step by step. Each operation is proved to have the outcome of its `...Spec`.
- `OperationOutcomes`: what each operation achieves, in every state and with every refusal, field by field.
- `Lifecycle`, `LifecycleRuns`: runs of these operations behind the guards of the API and event handlers
  (`source/lambdas/api/leases/src/leases-handler.ts:487-1012`,
  `source/lambdas/account-management/account-lifecycle-management/src/account-lifecycle-manager.ts:135-416`).
- `Transactions`, `SandboxSagas`, `LostEvents`: the `Transaction` class with arbitrary nesting, the concrete transactions
  with the leaves of the services and possible faults in every call, and the event that a request may lose.
- `ConcurrentApprovals`: any number of approvals interleaved call by call, with faults also in rollbacks.
- `DriftMonitoring`: the drift scan, its debounce, and the convergence that handling its alerts brings about.
- `CostExplorer`, `LeaseMonitoring`: cost aggregation in batches, and what sequences of monitoring scans find.
- `AccountCleaner`, `InitializeCleanup`: the clean-up state machine, and how its executions exclude each other.
- `EmailService`, `Pagination`, `IdcCache`: bisection of recipient lists, paged queries, and the page cache.

## What turned out not to hold

Each of these is stated as it is, with the exact condition under which the code does keep the property.

- The comment on `Transaction` speaks of actions performed in parallel (`source/common/utils/transactions.ts:27-30`); the
  code performs them in order, and so does the model.
- A transaction is documented as all-or-nothing. A step that is itself a transaction of several leaves and fails half
  way is not undone (`Transactions.AtomicExactlyWithoutDeepSteps`).
- A move is two remote calls in one leaf. When the record is not stored after the account was moved, the leaf throws and
  is not undone: an approval, an unfreezing, a freezing or a registration is then reported as rolled back while the account
  stays in the new unit, with its old record or none (`SandboxSagas.LeaseMoveGrantRestoresIff`,
  `SandboxSagas.FreezeRestoresIff`, `SandboxSagas.RegistrationRollback`, `ConcurrentApprovals.StrandsIff`).
- Freezing revokes access before its transaction, and nothing grants it again when that fails: an active lease is left
  whose user has no access (`SandboxSagas.FreezeRestoresIff`).
- Undoing a registration writes the status `Entry`, which the account table rejects after the account was moved back; the
  new record stays (`SandboxSagas.RegistrationOutcome`).
- When the event of an automatic approval is lost, the request deletes its lease although the approval has been carried
  out: the account stays in use by a user without a lease (`LostEvents.LosingTheEventIsSafeIff`).
- The rollback of a lease update overwrites another writer with the same millisecond stamp
  (`LeaseStore.RollbackOverwritesExactlyEqualStamps`).
- A clean-up failure that is reported late, for an account already leased again, ends the lease but leaves the account in
  use (`LifecycleRuns.UsedAccountsStayLeasedUnlessReportedLate`).
- The expiry of a lease without a duration brings the account into clean-up but requests none
  (`LifecycleRuns.EnteringCleanUpAsks`).
- An account that drifts into the quarantine unit, or that carries a lease which cannot be ended, stays in drift for ever
  (`DriftMonitoring.Convergence`).
- Hourly costs cannot be asked for up to the first second of a day when some account started a day before
  (`CostExplorer.CostExplorerService.GetCostForLeases`).
- Deleting the record of an account that is being cleaned lets a second clean-up in
  (`InitializeCleanup.ClaimedIffNoneRemembered`, `InitializeCleanup.DeletionLetsTwoWork`).
- Bisection never ends on an empty list that cannot be sent (`EmailService.FinishesUnlessEmptyFails`).
- An expired page of managers or admins evicts the page of users under the same key (`IdcCache.MissesIffCrossEvicted`).

## Model

| member | source | states |
|---|---|---|
| `Lifecycle.RunSafety` | source/common/innovation-sandbox.ts:256-877 | in every state of every run: each tracked account's status is its unit, untracked accounts wait in Entry or Exit, a monitored lease names a tracked account of its own status which no other monitored lease names, and access to an account belongs to the one user of its active lease |
| `Lifecycle.StepKeepsInv` | source/common/innovation-sandbox.ts:90-952 | every operation, with the handler's guard before it, keeps the invariant, also when it fails and also for late or repeated events |
| `Lifecycle.TerminateAllKeepsInv` | source/common/innovation-sandbox.ts:817-877 | terminating what is listed on an account succeeds, leaves it without monitored lease and without access, and changes no other lease |
| `Lifecycle.ApproveKeepsInv` | source/common/innovation-sandbox.ts:565-650 | an approval of a pending lease succeeds iff an account is available; if it fails the state is as before |
| `Lifecycle.FreezeKeepsInv` | source/common/innovation-sandbox.ts:256-330 | freezing keeps the invariant and succeeds iff the lease is active |
| `Lifecycle.UnfreezeKeepsInv` | source/common/innovation-sandbox.ts:440-519 | unfreezing keeps the invariant and succeeds iff the lease is frozen |
| `Lifecycle.TerminateKeepsInv` | source/common/innovation-sandbox.ts:333-437 | termination keeps the invariant, leaves nobody with access, and fails only for an expiry without a duration |
| `Lifecycle.EjectKeepsInv` | source/common/innovation-sandbox.ts:698-744 | an ejection succeeds iff the account is not in clean-up; then the account is forgotten and exactly its monitored leases end as ejected |
| `Lifecycle.QuarantineKeepsInv` | source/lambdas/account-management/account-lifecycle-management/src/account-lifecycle-manager.ts:285-329 | a clean-up failure quarantines the account iff it is still in CleanUp, and ends its monitored leases in any case |
| `LifecycleRuns.StepMoves` | source/common/innovation-sandbox.ts:90-952 | for every operation, which account and lease changes it may make and under which circumstances |
| `LifecycleRuns.LeaseHistory` | source/common/data/lease/lease.ts:29-57 | over any stretch of any run a lease's status follows Pending, then denied or Active and Frozen in turn, then expired; denied and expired are final; an assigned account never changes |
| `LifecycleRuns.LeaseLimitHolds` | source/common/innovation-sandbox.ts:173-226 | a user's open leases never exceed maxLeasesPerUser in any run, failed automatic approvals included |
| `LifecycleRuns.EnteringCleanUpAsks` | source/common/innovation-sandbox.ts:387-436 | the step that brings an account into CleanUp requests its clean-up, except exactly when it expires a lease without a duration |
| `LifecycleRuns.CleanUpWasRequested` | source/common/innovation-sandbox.ts:387-436 | in runs without such an expiry, every account in CleanUp has had its clean-up requested since it last came there |
| `LifecycleRuns.UsedAccountsStayLeasedUnlessReportedLate` | source/common/innovation-sandbox.ts:756-815 | a step keeps every used account leased iff it is not a clean-up failure reported for an account in use again |
| `OperationOutcomes.RegisterOutcome` | source/common/innovation-sandbox.ts:90-145 | in any state an account is onboarded iff it exists and waits in Entry: then it is in CleanUp in unit and table, unflagged and never cleaned, both groups have access and its clean-up is requested; else nothing changes |
| `OperationOutcomes.HandlersRefuse` | source/lambdas/api/leases/src/leases-handler.ts:487-1012 | a lease that is unknown or in the wrong status is refused with the error of the handler, and nothing changes |
| `OperationOutcomes.HandledDenial` | source/lambdas/api/leases/src/leases-handler.ts:656-720 | a denial takes effect iff the lease is pending; it stores the denier, sends one event and touches nothing else |
| `OperationOutcomes.HandledEdits` | source/lambdas/api/leases/src/leases-handler.ts:487-560 | a patch changes the terms of a monitored lease and nothing else of it; a scan its cost and last check, a claim the clean-up context only |
| `OperationOutcomes.StatusesAre` | source/common/data/lease/lease.ts:29-57 | monitored are Active and Frozen, open those and the pending ones, and expired are all but the open and the denied ones |
| `OperationOutcomes.HandledRequest` | source/common/innovation-sandbox.ts:209-253 | in every state of a run, below the limit: the request waits, pending, with nothing taken and its event sent, iff the template asks for approval and the user acts alone; else it is granted iff an account is available, and otherwise leaves no trace |
| `OperationOutcomes.RequestOutcome` | source/common/innovation-sandbox.ts:148-253 | in any state: which error a request ends with, the terms of the lease it stores, and everything it changes |
| `OperationOutcomes.HandledApproval` | source/common/innovation-sandbox.ts:565-650 | in every state of a run a pending lease is approved iff an account is available; it then starts now, ends after its hours times 3600000 ms or never, costs nothing yet, and keeps its agreed terms; unit, record, access, event and clock change with it and nothing else |
| `OperationOutcomes.ApproveOutcome` | source/common/innovation-sandbox.ts:565-650 | in any state: when an approval succeeds, which error it ends with, and that a refused one leaves at most a new stamp |
| `OperationOutcomes.HandledTermination` | source/common/innovation-sandbox.ts:333-437 | in every state of a run the termination of a monitored lease ends it at this time for its reason, takes all access to the account away, sends it to clean-up in unit and table, and sends both events in order, none when the reason cannot be built |
| `OperationOutcomes.TerminateOutcome` | source/common/innovation-sandbox.ts:333-437 | in any state: which error a termination ends with, and what has been changed by then |
| `OperationOutcomes.TerminateAllOutcome` | source/common/innovation-sandbox.ts:817-877 | in any state: exactly the leases before the first that cannot be ended have ended, in the order listed and each reported; access to their accounts and nothing else is gone; the error is that of the one that stopped it |
| `OperationOutcomes.FreezeOutcome` | source/common/innovation-sandbox.ts:256-330 | in any state: which error a freezing ends with and what it leaves; access is gone even if the move is refused |
| `OperationOutcomes.UnfreezeOutcome` | source/common/innovation-sandbox.ts:440-519 | in any state: which error an unfreezing ends with and what it leaves |
| `OperationOutcomes.EjectOutcome` | source/common/innovation-sandbox.ts:698-744 | in any state: the leases that can be ended up to the first that cannot, then the exit move iff the account is in its recorded unit, with group access and record gone |
| `OperationOutcomes.HandledEjection` | source/common/innovation-sandbox.ts:698-744 | in every state of a run a tracked account that is not in clean-up can be ejected: it is in the exit unit and forgotten, groups and users have no access, exactly its leases have ended; else nothing changes, with the error that says why |
| `OperationOutcomes.HandledRetry` | source/common/innovation-sandbox.ts:522-562 | in every state of a run a clean-up can be retried iff the account is in quarantine or clean-up; it is then in clean-up in unit and table and its clean-up requested |
| `OperationOutcomes.QuarantineOutcome` | source/common/innovation-sandbox.ts:756-815 | in any state: stops with the first lease that cannot be ended; else moves from the given unit iff the account is there, with a drift-marked record for an untracked account |
| `OperationOutcomes.CleanupSucceededOutcome` | source/lambdas/account-management/account-lifecycle-management/src/account-lifecycle-manager.ts:234-283 | succeeds iff record and unit say CleanUp; else nothing changes, and the error tells an unknown account from one in another status |
| `OperationOutcomes.PickIsRestedIfPossible` | source/common/innovation-sandbox.ts:879-952 | an account is picked iff one is available, and if any was not cleaned within 86400000 ms, then the picked one was not |
| `InnovationSandbox.Sandbox.RegisterAccount` | source/common/innovation-sandbox.ts:90-145 | the calls of a registration have the outcome that the life cycle gives for it |
| `InnovationSandbox.Sandbox.AcquireAvailableAccount` | source/common/innovation-sandbox.ts:879-952 | picks an available account, a rested one if there is any, and none only if none is available |
| `InnovationSandbox.Sandbox.RequestLease` | source/common/innovation-sandbox.ts:148-253 | refuses at the limit, creates the pending lease, and takes it back when its automatic approval fails |
| `InnovationSandbox.Sandbox.ApproveLease` | source/common/innovation-sandbox.ts:565-650 | lease update, account move and grant, or the lease restored when the move fails |
| `InnovationSandbox.Sandbox.DenyLease` | source/common/innovation-sandbox.ts:653-689 | the lease is denied and the event sent, or the lease is unknown and nothing changes |
| `InnovationSandbox.Sandbox.FreezeLease` | source/common/innovation-sandbox.ts:256-330 | access revoked, account moved, lease frozen, or the move undone |
| `InnovationSandbox.Sandbox.UnfreezeLease` | source/common/innovation-sandbox.ts:440-519 | the reverse of freezing, with the user's access granted again |
| `InnovationSandbox.Sandbox.TerminateLease` | source/common/innovation-sandbox.ts:333-437 | account moved if asked, lease ended, access revoked, and the events sent unless the reason cannot be built |
| `InnovationSandbox.Sandbox.TerminateLeasesAssociatedWithAccount` | source/common/innovation-sandbox.ts:817-877 | ends the listed leases one by one, the active ones first, up to the first error |
| `InnovationSandbox.Sandbox.RetryCleanup` | source/common/innovation-sandbox.ts:522-562 | a quarantined account goes back to clean-up, one in clean-up is only requested again |
| `InnovationSandbox.Sandbox.EjectAccount` | source/common/innovation-sandbox.ts:698-744 | errors of ending leases are ignored, an error of the move stops the ejection |
| `InnovationSandbox.Sandbox.QuarantineAccount` | source/common/innovation-sandbox.ts:756-815 | leases end first, then the account moves from the given unit, tracked or not |
| `InnovationSandbox.Sandbox.HandleAccountCleanupSuccessful` | source/lambdas/account-management/account-lifecycle-management/src/account-lifecycle-manager.ts:234-283 | an account in CleanUp becomes available, any other is a conflict |
| `InnovationSandbox.Sandbox.HandleAccountDrift` | source/lambdas/account-management/account-lifecycle-management/src/account-lifecycle-manager.ts:331-368 | an account that left the sandbox is forgotten, any other is quarantined from where it is |
| `SandboxServices.SandboxOuService.PerformAccountMoveAction` | source/common/isb-services/sandbox-ou-service.ts:73-105 | compare-and-swap on the unit: the account moves iff it is in the source unit and the destination is another one |
| `SandboxServices.SandboxOuService.MoveAccount` | source/common/isb-services/sandbox-ou-service.ts:107-121 | two calls: when the record is not stored, for its status or because the call fails, the account has been moved all the same |
| `SandboxServices.IdcService.RevokeAllUserAccess` | source/common/isb-services/idc-service.ts:348-383 | removes exactly the assignments of the account |
| `SandboxServices.SandboxAccountStore.Put` | source/common/data/sandbox-account/sandbox-account.ts:35-38 | the statuses Entry and Exit are refused |
| `ConcurrentApprovals.ApprovalsAreExclusive` | source/common/innovation-sandbox.ts:590-621 | under every interleaving, fault pattern and rewriting of the account table: successful approvals hold distinct accounts in the Active unit, with exactly their user granted; rolled back ones leave their lease pending |
| `ConcurrentApprovals.NextKeepsInv` | source/common/isb-services/sandbox-ou-service.ts:73-121 | every action of a run or of the environment keeps the invariant behind it |
| `ConcurrentApprovals.StrandsIff` | source/common/isb-services/sandbox-ou-service.ts:107-121 | a run lets go of an account that stays in the Active unit exactly when its record write fails after the move, or the move back |
| `ConcurrentApprovals.NoAccountIsStranded` | source/common/innovation-sandbox.ts:590-621 | unless such a fault occurs, every account that came into the Active unit is held by a run, and in the end by one that succeeded |
| `ConcurrentApprovals.AloneItIsTheTransaction` | source/common/isb-services/sandbox-ou-service.ts:107-135 | undisturbed, under every pattern of faults in its calls and rollbacks, the interleaved run ends in the very state of the transaction, succeeded, rolled back or failed to roll back exactly as that does |
| `ConcurrentApprovals.RolledBackRunRestores` | source/common/isb-services/sandbox-ou-service.ts:123-135 | undisturbed, a run that is reported as rolled back has left units, records, access and events as they were, unless its record write failed after the move |
| `ConcurrentApprovals.UndoIsConditional` | source/common/data/lease/lease-store.ts:27-36 | in any state, whoever wrote to it, a run takes its lease update back iff the lease still bears the stamp of what it wrote; else it leaves the lease alone and reports a failed rollback |
| `ConcurrentApprovals.AloneItIsTheAtomicApproval` | source/common/innovation-sandbox.ts:565-650 | undisturbed and without faults the interleaved run answers and leaves what the atomic approval does |
| `Transactions.Transaction.BeginTransaction` | source/common/utils/transactions.ts:81-87 | runs the steps in order up to the first that throws, and remembers exactly the completed ones |
| `Transactions.Transaction.RollbackTransaction` | source/common/utils/transactions.ts:89-108 | rolls back exactly the completed steps in reverse order, past those whose rollback throws |
| `Transactions.Transaction.Complete` | source/common/utils/transactions.ts:70-79 | commits, or rolls back; a failed rollback is reported iff some rollback threw |
| `Transactions.RollbackReversesOrder` | source/common/utils/transactions.ts:89-101 | every completed step is attempted once, the last one first, whatever throws |
| `Transactions.AllOrNothing` | source/common/utils/transactions.ts:70-108 | a transaction whose steps undo themselves commits or leaves what their relation allows at its start |
| `Transactions.ShallowStepsAreAtomic` | source/common/utils/transactions.ts:70-108 | with exactly inverting leaves, one for each step at most, every failure restores the state |
| `Transactions.FailureResidue` | source/common/utils/transactions.ts:81-95 | with leaves that count, for any nesting and failing position: what stays behind is exactly the part of the failing top-level step that ran |
| `Transactions.AtomicExactlyWithoutDeepSteps` | source/common/utils/transactions.ts:81-95 | a nesting restores the state on every failure, whatever exactly inverting leaves it is made of, iff no top-level step has more than one leaf |
| `SandboxSagas.LeaseMoveGrantOutcome` | source/common/innovation-sandbox.ts:601-621 | approval and unfreezing for every pattern of faults, also in the rollback: when they commit, when the rollback fails, and exactly what units, records, access and lease are left as |
| `SandboxSagas.LeaseMoveGrantRestoresIff` | source/common/isb-services/sandbox-ou-service.ts:107-135 | if they do not commit, everything but the lease's stamp is as before iff no record write failed after its unit move and no call of the rollback failed |
| `SandboxSagas.ApprovalIsTheSaga` | source/common/innovation-sandbox.ts:590-650 | without faults the transaction is the approval of the life cycle, in every state and on every path |
| `SandboxSagas.UnfreezingIsTheSaga` | source/common/innovation-sandbox.ts:440-519 | without faults the transaction is the unfreezing of the life cycle |
| `SandboxSagas.FreezeOutcome` | source/common/innovation-sandbox.ts:306-314 | freezing for every pattern of faults: what a failure leaves, access being revoked before the transaction and never granted again |
| `SandboxSagas.FreezeRestoresIff` | source/common/innovation-sandbox.ts:306-314 | a failed freezing restores the state iff nobody lost access, no record write failed after its unit move and no call of the rollback failed |
| `SandboxSagas.FreezingIsTheSaga` | source/common/innovation-sandbox.ts:256-330 | without faults the calls are the freezing of the life cycle |
| `SandboxSagas.RegistrationOutcome` | source/common/innovation-sandbox.ts:115-123 | registration for every pattern of faults: exactly what units, records and group access are left as; the rollback fails whenever it has a move to undo |
| `SandboxSagas.RegistrationRollback` | source/common/data/sandbox-account/sandbox-account.ts:35-38 | a failed registration restores the state iff the account was not moved at all |
| `SandboxSagas.RegistrationIsTheSaga` | source/common/innovation-sandbox.ts:90-145 | without faults the transaction is the registration of the life cycle, also when it fails |
| `SandboxSagas.ApprovalReplies` | source/common/innovation-sandbox.ts:601-624 | for every pattern of faults: an approval that succeeds is the faultless one, and its error says RollbackFailed iff the lease cannot be written back or the account cannot be moved back |
| `SandboxSagas.UnfreezingReplies` | source/common/innovation-sandbox.ts:440-519 | the same for unfreezing |
| `SandboxSagas.LeaseUndoIsConditional` | source/common/data/lease/lease-store.ts:27-36 | in any state the rollback of a lease update writes the old item iff the stored one bears the stamp of the new one; else it throws and leaves the lease alone |
| `SandboxSagas.FreezingReplies` | source/common/innovation-sandbox.ts:256-330 | for every pattern of faults: a freezing that succeeds is the faultless one, and its error tells whether revoking, the transaction or its rollback failed |
| `LostEvents.LosingIs` | source/common/innovation-sandbox.ts:209-253 | compared with the same request whose event is delivered: one that fails is the same, one that waits stays unannounced, one that is approved keeps everything but its lease |
| `LostEvents.LosingTheEventIsSafeIff` | source/common/innovation-sandbox.ts:212-226 | when the bus does not take the event of a request, the invariant is lost iff the request was approved at once: its lease is deleted, its account stays in use |
| `LeaseStore.DynamoLeaseStore.Update` | source/common/data/lease/dynamo-lease-store.ts:59-111 | writes under the condition that the item exists and, if an expected item is given, that its edit stamp is still stored |
| `LeaseStore.DynamoLeaseStore.Create` | source/common/data/lease/dynamo-lease-store.ts:113-131 | writes only if the item does not exist |
| `LeaseStore.DynamoLeaseStore.Delete` | source/common/data/lease/dynamo-lease-store.ts:144-154 | removes the item and returns it |
| `LeaseStore.DynamoLeaseStore.UpdateAndRollBack` | source/common/data/lease/lease-store.ts:27-36 | an unconditional update, any other writes, and the old item written under the condition on the new item's stamp |
| `LeaseStore.UpdateOutcome` | source/common/data/lease/dynamo-lease-store.ts:59-111 | an update is written iff the item is there and bears the expected stamp, if one is expected; each refusal's error, and that a missing item cannot be told from a changed one |
| `LeaseStore.WithUpdatedMetadata` | source/common/data/metadata.ts:84-98 | changes nothing but the metadata, stamps the edit time, and keeps a creation time that is there |
| `LeaseStore.RollbackRestoresOrRefuses` | source/common/data/lease/lease-store.ts:27-36 | for any history of writes with advancing times: the rollback succeeds iff none of them reached the lease, then restores every field but the stamp; otherwise the others' table stands |
| `LeaseStore.RollbackOverwritesExactlyEqualStamps` | source/common/data/lease/lease-store.ts:27-36 | for any other writes at any times: the rollback succeeds iff the last one that reached the lease did not delete it and bears the time of the update; what it stored is lost then |
| `DriftMonitoring.AccountDriftMonitor.DiscoverAllAccountsInOUs` | source/lambdas/account-management/account-drift-monitoring/src/account-drift-monitoring-handler.ts:178-186 | finds every account with its unit |
| `DriftMonitoring.AccountDriftMonitor.DetectDriftStatus` | source/lambdas/account-management/account-drift-monitoring/src/account-drift-monitoring-handler.ts:143-176 | each tracked account lands in exactly one of the two lists, untracked is exactly what the table lacks |
| `DriftMonitoring.AccountDriftMonitor.DoAccountDriftMonitoring` | source/lambdas/account-management/account-drift-monitoring/src/account-drift-monitoring-handler.ts:41-141 | raises exactly the alerts of the scanned state and stores, for every tracked account, whether it drifted |
| `DriftMonitoring.AlertsAre` | source/lambdas/account-management/account-drift-monitoring/src/account-drift-monitoring-handler.ts:56-141 | an account is alerted iff table and unit disagree about it and, if it is tracked, they already did at the last scan; the alert tells what the table and the units say |
| `DriftMonitoring.ScanRecords` | source/lambdas/account-management/account-drift-monitoring/src/account-drift-monitoring-handler.ts:56-113 | a scan writes into each record whether its account is in its unit, and changes nothing else |
| `DriftMonitoring.NoFalseAlarms` | source/lambdas/account-management/account-drift-monitoring/src/account-drift-monitoring-handler.ts:41-141 | in a closed run no scan ever raises an alert |
| `DriftMonitoring.AlertNeedsTwoScans` | source/lambdas/account-management/account-drift-monitoring/src/account-drift-monitoring-handler.ts:56-113 | whatever happens between two scans, an account that stays tracked is alerted iff it drifts at both |
| `DriftMonitoring.HandlingIsLocal` | source/lambdas/account-management/account-lifecycle-management/src/account-lifecycle-manager.ts:331-368 | handling an alert changes neither unit nor record, lease or access of another account |
| `DriftMonitoring.HandlingResolves` | source/lambdas/account-management/account-lifecycle-management/src/account-lifecycle-manager.ts:331-368 | handling an alert settles the account iff it can be moved and its leases can be ended; a settled one stays settled |
| `DriftMonitoring.AccountAfterHandling` | source/lambdas/account-management/account-lifecycle-management/src/account-lifecycle-manager.ts:331-368 | the same for any list of alerts, in any order and with repetitions |
| `DriftMonitoring.Convergence` | source/lambdas/account-management/account-drift-monitoring/src/account-drift-monitoring-handler.ts:41-186 | from any disagreement, two scans with all alerts handled settle every account iff none was stuck |
| `CostExplorer.AccountsCostReport.AddCost` | source/common/isb-services/cost-explorer-service.ts:26-32 | adds to one account and leaves the others, also where the stored cost is missing or zero |
| `CostExplorer.AccountsCostReport.Merge` | source/common/isb-services/cost-explorer-service.ts:36-40 | adds up two reports account by account |
| `CostExplorer.CostExplorerService.AccumulateCostForResult` | source/common/isb-services/cost-explorer-service.ts:316-344 | adds the period's cost to exactly the accounts that had started by then |
| `CostExplorer.CostExplorerService.GetCostByGranularityForLeases` | source/common/isb-services/cost-explorer-service.ts:253-291 | reports the plain sum of each account's costs from its own start, and when it refuses |
| `CostExplorer.CostExplorerService.GetCostForLeasesDaily` | source/common/isb-services/cost-explorer-service.ts:240-251 | each account's sum of daily costs from its start day through the day of end |
| `CostExplorer.CostExplorerService.GetCostForLeasesHourly` | source/common/isb-services/cost-explorer-service.ts:209-238 | hours in windows under a day, otherwise days and then hours; fails exactly for an end within the first second of its day |
| `CostExplorer.CostExplorerService.GetCostForLeases` | source/common/isb-services/cost-explorer-service.ts:172-207 | daily totals are plain sums for any batch size and any order of ties; hourly mode fails iff the end is in the first second of its day and some account started a day before; no request trips the 14-day guard or exceeds the batch size |
| `CostExplorer.HourlyTotalIsOneRange` | source/common/isb-services/cost-explorer-service.ts:209-238 | the daily and the hourly window are adjacent and disjoint, to the hour: the total is a sum over one range of hours |
| `CostExplorer.HourlyTotalIsBetween` | source/common/isb-services/cost-explorer-service.ts:209-238 | hourly mode reports between the hour-exact and the day-rounded cost |
| `CostExplorer.DaysAreHours` | source/common/isb-services/cost-explorer-service.ts:209-238 | a sum over whole days is the sum over their hours |
| `LeaseMonitoring.DetectNewlyBreachedBudgetThresholds` | source/lambdas/account-management/lease-monitoring/src/lease-monitoring-handler.ts:319-335 | finds the newly breached budget thresholds, in order |
| `LeaseMonitoring.DetectNewlyBreachedDurationThresholds` | source/lambdas/account-management/lease-monitoring/src/lease-monitoring-handler.ts:337-366 | finds the newly breached duration thresholds, none without an expiration date |
| `LeaseMonitoring.GetLargestBudgetThreshold` | source/lambdas/account-management/lease-monitoring/src/lease-monitoring-handler.ts:368-373 | the last of the thresholds of the highest amount |
| `LeaseMonitoring.GetLatestDurationThreshold` | source/lambdas/account-management/lease-monitoring/src/lease-monitoring-handler.ts:375-380 | the last of the thresholds with the least time remaining |
| `LeaseMonitoring.DetermineLeaseEvents` | source/lambdas/account-management/lease-monitoring/src/lease-monitoring-handler.ts:119-297 | raises exactly the events to report, each once |
| `LeaseMonitoring.LeaseMonitor.PerformAccountMonitoringScan` | source/lambdas/account-management/lease-monitoring/src/lease-monitoring-handler.ts:87-114 | raises exactly the events of the monitored leases as scanned, and writes back cost and time of those and no others |
| `LeaseMonitoring.EndIsReported` | source/lambdas/account-management/lease-monitoring/src/lease-monitoring-handler.ts:119-185 | a scan reports a lease at or above its maxSpend, or else one whose expirationDate is earlier than now, and then nothing but that; it reports neither iff the lease is within both |
| `LeaseMonitoring.ExpiryIsReported` | source/lambdas/account-management/lease-monitoring/src/lease-monitoring-handler.ts:299-307 | with advancing time and no breach of the budget, the expiry is reported by exactly the scans later than the expiration date |
| `LeaseMonitoring.AlertsAre` | source/lambdas/account-management/lease-monitoring/src/lease-monitoring-handler.ts:186-297 | all that a scan reports of a lease within its terms: an alert for the last of the highest budget thresholds just crossed and for the last of the nearest duration thresholds just passed, unless that one freezes, with the duration to the nearest hour; and one freeze request, for the first crossed budget threshold that asks for it, else the first duration threshold |
| `LeaseMonitoring.CrossedBudgetIsFound` | source/lambdas/account-management/lease-monitoring/src/lease-monitoring-handler.ts:319-335 | a budget threshold that ends up crossed was found by some scan, whatever the cost did in between |
| `LeaseMonitoring.BudgetThresholdFoundOnce` | source/lambdas/account-management/lease-monitoring/src/lease-monitoring-handler.ts:319-335 | while the cost never falls, a threshold is found by exactly one scan iff it ends up crossed, else by none |
| `LeaseMonitoring.DurationThresholdFoundOnce` | source/lambdas/account-management/lease-monitoring/src/lease-monitoring-handler.ts:337-366 | the same for the date of a duration threshold |
| `LeaseMonitoring.SkippedScansLoseNothing` | source/lambdas/account-management/lease-monitoring/src/lease-monitoring-handler.ts:319-366 | fewer or more scans find the same thresholds in the end |
| `LeaseMonitoring.FreezeRequestedIff` | source/lambdas/account-management/lease-monitoring/src/lease-monitoring-handler.ts:186-234 | a scan requests a freeze iff it finds a freezing threshold of a lease neither over budget nor expired |
| `LeaseMonitoring.FreezeIsRequested` | source/lambdas/account-management/lease-monitoring/src/lease-monitoring-handler.ts:186-234 | a lease that stays within budget and time gets a freeze request in some scan iff it crosses a freezing threshold |
| `AccountCleaner.RunBuilds` | source/infrastructure/lib/components/account-cleaner/step-function.ts:148-297 | ends at the first moment when enough builds in a row succeeded or enough failed in all, within failures times successes builds, with the event that says which |
| `AccountCleaner.EndsWhenConfigured` | source/infrastructure/lib/components/account-cleaner/step-function.ts:148-297 | the end is the first build after which the configured number of builds in a row have succeeded or the configured number in all have failed; a number below one counts as one |
| `AccountCleaner.Execute` | source/infrastructure/lib/components/account-cleaner/step-function.ts:279-306 | one event per claimed execution, a failure event if initialization fails, none if a clean-up is in progress |
| `AccountCleaner.LimitIsReached` | source/infrastructure/lib/components/account-cleaner/step-function.ts:148-297 | for every configuration there are builds that take the clean-up to that limit |
| `InitializeCleanup.CleanupInitializer.InitializeCleanup` | source/lambdas/account-cleanup/initialize-cleanup/src/initialize-cleanup-handler.ts:42-100 | claims the account unless the execution named in its record still runs |
| `InitializeCleanup.AnswerIs` | source/lambdas/account-cleanup/initialize-cleanup/src/initialize-cleanup-handler.ts:42-100 | in every run, each answer exactly: AdministrationAccount iff it is one, AccountNotFound iff it is untracked besides, AlreadyInProgress iff the record names an execution that works on the account and tells its start, Claimed iff there is none |
| `InitializeCleanup.OneExecutionWorks` | source/lambdas/account-cleanup/initialize-cleanup/src/initialize-cleanup-handler.ts:73-99 | at most one execution works on an account in every run that does not delete a record under a running execution |
| `InitializeCleanup.ClaimedIffNobodyWorks` | source/lambdas/account-cleanup/initialize-cleanup/src/initialize-cleanup-handler.ts:73-99 | in such runs a request is granted iff the account is tracked, may be cleaned and nobody works on it |
| `InitializeCleanup.ClaimedIffNoneRemembered` | source/lambdas/account-cleanup/initialize-cleanup/src/initialize-cleanup-handler.ts:73-132 | in every run a request is granted iff the record names none of the executions that work on the account |
| `InitializeCleanup.DeletionLetsTwoWork` | source/lambdas/account-cleanup/initialize-cleanup/src/initialize-cleanup-handler.ts:69-99 | deleting and registering an account again under a running execution lets a second one work on it |
| `EmailService.NotificationService.SendEmail` | source/common/isb-services/notification/email-service.ts:374-395 | for any list and any answers: at most 2n-1 sends for n recipients; unless one fails fatally everyone is delivered to or logged once; bad addresses are exactly the ones logged; a list of up to 2^k recipients is cut at most k times; when an answer depends on the list only, it finishes exactly when `Finishes` says so; an empty list that always fails is cut for ever |
| `EmailService.NotificationService.RetryBisectSendEmail` | source/common/isb-services/notification/email-service.ts:421-444 | the same for a list that is cut in half, empty or not, with at most 2n-2 further sends |
| `EmailService.FinishesUnlessEmptyFails` | source/common/isb-services/notification/email-service.ts:382-444 | cutting ends, whatever fails, iff the list is nonempty or sending to nobody succeeds |
| `Pagination.ParseResults` | source/common/data/utils.ts:111-136 | the valid records in order; together with the invalid ones they are all |
| `Pagination.Collect` | source/common/data/utils.ts:13-47 | for any query: the valid records of the pages read, or the first maxCount of them; it ends exactly at a page without a next one or with enough records, and reads no further page |
| `Pagination.CollectsChain` | source/common/data/utils.ts:13-47 | if the pages end, all their valid records are collected, or the first maxCount of them, however the records are spread over pages |
| `Pagination.CountOpenLeases` | source/common/innovation-sandbox.ts:173-183 | the count behind the lease limit is the number of the user's open leases, however the query is paged |
| `IdcCache.Cache.GetCachedObjects` | source/common/isb-services/idc-cache.ts:35-55 | a hit is the page last stored for that kind and key since the last clear, at most five minutes old |
| `IdcCache.Cache.CacheObjects` | source/common/isb-services/idc-cache.ts:57-67 | stores in the dictionary of its kind only |
| `IdcCache.Cache.ClearCache` | source/common/isb-services/idc-cache.ts:102-106 | empties all three dictionaries |
| `IdcCache.LastStoredIs` | source/common/isb-services/idc-cache.ts:57-106 | the last stored page is the one of the last storing under that kind and key, if nothing was cleared since |
| `IdcCache.HeldIsLastStored` | source/common/isb-services/idc-cache.ts:35-67 | the dictionaries never hold a stale or foreign page, and those of managers and admins lack none |
| `IdcCache.MissesIffCrossEvicted` | source/common/isb-services/idc-cache.ts:43-46 | against an ideal cache a lookup misses only for users, iff an expired page of another kind was looked up under the same key since |

## Left out

- Lifecycle.RunSafety: closed runs only, in which nobody moves accounts from outside, the identity store resolves every lease's user and operations are atomic; outside moves are in `DriftMonitoring`, interleaving and faults in `ConcurrentApprovals` and `SandboxSagas`.
- LifecycleRuns.CleanUpWasRequested: an admin's repeated request or a lost event is not counted; the events sent are those handed to the event bus.
- ConcurrentApprovals.ApprovalsAreExclusive: the runs approve distinct leases and other writers leave these leases alone, because the lease updates of an approval are unconditional.
- DriftMonitoring.Convergence: nothing else acts during the two rounds, and a scan is atomic although the handler writes its flags at its end.
- DriftMonitoring.AlertNeedsTwoScans: an account registered again in between is excluded, since its new record carries no flag.
- LeaseMonitoring.LeaseMonitor.PerformAccountMonitoringScan: a scan is atomic although the handler writes its snapshot back after sending the events; the stamp of each write is left to the caller.
- EmailService.NotificationService.SendEmail: the recursion is cut off at a given depth, so that the method ends; a list of up to 2^k recipients is done within depth k + 1.
- EmailService.NotificationService.SendEmail: an e-mail has one kind of recipients, as its type demands; one with both is not modelled.
- CostExplorer.CostExplorerService.GetCostForLeases: costs are exact reals; that Cost Explorer refuses a period that does not start before it ends, and that an hourly request is answered with the hours its period touches, are assumptions about the service; a failing call, monthly granularity and `getCostForRange` are not modelled.
- CostExplorer.CostExplorerService.GetCostForLeasesHourly: the same assumptions about the service.
- CostExplorer.HourlyTotalIsOneRange: the same assumptions about the service.
- CostExplorer.SortByStart: the comparator of the source is inconsistent on ties; any order of equal starts is allowed instead.
- AccountCleaner.RunBuilds: the time limit of the state machine and the waits between builds.
- InitializeCleanup.CleanupInitializer.InitializeCleanup: reading and claiming are one step; two initializations of one account that overlap are not modelled.
- Pagination.Collect: reading is cut off after a given number of pages, so that the method ends; of the error of a page only the number of invalid records is kept.
- SandboxSagas.LeaseMoveGrantOutcome: a call that fails has no effect; a call that takes effect and whose answer is lost is not modelled, nor are other writers of the lease while the transaction runs.
- SandboxSagas.FreezeOutcome: calls fail without effect here as well; a failure to list the assignments counts as one before the first deletion.
- LostEvents.LosingTheEventIsSafeIff: the loss of the events of other operations is not modelled.
- Transactions.FailureResidue: the leaves count on an integer, because what a rollback does in a state it was not written for is each leaf's own business; `Transactions.AtomicExactlyWithoutDeepSteps` is about all exactly inverting leaves.
- InnovationSandbox.Sandbox.RegisterAccount: calls fail here only for reasons of state; faults of the remote calls are in `SandboxSagas`, `ConcurrentApprovals` and `LostEvents`.
- InnovationSandbox.Sandbox.AcquireAvailableAccount: the random choice is any number.
- Metadata of account records, and the time to live of denied and expired leases (their removal by the database), which no modelled operation reads.
- A missing `driftAtLastScan` counts as false.
- AWS clients, event delivery, retries with back-off, throttling, tracing and logging.
- Schemas beyond the validity of a record and the storable statuses, JSON and tokens, the front end, e-mail texts, cost report groups, lease templates' own life cycle.
