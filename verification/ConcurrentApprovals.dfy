/**
  Any number of approvals at once, interleaved action by action. `moveAccount` is split into the move between
  organizational units and the write of the account record; every remote call may fail, also those of a rollback.

  Nothing is assumed of the account table: the environment may rewrite it at any time. What keeps two leases off the same
  account is that Organizations moves an account only out of the unit it is in.
 */
module ConcurrentApprovals {
  import opened Domain
  import opened SandboxState
  import LeaseStore
  import SandboxSagas
  import Transactions

  /** Where a run of `approveLease` stands. `put` is what the lease update returned. */
  datatype Stage =
    | Started
    | Picked(a: AccountId, record: AccountRecord)
    | LeaseWritten(a: AccountId, record: AccountRecord, put: LeaseStore.PutResult)
    | OuMoved(a: AccountId, record: AccountRecord, put: LeaseStore.PutResult)
    | RecordPut(a: AccountId, record: AccountRecord, put: LeaseStore.PutResult)
    | Succeeded(a: AccountId)
    | UndoingOu(a: AccountId, record: AccountRecord, put: LeaseStore.PutResult)
    | UndoingPut(a: AccountId, record: AccountRecord, put: LeaseStore.PutResult)
    | UndoingLease(put: LeaseStore.PutResult, undoneSoFar: bool)
    | Failed(rolledBack: bool)

  /** A run and the lease it was called with. */
  datatype Run = Run(key: LeaseKey, lease: Lease, approver: string, stage: Stage)

  datatype World = World(shared: State, runs: map<nat, Run>)

  datatype Action =
    | Advance(run: nat, pick: AccountId, fault: bool)
    | OthersPutRecords(accounts: map<AccountId, AccountRecord>)
    | OthersMove(a: AccountId, to: Ou)
    | OthersWriteLease(key: LeaseKey, lease: Lease)

  /** The next action of a run. `pick` is the account that the random choice hits, `fault` lets the remote call fail. */
  function NextStage(s: State, run: Run, pick: AccountId, fault: bool): (State, Stage) {
    var k := run.key;
    match run.stage
    case Started =>
      if fault || !IsAvailable(s, pick) || k.userEmail !in s.directory then (s, Failed(true))
      else (s, Picked(pick, s.accounts[pick]))
    case Picked(a, record) =>
      var approved := ApprovedLease(run.lease, run.approver, a, s.clock);
      var (w, table) := LeaseStore.UpdateSpec(s.leases, k, approved, None, s.clock);
      if fault then (s, Failed(true))
      else if w.Refused? then (Tick(s), Failed(true))
      else (s.(leases := table, clock := s.clock + 1), LeaseWritten(a, record, w.put))
    case LeaseWritten(a, record, put) =>
      if fault || !CanMove(s, a, Ou.Available, Ou.Active) then (s, UndoingLease(put, true))
      else (MoveOu(s, a, Ou.Active), OuMoved(a, record, put))
    case OuMoved(a, record, put) =>
      if fault then (s, UndoingLease(put, true))
      else (s.(accounts := s.accounts[a := record.(status := Ou.Active)]), RecordPut(a, record, put))
    case RecordPut(a, record, put) =>
      if fault then (s, UndoingOu(a, record, put))
      else (s.(grants := s.grants + {(a, k.userEmail)}), Succeeded(a))
    case UndoingOu(a, record, put) =>
      if fault || !CanMove(s, a, Ou.Active, Ou.Available) then (s, UndoingLease(put, false))
      else (MoveOu(s, a, Ou.Available), UndoingPut(a, record, put))
    case UndoingPut(a, record, put) =>
      if fault then (s, UndoingLease(put, false))
      else (s.(accounts := s.accounts[a := record.(status := Ou.Available)]), UndoingLease(put, true))
    case UndoingLease(put, undoneSoFar) =>
      var (w, table) := LeaseStore.UpdateSpec(s.leases, k, put.oldItem, Some(put.newItem), s.clock);
      if fault then (s, Failed(false))
      else if w.Refused? then (Tick(s), Failed(false))
      else (s.(leases := table, clock := s.clock + 1), Failed(undoneSoFar))
    case _ => (s, run.stage)
  }

  ghost predicate Next(g: World, act: Action, h: World) {
    match act
    case Advance(p, pick, fault) =>
      && p in g.runs
      && var (shared, stage) := NextStage(g.shared, g.runs[p], pick, fault);
         h == World(shared, g.runs[p := g.runs[p].(stage := stage)])
    case OthersPutRecords(accounts) => h == g.(shared := g.shared.(accounts := accounts))
    case OthersMove(a, to) =>
      // other operations: they neither touch nor create accounts in use here, and offer only accounts without access
      && (a in g.shared.ou ==> g.shared.ou[a] != Ou.Active) && to != Ou.Active
      && (forall u :: (a, u) !in g.shared.grants)
      && h == g.(shared := MoveOu(g.shared, a, to))
    case OthersWriteLease(k, lease) =>
      && (forall p :: p in g.runs ==> g.runs[p].key != k)
      && h == g.(shared := g.shared.(leases := g.shared.leases[k := lease]))
  }

  /** Approvals of distinct pending leases, about to start; nobody has access to an account that is available. */
  ghost predicate Start(g: World) {
    && (forall p :: p in g.runs ==>
          && g.runs[p].stage.Started?
          && g.runs[p].key in g.shared.leases
          && g.shared.leases[g.runs[p].key] == g.runs[p].lease
          && g.runs[p].lease.status.PendingApproval?)
    && (forall p, q :: p in g.runs && q in g.runs && p != q ==> g.runs[p].key != g.runs[q].key)
    && (forall a, u :: InOu(g.shared, a, Ou.Available) ==> (a, u) !in g.shared.grants)
  }

  // ----- The invariant -----

  /** The run has moved the account into the Active unit and not moved it back. */
  predicate Holds(run: Run, a: AccountId) {
    match run.stage
    case OuMoved(b, _, _) => a == b
    case RecordPut(b, _, _) => a == b
    case Succeeded(b) => a == b
    case UndoingOu(b, _, _) => a == b
    case _ => false
  }

  /** What the run knows of its own lease: it is the only writer. */
  ghost predicate LeaseIs(s: State, run: Run) {
    && run.key in s.leases
    && var stored := s.leases[run.key];
       match run.stage {
         case Started => stored == run.lease
         case Picked(_, _) => stored == run.lease
         case LeaseWritten(a, _, put) => Wrote(run, put, stored) && Names(stored, a)
         case OuMoved(a, _, put) => Wrote(run, put, stored) && Names(stored, a)
         case RecordPut(a, _, put) => Wrote(run, put, stored) && Names(stored, a)
         case Succeeded(a) => Names(stored, a)
         case UndoingOu(_, _, put) => Wrote(run, put, stored)
         case UndoingPut(_, _, put) => Wrote(run, put, stored)
         case UndoingLease(put, _) => Wrote(run, put, stored)
         case Failed(rolledBack) => rolledBack ==> LeaseStore.SameContent(stored, run.lease)
       }
  }

  ghost predicate Wrote(run: Run, put: LeaseStore.PutResult, stored: Lease) {
    put.oldItem == run.lease && put.newItem == stored && LeaseStore.EditTime(stored).Some?
  }

  predicate Names(lease: Lease, a: AccountId) {
    lease.status.Active? && lease.awsAccountId == Some(a)
  }

  ghost predicate RunInv(s: State, run: Run) {
    && LeaseIs(s, run)
    && run.lease.status.PendingApproval?
    && (forall a :: Holds(run, a) ==> InOu(s, a, Ou.Active))
    && (forall a, u :: Holds(run, a) ==> ((a, u) in s.grants <==> run.stage.Succeeded? && u == run.key.userEmail))
  }

  ghost predicate Inv(g: World) {
    && (forall p :: p in g.runs ==> RunInv(g.shared, g.runs[p]))
    && (forall p, q :: p in g.runs && q in g.runs && p != q ==> g.runs[p].key != g.runs[q].key)
    && (forall p, q, a :: p in g.runs && q in g.runs && Holds(g.runs[p], a) && Holds(g.runs[q], a) ==> p == q)
    && (forall a, u :: InOu(g.shared, a, Ou.Available) ==> (a, u) !in g.shared.grants)
  }

  /** A run that takes no part in a step keeps its facts when its lease and the accounts it holds are left alone. */
  lemma BystanderKeeps(s: State, t: State, run: Run)
    requires RunInv(s, run)
    requires run.key in t.leases && t.leases[run.key] == s.leases[run.key]
    requires forall a :: Holds(run, a) ==> InOu(t, a, Ou.Active)
    requires forall a, u :: Holds(run, a) ==> ((a, u) in t.grants <==> (a, u) in s.grants)
    ensures RunInv(t, run)
  {
  }

  lemma AdvancedRunKeepsLease(s: State, run: Run, pick: AccountId, fault: bool)
    requires RunInv(s, run)
    ensures var (t, stage) := NextStage(s, run, pick, fault);
            LeaseIs(t, run.(stage := stage))
  {
  }

  lemma AdvancedRunKeeps(s: State, run: Run, pick: AccountId, fault: bool)
    requires RunInv(s, run)
    requires forall a, u :: InOu(s, a, Ou.Available) ==> (a, u) !in s.grants
    ensures var (t, stage) := NextStage(s, run, pick, fault);
            RunInv(t, run.(stage := stage))
  {
    AdvancedRunKeepsLease(s, run, pick, fault);
    hide LeaseIs, LeaseStore.UpdateSpec;
    var (t, stage) := NextStage(s, run, pick, fault);
    forall a | Holds(run.(stage := stage), a)
      ensures InOu(t, a, Ou.Active)
      ensures forall u :: (a, u) in t.grants <==> stage.Succeeded? && u == run.key.userEmail
    {
      assert Holds(run, a) || InOu(s, a, Ou.Available);
    }
  }

  lemma AdvanceWritesItsLease(s: State, run: Run, pick: AccountId, fault: bool)
    ensures var (t, stage) := NextStage(s, run, pick, fault);
            forall k :: k != run.key && k in s.leases ==> k in t.leases && t.leases[k] == s.leases[k]
  {
    hide LeaseStore.WithUpdatedMetadata;
  }

  /** What a step may change for the others: its own lease, the account it holds, or one that was available. */
  lemma AdvanceTouchesItsOwn(s: State, run: Run, pick: AccountId, fault: bool)
    requires RunInv(s, run)
    requires forall a, u :: InOu(s, a, Ou.Available) ==> (a, u) !in s.grants
    ensures var (t, stage) := NextStage(s, run, pick, fault);
            && (forall k :: k != run.key && k in s.leases ==> k in t.leases && t.leases[k] == s.leases[k])
            && (forall a :: InOu(s, a, Ou.Active) && !Holds(run, a) ==> InOu(t, a, Ou.Active))
            && (forall a, u :: InOu(s, a, Ou.Active) && !Holds(run, a) ==> ((a, u) in t.grants <==> (a, u) in s.grants))
            && (forall a :: Holds(run.(stage := stage), a) ==> Holds(run, a) || InOu(s, a, Ou.Available))
            && (forall a, u :: InOu(t, a, Ou.Available) ==> (a, u) !in t.grants)
  {
    AdvanceWritesItsLease(s, run, pick, fault);
    hide LeaseStore.UpdateSpec, LeaseIs;
  }

  /** The run that advances does not come to hold what another one holds. */
  lemma AdvanceStaysExclusive(g: World, act: Action, h: World)
    requires Inv(g) && Next(g, act, h) && act.Advance?
    ensures forall q, a :: q in h.runs && Holds(h.runs[q], a) && q != act.run ==> !Holds(h.runs[act.run], a)
  {
    AdvanceTouchesItsOwn(g.shared, g.runs[act.run], act.pick, act.fault);
    hide NextStage, RunInv;
    forall q, a | q in h.runs && Holds(h.runs[q], a) && q != act.run
      ensures !Holds(h.runs[act.run], a)
    {
      assert RunInv(g.shared, g.runs[q]);
      HeldIsActive(g.shared, g.runs[q]);
    }
  }

  lemma AdvanceKeepsRuns(g: World, act: Action, h: World, q: nat)
    requires Inv(g) && Next(g, act, h) && act.Advance? && q in h.runs
    ensures RunInv(h.shared, h.runs[q])
  {
    var p, pick, fault := act.run, act.pick, act.fault;
    if q == p {
      AdvancedRunKeeps(g.shared, g.runs[p], pick, fault);
    } else {
      AdvanceTouchesItsOwn(g.shared, g.runs[p], pick, fault);
      assert RunInv(g.shared, g.runs[q]);
      HeldIsActive(g.shared, g.runs[q]);
      hide NextStage, RunInv;
      BystanderKeeps(g.shared, h.shared, g.runs[q]);
    }
  }

  lemma AdvanceKeepsInv(g: World, act: Action, h: World)
    requires Inv(g) && Next(g, act, h) && act.Advance?
    ensures Inv(h)
  {
    hide NextStage, RunInv, Holds;
    AdvanceTouchesItsOwn(g.shared, g.runs[act.run], act.pick, act.fault);
    AdvanceStaysExclusive(g, act, h);
    forall q | q in h.runs
      ensures RunInv(h.shared, h.runs[q])
    {
      AdvanceKeepsRuns(g, act, h, q);
    }
  }

  lemma NextKeepsInv(g: World, act: Action, h: World)
    requires Inv(g) && Next(g, act, h)
    ensures Inv(h)
  {
    if act.Advance? {
      AdvanceKeepsInv(g, act, h);
    } else {
      hide LeaseIs;
      forall q | q in h.runs
        ensures RunInv(h.shared, h.runs[q])
      {
        assert RunInv(g.shared, g.runs[q]);
        HeldIsActive(g.shared, g.runs[q]);
        BystanderKeeps(g.shared, h.shared, g.runs[q]);
      }
    }
  }

  lemma HeldIsActive(s: State, run: Run)
    requires RunInv(s, run)
    ensures run.key in s.leases
    ensures forall a :: Holds(run, a) ==> InOu(s, a, Ou.Active)
  {
  }

  // ----- Executions -----

  ghost predicate IsExecution(worlds: seq<World>, acts: seq<Action>) {
    && |worlds| == |acts| + 1
    && Start(worlds[0])
    && forall i :: 0 <= i < |acts| ==> Next(worlds[i], acts[i], worlds[i + 1])
  }

  lemma StartInv(g: World)
    requires Start(g)
    ensures Inv(g)
  {
    forall p | p in g.runs
      ensures RunInv(g.shared, g.runs[p])
    {
    }
  }

  lemma {:induction false} ExecutionsKeepInv(worlds: seq<World>, acts: seq<Action>, i: nat)
    requires IsExecution(worlds, acts) && i <= |acts|
    ensures Inv(worlds[i])
  {
    hide Inv, Next, Start;
    if i == 0 {
      StartInv(worlds[0]);
    } else {
      ExecutionsKeepInv(worlds, acts, i - 1);
      NextKeepsInv(worlds[i - 1], acts[i - 1], worlds[i]);
    }
  }

  /**
    Exclusive approval, under every interleaving and every pattern of faults. The runs that have succeeded hold pairwise
    distinct accounts; each of these is in the Active unit, its lease is active and names it, and exactly the user of
    the lease has access. A run that was rolled back has left its lease pending, with the content it was called with.
   */
  lemma ApprovalsAreExclusive(worlds: seq<World>, acts: seq<Action>, i: nat)
    requires IsExecution(worlds, acts) && i <= |acts|
    ensures var g := worlds[i];
            && (forall p, q :: && p in g.runs && q in g.runs && p != q
                               && g.runs[p].stage.Succeeded? && g.runs[q].stage.Succeeded?
                               ==> g.runs[p].stage.a != g.runs[q].stage.a)
            && (forall p :: p in g.runs && g.runs[p].stage.Succeeded? ==>
                  var k, a := g.runs[p].key, g.runs[p].stage.a;
                  && InOu(g.shared, a, Ou.Active)
                  && k in g.shared.leases && Names(g.shared.leases[k], a)
                  && forall u :: (a, u) in g.shared.grants <==> u == k.userEmail)
            && (forall p :: p in g.runs && g.runs[p].stage == Failed(true) ==>
                  && g.runs[p].key in g.shared.leases
                  && g.shared.leases[g.runs[p].key].status.PendingApproval?
                  && LeaseStore.SameContent(g.shared.leases[g.runs[p].key], g.runs[p].lease))
  {
    ExecutionsKeepInv(worlds, acts, i);
    var g := worlds[i];
    forall p | p in g.runs
      ensures RunInv(g.shared, g.runs[p])
      ensures g.runs[p].stage.Succeeded? ==> Holds(g.runs[p], g.runs[p].stage.a)
    {
    }
  }

  // ----- No account is lost -----

  /** The fault hits a run between its unit move and the write of the record, or when it moves the account back. */
  predicate StrandsAccount(run: Run, fault: bool) {
    fault && (run.stage.OuMoved? || run.stage.UndoingOu?)
  }

  /** A run lets go of an account that stays in the Active unit exactly at such a fault. */
  lemma StrandsIff(s: State, run: Run, pick: AccountId, fault: bool, a: AccountId)
    requires RunInv(s, run) && Holds(run, a)
    ensures var (t, stage) := NextStage(s, run, pick, fault);
            InOu(t, a, Ou.Active) && !Holds(run.(stage := stage), a) <==> StrandsAccount(run, fault)
  {
    hide LeaseIs, LeaseStore.UpdateSpec;
  }

  /** Every account in the Active unit was there from the start, or a run holds it. */
  ghost predicate NoneStranded(start: World, g: World) {
    forall a :: InOu(g.shared, a, Ou.Active) ==>
      InOu(start.shared, a, Ou.Active) || exists p :: p in g.runs && Holds(g.runs[p], a)
  }

  /** A run brings no account into the Active unit but the one that it holds then. */
  lemma ComesToActiveHeld(s: State, run: Run, pick: AccountId, fault: bool, a: AccountId)
    requires !InOu(s, a, Ou.Active)
    ensures var (t, stage) := NextStage(s, run, pick, fault);
            InOu(t, a, Ou.Active) ==> Holds(run.(stage := stage), a)
  {
    hide LeaseStore.UpdateSpec;
  }

  lemma NextKeepsNoneStranded(start: World, g: World, act: Action, h: World)
    requires Inv(g) && Next(g, act, h) && NoneStranded(start, g)
    requires act.Advance? ==> !StrandsAccount(g.runs[act.run], act.fault)
    ensures NoneStranded(start, h)
  {
    hide NextStage, RunInv, StrandsAccount;
    forall a | InOu(h.shared, a, Ou.Active) && !InOu(start.shared, a, Ou.Active)
      ensures exists p :: p in h.runs && Holds(h.runs[p], a)
    {
      if !InOu(g.shared, a, Ou.Active) {
        ComesToActiveHeld(g.shared, g.runs[act.run], act.pick, act.fault, a);
        assert act.run in h.runs && Holds(h.runs[act.run], a);
      } else {
        var p :| p in g.runs && Holds(g.runs[p], a);
        if act.Advance? && p == act.run {
          StrandsIff(g.shared, g.runs[p], act.pick, act.fault, a);
        }
        assert p in h.runs && Holds(h.runs[p], a);
      }
    }
  }

  /**
    Unless some run is hit by such a fault, no account is lost: in every world each account that came into the Active
    unit is held by a run, and when all runs have ended, by one that succeeded.
   */
  lemma {:induction false} NoAccountIsStranded(worlds: seq<World>, acts: seq<Action>, i: nat)
    requires IsExecution(worlds, acts) && i <= |acts|
    requires forall j :: 0 <= j < i && acts[j].Advance? ==>
               acts[j].run in worlds[j].runs && !StrandsAccount(worlds[j].runs[acts[j].run], acts[j].fault)
    ensures NoneStranded(worlds[0], worlds[i])
    ensures (forall p :: p in worlds[i].runs ==>
               worlds[i].runs[p].stage.Succeeded? || worlds[i].runs[p].stage.Failed?) ==>
              forall a :: InOu(worlds[i].shared, a, Ou.Active) ==>
                || InOu(worlds[0].shared, a, Ou.Active)
                || exists p :: p in worlds[i].runs && worlds[i].runs[p].stage == Succeeded(a)
  {
    if i > 0 {
      hide Inv, Next, StrandsAccount, NoneStranded;
      NoAccountIsStranded(worlds, acts, i - 1);
      ExecutionsKeepInv(worlds, acts, i - 1);
      NextKeepsNoneStranded(worlds[0], worlds[i - 1], acts[i - 1], worlds[i]);
    }
    if forall p :: p in worlds[i].runs ==> worlds[i].runs[p].stage.Succeeded? || worlds[i].runs[p].stage.Failed? {
      HeldWhenEnded(worlds[0], worlds[i]);
    }
  }

  lemma HeldWhenEnded(start: World, g: World)
    requires NoneStranded(start, g)
    requires forall p :: p in g.runs ==> g.runs[p].stage.Succeeded? || g.runs[p].stage.Failed?
    ensures forall a :: InOu(g.shared, a, Ou.Active) ==>
              InOu(start.shared, a, Ou.Active) || exists p :: p in g.runs && g.runs[p].stage == Succeeded(a)
  {
    forall a | InOu(g.shared, a, Ou.Active) && !InOu(start.shared, a, Ou.Active)
      ensures exists p :: p in g.runs && g.runs[p].stage == Succeeded(a)
    {
      var p :| p in g.runs && Holds(g.runs[p], a);
      assert g.runs[p].stage == Succeeded(a);
    }
  }

  // ----- The undo of a lease -----

  /**
    In any state, whoever wrote to it: a run takes its lease update back iff the lease still bears the stamp of what it
    wrote. Else it leaves the lease alone and reports that it could not roll back.
   */
  lemma UndoIsConditional(s: State, run: Run, pick: AccountId, fault: bool)
    requires run.stage.UndoingLease?
    ensures var (t, stage), k, put := NextStage(s, run, pick, fault), run.key, run.stage.put;
            if !fault && k in s.leases && LeaseStore.EditTime(put.newItem).Some?
               && LeaseStore.EditTime(s.leases[k]) == LeaseStore.EditTime(put.newItem)
            then
              && stage == Failed(run.stage.undoneSoFar) && k in t.leases
              && t.leases == s.leases[k := t.leases[k]] && LeaseStore.SameContent(t.leases[k], put.oldItem)
            else stage == Failed(false) && t.leases == s.leases
  {
  }

  // ----- One run on its own -----

  /** The faults of a transaction, told by the stage at which they hit. */
  predicate FaultAt(stage: Stage, f: SandboxSagas.Faults) {
    match stage
    case Picked(_, _) => f.lease
    case LeaseWritten(_, _, _) => f.move.UnitMoveFails?
    case OuMoved(_, _, _) => f.move.RecordPutFails?
    case RecordPut(_, _, _) => f.grant
    case UndoingOu(_, _, _) => f.undoMove.UnitMoveFails?
    case UndoingPut(_, _, _) => f.undoMove.RecordPutFails?
    case UndoingLease(_, _) => f.undoLease
    case _ => false
  }

  /** The next `n` actions of a run that nobody disturbs. */
  function Runs(s: State, run: Run, pick: AccountId, f: SandboxSagas.Faults, n: nat): (State, Run)
    decreases n
  {
    if n == 0 then (s, run)
    else
      var (t, stage) := NextStage(s, run, pick, FaultAt(run.stage, f));
      Runs(t, run.(stage := stage), pick, f, n - 1)
  }

  /** How a run of its own ends when the transaction has the given outcome. */
  function StageOf<R>(outcome: Transactions.Outcome<State, R>, a: AccountId): Stage {
    match outcome
    case Committed(_, _) => Succeeded(a)
    case RolledBack(_) => Failed(true)
    case RollbackFailed(_) => Failed(false)
  }

  /**
    Alone, a run does what the transaction of the approval does, under every pattern of faults: it ends in the very state
    of the transaction, and it has succeeded, was rolled back or failed to roll back exactly when the transaction was.
   */
  lemma AloneItIsTheTransaction(s: State, run: Run, a: AccountId, f: SandboxSagas.Faults)
    requires run.stage.Started?
    ensures !IsAvailable(s, a) || run.key.userEmail !in s.directory ==>
              Runs(s, run, a, f, 8) == (s, run.(stage := Failed(true)))
    ensures IsAvailable(s, a) && run.key.userEmail in s.directory ==>
            var approved := ApprovedLease(run.lease, run.approver, a, s.clock);
            var steps := SandboxSagas.LeaseMoveGrant(
              run.key, approved, a, s.accounts[a], Ou.Available, Ou.Active, f);
            var outcome := Transactions.CompleteSpec(steps, s);
            Runs(s, run, a, f, 8) == (outcome.state, run.(stage := StageOf(outcome, a)))
  {
    hide NextStage, Runs, PutLease, ApprovedLease, LeaseStore.UpdateSpec, Move;
    hide Transactions.CompleteSpec, SandboxSagas.LeaseMoveGrant;
    if !IsAvailable(s, a) || run.key.userEmail !in s.directory {
      NothingStarts(s, run, a, f);
      return;
    }
    var k, record, approved := run.key, s.accounts[a], ApprovedLease(run.lease, run.approver, a, s.clock);
    SandboxSagas.LeaseMoveGrantRuns(s, k, approved, a, record, Ou.Available, Ou.Active, f);
    LeaseIsWritten(s, run, a, f);
    if k in s.leases && !f.lease {
      var written := PutLease(s, k, approved);
      var put := LeaseStore.PutResult(s.leases[k], written.leases[k]);
      LeaseWriteRuns(s, run, a, f, record, approved, written);
    }
  }

  lemma NothingStarts(s: State, run: Run, a: AccountId, f: SandboxSagas.Faults)
    requires run.stage.Started? && (!IsAvailable(s, a) || run.key.userEmail !in s.directory)
    ensures Runs(s, run, a, f, 8) == (s, run.(stage := Failed(true)))
  {
    hide Runs, LeaseStore.UpdateSpec;
    RunsUnfold(s, run, a, f, 8);
    EndedRunStays(s, run.(stage := Failed(true)), a, f, 7);
  }

  /** The first two actions pick the account and write the lease. */
  lemma LeaseIsWritten(s: State, run: Run, a: AccountId, f: SandboxSagas.Faults)
    requires run.stage.Started? && IsAvailable(s, a) && run.key.userEmail in s.directory
    ensures var k, written := run.key, PutLease(s, run.key, ApprovedLease(run.lease, run.approver, a, s.clock));
            && (f.lease ==> Runs(s, run, a, f, 8) == (s, run.(stage := Failed(true))))
            && (!f.lease && k !in s.leases ==> Runs(s, run, a, f, 8) == (Tick(s), run.(stage := Failed(true))))
            && (!f.lease && k in s.leases ==>
                  && k in written.leases
                  && var put := LeaseStore.PutResult(s.leases[k], written.leases[k]);
                     Runs(s, run, a, f, 8) == Runs(written, run.(stage := LeaseWritten(a, s.accounts[a], put)), a, f, 6))
  {
    UpdateIsPut(s, run.key, ApprovedLease(run.lease, run.approver, a, s.clock));
    hide LeaseStore.UpdateSpec, PutLease, ApprovedLease, Runs;
    RunsUnfold(s, run, a, f, 8);
    RunsUnfold(s, run.(stage := Picked(a, s.accounts[a])), a, f, 7);
    EndedRunStays(s, run.(stage := Failed(true)), a, f, 6);
    EndedRunStays(Tick(s), run.(stage := Failed(true)), a, f, 6);
  }

  /** The move, in two actions, and the grant; when one of them fails, the way back. */
  lemma LeaseWriteRuns(
    s: State, run: Run, a: AccountId, f: SandboxSagas.Faults, record: AccountRecord, approved: Lease, written: State)
    requires run.key in s.leases && run.key in written.leases && written == PutLease(s, run.key, approved) && !f.lease
    ensures var put := LeaseStore.PutResult(s.leases[run.key], written.leases[run.key]);
            var outcome := SandboxSagas.LeaseMoveGrantRun(
              s, run.key, approved, a, record, Ou.Available, Ou.Active, f);
            Runs(written, run.(stage := LeaseWritten(a, record, put)), a, f, 6)
            == (outcome.state, run.(stage := StageOf(outcome, a)))
  {
    hide Runs, LeaseStore.UpdateSpec, PutLease;
    var k, put := run.key, LeaseStore.PutResult(s.leases[run.key], written.leases[run.key]);
    var moved, put' := MoveOu(written, a, Ou.Active), MoveAndPut(written, a, record, Ou.Active);
    RunsUnfold(written, run.(stage := LeaseWritten(a, record, put)), a, f, 6);
    if !CanMove(written, a, Ou.Available, Ou.Active) || f.move.UnitMoveFails? {
      LeaseIsUndone(s, run, approved, f, a, true, written, 5);
    } else {
      RunsUnfold(moved, run.(stage := OuMoved(a, record, put)), a, f, 5);
      if f.move.RecordPutFails? {
        LeaseIsUndone(s, run, approved, f, a, true, moved, 4);
      } else {
        RunsUnfold(put', run.(stage := RecordPut(a, record, put)), a, f, 4);
        if f.grant {
          MoveIsUndone(s, run, a, f, record, approved, put');
        } else {
          EndedRunStays(put'.(grants := put'.grants + {(a, k.userEmail)}), run.(stage := Succeeded(a)), a, f, 3);
        }
      }
    }
  }

  /** The account is moved back in two actions, and then the lease is written back. */
  lemma MoveIsUndone(
    s: State, run: Run, a: AccountId, f: SandboxSagas.Faults, record: AccountRecord, approved: Lease, u: State)
    requires run.key in s.leases && run.key in u.leases && u.leases == PutLease(s, run.key, approved).leases
    requires InOu(u, a, Ou.Active)
    ensures var put := LeaseStore.PutResult(s.leases[run.key], u.leases[run.key]);
            var (back, undone) := Move(u, a, record, Ou.Active, Ou.Available, f.undoMove);
            var outcome := SandboxSagas.UndoLease(s, run.key, f, undone, back);
            Runs(u, run.(stage := UndoingOu(a, record, put)), a, f, 3)
            == (outcome.state, run.(stage := StageOf(outcome, a)))
  {
    hide Runs, LeaseStore.UpdateSpec, PutLease;
    var put := LeaseStore.PutResult(s.leases[run.key], u.leases[run.key]);
    var moved := MoveOu(u, a, Ou.Available);
    RunsUnfold(u, run.(stage := UndoingOu(a, record, put)), a, f, 3);
    if f.undoMove.UnitMoveFails? {
      LeaseIsUndone(s, run, approved, f, a, false, u, 2);
    } else {
      RunsUnfold(moved, run.(stage := UndoingPut(a, record, put)), a, f, 2);
      if f.undoMove.RecordPutFails? {
        LeaseIsUndone(s, run, approved, f, a, false, moved, 1);
      } else {
        LeaseIsUndone(s, run, approved, f, a, true, MoveAndPut(u, a, record, Ou.Available), 1);
      }
    }
  }

  /** The lease is written back, and then the run has ended. */
  lemma LeaseIsUndone(
    s: State, run: Run, approved: Lease, f: SandboxSagas.Faults, a: AccountId, undoneSoFar: bool, u: State, n: nat)
    requires run.key in s.leases && run.key in u.leases && u.leases == PutLease(s, run.key, approved).leases && n > 0
    ensures var put := LeaseStore.PutResult(s.leases[run.key], u.leases[run.key]);
            var outcome := SandboxSagas.UndoLease(s, run.key, f, undoneSoFar, u);
            Runs(u, run.(stage := UndoingLease(put, undoneSoFar)), a, f, n)
            == (outcome.state, run.(stage := StageOf(outcome, a)))
  {
    var k, put := run.key, LeaseStore.PutResult(s.leases[run.key], u.leases[run.key]);
    UndoIsPut(s, k, approved, u);
    UpdateIsPut(u, k, s.leases[k]);
    hide Runs, LeaseStore.UpdateSpec, PutLease;
    RunsUnfold(u, run.(stage := UndoingLease(put, undoneSoFar)), a, f, n);
    EndedRunStays(u, run.(stage := Failed(false)), a, f, n - 1);
    EndedRunStays(PutLease(u, k, s.leases[k]), run.(stage := Failed(undoneSoFar)), a, f, n - 1);
  }

  lemma RunsUnfold(s: State, run: Run, pick: AccountId, f: SandboxSagas.Faults, n: nat)
    requires n > 0
    ensures var (t, stage) := NextStage(s, run, pick, FaultAt(run.stage, f));
            Runs(s, run, pick, f, n) == Runs(t, run.(stage := stage), pick, f, n - 1)
  {
    hide NextStage;
  }

  lemma {:induction false} EndedRunStays(s: State, run: Run, pick: AccountId, f: SandboxSagas.Faults, n: nat)
    requires run.stage.Succeeded? || run.stage.Failed?
    ensures Runs(s, run, pick, f, n) == (s, run)
  {
    if n > 0 {
      RunsUnfold(s, run, pick, f, n);
      assert run.(stage := run.stage) == run;
      EndedRunStays(s, run, pick, f, n - 1);
    }
  }

  /** Alone and without faults a run answers and leaves what the atomic approval does. */
  lemma AloneItIsTheAtomicApproval(s: State, run: Run, a: AccountId)
    requires run.stage.Started? && IsAvailable(s, a) && run.key.userEmail in s.directory
    ensures var (t, done) := Runs(s, run, a, SandboxSagas.NO_FAULTS, 8);
            var reply := ApproveSpec(s, run.key, run.lease, run.approver, Some(a));
            if InOu(s, a, Ou.Available) && run.key in s.leases
            then done.stage == Succeeded(a) && reply == Reply(Send(t, [LeaseApproved(run.key)]), Ok)
            else done.stage == Failed(true) && reply == Reply(t, Fail(TransactionFailedAndRolledBack))
  {
    hide NextStage, Runs, ApprovedLease, PutLease;
    hide Transactions.CompleteSpec, SandboxSagas.LeaseMoveGrant;
    AloneItIsTheTransaction(s, run, a, SandboxSagas.NO_FAULTS);
    SandboxSagas.ApprovalIsTheSaga(s, run.key, run.lease, run.approver, Some(a));
    SandboxSagas.LeaseWriteKeepsUnits(s, run.key, ApprovedLease(run.lease, run.approver, a, s.clock));
  }

  /** Alone, a run that is rolled back leaves units and records as they were, unless the record was lost on the way. */
  lemma RolledBackRunRestores(s: State, run: Run, a: AccountId, f: SandboxSagas.Faults)
    requires run.stage.Started? && IsAvailable(s, a) && run.key.userEmail in s.directory
    requires !f.move.RecordPutFails?
    ensures var (t, done) := Runs(s, run, a, f, 8);
            done.stage == Failed(true) ==>
              t.ou == s.ou && t.accounts == s.accounts && t.grants == s.grants && t.events == s.events
  {
    hide NextStage, Runs, ApprovedLease, Transactions.CompleteSpec, SandboxSagas.LeaseMoveGrant;
    AloneItIsTheTransaction(s, run, a, f);
    SandboxSagas.LeaseMoveGrantOutcome(
      s, run.key, ApprovedLease(run.lease, run.approver, a, s.clock), a, Ou.Available, Ou.Active, f);
  }
}
