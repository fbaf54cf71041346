/**
  The operations of the sandbox that run a transaction, with faults in their remote calls, also in those of a rollback.

  A call that fails throws without effect. A lease update, a grant and an assignment are one call each. A move is two:
  when the record is not stored after the account was moved, the move throws with half of its effect.
 */
module SandboxSagas {
  import opened Domain
  import opened SandboxState
  import opened Transactions
  import LeaseStore

  datatype StepResult = LeaseWritten(put: LeaseStore.PutResult) | NoResult

  // ----- The leaves; each service wraps its own in a single-step transaction -----

  function BeginLeaseUpdate(s: State, k: LeaseKey, lease: Lease, fault: bool): Attempt<State, StepResult> {
    if fault then Threw(s)
    else
      var (w, table) := LeaseStore.UpdateSpec(s.leases, k, lease, None, s.clock);
      if w.Written? then Done(s.(leases := table, clock := s.clock + 1), LeaseWritten(w.put)) else Threw(Tick(s))
  }

  function RollbackLeaseUpdate(s: State, k: LeaseKey, r: StepResult, fault: bool): Undo<State> {
    if fault || r.NoResult? then UndoThrew(s)
    else
      var (w, table) := LeaseStore.UpdateSpec(s.leases, k, r.put.oldItem, Some(r.put.newItem), s.clock);
      if w.Written? then Undone(s.(leases := table, clock := s.clock + 1)) else UndoThrew(Tick(s))
  }

  function LeaseUpdateStep(k: LeaseKey, lease: Lease, fault: bool, undoFault: bool): Step<State, StepResult> {
    Nested([Leaf(
      (s: State) => BeginLeaseUpdate(s, k, lease, fault),
      (r: StepResult, s: State) => RollbackLeaseUpdate(s, k, r, undoFault))])
  }

  function MoveStep(a: AccountId, record: AccountRecord, from: Ou, to: Ou, fault: MoveFault, undoFault: MoveFault)
    : Step<State, StepResult>
  {
    Nested([Leaf(
      (s: State) => var (t, ok) := Move(s, a, record, from, to, fault); if ok then Done(t, NoResult) else Threw(t),
      (_, s: State) => var (t, ok) := Move(s, a, record, to, from, undoFault); if ok then Undone(t) else UndoThrew(t))])
  }

  function GrantStep(a: AccountId, user: Email, fault: bool): Step<State, StepResult> {
    Nested([Leaf(
      (s: State) => if fault then Threw(s) else Done(s.(grants := s.grants + {(a, user)}), NoResult),
      (_, s: State) => Undone(s.(grants := s.grants - {(a, user)})))])
  }

  function AssignGroupStep(a: AccountId, role: Role, fault: bool, undoFault: bool): Step<State, StepResult> {
    Nested([Leaf(
      (s: State) => if fault then Threw(s) else Done(s.(groupGrants := s.groupGrants + {(a, role)}), NoResult),
      (_, s: State) => if undoFault then UndoThrew(s) else Undone(s.(groupGrants := s.groupGrants - {(a, role)})))])
  }

  // ----- What each step does, and its undoing -----

  const NO_RESULT: Record<StepResult> := NestedRecord([LeafRecord(NoResult)])

  /** What the lease update records: the item it replaced and the item it wrote. */
  function LeaseRecord(s: State, k: LeaseKey, lease: Lease): Record<StepResult>
    requires k in s.leases
  {
    NestedRecord([LeafRecord(LeaseWritten(LeaseStore.PutResult(s.leases[k], PutLease(s, k, lease).leases[k])))])
  }

  lemma LeaseUpdateRuns(s: State, k: LeaseKey, lease: Lease, fault: bool, undoFault: bool)
    ensures Begin(LeaseUpdateStep(k, lease, fault, undoFault), s) ==
            if fault then Threw(s)
            else if k !in s.leases then Threw(Tick(s))
            else Done(PutLease(s, k, lease), LeaseRecord(s, k, lease))
  {
    hide BeginLeaseUpdate, PutLease;
    WrappedLeaf(LeaseUpdateStep(k, lease, fault, undoFault).steps[0], s);
    LeaseUpdateBegins(s, k, lease, fault);
  }

  lemma LeaseUpdateBegins(s: State, k: LeaseKey, lease: Lease, fault: bool)
    ensures BeginLeaseUpdate(s, k, lease, fault) ==
            if fault then Threw(s)
            else if k !in s.leases then Threw(Tick(s))
            else
              var t := PutLease(s, k, lease);
              Done(t, LeaseWritten(LeaseStore.PutResult(s.leases[k], t.leases[k])))
  {
    hide LeaseStore.UpdateSpec;
    UpdateIsPut(s, k, lease);
  }

  /** While nobody else writes the lease, the undoing writes the old item back. */
  lemma LeaseUpdateUndoes(s: State, k: LeaseKey, lease: Lease, fault: bool, undoFault: bool, u: State)
    requires k in s.leases && u.leases == PutLease(s, k, lease).leases
    ensures Rollback(LeaseUpdateStep(k, lease, fault, undoFault), LeaseRecord(s, k, lease), u) ==
            if undoFault then UndoThrew(u) else Undone(PutLease(u, k, s.leases[k]))
  {
    hide RollbackLeaseUpdate, PutLease;
    UpdateIsPut(s, k, lease);
    var put := LeaseStore.PutResult(s.leases[k], u.leases[k]);
    WrappedRollback(LeaseUpdateStep(k, lease, fault, undoFault).steps[0], LeaseWritten(put), u);
    LeaseUpdateRollsBack(s, k, lease, undoFault, u);
  }

  /**
    In any state, whoever wrote to it: a lease update is taken back iff the lease still bears the stamp of what was
    written; else the rollback throws and the lease is left alone.
   */
  lemma LeaseUndoIsConditional(s: State, k: LeaseKey, put: LeaseStore.PutResult, fault: bool)
    ensures var undo := RollbackLeaseUpdate(s, k, LeaseWritten(put), fault);
            && (undo.Undone? <==>
                  && !fault && k in s.leases && LeaseStore.EditTime(put.newItem).Some?
                  && LeaseStore.EditTime(s.leases[k]) == LeaseStore.EditTime(put.newItem))
            && (undo.Undone? ==> undo.state == PutLease(s, k, put.oldItem))
            && (undo.UndoThrew? ==> undo.state.leases == s.leases)
  {
  }

  lemma LeaseUpdateRollsBack(s: State, k: LeaseKey, lease: Lease, fault: bool, u: State)
    requires k in s.leases && u.leases == PutLease(s, k, lease).leases
    ensures RollbackLeaseUpdate(u, k, LeaseWritten(LeaseStore.PutResult(s.leases[k], u.leases[k])), fault) ==
            if fault then UndoThrew(u) else Undone(PutLease(u, k, s.leases[k]))
  {
    hide LeaseStore.UpdateSpec;
    UpdateIsPut(u, k, s.leases[k]);
    UndoIsPut(s, k, lease, u);
  }

  lemma MoveRuns(
    s: State, a: AccountId, record: AccountRecord, from: Ou, to: Ou, fault: MoveFault, undoFault: MoveFault, u: State)
    ensures var step := MoveStep(a, record, from, to, fault, undoFault);
            var there, back := Move(s, a, record, from, to, fault), Move(u, a, record, to, from, undoFault);
            && Begin(step, s) == (if there.1 then Done(there.0, NO_RESULT) else Threw(there.0))
            && Rollback(step, NO_RESULT, u) == (if back.1 then Undone(back.0) else UndoThrew(back.0))
  {
    var leaf := MoveStep(a, record, from, to, fault, undoFault).steps[0];
    WrappedLeaf(leaf, s);
    WrappedRollback(leaf, NoResult, u);
  }

  lemma GrantRuns(s: State, a: AccountId, user: Email, fault: bool)
    ensures Begin(GrantStep(a, user, fault), s) ==
            (if fault then Threw(s) else Done(s.(grants := s.grants + {(a, user)}), NO_RESULT))
    ensures Rollback(GrantStep(a, user, fault), NO_RESULT, s) == Undone(s.(grants := s.grants - {(a, user)}))
  {
    WrappedLeaf(GrantStep(a, user, fault).steps[0], s);
    WrappedRollback(GrantStep(a, user, fault).steps[0], NoResult, s);
  }

  lemma AssignGroupRuns(s: State, a: AccountId, role: Role, fault: bool, undoFault: bool, u: State)
    ensures var step := AssignGroupStep(a, role, fault, undoFault);
            && Begin(step, s) ==
                 (if fault then Threw(s) else Done(s.(groupGrants := s.groupGrants + {(a, role)}), NO_RESULT))
            && Rollback(step, NO_RESULT, u) ==
                 (if undoFault then UndoThrew(u) else Undone(u.(groupGrants := u.groupGrants - {(a, role)})))
  {
    var leaf := AssignGroupStep(a, role, fault, undoFault).steps[0];
    WrappedLeaf(leaf, s);
    WrappedRollback(leaf, NoResult, u);
  }

  // ----- Lease update, account move, access: approval and unfreezing -----

  /** The grant comes last, so that it is never undone. */
  datatype Faults = Faults(lease: bool, move: MoveFault, grant: bool, undoLease: bool, undoMove: MoveFault)

  const NO_FAULTS := Faults(false, NoFault, false, false, NoFault)

  function LeaseMoveGrant(
    k: LeaseKey, lease: Lease, a: AccountId, record: AccountRecord, from: Ou, to: Ou, f: Faults)
    : (steps: seq<Step<State, StepResult>>)
    ensures steps != []
  {
    [LeaseUpdateStep(k, lease, f.lease, f.undoLease),
     MoveStep(a, record, from, to, f.move, f.undoMove),
     GrantStep(a, k.userEmail, f.grant)]
  }

  /** Equal but for the clock. */
  predicate SameButClock(s: State, t: State) {
    s.(clock := 0) == t.(clock := 0)
  }

  /** Equal but for the clock and the edit stamp of one lease. */
  predicate SameButStamp(s: State, t: State, k: LeaseKey) {
    && (k in s.leases <==> k in t.leases)
    && (k in s.leases ==> LeaseStore.SameContent(s.leases[k], t.leases[k]))
    && SameButClock(s, t.(leases := if k in s.leases then t.leases[k := s.leases[k]] else t.leases))
  }

  // How far the three steps come: the lease was written, the account moved, and its record stored.

  predicate LeaseWasWritten(s: State, k: LeaseKey, f: Faults) {
    k in s.leases && !f.lease
  }

  predicate UnitWasMoved(s: State, k: LeaseKey, a: AccountId, from: Ou, to: Ou, f: Faults) {
    LeaseWasWritten(s, k, f) && CanMove(s, a, from, to) && !f.move.UnitMoveFails?
  }

  predicate RecordWasPut(s: State, k: LeaseKey, a: AccountId, from: Ou, to: Ou, f: Faults) {
    UnitWasMoved(s, k, a, from, to, f) && !f.move.RecordPutFails?
  }

  /** What is left when the three steps do not all complete, but for the stamp of the lease. */
  function Residue(s: State, k: LeaseKey, lease: Lease, a: AccountId, from: Ou, to: Ou, f: Faults): State
    requires a in s.accounts
  {
    var written, moved, put :=
      LeaseWasWritten(s, k, f), UnitWasMoved(s, k, a, from, to, f), RecordWasPut(s, k, a, from, to, f);
    s.(leases := if written && f.undoLease then s.leases[k := lease] else s.leases,
       ou := if moved && (!put || f.undoMove.UnitMoveFails?) then s.ou[a := to] else s.ou,
       accounts :=
         if put && !f.undoMove.NoFault? then s.accounts[a := s.accounts[a].(status := to)] else s.accounts)
  }

  /** Takes the lease update back at `u`, the last thing that a rollback does. */
  function UndoLease(s: State, k: LeaseKey, f: Faults, othersUndone: bool, u: State)
    : Transactions.Outcome<State, StepResult>
    requires k in s.leases
  {
    if f.undoLease then RollbackFailed(u) else Ended(othersUndone, PutLease(u, k, s.leases[k]))
  }

  /** The transaction call by call. */
  function LeaseMoveGrantRun(
    s: State, k: LeaseKey, lease: Lease, a: AccountId, record: AccountRecord, from: Ou, to: Ou, f: Faults)
    : Transactions.Outcome<State, StepResult>
  {
    if f.lease then RolledBack(s)
    else if k !in s.leases then RolledBack(Tick(s))
    else
      var (moved, ok) := Move(PutLease(s, k, lease), a, record, from, to, f.move);
      if !ok then UndoLease(s, k, f, true, moved)
      else if !f.grant
      then Committed(moved.(grants := moved.grants + {(a, k.userEmail)}), LeaseRecord(s, k, lease))
      else
        var (back, undone) := Move(moved, a, record, to, from, f.undoMove);
        UndoLease(s, k, f, undone, back)
  }

  lemma LeaseMoveGrantRuns(
    s: State, k: LeaseKey, lease: Lease, a: AccountId, record: AccountRecord, from: Ou, to: Ou, f: Faults)
    ensures CompleteSpec(LeaseMoveGrant(k, lease, a, record, from, to, f), s)
         == LeaseMoveGrantRun(s, k, lease, a, record, from, to, f)
  {
    hide Move, PutLease, Begin, Rollback, CompleteSpec, LeaseUpdateStep, MoveStep, GrantStep, LeaseRecord;
    var x := LeaseUpdateStep(k, lease, f.lease, f.undoLease);
    var y, z := MoveStep(a, record, from, to, f.move, f.undoMove), GrantStep(a, k.userEmail, f.grant);
    ThreeSteps(x, y, z, s);
    LeaseUpdateRuns(s, k, lease, f.lease, f.undoLease);
    if LeaseWasWritten(s, k, f) {
      var s1 := PutLease(s, k, lease);
      var there := Move(s1, a, record, from, to, f.move);
      var back := Move(there.0, a, record, to, from, f.undoMove);
      MoveRuns(s1, a, record, from, to, f.move, f.undoMove, there.0);
      GrantRuns(there.0, a, k.userEmail, f.grant);
      MoveKeepsLeases(s1, a, record, from, to, f.move);
      MoveKeepsLeases(there.0, a, record, to, from, f.undoMove);
      LeaseUpdateUndoes(s, k, lease, f.lease, f.undoLease, there.0);
      LeaseUpdateUndoes(s, k, lease, f.lease, f.undoLease, back.0);
    }
  }

  /** Writing the old item back restores the lease table but for the stamp. */
  lemma LeaseUndone(s: State, k: LeaseKey, lease: Lease, u: State, t: State)
    requires k in s.leases && u.leases == PutLease(s, k, lease).leases
    requires SameButClock(t.(leases := s.leases), u.(leases := s.leases)) && t.leases == s.leases
    ensures SameButStamp(t, PutLease(u, k, s.leases[k]), k)
  {
    var back := PutLease(u, k, s.leases[k]);
    assert back.leases[k := s.leases[k]] == s.leases;
  }

  lemma LeaseNotUndone(s: State, k: LeaseKey, lease: Lease, u: State, t: State)
    requires k in s.leases && u.leases == PutLease(s, k, lease).leases
    requires SameButClock(t.(leases := s.leases), u.(leases := s.leases)) && t.leases == s.leases[k := lease]
    ensures SameButStamp(t, u, k)
  {
    assert u.leases[k := lease] == s.leases[k := lease];
  }

  /** The state after a move and its undoing, as far as they come. */
  function MovedBack(s: State, a: AccountId, record: AccountRecord, from: Ou, to: Ou, f: MoveFault, g: MoveFault): State {
    var (moved, ok) := Move(s, a, record, from, to, f);
    if ok then Move(moved, a, record, to, from, g).0 else moved
  }

  /** A move and its undoing leave the account where it was, unless one of their calls fails after the first one. */
  lemma MovedBackIs(s: State, a: AccountId, from: Ou, to: Ou, f: MoveFault, g: MoveFault)
    requires a in s.accounts && s.accounts[a].status == from && StorableStatus(from) && StorableStatus(to)
    ensures var moved := CanMove(s, a, from, to) && !f.UnitMoveFails?;
            var put := moved && !f.RecordPutFails?;
            MovedBack(s, a, s.accounts[a], from, to, f, g) ==
            s.(ou := if moved && (!put || g.UnitMoveFails?) then s.ou[a := to] else s.ou,
               accounts := if put && !g.NoFault? then s.accounts[a := s.accounts[a].(status := to)] else s.accounts)
  {
    var record := s.accounts[a];
    var (moved, ok) := Move(s, a, record, from, to, f);
    MoveReturns(s, a, record, from, to, f, g);
    MoveChanges(s, a, record, from, to, f);
    MoveChanges(moved, a, record, to, from, g);
    hide Move, MoveOu, MoveAndPut;
    if CanMove(s, a, from, to) {
      assert s.ou[a := to][a := from] == s.ou;
      assert s.accounts[a := record.(status := to)][a := record.(status := from)] == s.accounts;
    }
  }

  lemma UnitsAndRecordsLeft(s: State, k: LeaseKey, lease: Lease, a: AccountId, from: Ou, to: Ou, f: Faults)
    requires a in s.accounts && s.accounts[a].status == from && StorableStatus(from) && StorableStatus(to)
    requires LeaseWasWritten(s, k, f)
    ensures var u := MovedBack(PutLease(s, k, lease), a, s.accounts[a], from, to, f.move, f.undoMove);
            && u.leases == PutLease(s, k, lease).leases
            && SameButClock(Residue(s, k, lease, a, from, to, f).(leases := s.leases), u.(leases := s.leases))
  {
    hide MovedBack, Move;
    MovedBackIs(PutLease(s, k, lease), a, from, to, f.move, f.undoMove);
  }

  lemma UndoingLeavesResidue(s: State, k: LeaseKey, lease: Lease, a: AccountId, from: Ou, to: Ou, f: Faults)
    requires a in s.accounts && s.accounts[a].status == from && StorableStatus(from) && StorableStatus(to)
    requires LeaseWasWritten(s, k, f)
    ensures var run := LeaseMoveGrantRun(s, k, lease, a, s.accounts[a], from, to, f);
            run.Committed? || SameButStamp(Residue(s, k, lease, a, from, to, f), run.state, k)
  {
    hide SameButStamp, SameButClock, Move, PutLease, LeaseRecord;
    UnitsAndRecordsLeft(s, k, lease, a, from, to, f);
    var u := MovedBack(PutLease(s, k, lease), a, s.accounts[a], from, to, f.move, f.undoMove);
    if f.undoLease {
      LeaseNotUndone(s, k, lease, u, Residue(s, k, lease, a, from, to, f));
    } else {
      LeaseUndone(s, k, lease, u, Residue(s, k, lease, a, from, to, f));
    }
  }

  lemma NothingIsLeft(s: State, k: LeaseKey, lease: Lease, a: AccountId, from: Ou, to: Ou, f: Faults)
    requires a in s.accounts && !LeaseWasWritten(s, k, f)
    ensures var run := LeaseMoveGrantRun(s, k, lease, a, s.accounts[a], from, to, f);
            run.RolledBack? && SameButStamp(Residue(s, k, lease, a, from, to, f), run.state, k)
  {
    assert SameButStamp(s, s, k) && SameButStamp(s, Tick(s), k);
  }

  lemma HowItEnds(
    s: State, k: LeaseKey, lease: Lease, a: AccountId, record: AccountRecord, from: Ou, to: Ou, f: Faults)
    requires StorableStatus(from) && StorableStatus(to)
    ensures var run := LeaseMoveGrantRun(s, k, lease, a, record, from, to, f);
            var put := RecordWasPut(s, k, a, from, to, f);
            && (run.Committed? <==> put && !f.grant)
            && (run.RollbackFailed? <==>
                  !run.Committed? && ((LeaseWasWritten(s, k, f) && f.undoLease) || (put && !f.undoMove.NoFault?)))
  {
    hide LeaseRecord, Move, PutLease, MoveAndPut, MoveOu;
    if LeaseWasWritten(s, k, f) {
      MoveReturns(PutLease(s, k, lease), a, record, from, to, f.move, f.undoMove);
      assert CanMove(PutLease(s, k, lease), a, from, to) <==> CanMove(s, a, from, to) by {
        LeaseWriteKeepsUnits(s, k, lease);
      }
    }
  }

  lemma LeaseWriteKeepsUnits(s: State, k: LeaseKey, lease: Lease)
    ensures PutLease(s, k, lease).ou == s.ou
  {
  }

  lemma MoveReturns(
    s: State, a: AccountId, record: AccountRecord, from: Ou, to: Ou, f: MoveFault, g: MoveFault)
    requires StorableStatus(from) && StorableStatus(to)
    ensures var (moved, ok) := Move(s, a, record, from, to, f);
            && (ok <==> CanMove(s, a, from, to) && f.NoFault?)
            && (ok ==> (Move(moved, a, record, to, from, g).1 <==> g.NoFault?))
  {
  }

  /**
    The outcome of lease update, move and grant for every pattern of faults. They commit iff nothing fails, the lease
    exists and the account is where it should be; the rollback fails iff one of its calls does; and what is left if they
    do not commit is the residue.
   */
  lemma LeaseMoveGrantOutcome(
    s: State, k: LeaseKey, lease: Lease, a: AccountId, from: Ou, to: Ou, f: Faults)
    requires a in s.accounts && s.accounts[a].status == from && StorableStatus(from) && StorableStatus(to)
    ensures var outcome := CompleteSpec(LeaseMoveGrant(k, lease, a, s.accounts[a], from, to, f), s);
            var put := RecordWasPut(s, k, a, from, to, f);
            && (outcome.Committed? <==> put && !f.grant)
            && (!outcome.Committed? ==>
                  && (outcome.RollbackFailed? <==>
                        (LeaseWasWritten(s, k, f) && f.undoLease) || (put && !f.undoMove.NoFault?))
                  && SameButStamp(Residue(s, k, lease, a, from, to, f), outcome.state, k))
  {
    hide SameButStamp, Residue, CompleteSpec, LeaseMoveGrant, LeaseMoveGrantRun, RecordWasPut;
    var record := s.accounts[a];
    LeaseMoveGrantRuns(s, k, lease, a, record, from, to, f);
    HowItEnds(s, k, lease, a, record, from, to, f);
    if LeaseWasWritten(s, k, f) {
      UndoingLeavesResidue(s, k, lease, a, from, to, f);
    } else {
      NothingIsLeft(s, k, lease, a, from, to, f);
    }
  }

  lemma SameAsResidue(s: State, residue: State, t: State, k: LeaseKey)
    requires SameButStamp(residue, t, k)
    requires residue == s.(ou := residue.ou, accounts := residue.accounts, leases := residue.leases)
    requires || residue.leases == s.leases
             || (k in s.leases && k in residue.leases && residue.leases == s.leases[k := residue.leases[k]])
    ensures SameButStamp(s, t, k) <==>
              && residue.ou == s.ou && residue.accounts == s.accounts
              && (k in s.leases ==> LeaseStore.SameContent(residue.leases[k], s.leases[k]))
  {
    if k in s.leases {
      assert residue.leases[k := s.leases[k]] == s.leases;
      assert t.leases[k := residue.leases[k]][k := s.leases[k]] == t.leases[k := s.leases[k]];
      assert t.leases[k := s.leases[k]][k := residue.leases[k]] == t.leases[k := residue.leases[k]];
    }
  }

  /**
    If they do not commit, everything but the stamp of the lease is as before iff no record was lost after its account
    had moved and no call of the rollback failed (that of the lease may, if the update had changed nothing).
   */
  lemma LeaseMoveGrantRestoresIff(
    s: State, k: LeaseKey, lease: Lease, a: AccountId, from: Ou, to: Ou, f: Faults)
    requires a in s.accounts && s.accounts[a].status == from && StorableStatus(from) && StorableStatus(to)
    ensures var outcome := CompleteSpec(LeaseMoveGrant(k, lease, a, s.accounts[a], from, to, f), s);
            !outcome.Committed? ==>
              (SameButStamp(s, outcome.state, k) <==>
                 && (UnitWasMoved(s, k, a, from, to, f) ==> RecordWasPut(s, k, a, from, to, f))
                 && (LeaseWasWritten(s, k, f) && f.undoLease ==> LeaseStore.SameContent(lease, s.leases[k]))
                 && (RecordWasPut(s, k, a, from, to, f) ==> f.undoMove.NoFault?))
  {
    LeaseMoveGrantOutcome(s, k, lease, a, from, to, f);
    hide CompleteSpec, LeaseMoveGrant, SameButStamp;
    var outcome := CompleteSpec(LeaseMoveGrant(k, lease, a, s.accounts[a], from, to, f), s);
    var residue := Residue(s, k, lease, a, from, to, f);
    if !outcome.Committed? {
      SameAsResidue(s, residue, outcome.state, k);
      assert s.ou[a := to][a] == to;
      assert s.accounts[a := s.accounts[a].(status := to)][a].status == to;
    }
  }

  // ----- The operations under faults -----

  function Replied(outcome: Transactions.Outcome<State, StepResult>, sent: seq<Event>): Reply {
    match outcome
    case Committed(t, _) => Reply(Send(t, sent), Ok)
    case RolledBack(t) => Reply(t, Fail(TransactionFailedAndRolledBack))
    case RollbackFailed(t) => Reply(t, Fail(RollbackFailedError))
  }

  function ApproveUnderFaults(
    s: State, k: LeaseKey, lease: Lease, approver: string, pick: Option<AccountId>, f: Faults): Reply
    requires pick.Some? ==> pick.value in s.accounts
  {
    if pick.None? then Reply(s, Fail(NoAccountsAvailable))
    else if k.userEmail !in s.directory then Reply(s, Fail(CouldNotRetrieveUser))
    else
      var a := pick.value;
      var approved := ApprovedLease(lease, approver, a, s.clock);
      var steps := LeaseMoveGrant(k, approved, a, s.accounts[a], Ou.Available, Ou.Active, f);
      Replied(CompleteSpec(steps, s), [LeaseApproved(k)])
  }

  function UnfreezeUnderFaults(s: State, k: LeaseKey, lease: Lease, f: Faults): Reply {
    if !lease.status.Frozen? then Reply(s, Fail(AccountNotInFrozen))
    else if !Tracked(s, lease.awsAccountId) then Reply(s, Fail(CouldNotFindAccount))
    else if k.userEmail !in s.directory then Reply(s, Fail(CouldNotRetrieveUser))
    else
      var a, active := lease.awsAccountId.value, lease.(status := LeaseStatus.Active);
      var steps := LeaseMoveGrant(k, active, a, s.accounts[a], Ou.Frozen, Ou.Active, f);
      Replied(CompleteSpec(steps, s), [LeaseUnfrozen(k, a)])
  }

  /** Without faults the approval is that of the life cycle. */
  lemma ApprovalIsTheSaga(s: State, k: LeaseKey, lease: Lease, approver: string, pick: Option<AccountId>)
    requires pick.Some? ==> pick.value in s.accounts
    ensures ApproveUnderFaults(s, k, lease, approver, pick, NO_FAULTS) == ApproveSpec(s, k, lease, approver, pick)
  {
    hide CompleteSpec, LeaseMoveGrant, ApprovedLease;
    if pick.Some? {
      var approved := ApprovedLease(lease, approver, pick.value, s.clock);
      LeaseMoveGrantRuns(s, k, approved, pick.value, s.accounts[pick.value], Ou.Available, Ou.Active, NO_FAULTS);
    }
  }

  /** Without faults the unfreezing is that of the life cycle. */
  lemma UnfreezingIsTheSaga(s: State, k: LeaseKey, lease: Lease)
    ensures UnfreezeUnderFaults(s, k, lease, NO_FAULTS) == UnfreezeSpec(s, k, lease)
  {
    hide CompleteSpec, LeaseMoveGrant;
    if Tracked(s, lease.awsAccountId) {
      var a := lease.awsAccountId.value;
      LeaseMoveGrantRuns(s, k, lease.(status := LeaseStatus.Active), a, s.accounts[a], Ou.Frozen, Ou.Active, NO_FAULTS);
    }
  }

  /** Faults that do not show leave no trace: when the three steps commit, they did what they do without faults. */
  lemma CommittedIs(
    s: State, k: LeaseKey, lease: Lease, a: AccountId, record: AccountRecord, from: Ou, to: Ou, f: Faults)
    ensures var outcome := CompleteSpec(LeaseMoveGrant(k, lease, a, record, from, to, f), s);
            outcome.Committed? ==>
              (outcome.state, true) == LeaseMoveGrantSpec(s, k, lease, a, record, from, to)
  {
    hide CompleteSpec, LeaseMoveGrant, PutLease;
    LeaseMoveGrantRuns(s, k, lease, a, record, from, to, f);
  }

  /**
    An approval that succeeds under faults is the approval of the life cycle. Else its error tells whether everything was
    rolled back: it was not iff the lease was written and cannot be written back, or the account cannot be moved back.
   */
  lemma ApprovalReplies(s: State, k: LeaseKey, lease: Lease, approver: string, a: AccountId, f: Faults)
    requires IsAvailable(s, a) && k.userEmail in s.directory
    ensures var r := ApproveUnderFaults(s, k, lease, approver, Some(a), f);
            var put := RecordWasPut(s, k, a, Ou.Available, Ou.Active, f);
            && (r.outcome.Ok? ==> r == ApproveSpec(s, k, lease, approver, Some(a)))
            && (r.outcome.Ok? <==> put && !f.grant)
            && (r.outcome.Fail? ==>
                  r.outcome.error ==
                    if (LeaseWasWritten(s, k, f) && f.undoLease) || (put && !f.undoMove.NoFault?)
                    then RollbackFailedError else TransactionFailedAndRolledBack)
  {
    hide CompleteSpec, LeaseMoveGrant, ApprovedLease, LeaseMoveGrantSpec, SameButStamp, Residue, RecordWasPut;
    var approved := ApprovedLease(lease, approver, a, s.clock);
    CommittedIs(s, k, approved, a, s.accounts[a], Ou.Available, Ou.Active, f);
    LeaseMoveGrantOutcome(s, k, approved, a, Ou.Available, Ou.Active, f);
  }

  /** The same for unfreezing. */
  lemma UnfreezingReplies(s: State, k: LeaseKey, lease: Lease, f: Faults)
    requires lease.status.Frozen? && Tracked(s, lease.awsAccountId) && k.userEmail in s.directory
    requires s.accounts[lease.awsAccountId.value].status == Ou.Frozen
    ensures var r, a := UnfreezeUnderFaults(s, k, lease, f), lease.awsAccountId.value;
            var put := RecordWasPut(s, k, a, Ou.Frozen, Ou.Active, f);
            && (r.outcome.Ok? ==> r == UnfreezeSpec(s, k, lease))
            && (r.outcome.Ok? <==> put && !f.grant)
            && (r.outcome.Fail? ==>
                  r.outcome.error ==
                    if (LeaseWasWritten(s, k, f) && f.undoLease) || (put && !f.undoMove.NoFault?)
                    then RollbackFailedError else TransactionFailedAndRolledBack)
  {
    hide CompleteSpec, LeaseMoveGrant, LeaseMoveGrantSpec, SameButStamp, Residue, RecordWasPut;
    var a, active := lease.awsAccountId.value, lease.(status := LeaseStatus.Active);
    CommittedIs(s, k, active, a, s.accounts[a], Ou.Frozen, Ou.Active, f);
    LeaseMoveGrantOutcome(s, k, active, a, Ou.Frozen, Ou.Active, f);
  }

  // ----- Freezing: access, account move, lease update -----

  /** The assignments are deleted one by one; when a call fails, those of some users are still there. */
  datatype RevokeFault = RevokesAll | StopsBefore(kept: set<Email>)

  /** The lease update comes last, so that it is never undone. */
  datatype FreezeFaults = FreezeFaults(revoke: RevokeFault, move: MoveFault, lease: bool, undoMove: MoveFault)

  const NO_FREEZE_FAULTS := FreezeFaults(RevokesAll, NoFault, false, NoFault)

  function RevokeUnderFault(s: State, a: AccountId, fault: RevokeFault): State {
    match fault
    case RevokesAll => RevokeAll(s, a)
    case StopsBefore(kept) => s.(grants := set g | g in s.grants && (g.0 != a || g.1 in kept))
  }

  function FreezeSteps(k: LeaseKey, lease: Lease, a: AccountId, record: AccountRecord, f: FreezeFaults)
    : (steps: seq<Step<State, StepResult>>)
    ensures steps != []
  {
    [MoveStep(a, record, Ou.Active, Ou.Frozen, f.move, f.undoMove), LeaseUpdateStep(k, lease, f.lease, false)]
  }

  function FreezeUnderFaults(s: State, k: LeaseKey, lease: Lease, f: FreezeFaults): Reply {
    if !lease.status.Active? then Reply(s, Fail(AccountNotInActive))
    else if !Tracked(s, lease.awsAccountId) then Reply(s, Fail(CouldNotFindAccount))
    else if k.userEmail !in s.directory then Reply(s, Fail(CouldNotRetrieveUser))
    else
      var a := lease.awsAccountId.value;
      var revoked := RevokeUnderFault(s, a, f.revoke);
      if f.revoke.StopsBefore? then Reply(revoked, Fail(CallFailed))
      else
        var steps := FreezeSteps(k, lease.(status := LeaseStatus.Frozen), a, s.accounts[a], f);
        Replied(CompleteSpec(steps, revoked), [LeaseFrozen(k, a)])
  }

  /** The transaction call by call. */
  function FreezeRun(s: State, k: LeaseKey, lease: Lease, a: AccountId, record: AccountRecord, f: FreezeFaults)
    : Transactions.Outcome<State, StepResult>
  {
    var (moved, ok) := Move(s, a, record, Ou.Active, Ou.Frozen, f.move);
    if !ok then RolledBack(moved)
    else if !f.lease && k in s.leases then Committed(PutLease(moved, k, lease), NO_RESULT)
    else
      var (back, undone) := Move(if f.lease then moved else Tick(moved), a, record, Ou.Frozen, Ou.Active, f.undoMove);
      Ended(undone, back)
  }

  lemma FreezeRuns(s: State, k: LeaseKey, lease: Lease, a: AccountId, record: AccountRecord, f: FreezeFaults)
    ensures CompleteSpec(FreezeSteps(k, lease, a, record, f), s) == FreezeRun(s, k, lease, a, record, f)
  {
    hide Move, PutLease, Begin, Rollback, CompleteSpec, LeaseUpdateStep, MoveStep, LeaseRecord;
    var x := MoveStep(a, record, Ou.Active, Ou.Frozen, f.move, f.undoMove);
    var moved := Move(s, a, record, Ou.Active, Ou.Frozen, f.move).0;
    TwoSteps(x, LeaseUpdateStep(k, lease, f.lease, false), s);
    MoveRuns(s, a, record, Ou.Active, Ou.Frozen, f.move, f.undoMove, moved);
    MoveRuns(s, a, record, Ou.Active, Ou.Frozen, f.move, f.undoMove, Tick(moved));
    MoveKeepsLeases(s, a, record, Ou.Active, Ou.Frozen, f.move);
    LeaseUpdateRuns(moved, k, lease, f.lease, false);
  }

  /** Without faults the freezing is that of the life cycle. */
  lemma FreezingIsTheSaga(s: State, k: LeaseKey, lease: Lease)
    ensures FreezeUnderFaults(s, k, lease, NO_FREEZE_FAULTS) == FreezeSpec(s, k, lease)
  {
    hide CompleteSpec, FreezeSteps, PutLease, GrantsWithout;
    if Tracked(s, lease.awsAccountId) {
      var a := lease.awsAccountId.value;
      var revoked := RevokeAll(s, a);
      FreezeRuns(revoked, k, lease.(status := LeaseStatus.Frozen), a, s.accounts[a], NO_FREEZE_FAULTS);
      assert s.ou[a := Ou.Frozen][a := Ou.Active] == s.ou[a := Ou.Active];
      var record := s.accounts[a];
      assert s.accounts[a := record.(status := Ou.Frozen)][a := record.(status := Ou.Active)]
          == s.accounts[a := record.(status := Ou.Active)];
    }
  }

  predicate MayFreeze(s: State, k: LeaseKey, lease: Lease) {
    && lease.status.Active? && Tracked(s, lease.awsAccountId) && k.userEmail in s.directory
    && s.accounts[lease.awsAccountId.value].status == Ou.Active
  }

  predicate UnitWasFrozen(s: State, a: AccountId, f: FreezeFaults) {
    f.revoke.RevokesAll? && InOu(s, a, Ou.Active) && !f.move.UnitMoveFails?
  }

  predicate RecordWasFrozen(s: State, a: AccountId, f: FreezeFaults) {
    UnitWasFrozen(s, a, f) && !f.move.RecordPutFails?
  }

  /**
    What a failed freezing leaves, for every pattern of faults. Access is revoked before the transaction and nothing
    grants it again: an active lease may be left whose user has no access.
   */
  lemma FreezeOutcome(s: State, k: LeaseKey, lease: Lease, f: FreezeFaults)
    requires MayFreeze(s, k, lease)
    ensures var r, a := FreezeUnderFaults(s, k, lease, f), lease.awsAccountId.value;
            var moved, put := UnitWasFrozen(s, a, f), RecordWasFrozen(s, a, f);
            && (r.outcome.Ok? <==> put && !f.lease && k in s.leases)
            && (!r.outcome.Ok? ==>
                  SameButClock(r.state, RevokeUnderFault(s, a, f.revoke).(
                    ou := if moved && (!put || f.undoMove.UnitMoveFails?) then s.ou[a := Ou.Frozen] else s.ou,
                    accounts :=
                      if put && !f.undoMove.NoFault? then s.accounts[a := s.accounts[a].(status := Ou.Frozen)]
                      else s.accounts)))
  {
    var a, frozen := lease.awsAccountId.value, lease.(status := LeaseStatus.Frozen);
    var revoked := RevokeUnderFault(s, a, f.revoke);
    if f.revoke.RevokesAll? {
      hide CompleteSpec, FreezeSteps, FreezeRun, GrantsWithout;
      FreezeRuns(revoked, k, frozen, a, s.accounts[a], f);
      FreezeRunEnds(revoked, k, frozen, a, f);
    }
  }

  /** A freezing that succeeds is that of the life cycle; else its error tells what failed. */
  lemma FreezingReplies(s: State, k: LeaseKey, lease: Lease, f: FreezeFaults)
    requires MayFreeze(s, k, lease)
    ensures var r, a := FreezeUnderFaults(s, k, lease, f), lease.awsAccountId.value;
            && (r.outcome.Ok? ==> r == FreezeSpec(s, k, lease))
            && (r.outcome.Fail? ==>
                  r.outcome.error ==
                    if f.revoke.StopsBefore? then CallFailed
                    else if RecordWasFrozen(s, a, f) && !f.undoMove.NoFault? then RollbackFailedError
                    else TransactionFailedAndRolledBack)
  {
    hide CompleteSpec, FreezeSteps, PutLease, GrantsWithout;
    var a, frozen := lease.awsAccountId.value, lease.(status := LeaseStatus.Frozen);
    FreezeRuns(RevokeAll(s, a), k, frozen, a, s.accounts[a], f);
  }

  lemma FreezeRunEnds(s: State, k: LeaseKey, lease: Lease, a: AccountId, f: FreezeFaults)
    requires a in s.accounts && s.accounts[a].status == Ou.Active
    ensures var run := FreezeRun(s, k, lease, a, s.accounts[a], f);
            var moved := CanMove(s, a, Ou.Active, Ou.Frozen) && !f.move.UnitMoveFails?;
            var put := moved && !f.move.RecordPutFails?;
            && (run.Committed? <==> put && !f.lease && k in s.leases)
            && (!run.Committed? ==>
                  SameButClock(run.state, s.(
                    ou := if moved && (!put || f.undoMove.UnitMoveFails?) then s.ou[a := Ou.Frozen] else s.ou,
                    accounts :=
                      if put && !f.undoMove.NoFault? then s.accounts[a := s.accounts[a].(status := Ou.Frozen)]
                      else s.accounts)))
  {
    var record := s.accounts[a];
    var (moved, ok) := Move(s, a, record, Ou.Active, Ou.Frozen, f.move);
    MovedBackIs(s, a, Ou.Active, Ou.Frozen, f.move, f.undoMove);
    MoveReturns(s, a, record, Ou.Active, Ou.Frozen, f.move, f.undoMove);
    MoveKeepsLeases(s, a, record, Ou.Active, Ou.Frozen, f.move);
    MoveIgnoresClock(moved, a, record, Ou.Frozen, Ou.Active, f.undoMove);
    hide Move, PutLease;
  }

  lemma MoveIgnoresClock(s: State, a: AccountId, record: AccountRecord, from: Ou, to: Ou, fault: MoveFault)
    ensures Move(Tick(s), a, record, from, to, fault).0 == Tick(Move(s, a, record, from, to, fault).0)
  {
    hide Move;
    MoveChanges(s, a, record, from, to, fault);
    MoveChanges(Tick(s), a, record, from, to, fault);
  }

  lemma MoveChanges(s: State, a: AccountId, record: AccountRecord, from: Ou, to: Ou, fault: MoveFault)
    ensures var moved := CanMove(s, a, from, to) && !fault.UnitMoveFails?;
            Move(s, a, record, from, to, fault).0 == s.(
              ou := if moved then s.ou[a := to] else s.ou,
              accounts :=
                if moved && StorableStatus(to) && !fault.RecordPutFails? then s.accounts[a := record.(status := to)]
                else s.accounts)
  {
  }

  /**
    A failed freezing restores the state iff nobody lost access, no record was lost after its account had moved, and no
    call of the rollback failed. Once access was revoked, the first means that nobody had any.
   */
  lemma FreezeRestoresIff(s: State, k: LeaseKey, lease: Lease, f: FreezeFaults)
    requires MayFreeze(s, k, lease)
    ensures var r, a := FreezeUnderFaults(s, k, lease, f), lease.awsAccountId.value;
            !r.outcome.Ok? ==>
              (SameButClock(s, r.state) <==>
                 && (forall u :: (a, u) in s.grants ==> f.revoke.StopsBefore? && u in f.revoke.kept)
                 && (UnitWasFrozen(s, a, f) ==> RecordWasFrozen(s, a, f))
                 && (RecordWasFrozen(s, a, f) ==> f.undoMove.NoFault?))
  {
    FreezeOutcome(s, k, lease, f);
    hide FreezeUnderFaults;
    var r, a := FreezeUnderFaults(s, k, lease, f), lease.awsAccountId.value;
    AccessKeptIff(s, a, f.revoke);
    hide RevokeAll;
    assert s.ou[a := Ou.Frozen][a] == Ou.Frozen;
    assert s.accounts[a := s.accounts[a].(status := Ou.Frozen)][a].status == Ou.Frozen;
  }

  lemma AccessKeptIff(s: State, a: AccountId, fault: RevokeFault)
    ensures RevokeUnderFault(s, a, fault).grants == s.grants <==>
            forall u :: (a, u) in s.grants ==> fault.StopsBefore? && u in fault.kept
    ensures RevokeUnderFault(s, a, fault) == s.(grants := RevokeUnderFault(s, a, fault).grants)
    ensures forall b, u :: (b, u) in RevokeUnderFault(s, a, fault).grants <==>
                             (b, u) in s.grants && (b != a || (fault.StopsBefore? && u in fault.kept))
  {
    var grants := RevokeUnderFault(s, a, fault).grants;
    forall u | (a, u) in s.grants && !(fault.StopsBefore? && u in fault.kept)
      ensures (a, u) !in grants
    {
    }
    if forall u :: (a, u) in s.grants ==> fault.StopsBefore? && u in fault.kept {
      forall g | g in s.grants
        ensures g in grants
      {
        assert g == (g.0, g.1);
      }
      assert grants == s.grants;
    }
  }

  // ----- Registration: account move, access of the two groups -----

  /** The assignment of the admins comes last, so that it is never undone. */
  datatype RegisterFaults = RegisterFaults(
    move: MoveFault, manager: bool, admin: bool, undoMove: MoveFault, undoManager: bool)

  const NO_REGISTER_FAULTS := RegisterFaults(NoFault, false, false, NoFault, false)

  function RegisterSteps(a: AccountId, f: RegisterFaults): (steps: seq<Step<State, StepResult>>)
    ensures steps != []
  {
    [MoveStep(a, NEW_ACCOUNT_RECORD, Ou.Entry, Ou.CleanUp, f.move, f.undoMove),
     AssignGroupStep(a, Manager, f.manager, f.undoManager),
     AssignGroupStep(a, Admin, f.admin, false)]
  }

  function RegisterUnderFaults(s: State, a: AccountId, described: bool, f: RegisterFaults): Reply {
    if !described then Reply(s, Fail(CouldNotFindAccount))
    else Replied(CompleteSpec(RegisterSteps(a, f), s), [CleanAccountRequest(a)])
  }

  /** The transaction call by call. */
  function RegisterRun(s: State, a: AccountId, f: RegisterFaults): Transactions.Outcome<State, StepResult> {
    var (moved, ok) := Move(s, a, NEW_ACCOUNT_RECORD, Ou.Entry, Ou.CleanUp, f.move);
    if !ok then RolledBack(moved)
    else if f.manager then UndoRegisterMove(moved, a, f, true)
    else
      var managed := moved.(groupGrants := moved.groupGrants + {(a, Manager)});
      if !f.admin then Committed(managed.(groupGrants := managed.groupGrants + {(a, Admin)}), NO_RESULT)
      else
        var u := if f.undoManager then managed else managed.(groupGrants := managed.groupGrants - {(a, Manager)});
        UndoRegisterMove(u, a, f, !f.undoManager)
  }

  function UndoRegisterMove(u: State, a: AccountId, f: RegisterFaults, othersUndone: bool)
    : Transactions.Outcome<State, StepResult>
  {
    var (back, undone) := Move(u, a, NEW_ACCOUNT_RECORD, Ou.CleanUp, Ou.Entry, f.undoMove);
    Ended(othersUndone && undone, back)
  }

  lemma RegisterRuns(s: State, a: AccountId, f: RegisterFaults)
    ensures CompleteSpec(RegisterSteps(a, f), s) == RegisterRun(s, a, f)
  {
    hide Move, Begin, Rollback, CompleteSpec, MoveStep, AssignGroupStep;
    var x := MoveStep(a, NEW_ACCOUNT_RECORD, Ou.Entry, Ou.CleanUp, f.move, f.undoMove);
    var y, z := AssignGroupStep(a, Manager, f.manager, f.undoManager), AssignGroupStep(a, Admin, f.admin, false);
    ThreeSteps(x, y, z, s);
    var moved := Move(s, a, NEW_ACCOUNT_RECORD, Ou.Entry, Ou.CleanUp, f.move).0;
    var managed := moved.(groupGrants := moved.groupGrants + {(a, Manager)});
    var u := if f.undoManager then managed else managed.(groupGrants := managed.groupGrants - {(a, Manager)});
    AssignGroupRuns(moved, a, Manager, f.manager, f.undoManager, managed);
    AssignGroupRuns(managed, a, Admin, f.admin, false, managed);
    MoveRuns(s, a, NEW_ACCOUNT_RECORD, Ou.Entry, Ou.CleanUp, f.move, f.undoMove, moved);
    MoveRuns(s, a, NEW_ACCOUNT_RECORD, Ou.Entry, Ou.CleanUp, f.move, f.undoMove, u);
  }

  /** Without faults the registration is that of the life cycle, also when it fails. */
  lemma RegistrationIsTheSaga(s: State, a: AccountId, described: bool)
    ensures RegisterUnderFaults(s, a, described, NO_REGISTER_FAULTS) == RegisterSpec(s, a, described)
  {
    hide CompleteSpec, RegisterSteps;
    RegisterRuns(s, a, NO_REGISTER_FAULTS);
    var gg := s.groupGrants;
    assert gg + {(a, Manager)} + {(a, Admin)} == gg + {(a, Manager), (a, Admin)};
  }

  // How far a registration comes.

  predicate UnitWasEntered(s: State, a: AccountId, f: RegisterFaults) {
    InOu(s, a, Ou.Entry) && !f.move.UnitMoveFails?
  }

  predicate RecordWasEntered(s: State, a: AccountId, f: RegisterFaults) {
    UnitWasEntered(s, a, f) && !f.move.RecordPutFails?
  }

  predicate ManagersWereAssigned(s: State, a: AccountId, f: RegisterFaults) {
    RecordWasEntered(s, a, f) && !f.manager
  }

  /**
    What a failed registration leaves, for every pattern of faults. Undoing the move writes the status Entry, which the
    account table refuses after the account was moved back, so that every rollback that has a move to undo fails.
   */
  lemma RegistrationOutcome(s: State, a: AccountId, f: RegisterFaults)
    ensures var outcome := CompleteSpec(RegisterSteps(a, f), s);
            var moved, put := UnitWasEntered(s, a, f), RecordWasEntered(s, a, f);
            var managed := ManagersWereAssigned(s, a, f);
            && (outcome.Committed? <==> managed && !f.admin)
            && (outcome.Committed? ==>
                  Reply(Send(outcome.state, [CleanAccountRequest(a)]), Ok) == RegisterSpec(s, a, true))
            && (!outcome.Committed? ==>
                  && (outcome.RollbackFailed? <==> put)
                  && outcome.state == s.(
                       ou := if moved && (!put || f.undoMove.UnitMoveFails?) then s.ou[a := Ou.CleanUp] else s.ou,
                       accounts := if put then s.accounts[a := NEW_ACCOUNT_RECORD] else s.accounts,
                       groupGrants :=
                         if !managed then s.groupGrants
                         else if f.undoManager then s.groupGrants + {(a, Manager)}
                         else s.groupGrants - {(a, Manager)}))
  {
    hide CompleteSpec, RegisterSteps;
    RegisterRuns(s, a, f);
    assert s.groupGrants + {(a, Manager)} - {(a, Manager)} == s.groupGrants - {(a, Manager)};
    assert InOu(s, a, Ou.Entry) ==> s.ou[a := Ou.CleanUp][a := Ou.Entry] == s.ou;
  }

  /** A failed registration of an untracked account restores the state iff the account was not moved at all. */
  lemma RegistrationRollback(s: State, a: AccountId, f: RegisterFaults)
    requires a !in s.accounts
    ensures var outcome := CompleteSpec(RegisterSteps(a, f), s);
            !outcome.Committed? ==> (outcome.state == s <==> !UnitWasEntered(s, a, f))
  {
    RegistrationOutcome(s, a, f);
    hide CompleteSpec, RegisterSteps;
    assert s.ou[a := Ou.CleanUp][a] == Ou.CleanUp;
    assert a in s.accounts[a := NEW_ACCOUNT_RECORD];
  }
}
