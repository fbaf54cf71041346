/**
  Drift between the account table and the organizational units: the scan that detects it, the debounce by which only a
  drift seen at two consecutive scans raises an alert, and the convergence that the alerts bring about.
 */
module DriftMonitoring {
  import opened Domain
  import opened SandboxState
  import opened SandboxServices
  import Lifecycle

  datatype Alert = Alert(accountId: AccountId, expectedOu: Option<Ou>, actualOu: Option<Ou>)

  function OuAt(s: State, a: AccountId): Option<Ou> {
    if a in s.ou then Some(s.ou[a]) else None
  }

  /** The table and the unit of a tracked account disagree. */
  predicate Drifts(s: State, a: AccountId) {
    a in s.accounts && OuAt(s, a) != Some(s.accounts[a].status)
  }

  /** The account is in the sandbox proper without being tracked. */
  predicate IsStray(s: State, a: AccountId) {
    a !in s.accounts && a in s.ou && s.ou[a] != Ou.Entry && s.ou[a] != Ou.Exit
  }

  function AlertFor(s: State, a: AccountId): Alert {
    Alert(a, if a in s.accounts then Some(s.accounts[a].status) else None, OuAt(s, a))
  }

  /** The alerts of a scan: drifts that the last scan saw already, and strays at once. */
  predicate Alerted(s: State, a: AccountId) {
    (Drifts(s, a) && s.accounts[a].driftAtLastScan) || IsStray(s, a)
  }

  ghost predicate IsAlert(s: State, alert: Alert) {
    Alerted(s, alert.accountId) && alert == AlertFor(s, alert.accountId)
  }

  /** What a scan leaves in the table. */
  function AfterScan(s: State): State {
    s.(accounts := map a | a in s.accounts :: s.accounts[a].(driftAtLastScan := Drifts(s, a)))
  }

  /** Table and unit agree about a tracked account, and an untracked one is not in the sandbox proper. */
  predicate Agree(s: State, a: AccountId) {
    if a in s.accounts then a in s.ou && s.ou[a] == s.accounts[a].status
    else a in s.ou ==> s.ou[a] == Ou.Entry || s.ou[a] == Ou.Exit
  }

  /** What a scan alerts, told from table and units alone. */
  lemma AlertsAre(s: State, alert: Alert)
    ensures IsAlert(s, alert) <==>
              var a := alert.accountId;
              && !Agree(s, a) && alert.actualOu == (if a in s.ou then Some(s.ou[a]) else None)
              && if a in s.accounts
                 then s.accounts[a].driftAtLastScan && alert.expectedOu == Some(s.accounts[a].status)
                 else alert.expectedOu == None
  {
  }

  /** A scan writes into every record whether its account agrees, and nothing else anywhere. */
  lemma ScanRecords(s: State)
    ensures var t := AfterScan(s);
            && t == s.(accounts := t.accounts) && t.accounts.Keys == s.accounts.Keys
            && forall a :: a in s.accounts ==> t.accounts[a] == s.accounts[a].(driftAtLastScan := !Agree(s, a))
  {
  }

  const ALL_UNITS := [Ou.Available, Ou.Active, Ou.CleanUp, Ou.Quarantine, Ou.Frozen, Ou.Entry, Ou.Exit]

  lemma EveryUnitIsListed(o: Ou)
    ensures o in ALL_UNITS
  {
    var i := match o
      case Available => 0
      case Active => 1
      case CleanUp => 2
      case Quarantine => 3
      case Frozen => 4
      case Entry => 5
      case Exit => 6;
    assert ALL_UNITS[i] == o;
  }

  // ----- The scan -----

  class AccountDriftMonitor {
    const accountStore: SandboxAccountStore
    const orgs: SandboxOuService
    var alerts: seq<Alert>

    constructor (accountStore: SandboxAccountStore, orgs: SandboxOuService)
      ensures this.accountStore == accountStore && this.orgs == orgs && alerts == []
    {
      this.accountStore, this.orgs := accountStore, orgs;
      alerts := [];
    }

    /** The units of all accounts, collected unit by unit. */
    method DiscoverAllAccountsInOUs() returns (found: map<AccountId, Ou>)
      ensures found == orgs.ou
    {
      found := map[];
      var units := ALL_UNITS;
      var i := 0;
      while i < |units|
        invariant 0 <= i <= |units|
        invariant forall a :: a in found <==> a in orgs.ou && orgs.ou[a] in units[..i]
        invariant forall a :: a in found ==> found[a] == orgs.ou[a]
      {
        var members := orgs.ListAllAccountsInOU(units[i]);
        var j := 0;
        while j < |members|
          invariant 0 <= j <= |members|
          invariant forall a :: a in found <==> a in orgs.ou && (orgs.ou[a] in units[..i] || a in members[..j])
          invariant forall a :: a in found ==> found[a] == orgs.ou[a]
        {
          assert members[j] in members;
          found := found[members[j] := units[i]];
          j := j + 1;
        }
        assert members[..j] == members;
        i := i + 1;
      }
      forall a | a in orgs.ou
        ensures a in found
      {
        assert units[..i] == units;
        EveryUnitIsListed(orgs.ou[a]);
      }
    }

    /** Splits the tracked accounts by drift; what remains of the discovered ones is untracked. */
    method DetectDriftStatus()
      returns (notInDrift: seq<AccountId>, inDrift: seq<AccountId>, untracked: map<AccountId, Ou>)
      ensures forall a :: a in inDrift <==> a in accountStore.table && DriftsIn(accountStore.table, orgs.ou, a)
      ensures forall a :: a in notInDrift <==> a in accountStore.table && !DriftsIn(accountStore.table, orgs.ou, a)
      ensures |inDrift| + |notInDrift| == |accountStore.table|
      ensures untracked == orgs.ou - accountStore.table.Keys
    {
      hide DriftsIn;
      untracked := DiscoverAllAccountsInOUs();
      notInDrift, inDrift := [], [];
      var listed := Enumerate(accountStore.table.Keys);
      ListingLength(listed, accountStore.table.Keys);
      var i := 0;
      while i < |listed|
        invariant 0 <= i <= |listed|
        invariant |inDrift| + |notInDrift| == i
        invariant forall a :: a in inDrift <==> a in listed[..i] && DriftsIn(accountStore.table, orgs.ou, a)
        invariant forall a :: a in notInDrift <==> a in listed[..i] && !DriftsIn(accountStore.table, orgs.ou, a)
        invariant forall a :: a in untracked <==> a in orgs.ou && a !in listed[..i]
        invariant forall a :: a in untracked ==> untracked[a] == orgs.ou[a]
      {
        var a := listed[i];
        assert a !in listed[..i];
        var actualOu := if a in untracked then Some(untracked[a]) else None;
        DriftsInIff(accountStore.table, orgs.ou, a, actualOu);
        if Some(accountStore.table[a].status) != actualOu {
          inDrift := inDrift + [a];
        } else {
          notInDrift := notInDrift + [a];
        }
        untracked := untracked - {a};
        i := i + 1;
      }
      assert listed[..i] == listed;
    }

    /** Writes back the records whose flag changes. */
    method PutFlags(ids: seq<AccountId>, flag: bool)
      requires forall a :: a in ids ==> a in accountStore.table
      requires forall a :: a in accountStore.table ==> StorableStatus(accountStore.table[a].status)
      modifies accountStore
      ensures accountStore.table.Keys == old(accountStore.table).Keys
      ensures forall a :: a in accountStore.table ==>
                accountStore.table[a] ==
                  if a in ids then old(accountStore.table)[a].(driftAtLastScan := flag) else old(accountStore.table)[a]
    {
      var i := 0;
      while i < |ids|
        invariant 0 <= i <= |ids|
        invariant forall a :: a in accountStore.table <==> a in old(accountStore.table)
        invariant forall a :: a in old(accountStore.table) ==>
                    accountStore.table[a] ==
                      if a in ids[..i] then old(accountStore.table)[a].(driftAtLastScan := flag)
                      else old(accountStore.table)[a]
      {
        assert ids[i] in ids;
        if accountStore.table[ids[i]].driftAtLastScan != flag {
          var _ := accountStore.Put(ids[i], accountStore.table[ids[i]].(driftAtLastScan := flag));
        }
        i := i + 1;
      }
      assert ids[..i] == ids;
    }

    method AlertDrifting(inDrift: seq<AccountId>, ghost s: State)
      requires s.accounts == accountStore.table && s.ou == orgs.ou
      requires forall a :: a in inDrift <==> Drifts(s, a)
      modifies this`alerts
      ensures old(alerts) <= alerts
      ensures forall alert: Alert ::
                alert in alerts[|old(alerts)|..] <==> IsAlert(s, alert) && alert.accountId in s.accounts
    {
      var sent: seq<Alert> := [];
      var i := 0;
      while i < |inDrift|
        invariant 0 <= i <= |inDrift|
        invariant forall alert: Alert :: alert in sent <==>
                    && alert.accountId in inDrift[..i]
                    && Alerted(s, alert.accountId) && alert == AlertFor(s, alert.accountId)
      {
        var a := inDrift[i];
        assert a in inDrift;
        if accountStore.table[a].driftAtLastScan {
          sent := sent + [Alert(a, Some(accountStore.table[a].status), if a in orgs.ou then Some(orgs.ou[a]) else None)];
        }
        i := i + 1;
      }
      assert inDrift[..i] == inDrift;
      alerts := alerts + sent;
      assert alerts[|old(alerts)|..] == sent;
    }

    method AlertStrays(untracked: map<AccountId, Ou>, ghost s: State)
      requires s.ou == orgs.ou && untracked == s.ou - s.accounts.Keys
      modifies this`alerts
      ensures old(alerts) <= alerts
      ensures forall alert: Alert ::
                alert in alerts[|old(alerts)|..] <==> IsAlert(s, alert) && alert.accountId !in s.accounts
    {
      var listed := Enumerate(untracked.Keys);
      var sent: seq<Alert> := [];
      var i := 0;
      while i < |listed|
        invariant 0 <= i <= |listed|
        invariant forall alert: Alert :: alert in sent <==>
                    && alert.accountId in listed[..i]
                    && Alerted(s, alert.accountId) && alert == AlertFor(s, alert.accountId)
      {
        var a := listed[i];
        assert a in listed;
        if untracked[a] != Ou.Entry && untracked[a] != Ou.Exit {
          sent := sent + [Alert(a, None, Some(untracked[a]))];
        }
        i := i + 1;
      }
      assert listed[..i] == listed;
      alerts := alerts + sent;
      assert alerts[|old(alerts)|..] == sent;
    }

    method RaiseAlerts(inDrift: seq<AccountId>, untracked: map<AccountId, Ou>, ghost s: State)
      requires s.accounts == accountStore.table && s.ou == orgs.ou && alerts == []
      requires forall a :: a in inDrift <==> Drifts(s, a)
      requires untracked == s.ou - s.accounts.Keys
      modifies this`alerts
      ensures forall alert: Alert :: alert in alerts <==> IsAlert(s, alert)
    {
      hide IsAlert;
      AlertDrifting(inDrift, s);
      assert alerts[0..] == alerts;
      ghost var ofDrifts := alerts;
      AlertStrays(untracked, s);
      assert alerts == ofDrifts + alerts[|ofDrifts|..];
    }

    method RecordDrift(notInDrift: seq<AccountId>, inDrift: seq<AccountId>, ghost s: State)
      requires s.accounts == accountStore.table
      requires forall a :: a in accountStore.table ==> StorableStatus(accountStore.table[a].status)
      requires forall a :: a in inDrift <==> Drifts(s, a)
      requires forall a :: a in notInDrift <==> a in s.accounts && !Drifts(s, a)
      modifies accountStore
      ensures accountStore.table == AfterScan(s).accounts
    {
      assert forall a :: a in inDrift || a in notInDrift ==> a in s.accounts;
      hide Drifts;
      PutFlags(inDrift, true);
      PutFlags(notInDrift, false);
      assert accountStore.table.Keys == s.accounts.Keys;
    }

    /** One scan: raises exactly the alerts of the state it sees and records who drifted. */
    method DoAccountDriftMonitoring(ghost s: State)
      requires s.accounts == accountStore.table && s.ou == orgs.ou && alerts == []
      requires forall a :: a in accountStore.table ==> StorableStatus(accountStore.table[a].status)
      modifies this, accountStore
      ensures accountStore.table == AfterScan(s).accounts
      ensures forall alert: Alert :: alert in alerts <==> IsAlert(s, alert)
    {
      var notInDrift, inDrift, untracked := DetectDriftStatus();
      assert forall a :: a in s.accounts ==> (DriftsIn(s.accounts, s.ou, a) <==> Drifts(s, a));
      hide IsAlert, AfterScan, DriftsIn;
      RaiseAlerts(inDrift, untracked, s);
      RecordDrift(notInDrift, inDrift, s);
    }
  }

  predicate DriftsIn(accounts: map<AccountId, AccountRecord>, ou: map<AccountId, Ou>, a: AccountId)
    requires a in accounts
  {
    !(a in ou && ou[a] == accounts[a].status)
  }

  lemma DriftsInIff(accounts: map<AccountId, AccountRecord>, ou: map<AccountId, Ou>, a: AccountId, actualOu: Option<Ou>)
    requires a in accounts && actualOu == if a in ou then Some(ou[a]) else None
    ensures DriftsIn(accounts, ou, a) <==> Some(accounts[a].status) != actualOu
  {
  }

  lemma {:induction false} ListingLength<T>(q: seq<T>, s: set<T>)
    requires forall x :: x in q <==> x in s
    requires forall i, j :: 0 <= i < j < |q| ==> q[i] != q[j]
    ensures |q| == |s|
    decreases |q|
  {
    if q != [] {
      assert q[0] in q;
      forall x
        ensures x in q[1..] <==> x in s - {q[0]}
      {
        if x in q && x != q[0] {
          var i :| 0 <= i < |q| && q[i] == x;
          assert q[1..][i - 1] == x;
        }
      }
      ListingLength(q[1..], s - {q[0]});
    }
  }

  // ----- No false alarms, and two scans before an alert -----

  /** A closed run never raises an alert. */
  lemma NoFalseAlarms(states: seq<State>, ops: seq<Lifecycle.Op>, c: Lifecycle.Config, i: nat)
    requires Lifecycle.IsRun(states, ops, c) && i <= |ops|
    ensures forall alert: Alert :: !IsAlert(states[i], alert)
  {
    Lifecycle.RunSafety(states, ops, c, i);
  }

  /** What may happen between two scans, also outside of the sandbox. */
  datatype Happening =
    | Operation(op: Lifecycle.Op)
    | DriftHandled(accountId: AccountId, actualOu: Option<Ou>, listing: seq<LeaseKey>)
    | OutsideMoves(ou: map<AccountId, Ou>)

  ghost predicate Happens(s: State, h: Happening, c: Lifecycle.Config, t: State) {
    match h
    case Operation(op) => Lifecycle.Enabled(s, op) && t == Lifecycle.Apply(s, op, c).state
    case DriftHandled(a, actualOu, listing) =>
      IsLeaseListing(s, a, listing) && t == HandleDriftSpec(s, a, actualOu, listing).state
    case OutsideMoves(ou) => t == s.(ou := ou)
  }

  predicate Ends(s: State, k: LeaseKey) {
    k in s.leases && Tracked(s, s.leases[k].awsAccountId) && k.userEmail in s.directory
  }

  /** Ending one lease, for a reason that its event can name, and without clean-up. */
  lemma TerminateStep(s: State, k: LeaseKey, reason: LeaseStatus)
    requires k in s.leases && (reason == AccountQuarantined || reason == Ejected)
    ensures var r := TerminateSpec(s, k, s.leases[k], reason, false);
            && (r.outcome.Ok? <==> Ends(s, k))
            && (r.outcome.Fail? ==> r.state == s)
            && r.state.accounts == s.accounts && r.state.ou == s.ou && r.state.directory == s.directory
            && (r.outcome.Ok? ==>
                  && k in r.state.leases && r.state.leases == s.leases[k := r.state.leases[k]]
                  && r.state.leases[k].status == reason
                  && r.state.leases[k].awsAccountId == s.leases[k].awsAccountId
                  && r.state.grants == GrantsWithout(s.grants, s.leases[k].awsAccountId.value))
  {
  }

  lemma {:induction false} TerminateAllKeepsAccounts(s: State, listing: seq<LeaseKey>, reason: LeaseStatus)
    requires forall k :: k in listing ==> k in s.leases
    requires reason == AccountQuarantined || reason == Ejected
    ensures var t := TerminateAllSpec(s, listing, reason).state;
            t.accounts == s.accounts && t.ou == s.ou && t.directory == s.directory
    decreases |listing|
  {
    hide TerminateSpec;
    if listing != [] {
      TerminateStep(s, listing[0], reason);
      var first := TerminateSpec(s, listing[0], s.leases[listing[0]], reason, false);
      if first.outcome.Ok? {
        TerminateAllKeepsAccounts(first.state, listing[1..], reason);
      }
    }
  }

  predicate FlagKept(s: State, t: State, a: AccountId) {
    a in s.accounts && a in t.accounts ==> t.accounts[a].driftAtLastScan == s.accounts[a].driftAtLastScan
  }

  lemma QuarantineKeepsFlag(s: State, b: AccountId, from: Ou, listing: seq<LeaseKey>, a: AccountId)
    requires IsLeaseListing(s, b, listing)
    ensures FlagKept(s, QuarantineSpec(s, b, from, listing).state, a)
  {
    TerminateAllKeepsAccounts(s, listing, AccountQuarantined);
    hide TerminateAllSpec;
  }

  lemma EjectKeepsFlag(s: State, b: AccountId, listing: seq<LeaseKey>, a: AccountId)
    requires IsLeaseListing(s, b, listing) && b in s.accounts
    ensures FlagKept(s, EjectSpec(s, b, s.accounts[b], listing).state, a)
  {
    TerminateAllKeepsAccounts(s, listing, Ejected);
    hide TerminateAllSpec;
  }

  /** A move writes the record back that it was given, but for the status. */
  lemma MoveKeepsFlag(s: State, b: AccountId, from: Ou, to: Ou, fault: MoveFault, a: AccountId)
    requires b in s.accounts
    ensures FlagKept(s, Move(s, b, s.accounts[b], from, to, fault).0, a)
  {
  }

  lemma LeaseMoveGrantKeepsFlag(s: State, k: LeaseKey, lease: Lease, b: AccountId, from: Ou, to: Ou, a: AccountId)
    requires b in s.accounts
    ensures FlagKept(s, LeaseMoveGrantSpec(s, k, lease, b, s.accounts[b], from, to).0, a)
  {
    hide Move;
    MoveKeepsFlag(PutLease(s, k, lease), b, from, to, NoFault, a);
  }

  lemma ApproveKeepsFlag(s: State, k: LeaseKey, lease: Lease, approver: string, pick: Option<AccountId>, a: AccountId)
    requires pick.Some? ==> pick.value in s.accounts
    ensures FlagKept(s, ApproveSpec(s, k, lease, approver, pick).state, a)
  {
    hide LeaseMoveGrantSpec;
    if pick.Some? {
      LeaseMoveGrantKeepsFlag(
        s, k, ApprovedLease(lease, approver, pick.value, s.clock), pick.value, Ou.Available, Ou.Active, a);
    }
  }

  lemma RequestKeepsFlag(
    s: State, k: LeaseKey, t: Template, onBehalf: bool, maxLeasesPerUser: int, pick: Option<AccountId>, a: AccountId)
    requires pick.Some? ==> pick.value in s.accounts
    ensures FlagKept(s, RequestSpec(s, k, t, onBehalf, maxLeasesPerUser, pick).state, a)
  {
    hide ApproveSpec;
    var created := PutLease(s, k, RequestedLease(t));
    ApproveKeepsFlag(created, k, created.leases[k], "AUTO_APPROVED", pick, a);
  }

  lemma UnfreezeKeepsFlag(s: State, k: LeaseKey, lease: Lease, a: AccountId)
    ensures FlagKept(s, UnfreezeSpec(s, k, lease).state, a)
  {
    hide LeaseMoveGrantSpec;
    if Tracked(s, lease.awsAccountId) {
      LeaseMoveGrantKeepsFlag(
        s, k, lease.(status := LeaseStatus.Active), lease.awsAccountId.value, Ou.Frozen, Ou.Active, a);
    }
  }

  lemma FreezeKeepsFlag(s: State, k: LeaseKey, lease: Lease, a: AccountId)
    ensures FlagKept(s, FreezeSpec(s, k, lease).state, a)
  {
    hide GrantsWithout;
  }

  lemma TerminateKeepsFlag(
    s: State, k: LeaseKey, lease: Lease, expiredStatus: LeaseStatus, autoCleanup: bool, a: AccountId)
    ensures FlagKept(s, TerminateSpec(s, k, lease, expiredStatus, autoCleanup).state, a)
  {
    hide EndSpec;
    if Tracked(s, lease.awsAccountId) {
      var b := lease.awsAccountId.value;
      var moved := if autoCleanup then MoveAndPut(s, b, s.accounts[b], Ou.CleanUp) else s;
      EndKeepsAccounts(moved, k, lease, expiredStatus, b, if autoCleanup then [CleanAccountRequest(b)] else []);
    }
  }

  lemma EndKeepsAccounts(
    s: State, k: LeaseKey, lease: Lease, expiredStatus: LeaseStatus, a: AccountId, pending: seq<Event>)
    ensures EndSpec(s, k, lease, expiredStatus, a, pending).state.accounts == s.accounts
  {
  }

  lemma LeaseOperationKeepsFlag(s: State, op: Lifecycle.Op, c: Lifecycle.Config, a: AccountId)
    requires Lifecycle.Enabled(s, op)
    requires op.Request? || op.Approve? || op.Freeze? || op.Unfreeze? || op.Terminate?
    ensures FlagKept(s, Lifecycle.Apply(s, op, c).state, a)
  {
    hide RequestSpec, ApproveSpec, FreezeSpec, UnfreezeSpec, TerminateSpec;
    if op.Request? {
      RequestKeepsFlag(s, op.key, op.template, op.onBehalf, c.maxLeasesPerUser, op.pick, a);
    } else if op.key in s.leases {
      var lease := s.leases[op.key];
      match op
      case Approve(k, approver, pick) => ApproveKeepsFlag(s, k, lease, approver, pick, a);
      case Freeze(k) => FreezeKeepsFlag(s, k, lease, a);
      case Unfreeze(k) => UnfreezeKeepsFlag(s, k, lease, a);
      case Terminate(k, reason) => TerminateKeepsFlag(s, k, lease, reason, true, a);
    }
  }

  lemma OperationKeepsFlag(s: State, op: Lifecycle.Op, c: Lifecycle.Config, a: AccountId)
    requires Lifecycle.Enabled(s, op) && !(op.Register? && op.accountId == a)
    ensures FlagKept(s, Lifecycle.Apply(s, op, c).state, a)
  {
    hide EjectSpec, QuarantineSpec;
    if op.Request? || op.Approve? || op.Freeze? || op.Unfreeze? || op.Terminate? {
      LeaseOperationKeepsFlag(s, op, c, a);
    } else if op.Eject? {
      if op.accountId in s.accounts { EjectKeepsFlag(s, op.accountId, op.listing, a); }
    } else if op.CleanupFailed? {
      QuarantineKeepsFlag(s, op.accountId, Ou.CleanUp, op.listing, a);
    }
  }

  lemma HappeningKeepsFlag(s: State, h: Happening, c: Lifecycle.Config, t: State, a: AccountId)
    requires Happens(s, h, c, t)
    requires !(h.Operation? && h.op.Register? && h.op.accountId == a)
    ensures FlagKept(s, t, a)
  {
    hide QuarantineSpec, Lifecycle.Apply, Lifecycle.Enabled;
    if h.Operation? {
      OperationKeepsFlag(s, h.op, c, a);
    } else if h.DriftHandled? && h.actualOu.Some? {
      QuarantineKeepsFlag(s, h.accountId, h.actualOu.value, h.listing, a);
    }
  }

  lemma {:induction false} FlagSurvives(
    states: seq<State>, happenings: seq<Happening>, c: Lifecycle.Config, a: AccountId, i: nat)
    requires |states| == |happenings| + 1 && i <= |happenings|
    requires forall j :: 0 <= j < |happenings| ==> Happens(states[j], happenings[j], c, states[j + 1])
    requires forall j :: 0 <= j < |states| ==> a in states[j].accounts
    requires forall op :: Operation(op) in happenings ==> !(op.Register? && op.accountId == a)
    ensures states[i].accounts[a].driftAtLastScan == states[0].accounts[a].driftAtLastScan
  {
    if i > 0 {
      FlagSurvives(states, happenings, c, a, i - 1);
      assert happenings[i - 1] in happenings;
      HappeningKeepsFlag(states[i - 1], happenings[i - 1], c, states[i - 1 + 1], a);
    }
  }

  /** Debounce: whatever happens in between, a tracked account is alerted iff it drifts at two consecutive scans. */
  lemma AlertNeedsTwoScans(
    scanned: State, states: seq<State>, happenings: seq<Happening>, c: Lifecycle.Config, a: AccountId)
    requires |states| == |happenings| + 1 && states[0] == AfterScan(scanned)
    requires forall j :: 0 <= j < |happenings| ==> Happens(states[j], happenings[j], c, states[j + 1])
    requires forall j :: 0 <= j < |states| ==> a in states[j].accounts
    requires forall op :: Operation(op) in happenings ==> !(op.Register? && op.accountId == a)
    requires a in scanned.accounts
    ensures var last := states[|happenings|];
            (exists alert :: IsAlert(last, alert) && alert.accountId == a) <==> !Agree(scanned, a) && !Agree(last, a)
  {
    FlagSurvives(states, happenings, c, a, |happenings|);
    var last := states[|happenings|];
    assert Alerted(last, a) <==> IsAlert(last, AlertFor(last, a));
  }

  // ----- Convergence -----

  /** Nothing to report about the account. */
  predicate Settled(s: State, a: AccountId) {
    !Drifts(s, a) && !IsStray(s, a)
  }

  /** A monitored lease on the account cannot be terminated. */
  ghost predicate Blocked(s: State, a: AccountId) {
    exists k :: MonitoredOn(s, k, a) && !(a in s.accounts && k.userEmail in s.directory)
  }

  /** Handling an alert about the account resolves it. */
  ghost predicate Fixable(s: State, a: AccountId) {
    OuAt(s, a).None? || (OuAt(s, a) != Some(Ou.Quarantine) && !Blocked(s, a))
  }

  ghost predicate Stuck(s: State, a: AccountId) {
    !Settled(s, a) && !Fixable(s, a)
  }

  /** The states agree on everything that concerns the account. */
  ghost predicate SameFor(s: State, t: State, a: AccountId) {
    && (a in t.accounts <==> a in s.accounts)
    && (a in s.accounts ==> t.accounts[a] == s.accounts[a])
    && OuAt(t, a) == OuAt(s, a)
    && (forall k :: MonitoredOn(t, k, a) <==> MonitoredOn(s, k, a))
    && (forall u :: (a, u) in t.grants <==> (a, u) in s.grants)
    && t.directory == s.directory
  }

  /** Terminating a list of leases succeeds iff each of them can be ended, and touches no other lease. */
  lemma {:induction false} TerminateAllOutcome(s: State, listing: seq<LeaseKey>, reason: LeaseStatus)
    requires forall k :: k in listing ==> k in s.leases
    requires forall i, j :: 0 <= i < j < |listing| ==> listing[i] != listing[j]
    requires reason == AccountQuarantined
    ensures var r := TerminateAllSpec(s, listing, reason);
            && (r.outcome.Ok? <==> forall k :: k in listing ==> Ends(s, k))
            && r.state.leases.Keys == s.leases.Keys
            && (forall k :: k in s.leases && (k !in listing || !Ends(s, k)) ==> r.state.leases[k] == s.leases[k])
            && (r.outcome.Ok? ==> forall k :: k in listing ==> r.state.leases[k].status == reason)
    decreases |listing|
  {
    hide TerminateSpec;
    if listing != [] {
      var k := listing[0];
      TerminateStep(s, k, reason);
      var first := TerminateSpec(s, k, s.leases[k], reason, false);
      assert forall l :: l in listing <==> l == k || l in listing[1..];
      assert k !in listing[1..];
      if first.outcome.Ok? {
        assert forall l :: l in listing[1..] ==> (Ends(first.state, l) <==> Ends(s, l));
        TerminateAllOutcome(first.state, listing[1..], reason);
      }
    }
  }

  /** Each lease is as before or ended, on the account it was on. */
  lemma {:induction false} TerminateAllOnlyEnds(s: State, listing: seq<LeaseKey>, reason: LeaseStatus, k: LeaseKey)
    requires (forall l :: l in listing ==> l in s.leases) && k in s.leases && reason == AccountQuarantined
    ensures var t := TerminateAllSpec(s, listing, reason).state;
            && k in t.leases && t.leases[k].awsAccountId == s.leases[k].awsAccountId
            && (t.leases[k] == s.leases[k] || t.leases[k].status == reason)
    decreases |listing|
  {
    hide TerminateSpec;
    if listing != [] {
      TerminateStep(s, listing[0], reason);
      var first := TerminateSpec(s, listing[0], s.leases[listing[0]], reason, false);
      if first.outcome.Ok? {
        TerminateAllOnlyEnds(first.state, listing[1..], reason, k);
      }
    }
  }

  /** Ending leases on `a` revokes no access to another account. */
  lemma {:induction false} TerminateAllKeepsAccess(
    s: State, listing: seq<LeaseKey>, reason: LeaseStatus, a: AccountId, b: AccountId, u: Email)
    requires forall k :: k in listing ==> k in s.leases && s.leases[k].awsAccountId == Some(a)
    requires b != a && reason == AccountQuarantined
    ensures (b, u) in TerminateAllSpec(s, listing, reason).state.grants <==> (b, u) in s.grants
    decreases |listing|
  {
    hide TerminateSpec;
    if listing != [] {
      TerminateStep(s, listing[0], reason);
      var first := TerminateSpec(s, listing[0], s.leases[listing[0]], reason, false);
      assert listing[0] in listing;
      assert (b, u) in first.state.grants <==> (b, u) in s.grants;
      if first.outcome.Ok? {
        TerminateAllKeepsAccess(first.state, listing[1..], reason, a, b, u);
      }
    }
  }

  lemma EndingKeepsAccess(s: State, a: AccountId, listing: seq<LeaseKey>, b: AccountId, u: Email)
    requires IsLeaseListing(s, a, listing) && b != a
    ensures (b, u) in TerminateAllSpec(s, listing, AccountQuarantined).state.grants <==> (b, u) in s.grants
  {
    hide TerminateAllSpec;
    TerminateAllKeepsAccess(s, listing, AccountQuarantined, a, b, u);
  }

  lemma EndingKeepsLease(s: State, a: AccountId, listing: seq<LeaseKey>, b: AccountId, k: LeaseKey)
    requires IsLeaseListing(s, a, listing) && b != a
    ensures MonitoredOn(TerminateAllSpec(s, listing, AccountQuarantined).state, k, b) <==> MonitoredOn(s, k, b)
  {
    hide TerminateAllSpec;
    TerminateAllOutcome(s, listing, AccountQuarantined);
    if k in s.leases {
      TerminateAllOnlyEnds(s, listing, AccountQuarantined, k);
    }
  }

  /** Ending the leases on `a` leaves every other account alone. */
  lemma EndingIsLocal(s: State, a: AccountId, listing: seq<LeaseKey>, b: AccountId)
    requires IsLeaseListing(s, a, listing) && b != a
    ensures SameFor(s, TerminateAllSpec(s, listing, AccountQuarantined).state, b)
  {
    TerminateAllKeepsAccounts(s, listing, AccountQuarantined);
    var t := TerminateAllSpec(s, listing, AccountQuarantined).state;
    hide TerminateAllSpec, MonitoredOn;
    forall u
      ensures (b, u) in t.grants <==> (b, u) in s.grants
    {
      EndingKeepsAccess(s, a, listing, b, u);
    }
    forall k
      ensures MonitoredOn(t, k, b) <==> MonitoredOn(s, k, b)
    {
      EndingKeepsLease(s, a, listing, b, k);
    }
  }

  /** The leases on `a` can all be ended iff `a` is not blocked, and it stays blocked if it was. */
  lemma EndingFreesUnlessBlocked(s: State, a: AccountId, listing: seq<LeaseKey>)
    requires IsLeaseListing(s, a, listing)
    ensures var r := TerminateAllSpec(s, listing, AccountQuarantined);
            && (r.outcome.Ok? <==> !Blocked(s, a))
            && (Blocked(s, a) ==> Blocked(r.state, a))
  {
    TerminateAllKeepsAccounts(s, listing, AccountQuarantined);
    TerminateAllOutcome(s, listing, AccountQuarantined);
    hide TerminateAllSpec;
    var r := TerminateAllSpec(s, listing, AccountQuarantined);
    if Blocked(s, a) {
      var k :| MonitoredOn(s, k, a) && !(a in s.accounts && k.userEmail in s.directory);
      assert k in listing && !Ends(s, k);
      assert MonitoredOn(r.state, k, a);
    }
    if r.outcome.Fail? {
      var k :| k in listing && !Ends(s, k);
      assert MonitoredOn(s, k, a);
    }
  }

  lemma HandlingIsLocal(s: State, a: AccountId, actualOu: Option<Ou>, listing: seq<LeaseKey>, b: AccountId)
    requires IsLeaseListing(s, a, listing) && b != a
    ensures SameFor(s, HandleDriftSpec(s, a, actualOu, listing).state, b)
  {
    hide TerminateAllSpec, IsLeaseListing;
    if actualOu.Some? {
      EndingIsLocal(s, a, listing, b);
    }
  }

  /** What handling an alert does to the account itself. */
  lemma HandlingResolves(s: State, a: AccountId, actualOu: Option<Ou>, listing: seq<LeaseKey>)
    requires IsLeaseListing(s, a, listing)
    requires actualOu.None? ==> OuAt(s, a).None?
    ensures var t := HandleDriftSpec(s, a, actualOu, listing).state;
            && (OuAt(s, a).None? ==> OuAt(t, a).None?)
            && (Settled(s, a) ==> Settled(t, a))
            && (Stuck(s, a) && OuAt(s, a) == actualOu ==> Stuck(t, a) && OuAt(t, a) == actualOu)
            && (Fixable(s, a) && OuAt(s, a) == actualOu ==> Settled(t, a))
  {
    if actualOu.Some? {
      EndingFreesUnlessBlocked(s, a, listing);
      TerminateAllKeepsAccounts(s, listing, AccountQuarantined);
      hide TerminateAllSpec, Blocked, IsLeaseListing;
    }
  }

  /** Handles a list of alerts one after the other; each reads the leases as they are at its turn. */
  ghost predicate Handles(s: State, alerts: seq<Alert>, listings: seq<seq<LeaseKey>>, t: State)
    decreases |alerts|
  {
    |listings| == |alerts|
    && if alerts == [] then t == s
       else
         && IsLeaseListing(s, alerts[0].accountId, listings[0])
         && Handles(HandleDriftSpec(s, alerts[0].accountId, alerts[0].actualOu, listings[0]).state,
                    alerts[1..], listings[1..], t)
  }

  ghost predicate Mentions(alerts: seq<Alert>, a: AccountId) {
    exists alert :: alert in alerts && alert.accountId == a
  }

  lemma SameForChain(s: State, m: State, t: State, a: AccountId)
    requires SameFor(s, m, a) && SameFor(m, t, a)
    ensures SameFor(s, t, a)
  {
  }

  lemma SameForKeeps(s: State, t: State, a: AccountId)
    requires SameFor(s, t, a)
    ensures Settled(t, a) <==> Settled(s, a)
    ensures Fixable(t, a) <==> Fixable(s, a)
  {
    assert forall k :: MonitoredOn(t, k, a) <==> MonitoredOn(s, k, a);
  }

  /** What handling a list of alerts, in any order and with repetitions, does to one account. */
  lemma {:induction false} AccountAfterHandling(
    s: State, alerts: seq<Alert>, listings: seq<seq<LeaseKey>>, t: State, a: AccountId, o: Option<Ou>)
    requires Handles(s, alerts, listings, t)
    requires forall alert :: alert in alerts && alert.accountId == a ==> alert.actualOu == o
    requires o.None? ==> OuAt(s, a).None?
    ensures !Mentions(alerts, a) ==> SameFor(s, t, a)
    ensures Settled(s, a) ==> Settled(t, a)
    ensures Stuck(s, a) && OuAt(s, a) == o ==> Stuck(t, a)
    ensures Fixable(s, a) && OuAt(s, a) == o && Mentions(alerts, a) ==> Settled(t, a)
    decreases |alerts|
  {
    if alerts != [] {
      var alert, rest := alerts[0], alerts[1..];
      var m := HandleDriftSpec(s, alert.accountId, alert.actualOu, listings[0]).state;
      assert alert in alerts;
      assert forall other :: other in rest ==> other in alerts;
      assert forall other :: other in alerts ==> other == alert || other in rest;
      hide HandleDriftSpec, Settled, Fixable, IsLeaseListing, OuAt;
      if alert.accountId == a {
        HandlingResolves(s, a, alert.actualOu, listings[0]);
        AccountAfterHandling(m, rest, listings[1..], t, a, o);
      } else {
        HandlingIsLocal(s, alert.accountId, alert.actualOu, listings[0], a);
        SameForKeeps(s, m, a);
        AccountAfterHandling(m, rest, listings[1..], t, a, o);
        if !Mentions(alerts, a) {
          SameForChain(s, m, t, a);
        }
      }
    }
  }

  ghost predicate AreTheAlerts(alerts: seq<Alert>, s: State) {
    forall alert: Alert :: alert in alerts <==> IsAlert(s, alert)
  }

  lemma ScanKeeps(s: State, a: AccountId)
    ensures Settled(AfterScan(s), a) <==> Settled(s, a)
    ensures Fixable(AfterScan(s), a) <==> Fixable(s, a)
    ensures OuAt(AfterScan(s), a) == OuAt(s, a)
  {
    assert forall k :: MonitoredOn(AfterScan(s), k, a) <==> MonitoredOn(s, k, a);
  }

  /** One round: a scan of `s`, after which all its alerts are handled. */
  lemma RoundAt(s: State, alerts: seq<Alert>, listings: seq<seq<LeaseKey>>, t: State, a: AccountId)
    requires AreTheAlerts(alerts, s) && Handles(AfterScan(s), alerts, listings, t)
    ensures Settled(s, a) ==> Settled(t, a)
    ensures Stuck(s, a) ==> Stuck(t, a)
    ensures Alerted(s, a) && Fixable(s, a) ==> Settled(t, a)
    ensures !Settled(s, a) && !Alerted(s, a) && Fixable(s, a) ==> Alerted(t, a) && Fixable(t, a)
  {
    var scanned := AfterScan(s);
    ScanKeeps(s, a);
    assert Alerted(s, a) <==> Mentions(alerts, a) by {
      assert Alerted(s, a) ==> IsAlert(s, AlertFor(s, a));
    }
    hide Fixable, Handles, AreTheAlerts;
    AccountAfterHandling(scanned, alerts, listings, t, a, OuAt(s, a));
    if !Alerted(s, a) {
      SameForKeeps(scanned, t, a);
    }
  }

  /** The account left the sandbox, or can be taken to quarantine and every lease that is on it can be ended. */
  ghost predicate IsWithinReach(s: State, a: AccountId) {
    a in s.ou ==>
      && s.ou[a] != Ou.Quarantine
      && forall k :: k in s.leases && s.leases[k].awsAccountId == Some(a) ==>
           s.leases[k].status.Active? || s.leases[k].status.Frozen? ==> a in s.accounts && k.userEmail in s.directory
  }

  lemma ReachIs(s: State, a: AccountId)
    ensures Fixable(s, a) <==> IsWithinReach(s, a)
  {
    if Blocked(s, a) {
      var k :| MonitoredOn(s, k, a) && !(a in s.accounts && k.userEmail in s.directory);
      assert k in s.leases && s.leases[k].awsAccountId == Some(a);
    } else {
      forall k | k in s.leases && s.leases[k].awsAccountId == Some(a)
        ensures s.leases[k].status.Active? || s.leases[k].status.Frozen? ==> a in s.accounts && k.userEmail in s.directory
      {
        assert IsMonitored(s.leases[k].status) ==> MonitoredOn(s, k, a);
      }
    }
  }

  /**
    Convergence: from any disagreement between table and units, when nothing else acts, two scans with all their alerts
    handled settle every account iff no account was stuck: none drifted while in the quarantine unit, and none that
    needs to move carries a monitored lease that cannot be terminated.
   */
  lemma Convergence(
    s: State, alerts: seq<Alert>, listings: seq<seq<LeaseKey>>, m: State,
    alerts': seq<Alert>, listings': seq<seq<LeaseKey>>, t: State)
    requires AreTheAlerts(alerts, s) && Handles(AfterScan(s), alerts, listings, m)
    requires AreTheAlerts(alerts', m) && Handles(AfterScan(m), alerts', listings', t)
    ensures (forall a :: Agree(t, a)) <==> forall a :: !Agree(s, a) ==> IsWithinReach(s, a)
  {
    forall a
      ensures Settled(s, a) <==> Agree(s, a)
      ensures Settled(t, a) <==> Agree(t, a)
      ensures Fixable(s, a) <==> IsWithinReach(s, a)
    {
      ReachIs(s, a);
    }
    hide Handles, AreTheAlerts, AfterScan, Settled, Fixable, Alerted, Agree, IsWithinReach;
    forall a
      ensures Settled(t, a) <==> Settled(s, a) || Fixable(s, a)
    {
      RoundAt(s, alerts, listings, m, a);
      RoundAt(m, alerts', listings', t, a);
    }
  }
}
