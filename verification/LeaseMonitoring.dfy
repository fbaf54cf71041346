/**
  The monitoring scan: which thresholds a scan finds newly breached, what events it raises, and what a sequence of scans
  finds altogether.
 */
module LeaseMonitoring {
  import opened Domain
  import opened SandboxServices
  import opened LeaseStore

  datatype FreezeReason =
    | BudgetBreach(dollarsSpent: real, budget: Option<real>, totalSpend: real)
    | DurationBreach(hoursRemaining: int, leaseDurationInHours: Option<nat>)

  datatype MonitoringEvent =
    | BudgetExceededAlert(key: LeaseKey, budget: real, totalSpend: real)
    | LeaseExpiredAlert(key: LeaseKey, leaseExpirationDate: int)
    | FreezingThresholdAlert(key: LeaseKey, reason: FreezeReason)
    | BudgetThresholdAlert(key: LeaseKey, maxSpend: Option<real>, dollarsSpent: real, totalSpend: real)
    | DurationThresholdAlert(key: LeaseKey, hoursRemaining: int, leaseDurationInHours: int)

  // ----- Thresholds -----

  predicate BudgetNewlyBreached(lease: Lease, t: BudgetThreshold, cost: real) {
    lease.totalCostAccrued < t.dollarsSpent <= cost
  }

  function ThresholdDate(expirationDate: int, t: DurationThreshold): int {
    expirationDate - t.hoursRemaining * MILLIS_PER_HOUR
  }

  predicate DurationNewlyBreached(lease: Lease, t: DurationThreshold, now: int) {
    lease.expirationDate.Some? && lease.lastCheckedDate < ThresholdDate(lease.expirationDate.value, t) <= now
  }

  function NewBudgetBreaches(lease: Lease, thresholds: seq<BudgetThreshold>, cost: real): seq<BudgetThreshold> {
    if thresholds == [] then []
    else
      var last := thresholds[|thresholds| - 1];
      NewBudgetBreaches(lease, thresholds[..|thresholds| - 1], cost)
      + if BudgetNewlyBreached(lease, last, cost) then [last] else []
  }

  function NewDurationBreaches(lease: Lease, thresholds: seq<DurationThreshold>, now: int): seq<DurationThreshold> {
    if thresholds == [] then []
    else
      var last := thresholds[|thresholds| - 1];
      NewDurationBreaches(lease, thresholds[..|thresholds| - 1], now)
      + if DurationNewlyBreached(lease, last, now) then [last] else []
  }

  lemma {:induction false} BudgetBreachesAre(lease: Lease, thresholds: seq<BudgetThreshold>, cost: real, t: BudgetThreshold)
    ensures t in NewBudgetBreaches(lease, thresholds, cost) <==> t in thresholds && BudgetNewlyBreached(lease, t, cost)
  {
    if thresholds != [] {
      BudgetBreachesAre(lease, thresholds[..|thresholds| - 1], cost, t);
      assert thresholds == thresholds[..|thresholds| - 1] + [thresholds[|thresholds| - 1]];
    }
  }

  lemma {:induction false} DurationBreachesAre(
    lease: Lease, thresholds: seq<DurationThreshold>, now: int, t: DurationThreshold)
    ensures t in NewDurationBreaches(lease, thresholds, now) <==> t in thresholds && DurationNewlyBreached(lease, t, now)
  {
    if thresholds != [] {
      DurationBreachesAre(lease, thresholds[..|thresholds| - 1], now, t);
      assert thresholds == thresholds[..|thresholds| - 1] + [thresholds[|thresholds| - 1]];
    }
  }

  method DetectNewlyBreachedBudgetThresholds(lease: Lease, cost: real) returns (newlyExceeded: seq<BudgetThreshold>)
    ensures newlyExceeded == NewBudgetBreaches(lease, lease.budgetThresholds, cost)
  {
    newlyExceeded := [];
    var thresholds := lease.budgetThresholds;
    for i := 0 to |thresholds|
      invariant newlyExceeded == NewBudgetBreaches(lease, thresholds[..i], cost)
    {
      assert thresholds[..i + 1][..i] == thresholds[..i];
      if lease.totalCostAccrued < thresholds[i].dollarsSpent && thresholds[i].dollarsSpent <= cost {
        newlyExceeded := newlyExceeded + [thresholds[i]];
      }
    }
    assert thresholds[..|thresholds|] == thresholds;
  }

  method DetectNewlyBreachedDurationThresholds(lease: Lease, now: int) returns (newlyExceeded: seq<DurationThreshold>)
    ensures newlyExceeded == NewDurationBreaches(lease, lease.durationThresholds, now)
  {
    newlyExceeded := [];
    var thresholds := lease.durationThresholds;
    if lease.expirationDate.None? {
      NeverBreached(lease, thresholds, now);
      return;
    }
    for i := 0 to |thresholds|
      invariant newlyExceeded == NewDurationBreaches(lease, thresholds[..i], now)
    {
      assert thresholds[..i + 1][..i] == thresholds[..i];
      var thresholdDate := lease.expirationDate.value - thresholds[i].hoursRemaining * MILLIS_PER_HOUR;
      if lease.lastCheckedDate < thresholdDate && thresholdDate <= now {
        newlyExceeded := newlyExceeded + [thresholds[i]];
      }
    }
    assert thresholds[..|thresholds|] == thresholds;
  }

  lemma {:induction false} NeverBreached(lease: Lease, thresholds: seq<DurationThreshold>, now: int)
    requires lease.expirationDate.None?
    ensures NewDurationBreaches(lease, thresholds, now) == []
  {
    if thresholds != [] {
      NeverBreached(lease, thresholds[..|thresholds| - 1], now);
    }
  }

  /** `t` is the last among the thresholds of the highest amount. */
  ghost predicate IsLargest(t: BudgetThreshold, thresholds: seq<BudgetThreshold>) {
    exists i :: 0 <= i < |thresholds| && IsLargestAt(i, thresholds) && thresholds[i] == t
  }

  predicate IsLargestAt(i: int, thresholds: seq<BudgetThreshold>) {
    && 0 <= i < |thresholds|
    && (forall j :: 0 <= j < i ==> thresholds[j].dollarsSpent <= thresholds[i].dollarsSpent)
    && (forall j :: i < j < |thresholds| ==> thresholds[j].dollarsSpent < thresholds[i].dollarsSpent)
  }

  /** `t` is the last among the thresholds with the least time remaining. */
  ghost predicate IsLatest(t: DurationThreshold, thresholds: seq<DurationThreshold>) {
    exists i :: 0 <= i < |thresholds| && IsLatestAt(i, thresholds) && thresholds[i] == t
  }

  predicate IsLatestAt(i: int, thresholds: seq<DurationThreshold>) {
    && 0 <= i < |thresholds|
    && (forall j :: 0 <= j < i ==> thresholds[i].hoursRemaining <= thresholds[j].hoursRemaining)
    && (forall j :: i < j < |thresholds| ==> thresholds[i].hoursRemaining < thresholds[j].hoursRemaining)
  }

  method GetLargestBudgetThreshold(thresholds: seq<BudgetThreshold>) returns (largest: Option<BudgetThreshold>)
    ensures largest.None? <==> thresholds == []
    ensures largest.Some? ==>
              IsLargest(largest.value, thresholds)
              && forall t :: t in thresholds ==> t.dollarsSpent <= largest.value.dollarsSpent
  {
    if |thresholds| == 0 {
      return None;
    }
    var prev := thresholds[0];
    var i := 1;
    ghost var at := 0;
    while i < |thresholds|
      invariant 0 <= at < i <= |thresholds| && thresholds[at] == prev
      invariant forall j :: 0 <= j < at ==> thresholds[j].dollarsSpent <= prev.dollarsSpent
      invariant forall j :: at < j < i ==> thresholds[j].dollarsSpent < prev.dollarsSpent
    {
      if !(prev.dollarsSpent > thresholds[i].dollarsSpent) {
        prev, at := thresholds[i], i;
      }
      i := i + 1;
    }
    assert IsLargestAt(at, thresholds);
    largest := Some(prev);
  }

  method GetLatestDurationThreshold(thresholds: seq<DurationThreshold>) returns (latest: Option<DurationThreshold>)
    ensures latest.None? <==> thresholds == []
    ensures latest.Some? ==>
              IsLatest(latest.value, thresholds)
              && forall t :: t in thresholds ==> latest.value.hoursRemaining <= t.hoursRemaining
  {
    if |thresholds| == 0 {
      return None;
    }
    var prev := thresholds[0];
    var i := 1;
    ghost var at := 0;
    while i < |thresholds|
      invariant 0 <= at < i <= |thresholds| && thresholds[at] == prev
      invariant forall j :: 0 <= j < at ==> thresholds[j].hoursRemaining >= prev.hoursRemaining
      invariant forall j :: at < j < i ==> thresholds[j].hoursRemaining > prev.hoursRemaining
    {
      if !(prev.hoursRemaining < thresholds[i].hoursRemaining) {
        prev, at := thresholds[i], i;
      }
      i := i + 1;
    }
    assert IsLatestAt(at, thresholds);
    latest := Some(prev);
  }

  // ----- The events of one lease -----

  predicate MaxBudgetExceeded(lease: Lease, cost: real) {
    lease.maxSpend.Some? && cost >= lease.maxSpend.value
  }

  predicate PastExpiration(lease: Lease, now: int) {
    lease.expirationDate.Some? && lease.expirationDate.value < now
  }

  /** `t` is the first of the thresholds whose action is to freeze the account. */
  ghost predicate IsFirstBudgetFreeze(t: BudgetThreshold, thresholds: seq<BudgetThreshold>) {
    exists i :: 0 <= i < |thresholds| && IsFirstBudgetFreezeAt(i, thresholds) && thresholds[i] == t
  }

  predicate IsFirstBudgetFreezeAt(i: int, thresholds: seq<BudgetThreshold>) {
    && 0 <= i < |thresholds| && thresholds[i].action.FREEZE_ACCOUNT?
    && forall j :: 0 <= j < i ==> thresholds[j].action.ALERT?
  }

  ghost predicate IsFirstDurationFreeze(t: DurationThreshold, thresholds: seq<DurationThreshold>) {
    exists i :: 0 <= i < |thresholds| && IsFirstDurationFreezeAt(i, thresholds) && thresholds[i] == t
  }

  predicate IsFirstDurationFreezeAt(i: int, thresholds: seq<DurationThreshold>) {
    && 0 <= i < |thresholds| && thresholds[i].action.FREEZE_ACCOUNT?
    && forall j :: 0 <= j < i ==> thresholds[j].action.ALERT?
  }

  method FindBudgetFreeze(thresholds: seq<BudgetThreshold>) returns (found: Option<BudgetThreshold>)
    ensures found.Some? ==> IsFirstBudgetFreeze(found.value, thresholds)
    ensures found.None? ==> forall t :: t in thresholds ==> t.action.ALERT?
  {
    for i := 0 to |thresholds|
      invariant forall j :: 0 <= j < i ==> thresholds[j].action.ALERT?
    {
      if thresholds[i].action == FREEZE_ACCOUNT {
        assert IsFirstBudgetFreezeAt(i, thresholds);
        return Some(thresholds[i]);
      }
    }
    found := None;
  }

  method FindDurationFreeze(thresholds: seq<DurationThreshold>) returns (found: Option<DurationThreshold>)
    ensures found.Some? ==> IsFirstDurationFreeze(found.value, thresholds)
    ensures found.None? ==> forall t :: t in thresholds ==> t.action.ALERT?
  {
    for i := 0 to |thresholds|
      invariant forall j :: 0 <= j < i ==> thresholds[j].action.ALERT?
    {
      if thresholds[i].action == FREEZE_ACCOUNT {
        assert IsFirstDurationFreezeAt(i, thresholds);
        return Some(thresholds[i]);
      }
    }
    found := None;
  }

  /** Rounds to the nearest hour, halves upwards. */
  function RoundedHours(millis: int): int {
    (2 * millis + MILLIS_PER_HOUR) / (2 * MILLIS_PER_HOUR)
  }

  /** The freeze request of a scan: for a budget threshold if there is one, else for a duration threshold. */
  ghost predicate RequestsFreeze(
    reason: FreezeReason, lease: Lease, cost: real,
    budget: seq<BudgetThreshold>, duration: seq<DurationThreshold>)
  {
    || (exists t :: IsFirstBudgetFreeze(t, budget) && reason == BudgetBreach(t.dollarsSpent, lease.maxSpend, cost))
    || ((forall t :: t in budget ==> t.action.ALERT?)
        && exists t :: IsFirstDurationFreeze(t, duration)
             && reason == DurationBreach(t.hoursRemaining, lease.leaseDurationInHours))
  }

  ghost predicate AlertsBudget(
    e: MonitoringEvent, key: LeaseKey, lease: Lease, cost: real, budget: seq<BudgetThreshold>)
  {
    exists t :: IsLargest(t, budget) && t.action.ALERT?
      && e == BudgetThresholdAlert(key, lease.maxSpend, t.dollarsSpent, cost)
  }

  ghost predicate AlertsDuration(e: MonitoringEvent, key: LeaseKey, lease: Lease, duration: seq<DurationThreshold>) {
    lease.expirationDate.Some?
    && exists t :: IsLatest(t, duration) && t.action.ALERT?
         && e == DurationThresholdAlert(
                   key, t.hoursRemaining, RoundedHours(lease.expirationDate.value - lease.startDate))
  }

  /** What a scan that finds `cost` at `now` has to report about a lease. */
  ghost predicate ToReport(e: MonitoringEvent, key: LeaseKey, lease: Lease, cost: real, now: int) {
    var budget := NewBudgetBreaches(lease, lease.budgetThresholds, cost);
    var duration := NewDurationBreaches(lease, lease.durationThresholds, now);
    if MaxBudgetExceeded(lease, cost) then e == BudgetExceededAlert(key, lease.maxSpend.value, cost)
    else if PastExpiration(lease, now) then e == LeaseExpiredAlert(key, lease.expirationDate.value)
    else
      || (e.FreezingThresholdAlert? && e.key == key && RequestsFreeze(e.reason, lease, cost, budget, duration))
      || AlertsBudget(e, key, lease, cost, budget)
      || AlertsDuration(e, key, lease, duration)
  }

  method FreezeEvents(
    key: LeaseKey, lease: Lease, cost: real, budget: seq<BudgetThreshold>, duration: seq<DurationThreshold>)
    returns (events: seq<MonitoringEvent>)
    ensures |events| <= 1
    ensures forall e :: e in events <==>
              e.FreezingThresholdAlert? && e.key == key && RequestsFreeze(e.reason, lease, cost, budget, duration)
  {
    var budgetFreeze := FindBudgetFreeze(budget);
    var durationFreeze := FindDurationFreeze(duration);
    if budgetFreeze.Some? {
      events := [FreezingThresholdAlert(key, BudgetBreach(budgetFreeze.value.dollarsSpent, lease.maxSpend, cost))];
    } else if durationFreeze.Some? {
      events := [
        FreezingThresholdAlert(key, DurationBreach(durationFreeze.value.hoursRemaining, lease.leaseDurationInHours))];
    } else {
      events := [];
    }
  }

  method ThresholdEvents(
    key: LeaseKey, lease: Lease, cost: real, budget: seq<BudgetThreshold>, duration: seq<DurationThreshold>)
    returns (events: seq<MonitoringEvent>)
    requires duration != [] ==> lease.expirationDate.Some?
    ensures forall i, j :: 0 <= i < j < |events| ==> events[i] != events[j]
    ensures forall e :: e in events ==> e.BudgetThresholdAlert? || e.DurationThresholdAlert?
    ensures forall e :: e in events <==>
              AlertsBudget(e, key, lease, cost, budget) || AlertsDuration(e, key, lease, duration)
  {
    events := [];
    var largest := GetLargestBudgetThreshold(budget);
    var latest := GetLatestDurationThreshold(duration);
    if largest.Some? && largest.value.action != FREEZE_ACCOUNT {
      events := events + [BudgetThresholdAlert(key, lease.maxSpend, largest.value.dollarsSpent, cost)];
    }
    if latest.Some? && latest.value.action != FREEZE_ACCOUNT {
      events := events + [DurationThresholdAlert(
        key, latest.value.hoursRemaining, RoundedHours(lease.expirationDate.value - lease.startDate))];
    }
  }

  method DetermineLeaseEvents(key: LeaseKey, lease: Lease, cost: real, now: int) returns (events: seq<MonitoringEvent>)
    ensures forall e :: e in events <==> ToReport(e, key, lease, cost, now)
    ensures forall i, j :: 0 <= i < j < |events| ==> events[i] != events[j]
  {
    if lease.maxSpend.Some? && cost >= lease.maxSpend.value {
      return [BudgetExceededAlert(key, lease.maxSpend.value, cost)];
    }
    if lease.expirationDate.Some? && lease.expirationDate.value < now {
      return [LeaseExpiredAlert(key, lease.expirationDate.value)];
    }
    var budget := DetectNewlyBreachedBudgetThresholds(lease, cost);
    var duration := DetectNewlyBreachedDurationThresholds(lease, now);
    if lease.expirationDate.None? {
      NeverBreached(lease, lease.durationThresholds, now);
    }
    var freezes := FreezeEvents(key, lease, cost, budget, duration);
    var alerts := ThresholdEvents(key, lease, cost, budget, duration);
    assert forall i :: 0 <= i < |freezes| ==> freezes[i] in freezes;
    assert forall i :: 0 <= i < |alerts| ==> alerts[i] in alerts;
    events := freezes + alerts;
  }

  // ----- The scan over all monitored leases -----

  function CostOf(costs: map<AccountId, real>, lease: Lease): real {
    if lease.awsAccountId.Some? && lease.awsAccountId.value in costs then costs[lease.awsAccountId.value] else 0.0
  }

  function Monitored(table: Table): set<LeaseKey> {
    set k | k in table && IsMonitored(table[k].status)
  }

  /** The record as the scan writes it back. */
  function Checked(lease: Lease, cost: real, now: int): Lease {
    lease.(totalCostAccrued := cost, lastCheckedDate := now)
  }

  /** Every active or frozen lease is written back with the cost of its account, nothing if none is reported. */
  ghost predicate IsAfterScan(before: Table, after: Table, costs: map<AccountId, real>, now: int) {
    && after.Keys == before.Keys
    && forall k :: k in before ==>
         if before[k].status.Active? || before[k].status.Frozen? then
           var a, cost := before[k].awsAccountId, after[k].totalCostAccrued;
           && SameContent(after[k], before[k].(totalCostAccrued := cost, lastCheckedDate := now))
           && if a.Some? && a.value in costs then cost == costs[a.value] else cost == 0.0
         else after[k] == before[k]
  }

  class LeaseMonitor {
    const leaseStore: DynamoLeaseStore

    constructor (leaseStore: DynamoLeaseStore)
      ensures this.leaseStore == leaseStore
    {
      this.leaseStore := leaseStore;
    }

    /** One scan; `costs` is the cost report of the monitored accounts. */
    method PerformAccountMonitoringScan(costs: map<AccountId, real>, now: int, clock: int)
      returns (events: seq<MonitoringEvent>)
      modifies leaseStore
      ensures forall e :: e in events <==>
                exists k :: k in old(leaseStore.table) && IsMonitored(old(leaseStore.table)[k].status)
                  && k in leaseStore.table
                  && ToReport(e, k, old(leaseStore.table)[k], leaseStore.table[k].totalCostAccrued, now)
      ensures IsAfterScan(old(leaseStore.table), leaseStore.table, costs, now)
    {
      var snapshot := leaseStore.table;
      var monitored := Enumerate(Monitored(snapshot));
      events := CollectEvents(snapshot, monitored, costs, now);
      var i := 0;
      while i < |monitored|
        invariant 0 <= i <= |monitored|
        invariant leaseStore.table.Keys == snapshot.Keys
        invariant forall k :: k in snapshot && k !in monitored[..i] ==> leaseStore.table[k] == snapshot[k]
        invariant forall k :: k in monitored[..i] ==>
                    SameContent(leaseStore.table[k], Checked(snapshot[k], CostOf(costs, snapshot[k]), now))
      {
        var k := monitored[i];
        assert k in monitored && k !in monitored[..i];
        var _ := leaseStore.Update(k, Checked(snapshot[k], CostOf(costs, snapshot[k]), now), None, clock + i);
        i := i + 1;
      }
      assert monitored[..i] == monitored;
      assert forall k :: k in monitored <==> k in snapshot && IsMonitored(snapshot[k].status);
    }
  }

  method CollectEvents(table: Table, keys: seq<LeaseKey>, costs: map<AccountId, real>, now: int)
    returns (events: seq<MonitoringEvent>)
    requires forall k :: k in keys ==> k in table
    ensures forall e :: e in events <==> exists k :: k in keys && ToReport(e, k, table[k], CostOf(costs, table[k]), now)
  {
    events := [];
    for i := 0 to |keys|
      invariant forall e :: e in events <==>
                  exists k :: k in keys[..i] && ToReport(e, k, table[k], CostOf(costs, table[k]), now)
    {
      assert keys[i] in keys;
      var found := DetermineLeaseEvents(keys[i], table[keys[i]], CostOf(costs, table[keys[i]]), now);
      events := events + found;
    }
    assert keys[..|keys|] == keys;
  }

  // ----- Sequences of scans -----

  datatype Scan = Scan(cost: real, time: int)

  /** The lease as scan `i` reads it, when only the scans write it. */
  function LeaseAt(lease: Lease, scans: seq<Scan>, i: nat): Lease
    requires i <= |scans|
  {
    if i == 0 then lease else Checked(lease, scans[i - 1].cost, scans[i - 1].time)
  }

  ghost predicate BudgetBreachedAt(lease: Lease, scans: seq<Scan>, t: BudgetThreshold, i: int) {
    0 <= i < |scans| && t in NewBudgetBreaches(LeaseAt(lease, scans, i), lease.budgetThresholds, scans[i].cost)
  }

  ghost predicate DurationBreachedAt(lease: Lease, scans: seq<Scan>, t: DurationThreshold, i: int) {
    0 <= i < |scans| && t in NewDurationBreaches(LeaseAt(lease, scans, i), lease.durationThresholds, scans[i].time)
  }

  /** The cost and the time of the last scan, or those that the lease bears at first. */
  function FinalCost(lease: Lease, scans: seq<Scan>): real {
    if scans == [] then lease.totalCostAccrued else scans[|scans| - 1].cost
  }

  function FinalTime(lease: Lease, scans: seq<Scan>): int {
    if scans == [] then lease.lastCheckedDate else scans[|scans| - 1].time
  }

  predicate CostNeverFalls(lease: Lease, scans: seq<Scan>) {
    forall i :: 0 <= i < |scans| ==> FinalCost(lease, scans[..i]) <= scans[i].cost
  }

  predicate TimeAdvances(lease: Lease, scans: seq<Scan>) {
    forall i :: 0 <= i < |scans| ==> FinalTime(lease, scans[..i]) <= scans[i].time
  }

  predicate Crosses(v: seq<real>, x: real, i: int) {
    0 <= i < |v| - 1 && v[i] < x <= v[i + 1]
  }

  lemma {:induction false} CrossingExists(v: seq<real>, x: real) returns (i: nat)
    requires v != [] && v[0] < x <= v[|v| - 1]
    ensures Crosses(v, x, i)
  {
    if x <= v[|v| - 2] {
      i := CrossingExists(v[..|v| - 1], x);
    } else {
      i := |v| - 2;
    }
  }

  lemma {:induction false} Monotone(v: seq<real>, i: nat, j: nat)
    requires (forall k :: 0 <= k < |v| - 1 ==> v[k] <= v[k + 1]) && i <= j < |v|
    ensures v[i] <= v[j]
  {
    if i < j {
      Monotone(v, i, j - 1);
      assert v[j - 1] <= v[j - 1 + 1];
    }
  }

  lemma CrossedOnce(v: seq<real>, x: real)
    requires v != [] && forall k :: 0 <= k < |v| - 1 ==> v[k] <= v[k + 1]
    ensures (exists i :: Crosses(v, x, i)) <==> v[0] < x <= v[|v| - 1]
    ensures forall i, j :: Crosses(v, x, i) && Crosses(v, x, j) ==> i == j
  {
    if v[0] < x <= v[|v| - 1] {
      var i := CrossingExists(v, x);
    }
    forall i, j | Crosses(v, x, i) && Crosses(v, x, j)
      ensures v[0] < x <= v[|v| - 1] && i == j
    {
      Monotone(v, 0, i);
      Monotone(v, i + 1, |v| - 1);
      if i < j { Monotone(v, i + 1, j); }
      if j < i { Monotone(v, j + 1, i); }
    }
  }

  function CostLevels(lease: Lease, scans: seq<Scan>): seq<real> {
    seq(|scans| + 1, i requires 0 <= i <= |scans| => LeaseAt(lease, scans, i).totalCostAccrued)
  }

  function TimeLevels(lease: Lease, scans: seq<Scan>): seq<real> {
    seq(|scans| + 1, i requires 0 <= i <= |scans| => LeaseAt(lease, scans, i).lastCheckedDate as real)
  }

  lemma BudgetBreachIsCrossing(lease: Lease, scans: seq<Scan>, t: BudgetThreshold, i: int)
    requires t in lease.budgetThresholds
    ensures BudgetBreachedAt(lease, scans, t, i) <==> Crosses(CostLevels(lease, scans), t.dollarsSpent, i)
  {
    if 0 <= i < |scans| {
      BudgetBreachesAre(LeaseAt(lease, scans, i), lease.budgetThresholds, scans[i].cost, t);
      assert CostLevels(lease, scans)[i + 1] == scans[i].cost;
    }
  }

  lemma DurationBreachIsCrossing(lease: Lease, scans: seq<Scan>, t: DurationThreshold, i: int)
    requires t in lease.durationThresholds && lease.expirationDate.Some?
    ensures DurationBreachedAt(lease, scans, t, i)
       <==> Crosses(TimeLevels(lease, scans), ThresholdDate(lease.expirationDate.value, t) as real, i)
  {
    if 0 <= i < |scans| {
      DurationBreachesAre(LeaseAt(lease, scans, i), lease.durationThresholds, scans[i].time, t);
      assert TimeLevels(lease, scans)[i + 1] == scans[i].time as real;
    }
  }

  /** Whatever the cost does in between, a budget threshold that ends up crossed was found by some scan. */
  lemma CrossedBudgetIsFound(lease: Lease, scans: seq<Scan>, t: BudgetThreshold)
    requires t in lease.budgetThresholds
    requires lease.totalCostAccrued < t.dollarsSpent <= FinalCost(lease, scans)
    ensures exists i :: BudgetBreachedAt(lease, scans, t, i)
  {
    var i := CrossingExists(CostLevels(lease, scans), t.dollarsSpent);
    BudgetBreachIsCrossing(lease, scans, t, i);
  }

  /** While the cost never falls, a budget threshold is found by exactly one scan iff it ends up crossed, else by none. */
  lemma BudgetThresholdFoundOnce(lease: Lease, scans: seq<Scan>, t: BudgetThreshold)
    requires t in lease.budgetThresholds && CostNeverFalls(lease, scans)
    ensures (exists i :: BudgetBreachedAt(lease, scans, t, i))
       <==> lease.totalCostAccrued < t.dollarsSpent <= FinalCost(lease, scans)
    ensures forall i, j :: BudgetBreachedAt(lease, scans, t, i) && BudgetBreachedAt(lease, scans, t, j) ==> i == j
  {
    CrossedOnce(CostLevels(lease, scans), t.dollarsSpent);
    forall i
      ensures BudgetBreachedAt(lease, scans, t, i) <==> Crosses(CostLevels(lease, scans), t.dollarsSpent, i)
    {
      BudgetBreachIsCrossing(lease, scans, t, i);
    }
  }

  lemma DurationThresholdFoundOnce(lease: Lease, scans: seq<Scan>, t: DurationThreshold)
    requires t in lease.durationThresholds && TimeAdvances(lease, scans)
    ensures (exists i :: DurationBreachedAt(lease, scans, t, i))
       <==> && lease.expirationDate.Some?
            && lease.lastCheckedDate < lease.expirationDate.value - 3600000 * t.hoursRemaining
                 <= FinalTime(lease, scans)
    ensures forall i, j :: DurationBreachedAt(lease, scans, t, i) && DurationBreachedAt(lease, scans, t, j) ==> i == j
  {
    if lease.expirationDate.Some? {
      var date := ThresholdDate(lease.expirationDate.value, t) as real;
      CrossedOnce(TimeLevels(lease, scans), date);
      forall i
        ensures DurationBreachedAt(lease, scans, t, i) <==> Crosses(TimeLevels(lease, scans), date, i)
      {
        DurationBreachIsCrossing(lease, scans, t, i);
      }
    } else {
      forall i
        ensures !DurationBreachedAt(lease, scans, t, i)
      {
        if 0 <= i < |scans| {
          DurationBreachesAre(LeaseAt(lease, scans, i), lease.durationThresholds, scans[i].time, t);
        }
      }
    }
  }

  /** Skipping scans, or scanning more often, finds the same thresholds in the end. */
  lemma SkippedScansLoseNothing(lease: Lease, scans: seq<Scan>, others: seq<Scan>)
    requires scans != [] && others != [] && scans[|scans| - 1] == others[|others| - 1]
    requires CostNeverFalls(lease, scans) && TimeAdvances(lease, scans)
    requires CostNeverFalls(lease, others) && TimeAdvances(lease, others)
    ensures forall t :: t in lease.budgetThresholds ==>
              ((exists i :: BudgetBreachedAt(lease, scans, t, i)) <==> exists i :: BudgetBreachedAt(lease, others, t, i))
    ensures forall t :: t in lease.durationThresholds ==>
              ((exists i :: DurationBreachedAt(lease, scans, t, i)) <==>
                 exists i :: DurationBreachedAt(lease, others, t, i))
  {
    forall t | t in lease.budgetThresholds
      ensures (exists i :: BudgetBreachedAt(lease, scans, t, i)) <==> exists i :: BudgetBreachedAt(lease, others, t, i)
    {
      BudgetThresholdFoundOnce(lease, scans, t);
      BudgetThresholdFoundOnce(lease, others, t);
    }
    forall t | t in lease.durationThresholds
      ensures (exists i :: DurationBreachedAt(lease, scans, t, i)) <==>
                exists i :: DurationBreachedAt(lease, others, t, i)
    {
      DurationThresholdFoundOnce(lease, scans, t);
      DurationThresholdFoundOnce(lease, others, t);
    }
  }

  // ----- The end of a lease -----

  /** The cost is below the budget, if there is one, and the expiration has not passed, if there is one. */
  predicate WithinTerms(lease: Lease, cost: real, now: int) {
    && (lease.maxSpend.Some? ==> cost < lease.maxSpend.value)
    && (lease.expirationDate.Some? ==> now <= lease.expirationDate.value)
  }

  /**
    A scan reports a lease that has reached its budget, or else one that is past its expiration, and in either case
    nothing but that. It reports neither iff the lease is within its terms.
   */
  lemma EndIsReported(key: LeaseKey, lease: Lease, cost: real, now: int)
    ensures var atLimit := lease.maxSpend.Some? && cost >= lease.maxSpend.value;
            var expired := lease.expirationDate.Some? && lease.expirationDate.value < now;
            && (atLimit ==> forall e :: ToReport(e, key, lease, cost, now) <==>
                    e == BudgetExceededAlert(key, lease.maxSpend.value, cost))
            && (expired && !atLimit ==> forall e :: ToReport(e, key, lease, cost, now) <==>
                    e == LeaseExpiredAlert(key, lease.expirationDate.value))
    ensures WithinTerms(lease, cost, now) <==>
              forall e: MonitoringEvent :: ToReport(e, key, lease, cost, now) ==>
                !e.BudgetExceededAlert? && !e.LeaseExpiredAlert?
  {
    if MaxBudgetExceeded(lease, cost) {
      assert ToReport(BudgetExceededAlert(key, lease.maxSpend.value, cost), key, lease, cost, now);
    } else if PastExpiration(lease, now) {
      assert ToReport(LeaseExpiredAlert(key, lease.expirationDate.value), key, lease, cost, now);
    }
  }

  ghost predicate ExpiryReportedAt(key: LeaseKey, lease: Lease, scans: seq<Scan>, i: int) {
    && 0 <= i < |scans|
    && exists date ::
         ToReport(LeaseExpiredAlert(key, date), key, LeaseAt(lease, scans, i), scans[i].cost, scans[i].time)
  }

  /**
    While the cost stays below the budget and time advances, the expiry of a lease is reported by exactly the scans later
    than its expiration date: by some scan iff the last one is later, and once it was reported, by every scan after that.
   */
  lemma ExpiryIsReported(key: LeaseKey, lease: Lease, scans: seq<Scan>)
    requires TimeAdvances(lease, scans) && lease.expirationDate.Some?
    requires lease.maxSpend.Some? ==> forall i :: 0 <= i < |scans| ==> scans[i].cost < lease.maxSpend.value
    ensures forall i :: ExpiryReportedAt(key, lease, scans, i) <==>
                          0 <= i < |scans| && lease.expirationDate.value < scans[i].time
    ensures (exists i :: ExpiryReportedAt(key, lease, scans, i)) <==>
              scans != [] && lease.expirationDate.value < scans[|scans| - 1].time
    ensures forall i, j :: ExpiryReportedAt(key, lease, scans, i) && i <= j < |scans| ==>
                             ExpiryReportedAt(key, lease, scans, j)
  {
    forall i
      ensures ExpiryReportedAt(key, lease, scans, i) <==>
                0 <= i < |scans| && lease.expirationDate.value < scans[i].time
    {
      if 0 <= i < |scans| && lease.expirationDate.value < scans[i].time {
        var at := LeaseAt(lease, scans, i);
        assert ToReport(LeaseExpiredAlert(key, lease.expirationDate.value), key, at, scans[i].cost, scans[i].time);
      }
    }
    hide ExpiryReportedAt;
    forall i, j | 0 <= i <= j < |scans|
      ensures scans[i].time <= scans[j].time
    {
      ScansAdvance(lease, scans, i, j);
    }
    if scans != [] && lease.expirationDate.value < scans[|scans| - 1].time {
      assert ExpiryReportedAt(key, lease, scans, |scans| - 1);
    }
  }

  lemma {:induction false} ScansAdvance(lease: Lease, scans: seq<Scan>, i: nat, j: nat)
    requires TimeAdvances(lease, scans) && i <= j < |scans|
    ensures scans[i].time <= scans[j].time
  {
    if i < j {
      ScansAdvance(lease, scans, i, j - 1);
      assert FinalTime(lease, scans[..j]) == scans[j - 1].time;
    }
  }

  // ----- Threshold alerts and freeze requests -----

  /** The elements found are those at the positions, which ascend. */
  ghost predicate PointsTo<T>(positions: seq<nat>, found: seq<T>, all: seq<T>) {
    && |positions| == |found|
    && (forall m :: 0 <= m < |positions| ==> positions[m] < |all| && found[m] == all[positions[m]])
    && (forall m, o :: 0 <= m < o < |positions| ==> positions[m] < positions[o])
  }

  lemma PointsToMore<T>(positions: seq<nat>, found: seq<T>, all: seq<T>, x: T)
    requires PointsTo(positions, found, all)
    ensures PointsTo(positions, found, all + [x])
    ensures PointsTo(positions + [|all|], found + [x], all + [x])
  {
  }

  predicate BudgetCrossed(lease: Lease, t: BudgetThreshold, cost: real) {
    lease.totalCostAccrued < t.dollarsSpent <= cost
  }

  /** Threshold `i` is newly crossed, and the last one of the highest amount among those. */
  predicate IsHighestCrossed(lease: Lease, cost: real, i: int) {
    var thresholds := lease.budgetThresholds;
    && 0 <= i < |thresholds| && BudgetCrossed(lease, thresholds[i], cost)
    && (forall j :: 0 <= j < i && BudgetCrossed(lease, thresholds[j], cost) ==>
          thresholds[j].dollarsSpent <= thresholds[i].dollarsSpent)
    && (forall j :: i < j < |thresholds| && BudgetCrossed(lease, thresholds[j], cost) ==>
          thresholds[j].dollarsSpent < thresholds[i].dollarsSpent)
  }

  /** Threshold `i` is the first one that is newly crossed and asks to freeze the account. */
  predicate IsFirstBudgetFreezeCrossed(lease: Lease, cost: real, i: int) {
    var thresholds := lease.budgetThresholds;
    && 0 <= i < |thresholds| && BudgetCrossed(lease, thresholds[i], cost) && thresholds[i].action.FREEZE_ACCOUNT?
    && forall j :: 0 <= j < i && BudgetCrossed(lease, thresholds[j], cost) ==> thresholds[j].action.ALERT?
  }

  /** Where the newly crossed thresholds stand. */
  ghost function BudgetPositions(lease: Lease, thresholds: seq<BudgetThreshold>, cost: real): (positions: seq<nat>)
    ensures PointsTo(positions, NewBudgetBreaches(lease, thresholds, cost), thresholds)
  {
    if thresholds == [] then []
    else
      var last := |thresholds| - 1;
      var before := BudgetPositions(lease, thresholds[..last], cost);
      PointsToMore(before, NewBudgetBreaches(lease, thresholds[..last], cost), thresholds[..last], thresholds[last]);
      assert thresholds == thresholds[..last] + [thresholds[last]];
      if BudgetNewlyBreached(lease, thresholds[last], cost) then before + [last] else before
  }

  lemma {:induction false} BudgetPositionsAre(lease: Lease, thresholds: seq<BudgetThreshold>, cost: real)
    ensures forall i :: i in BudgetPositions(lease, thresholds, cost) <==>
                          0 <= i < |thresholds| && BudgetCrossed(lease, thresholds[i], cost)
  {
    if thresholds != [] {
      var last := |thresholds| - 1;
      BudgetPositionsAre(lease, thresholds[..last], cost);
      var at, before := BudgetPositions(lease, thresholds, cost), BudgetPositions(lease, thresholds[..last], cost);
      assert at == if BudgetNewlyBreached(lease, thresholds[last], cost) then before + [last] else before;
      hide BudgetPositions, NewBudgetBreaches, PointsTo;
      forall i
        ensures i in at <==> 0 <= i < |thresholds| && BudgetCrossed(lease, thresholds[i], cost)
      {
        assert i in before + [last] <==> i in before || i == last;
      }
    }
  }

  /** A threshold is among those found what its place in the whole list is among the crossed ones. */
  lemma BudgetFoundAt(lease: Lease, cost: real, m: nat)
    requires m < |NewBudgetBreaches(lease, lease.budgetThresholds, cost)|
    ensures var found, at :=
              NewBudgetBreaches(lease, lease.budgetThresholds, cost),
              BudgetPositions(lease, lease.budgetThresholds, cost);
            && (IsLargestAt(m, found) <==> IsHighestCrossed(lease, cost, at[m]))
            && (IsFirstBudgetFreezeAt(m, found) <==> IsFirstBudgetFreezeCrossed(lease, cost, at[m]))
  {
    BudgetPositionsAre(lease, lease.budgetThresholds, cost);
    hide NewBudgetBreaches, BudgetPositions, BudgetCrossed;
    var at := BudgetPositions(lease, lease.budgetThresholds, cost);
    assert forall o :: 0 <= o < |at| ==> at[o] in at;
  }

  lemma BudgetFoundIs(lease: Lease, cost: real, t: BudgetThreshold)
    ensures var found := NewBudgetBreaches(lease, lease.budgetThresholds, cost);
            && (IsLargest(t, found) <==>
                  exists i :: IsHighestCrossed(lease, cost, i) && lease.budgetThresholds[i] == t)
            && (IsFirstBudgetFreeze(t, found) <==>
                  exists i :: IsFirstBudgetFreezeCrossed(lease, cost, i) && lease.budgetThresholds[i] == t)
  {
    hide NewBudgetBreaches, BudgetPositions, BudgetCrossed, IsLargestAt, IsFirstBudgetFreezeAt;
    var thresholds := lease.budgetThresholds;
    var found, at := NewBudgetBreaches(lease, thresholds, cost), BudgetPositions(lease, thresholds, cost);
    BudgetPositionsAre(lease, thresholds, cost);
    forall m | 0 <= m < |found|
      ensures IsLargestAt(m, found) <==> IsHighestCrossed(lease, cost, at[m])
      ensures IsFirstBudgetFreezeAt(m, found) <==> IsFirstBudgetFreezeCrossed(lease, cost, at[m])
    {
      BudgetFoundAt(lease, cost, m);
    }
    if i :| IsHighestCrossed(lease, cost, i) && thresholds[i] == t {
      assert i in at;
    }
    if i :| IsFirstBudgetFreezeCrossed(lease, cost, i) && thresholds[i] == t {
      assert i in at;
    }
  }

  predicate DurationCrossed(lease: Lease, t: DurationThreshold, now: int) {
    && lease.expirationDate.Some?
    && lease.lastCheckedDate < lease.expirationDate.value - 3600000 * t.hoursRemaining <= now
  }

  /** Threshold `i` is newly crossed, and the last one with the least time remaining among those. */
  predicate IsNearestCrossed(lease: Lease, now: int, i: int) {
    var thresholds := lease.durationThresholds;
    && 0 <= i < |thresholds| && DurationCrossed(lease, thresholds[i], now)
    && (forall j :: 0 <= j < i && DurationCrossed(lease, thresholds[j], now) ==>
          thresholds[i].hoursRemaining <= thresholds[j].hoursRemaining)
    && (forall j :: i < j < |thresholds| && DurationCrossed(lease, thresholds[j], now) ==>
          thresholds[i].hoursRemaining < thresholds[j].hoursRemaining)
  }

  /** Threshold `i` is the first one that is newly crossed and asks to freeze the account. */
  predicate IsFirstDurationFreezeCrossed(lease: Lease, now: int, i: int) {
    var thresholds := lease.durationThresholds;
    && 0 <= i < |thresholds| && DurationCrossed(lease, thresholds[i], now) && thresholds[i].action.FREEZE_ACCOUNT?
    && forall j :: 0 <= j < i && DurationCrossed(lease, thresholds[j], now) ==> thresholds[j].action.ALERT?
  }

  /** Where the newly crossed thresholds stand. */
  ghost function DurationPositions(lease: Lease, thresholds: seq<DurationThreshold>, now: int): (positions: seq<nat>)
    ensures PointsTo(positions, NewDurationBreaches(lease, thresholds, now), thresholds)
  {
    if thresholds == [] then []
    else
      var last := |thresholds| - 1;
      var before := DurationPositions(lease, thresholds[..last], now);
      PointsToMore(before, NewDurationBreaches(lease, thresholds[..last], now), thresholds[..last], thresholds[last]);
      assert thresholds == thresholds[..last] + [thresholds[last]];
      if DurationNewlyBreached(lease, thresholds[last], now) then before + [last] else before
  }

  lemma {:induction false} DurationPositionsAre(lease: Lease, thresholds: seq<DurationThreshold>, now: int)
    ensures forall i :: i in DurationPositions(lease, thresholds, now) <==>
                          0 <= i < |thresholds| && DurationCrossed(lease, thresholds[i], now)
  {
    if thresholds != [] {
      var last := |thresholds| - 1;
      DurationPositionsAre(lease, thresholds[..last], now);
      var at, before := DurationPositions(lease, thresholds, now), DurationPositions(lease, thresholds[..last], now);
      assert at == if DurationNewlyBreached(lease, thresholds[last], now) then before + [last] else before;
      hide DurationPositions, NewDurationBreaches, PointsTo;
      forall i
        ensures i in at <==> 0 <= i < |thresholds| && DurationCrossed(lease, thresholds[i], now)
      {
        assert i in before + [last] <==> i in before || i == last;
      }
    }
  }

  /** A threshold is among those found what its place in the whole list is among the crossed ones. */
  lemma DurationFoundAt(lease: Lease, now: int, m: nat)
    requires m < |NewDurationBreaches(lease, lease.durationThresholds, now)|
    ensures var found, at :=
              NewDurationBreaches(lease, lease.durationThresholds, now),
              DurationPositions(lease, lease.durationThresholds, now);
            && (IsLatestAt(m, found) <==> IsNearestCrossed(lease, now, at[m]))
            && (IsFirstDurationFreezeAt(m, found) <==> IsFirstDurationFreezeCrossed(lease, now, at[m]))
  {
    DurationPositionsAre(lease, lease.durationThresholds, now);
    hide NewDurationBreaches, DurationPositions, DurationCrossed;
    var at := DurationPositions(lease, lease.durationThresholds, now);
    assert forall o :: 0 <= o < |at| ==> at[o] in at;
  }

  lemma DurationFoundIs(lease: Lease, now: int, t: DurationThreshold)
    ensures var found := NewDurationBreaches(lease, lease.durationThresholds, now);
            && (IsLatest(t, found) <==>
                  exists i :: IsNearestCrossed(lease, now, i) && lease.durationThresholds[i] == t)
            && (IsFirstDurationFreeze(t, found) <==>
                  exists i :: IsFirstDurationFreezeCrossed(lease, now, i) && lease.durationThresholds[i] == t)
  {
    hide NewDurationBreaches, DurationPositions, DurationCrossed, IsLatestAt, IsFirstDurationFreezeAt;
    var thresholds := lease.durationThresholds;
    var found, at := NewDurationBreaches(lease, thresholds, now), DurationPositions(lease, thresholds, now);
    DurationPositionsAre(lease, thresholds, now);
    forall m | 0 <= m < |found|
      ensures IsLatestAt(m, found) <==> IsNearestCrossed(lease, now, at[m])
      ensures IsFirstDurationFreezeAt(m, found) <==> IsFirstDurationFreezeCrossed(lease, now, at[m])
    {
      DurationFoundAt(lease, now, m);
    }
    if i :| IsNearestCrossed(lease, now, i) && thresholds[i] == t {
      assert i in at;
    }
    if i :| IsFirstDurationFreezeCrossed(lease, now, i) && thresholds[i] == t {
      assert i in at;
    }
  }

  lemma AlertedBudgetIs(e: MonitoringEvent, key: LeaseKey, lease: Lease, cost: real)
    ensures AlertsBudget(e, key, lease, cost, NewBudgetBreaches(lease, lease.budgetThresholds, cost)) <==>
              exists i :: IsHighestCrossed(lease, cost, i) && lease.budgetThresholds[i].action.ALERT?
                && e == BudgetThresholdAlert(key, lease.maxSpend, lease.budgetThresholds[i].dollarsSpent, cost)
  {
    hide NewBudgetBreaches, IsLargest, IsFirstBudgetFreeze;
    forall t
      ensures IsLargest(t, NewBudgetBreaches(lease, lease.budgetThresholds, cost)) <==>
                exists i :: IsHighestCrossed(lease, cost, i) && lease.budgetThresholds[i] == t
    {
      BudgetFoundIs(lease, cost, t);
    }
  }

  lemma AlertedDurationIs(e: MonitoringEvent, key: LeaseKey, lease: Lease, now: int)
    ensures AlertsDuration(e, key, lease, NewDurationBreaches(lease, lease.durationThresholds, now)) <==>
              && e.DurationThresholdAlert? && e.key == key
              && (exists i :: IsNearestCrossed(lease, now, i) && lease.durationThresholds[i].action.ALERT?
                    && e.hoursRemaining == lease.durationThresholds[i].hoursRemaining)
              && -1800000 <= lease.expirationDate.value - lease.startDate - 3600000 * e.leaseDurationInHours < 1800000
  {
    hide NewDurationBreaches, IsLatest, IsFirstDurationFreeze;
    forall t
      ensures IsLatest(t, NewDurationBreaches(lease, lease.durationThresholds, now)) <==>
                exists i :: IsNearestCrossed(lease, now, i) && lease.durationThresholds[i] == t
    {
      DurationFoundIs(lease, now, t);
    }
  }

  lemma RequestedFreezeIs(reason: FreezeReason, lease: Lease, cost: real, now: int)
    ensures RequestsFreeze(reason, lease, cost, NewBudgetBreaches(lease, lease.budgetThresholds, cost),
                           NewDurationBreaches(lease, lease.durationThresholds, now)) <==>
              match reason {
                case BudgetBreach(dollarsSpent, budget, totalSpend) =>
                  && budget == lease.maxSpend && totalSpend == cost
                  && exists i :: IsFirstBudgetFreezeCrossed(lease, cost, i)
                       && dollarsSpent == lease.budgetThresholds[i].dollarsSpent
                case DurationBreach(hoursRemaining, hours) =>
                  && hours == lease.leaseDurationInHours
                  && (forall i :: !IsFirstBudgetFreezeCrossed(lease, cost, i))
                  && exists i :: IsFirstDurationFreezeCrossed(lease, now, i)
                       && hoursRemaining == lease.durationThresholds[i].hoursRemaining
              }
  {
    hide NewBudgetBreaches, NewDurationBreaches, IsFirstBudgetFreeze, IsFirstDurationFreeze;
    var budget := NewBudgetBreaches(lease, lease.budgetThresholds, cost);
    forall t
      ensures IsFirstBudgetFreeze(t, budget) <==>
                exists i :: IsFirstBudgetFreezeCrossed(lease, cost, i) && lease.budgetThresholds[i] == t
      ensures IsFirstBudgetFreeze(t, budget) ==> t in budget && t.action.FREEZE_ACCOUNT?
    {
      BudgetFoundIs(lease, cost, t);
      FirstFreezeIsFound(t, budget);
    }
    forall t
      ensures IsFirstDurationFreeze(t, NewDurationBreaches(lease, lease.durationThresholds, now)) <==>
                exists i :: IsFirstDurationFreezeCrossed(lease, now, i) && lease.durationThresholds[i] == t
    {
      DurationFoundIs(lease, now, t);
    }
    if exists t :: t in budget && t.action.FREEZE_ACCOUNT? {
      FirstBudgetFreezeExists(budget);
    }
  }

  lemma FirstFreezeIsFound(t: BudgetThreshold, thresholds: seq<BudgetThreshold>)
    ensures IsFirstBudgetFreeze(t, thresholds) ==> t in thresholds && t.action.FREEZE_ACCOUNT?
  {
  }

  /**
    All that a scan reports of a lease within its terms. It alerts the highest budget threshold it finds newly crossed,
    and the duration threshold with the least time remaining, each unless that one asks for a freeze; and it requests at
    most one freeze, for the first budget threshold that asks for it, or if there is none, the first duration threshold.
   */
  lemma AlertsAre(e: MonitoringEvent, key: LeaseKey, lease: Lease, cost: real, now: int)
    requires WithinTerms(lease, cost, now)
    ensures ToReport(e, key, lease, cost, now) <==>
              && e.key == key
              && match e {
                   case BudgetThresholdAlert(_, maxSpend, dollarsSpent, totalSpend) =>
                     && maxSpend == lease.maxSpend && totalSpend == cost
                     && exists i :: IsHighestCrossed(lease, cost, i) && lease.budgetThresholds[i].action.ALERT?
                          && dollarsSpent == lease.budgetThresholds[i].dollarsSpent
                   case DurationThresholdAlert(_, hoursRemaining, hours) =>
                     && (exists i :: IsNearestCrossed(lease, now, i) && lease.durationThresholds[i].action.ALERT?
                           && hoursRemaining == lease.durationThresholds[i].hoursRemaining)
                     && -1800000 <= lease.expirationDate.value - lease.startDate - 3600000 * hours < 1800000
                   case FreezingThresholdAlert(_, BudgetBreach(dollarsSpent, budget, totalSpend)) =>
                     && budget == lease.maxSpend && totalSpend == cost
                     && exists i :: IsFirstBudgetFreezeCrossed(lease, cost, i)
                          && dollarsSpent == lease.budgetThresholds[i].dollarsSpent
                   case FreezingThresholdAlert(_, DurationBreach(hoursRemaining, hours)) =>
                     && hours == lease.leaseDurationInHours
                     && (forall i :: !IsFirstBudgetFreezeCrossed(lease, cost, i))
                     && exists i :: IsFirstDurationFreezeCrossed(lease, now, i)
                          && hoursRemaining == lease.durationThresholds[i].hoursRemaining
                   case _ => false
                 }
  {
    hide NewBudgetBreaches, NewDurationBreaches, RequestsFreeze, AlertsBudget, AlertsDuration;
    AlertedBudgetIs(e, key, lease, cost);
    AlertedDurationIs(e, key, lease, now);
    if e.FreezingThresholdAlert? {
      RequestedFreezeIs(e.reason, lease, cost, now);
    }
  }

  // ----- Freeze requests -----

  ghost predicate FreezeRequestedAt(key: LeaseKey, lease: Lease, scans: seq<Scan>, i: int) {
    0 <= i < |scans|
    && exists reason ::
         ToReport(FreezingThresholdAlert(key, reason), key, LeaseAt(lease, scans, i), scans[i].cost, scans[i].time)
  }

  lemma {:induction false} FirstBudgetFreezeExists(thresholds: seq<BudgetThreshold>)
    requires exists t :: t in thresholds && t.action.FREEZE_ACCOUNT?
    ensures exists t :: IsFirstBudgetFreeze(t, thresholds)
  {
    var last := |thresholds| - 1;
    assert thresholds == thresholds[..last] + [thresholds[last]];
    if exists t :: t in thresholds[..last] && t.action.FREEZE_ACCOUNT? {
      FirstBudgetFreezeExists(thresholds[..last]);
      var t :| IsFirstBudgetFreeze(t, thresholds[..last]);
      assert IsFirstBudgetFreeze(t, thresholds);
    } else {
      assert forall j :: 0 <= j < last ==> thresholds[j] in thresholds[..last];
      assert IsFirstBudgetFreezeAt(last, thresholds) && IsFirstBudgetFreeze(thresholds[last], thresholds);
    }
  }

  lemma {:induction false} FirstDurationFreezeExists(thresholds: seq<DurationThreshold>)
    requires exists t :: t in thresholds && t.action.FREEZE_ACCOUNT?
    ensures exists t :: IsFirstDurationFreeze(t, thresholds)
  {
    var last := |thresholds| - 1;
    assert thresholds == thresholds[..last] + [thresholds[last]];
    if exists t :: t in thresholds[..last] && t.action.FREEZE_ACCOUNT? {
      FirstDurationFreezeExists(thresholds[..last]);
      var t :| IsFirstDurationFreeze(t, thresholds[..last]);
      assert IsFirstDurationFreeze(t, thresholds);
    } else {
      assert forall j :: 0 <= j < last ==> thresholds[j] in thresholds[..last];
      assert IsFirstDurationFreezeAt(last, thresholds) && IsFirstDurationFreeze(thresholds[last], thresholds);
    }
  }

  /** A scan requests a freeze iff it finds a freezing threshold of a lease that is neither over budget nor expired. */
  lemma FreezeRequestedIff(key: LeaseKey, lease: Lease, scans: seq<Scan>, i: int)
    ensures FreezeRequestedAt(key, lease, scans, i) <==>
              && 0 <= i < |scans|
              && WithinTerms(lease, scans[i].cost, scans[i].time)
              && (|| (exists t :: BudgetBreachedAt(lease, scans, t, i) && t.action.FREEZE_ACCOUNT?)
                  || (exists t :: DurationBreachedAt(lease, scans, t, i) && t.action.FREEZE_ACCOUNT?))
  {
    if 0 <= i < |scans| {
      var at := LeaseAt(lease, scans, i);
      var budget := NewBudgetBreaches(at, at.budgetThresholds, scans[i].cost);
      var duration := NewDurationBreaches(at, at.durationThresholds, scans[i].time);
      if exists t :: t in budget && t.action.FREEZE_ACCOUNT? {
        FirstBudgetFreezeExists(budget);
        var t :| IsFirstBudgetFreeze(t, budget);
        var reason := BudgetBreach(t.dollarsSpent, at.maxSpend, scans[i].cost);
        assert RequestsFreeze(reason, at, scans[i].cost, budget, duration);
        assert FreezingThresholdAlert(key, reason).reason == reason;
        assert t in budget && BudgetBreachedAt(lease, scans, t, i);
      } else if exists t :: t in duration && t.action.FREEZE_ACCOUNT? {
        FirstDurationFreezeExists(duration);
        var t :| IsFirstDurationFreeze(t, duration);
        var reason := DurationBreach(t.hoursRemaining, at.leaseDurationInHours);
        assert RequestsFreeze(reason, at, scans[i].cost, budget, duration);
        assert FreezingThresholdAlert(key, reason).reason == reason;
        assert t in duration && DurationBreachedAt(lease, scans, t, i);
      } else {
        assert forall reason :: !RequestsFreeze(reason, at, scans[i].cost, budget, duration);
      }
    }
  }

  /** A lease that stays within budget and time gets a freeze request in some scan iff it crosses a freezing threshold. */
  lemma FreezeIsRequested(key: LeaseKey, lease: Lease, scans: seq<Scan>)
    requires CostNeverFalls(lease, scans) && TimeAdvances(lease, scans)
    requires forall i :: 0 <= i < |scans| ==>
               WithinTerms(lease, scans[i].cost, scans[i].time)
    ensures (exists i :: FreezeRequestedAt(key, lease, scans, i)) <==>
              || (exists t :: t in lease.budgetThresholds && t.action.FREEZE_ACCOUNT?
                    && lease.totalCostAccrued < t.dollarsSpent <= FinalCost(lease, scans))
              || (exists t :: t in lease.durationThresholds && t.action.FREEZE_ACCOUNT? && lease.expirationDate.Some?
                    && lease.lastCheckedDate < lease.expirationDate.value - 3600000 * t.hoursRemaining
                         <= FinalTime(lease, scans))
  {
    hide ToReport, NewBudgetBreaches, NewDurationBreaches, FreezeRequestedAt;
    forall i
      ensures FreezeRequestedAt(key, lease, scans, i) <==>
                && 0 <= i < |scans|
                && (|| (exists t :: BudgetBreachedAt(lease, scans, t, i) && t.action.FREEZE_ACCOUNT?)
                    || (exists t :: DurationBreachedAt(lease, scans, t, i) && t.action.FREEZE_ACCOUNT?))
    {
      FreezeRequestedIff(key, lease, scans, i);
    }
    forall t | t in lease.budgetThresholds
      ensures (exists i :: BudgetBreachedAt(lease, scans, t, i))
         <==> lease.totalCostAccrued < t.dollarsSpent <= FinalCost(lease, scans)
    {
      BudgetThresholdFoundOnce(lease, scans, t);
    }
    forall t | t in lease.durationThresholds
      ensures (exists i :: DurationBreachedAt(lease, scans, t, i))
         <==> && lease.expirationDate.Some?
              && lease.lastCheckedDate < lease.expirationDate.value - 3600000 * t.hoursRemaining
                   <= FinalTime(lease, scans)
    {
      DurationThresholdFoundOnce(lease, scans, t);
    }
    forall t, i | BudgetBreachedAt(lease, scans, t, i)
      ensures t in lease.budgetThresholds
    {
      BudgetBreachesAre(LeaseAt(lease, scans, i), lease.budgetThresholds, scans[i].cost, t);
    }
    forall t, i | DurationBreachedAt(lease, scans, t, i)
      ensures t in lease.durationThresholds
    {
      DurationBreachesAre(LeaseAt(lease, scans, i), lease.durationThresholds, scans[i].time, t);
    }
    if exists t, i :: BudgetBreachedAt(lease, scans, t, i) && t.action.FREEZE_ACCOUNT? {
      var t, i :| BudgetBreachedAt(lease, scans, t, i) && t.action.FREEZE_ACCOUNT?;
      assert FreezeRequestedAt(key, lease, scans, i);
    }
    if exists t, i :: DurationBreachedAt(lease, scans, t, i) && t.action.FREEZE_ACCOUNT? {
      var t, i :| DurationBreachedAt(lease, scans, t, i) && t.action.FREEZE_ACCOUNT?;
      assert FreezeRequestedAt(key, lease, scans, i);
    }
  }
}
