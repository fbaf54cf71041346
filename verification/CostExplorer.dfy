/**
  Cost reports: batched requests to Cost Explorer, summed per account, against the plain sum of an account's costs.

  Times are milliseconds in UTC. Days, hours and seconds are numbered; sums are over half-open ranges of days or hours.
 */
module CostExplorer {
  import opened Domain
  import opened SandboxServices

  datatype Granularity = DAILY | HOURLY

  const MILLIS_PER_SECOND: int := 1000
  const SECONDS_PER_HOUR: int := 3600
  const SECONDS_PER_DAY: int := 86400
  const HOURS_PER_DAY: int := 24
  const MILLIS_PER_DAY: int := 86400000
  const MAX_DAYS_FOR_HOURLY: int := 14

  function DayOf(time: int): int {
    time / MILLIS_PER_DAY
  }

  function HourOf(time: int): int {
    time / MILLIS_PER_HOUR
  }

  function SecondOf(time: int): int {
    time / MILLIS_PER_SECOND
  }

  /** The day or hour that the time is in. */
  function UnitOf(g: Granularity, time: int): int {
    if g.DAILY? then DayOf(time) else HourOf(time)
  }

  function StartOfDay(time: int): int {
    DayOf(time) * MILLIS_PER_DAY
  }

  function ToStartOfNextPeriod(time: int, g: Granularity): int {
    if g.DAILY? then (DayOf(time) + 1) * MILLIS_PER_DAY else (HourOf(time) + 1) * MILLIS_PER_HOUR
  }

  /** Requests name days, or hours to the second. */
  function ToCostExplorerFormat(time: int, g: Granularity): int {
    if g.DAILY? then DayOf(time) else SecondOf(time)
  }

  lemma Calendar(time: int)
    ensures SecondOf(time) / SECONDS_PER_HOUR == HourOf(time)
    ensures HourOf(time) / HOURS_PER_DAY == DayOf(time)
    ensures DayOf(time) * HOURS_PER_DAY <= HourOf(time) < (DayOf(time) + 1) * HOURS_PER_DAY
    ensures HourOf(time) * SECONDS_PER_HOUR <= SecondOf(time) < (HourOf(time) + 1) * SECONDS_PER_HOUR
    ensures DayOf(time) * SECONDS_PER_DAY == SecondOf(time) <==> time % MILLIS_PER_DAY < MILLIS_PER_SECOND
    ensures DayOf(time) * SECONDS_PER_DAY <= SecondOf(time) < (DayOf(time) + 1) * SECONDS_PER_DAY
  {
  }

  /** What the accounts cost, hour by hour. */
  type Costs = (AccountId, int) -> real

  function HoursSum(costs: Costs, a: AccountId, lo: int, hi: int): real
    decreases hi - lo
  {
    if lo >= hi then 0.0 else HoursSum(costs, a, lo, hi - 1) + costs(a, hi - 1)
  }

  function UnitCost(costs: Costs, g: Granularity, a: AccountId, u: int): real {
    if g.DAILY? then HoursSum(costs, a, u * HOURS_PER_DAY, (u + 1) * HOURS_PER_DAY) else costs(a, u)
  }

  /** The plain sum: what the account costs in the units `lo`, ..., `hi - 1`. */
  function PeriodSum(costs: Costs, g: Granularity, a: AccountId, lo: int, hi: int): real
    decreases hi - lo
  {
    if lo >= hi then 0.0 else PeriodSum(costs, g, a, lo, hi - 1) + UnitCost(costs, g, a, hi - 1)
  }

  function Max(x: int, y: int): int {
    if x < y then y else x
  }

  // ----- The service -----

  /** A period of days, or of seconds in hourly requests. */
  datatype Request = Request(lo: int, hi: int, accounts: set<AccountId>, granularity: Granularity) {
    // the days of the period, or the hours that it touches

    function First(): int {
      if granularity.DAILY? then lo else lo / SECONDS_PER_HOUR
    }

    function End(): int {
      if granularity.DAILY? then hi else (hi + SECONDS_PER_HOUR - 1) / SECONDS_PER_HOUR
    }
  }

  datatype Group = Group(accountId: AccountId, amount: real)

  datatype Period = Period(start: int, groups: seq<Group>)

  /** One group per account that had a cost in the unit. */
  ghost predicate IsGrouping(costs: Costs, g: Granularity, accounts: set<AccountId>, u: int, groups: seq<Group>) {
    && (forall i :: 0 <= i < |groups| ==>
          groups[i].accountId in accounts && groups[i].amount == UnitCost(costs, g, groups[i].accountId, u))
    && (forall i, j :: 0 <= i < j < |groups| ==> groups[i].accountId != groups[j].accountId)
    && (forall a :: a in accounts ==>
          UnitCost(costs, g, a, u) == 0.0 || exists i :: 0 <= i < |groups| && groups[i].accountId == a)
  }

  ghost predicate IsResponse(costs: Costs, request: Request, periods: seq<Period>) {
    || (&& periods == []
        && forall a, u :: a in request.accounts && request.First() <= u < request.End() ==>
             UnitCost(costs, request.granularity, a, u) == 0.0)
    || (&& |periods| == request.End() - request.First()
        && forall i :: 0 <= i < |periods| ==>
             && periods[i].start == request.First() + i
             && IsGrouping(costs, request.granularity, request.accounts, periods[i].start, periods[i].groups))
  }

  datatype CostError = HourlyRangeTooLong | InvalidPeriod

  /** The client; a period must start before it ends. */
  class CostExplorerClient {
    ghost const costs: Costs
    const answer: Request -> seq<Period>
    var requests: seq<Request>

    ghost predicate Faithful() {
      forall request: Request :: request.lo < request.hi ==> IsResponse(costs, request, answer(request))
    }

    constructor (ghost costs: Costs, answer: Request -> seq<Period>)
      ensures this.costs == costs && this.answer == answer && requests == []
    {
      this.costs, this.answer, requests := costs, answer, [];
    }

    method Send(request: Request) returns (periods: Option<seq<Period>>)
      requires Faithful()
      modifies this
      ensures requests == old(requests) + [request]
      ensures periods.Some? <==> request.lo < request.hi
      ensures periods.Some? ==> IsResponse(costs, request, periods.value)
    {
      requests := requests + [request];
      periods := if request.lo < request.hi then Some(answer(request)) else None;
    }
  }

  // ----- Reports -----

  class AccountsCostReport {
    var costMap: map<AccountId, real>

    function CostOf(a: AccountId): real
      reads this
    {
      if a in costMap then costMap[a] else 0.0
    }

    constructor ()
      ensures costMap == map[]
    {
      costMap := map[];
    }

    /** A missing cost and a cost of zero are both overwritten. */
    method AddCost(a: AccountId, toAdd: real)
      modifies this
      ensures costMap.Keys == old(costMap.Keys) + {a}
      ensures CostOf(a) == old(CostOf(a)) + toAdd
      ensures forall b :: b != a ==> CostOf(b) == old(CostOf(b))
    {
      if a in costMap && costMap[a] != 0.0 {
        costMap := costMap[a := costMap[a] + toAdd];
      } else {
        costMap := costMap[a := toAdd];
      }
    }

    method GetCost(a: AccountId) returns (cost: real)
      ensures cost == CostOf(a)
    {
      cost := if a in costMap then costMap[a] else 0.0;
    }

    method Merge(other: AccountsCostReport)
      requires other != this
      modifies this
      ensures costMap.Keys == old(costMap.Keys) + other.costMap.Keys
      ensures forall a :: CostOf(a) == old(CostOf(a)) + other.CostOf(a)
    {
      var listed := Enumerate(other.costMap.Keys);
      var i := 0;
      while i < |listed|
        invariant 0 <= i <= |listed|
        invariant costMap.Keys == old(costMap.Keys) + Elements(listed[..i])
        invariant forall a :: CostOf(a) == old(CostOf(a)) + if a in Elements(listed[..i]) then other.CostOf(a) else 0.0
      {
        hide Elements;
        NextOfListing(listed, other.costMap.Keys, i);
        AddCost(listed[i], other.costMap[listed[i]]);
        i := i + 1;
      }
      WholeListing(listed, other.costMap.Keys);
    }
  }

  function Elements<T>(q: seq<T>): set<T> {
    set x | x in q
  }

  lemma NextOfListing(listed: seq<AccountId>, s: set<AccountId>, i: nat)
    requires IsListing(listed, s) && i < |listed|
    ensures listed[i] in s && listed[i] !in Elements(listed[..i])
    ensures Elements(listed[..i + 1]) == Elements(listed[..i]) + {listed[i]}
  {
    assert listed[..i + 1] == listed[..i] + [listed[i]];
  }

  lemma WholeListing(listed: seq<AccountId>, s: set<AccountId>)
    requires IsListing(listed, s)
    ensures Elements(listed[..|listed|]) == s
  {
    assert listed[..|listed|] == listed;
  }

  datatype Result = Success(report: AccountsCostReport) | Failure(error: CostError)

  // ----- The aggregation -----

  /** What the first `n` groups list for the account. */
  function Listed(groups: seq<Group>, n: nat, a: AccountId): real
    requires n <= |groups|
  {
    if n == 0 then 0.0
    else Listed(groups, n - 1, a) + if groups[n - 1].accountId == a then groups[n - 1].amount else 0.0
  }

  lemma GroupsAreOfAccounts(costs: Costs, g: Granularity, accounts: set<AccountId>, u: int, groups: seq<Group>)
    requires IsGrouping(costs, g, accounts, u, groups)
    ensures forall i :: 0 <= i < |groups| ==> groups[i].accountId in accounts
  {
  }

  lemma {:induction false} ListedIsCost(
    costs: Costs, g: Granularity, accounts: set<AccountId>, u: int, groups: seq<Group>, a: AccountId, n: nat)
    requires IsGrouping(costs, g, accounts, u, groups) && n <= |groups|
    ensures Listed(groups, n, a) ==
            if exists i :: 0 <= i < n && groups[i].accountId == a then UnitCost(costs, g, a, u) else 0.0
    ensures n == |groups| && a in accounts ==> Listed(groups, n, a) == UnitCost(costs, g, a, u)
  {
    hide UnitCost;
    if n > 0 {
      ListedIsCost(costs, g, accounts, u, groups, a, n - 1);
    }
  }

  class CostExplorerService {
    const client: CostExplorerClient
    const maxAccountsInFilter: nat

    constructor (client: CostExplorerClient, maxAccountsInFilter: nat)
      ensures this.client == client && this.maxAccountsInFilter == maxAccountsInFilter
    {
      this.client, this.maxAccountsInFilter := client, maxAccountsInFilter;
    }

    /** Adds the costs of one unit, for the accounts that had started by then. */
    method AccumulateCostForResult(
      result: Period, starts: map<AccountId, int>, g: Granularity, report: AccountsCostReport)
      requires IsGrouping(client.costs, g, starts.Keys, result.start, result.groups)
      modifies report
      ensures forall a :: report.CostOf(a) == old(report.CostOf(a)) +
                if a in starts && starts[a] / (if g.DAILY? then 86400000 else 3600000) <= result.start
                then UnitCost(client.costs, g, a, result.start) else 0.0
    {
      hide IsGrouping, UnitCost;
      GroupsAreOfAccounts(client.costs, g, starts.Keys, result.start, result.groups);
      var groups := result.groups;
      var i := 0;
      while i < |groups|
        invariant 0 <= i <= |groups|
        invariant forall a :: report.CostOf(a) == old(report.CostOf(a)) +
                    if a in starts && UnitOf(g, starts[a]) <= result.start then Listed(groups, i, a) else 0.0
      {
        var a := groups[i].accountId;
        if UnitOf(g, starts[a]) <= result.start {
          report.AddCost(a, groups[i].amount);
        }
        i := i + 1;
      }
      forall a | a in starts
        ensures Listed(groups, |groups|, a) == UnitCost(client.costs, g, a, result.start)
      {
        ListedIsCost(client.costs, g, starts.Keys, result.start, groups, a, |groups|);
      }
    }

    method CalculateTotalCostForLeases(request: Request, results: seq<Period>, starts: map<AccountId, int>)
      returns (report: AccountsCostReport)
      requires request.accounts == starts.Keys && request.lo < request.hi && results != []
      requires IsResponse(client.costs, request, results)
      ensures fresh(report)
      ensures forall a :: report.CostOf(a) == Expected(request, starts, a, request.End())
    {
      report := new AccountsCostReport();
      var i := 0;
      while i < |results|
        invariant 0 <= i <= |results|
        invariant forall a :: report.CostOf(a) == Expected(request, starts, a, request.First() + i)
      {
        AccumulateCostForResult(results[i], starts, request.granularity, report);
        i := i + 1;
      }
    }

    /** What a request contributes for an account, up to the unit `hi`. */
    ghost function Expected(request: Request, starts: map<AccountId, int>, a: AccountId, hi: int): real {
      if a in starts
      then
        var g := request.granularity;
        PeriodSum(client.costs, g, a, Max(request.First(), UnitOf(g, starts[a])), hi)
      else 0.0
    }

    method GetCostByGranularityForLeases(lo: int, hi: int, starts: map<AccountId, int>, g: Granularity)
      returns (r: Result)
      requires client.Faithful()
      modifies client
      ensures r.Success? ==> fresh(r.report)
      ensures r.Success? ==>
                var request := RequestFor(lo, hi, starts, g);
                forall a :: r.report.CostOf(a) == Expected(request, starts, a, request.End())
      ensures r.Failure? && r.error.HourlyRangeTooLong? <==> g.HOURLY? && hi - lo >= 14 * 86400000
      ensures r.Failure? <==>
                if g.DAILY? then lo / 86400000 >= hi / 86400000
                else hi - lo >= 14 * 86400000 || lo / 1000 >= hi / 1000
      ensures client.requests == old(client.requests) +
                if g.DAILY? then [Request(lo / 86400000, hi / 86400000, starts.Keys, DAILY)]
                else if hi - lo < 14 * 86400000 then [Request(lo / 1000, hi / 1000, starts.Keys, HOURLY)]
                else []
    {
      if g.HOURLY? && hi - lo >= MAX_DAYS_FOR_HOURLY * MILLIS_PER_DAY {
        return Failure(HourlyRangeTooLong);
      }
      var request := Request(ToCostExplorerFormat(lo, g), ToCostExplorerFormat(hi, g), starts.Keys, g);
      var response := client.Send(request);
      if response.None? {
        return Failure(InvalidPeriod);
      }
      var report: AccountsCostReport;
      if response.value == [] {
        report := new AccountsCostReport();
        forall a
          ensures Expected(request, starts, a, request.End()) == 0.0
        {
          if a in starts {
            FreeSum(client.costs, g, a, Max(request.First(), UnitOf(g, starts[a])), request.End());
          }
        }
      } else {
        report := CalculateTotalCostForLeases(request, response.value, starts);
      }
      r := Success(report);
    }

    /** Daily mode asks for whole days, through the day of `end`. */
    method GetCostForLeasesDaily(starts: map<AccountId, int>, start: int, end: int) returns (r: Result)
      requires client.Faithful() && forall a :: a in starts ==> start <= starts[a]
      modifies client
      ensures r.Success? ==> fresh(r.report)
      ensures r.Success? ==> forall a :: r.report.CostOf(a) == DailyCost(starts, a, end)
      ensures r.Failure? <==> DayOf(start) > DayOf(end)
      ensures r.Failure? ==> r.error.InvalidPeriod?
      ensures OnlyNewRequests(old(client.requests), client.requests, starts.Keys)
    {
      NextPeriods(end);
      Later(start, starts);
      hide DayOf, HourOf, SecondOf, PeriodSum;
      r := GetCostByGranularityForLeases(start, ToStartOfNextPeriod(end, DAILY), starts, DAILY);
    }

    /** Hourly mode asks for hours in short windows, else for days before the day of `end` and for hours on that day. */
    method GetCostForLeasesHourly(starts: map<AccountId, int>, start: int, end: int) returns (r: Result)
      requires client.Faithful() && forall a :: a in starts ==> start <= starts[a]
      modifies client
      ensures r.Success? ==> fresh(r.report)
      ensures r.Success? ==> forall a :: r.report.CostOf(a) == HourlyCost(starts, a, start, end)
      ensures r.Failure? <==> Refused(HOURLY, start, end)
      ensures r.Failure? ==> r.error.InvalidPeriod?
      ensures OnlyNewRequests(old(client.requests), client.requests, starts.Keys)
    {
      hide HourlyTotal, HoursUpTo;
      if end - start < MILLIS_PER_DAY {
        r := GetCostForShortWindow(starts, start, end);
      } else {
        r := GetCostForLongWindow(starts, start, end);
      }
    }

    /** Less than a day: the hours through that of `end`. */
    method GetCostForShortWindow(starts: map<AccountId, int>, start: int, end: int) returns (r: Result)
      requires client.Faithful() && (forall a :: a in starts ==> start <= starts[a]) && end - start < MILLIS_PER_DAY
      modifies client
      ensures r.Success? ==> fresh(r.report)
      ensures r.Success? ==> forall a :: r.report.CostOf(a) == HourlyCost(starts, a, start, end)
      ensures r.Failure? <==> HourOf(start) > HourOf(end)
      ensures r.Failure? ==> r.error.InvalidPeriod?
      ensures OnlyNewRequests(old(client.requests), client.requests, starts.Keys)
    {
      NextPeriods(end);
      Later(start, starts);
      Calendar(start);
      WindowFacts(start, end);
      hide DayOf, HourOf, SecondOf, PeriodSum;
      r := GetCostByGranularityForLeases(start, ToStartOfNextPeriod(end, HOURLY), starts, HOURLY);
    }

    /** A day or more: the days before that of `end`, then the hours of that day. */
    method GetCostForLongWindow(starts: map<AccountId, int>, start: int, end: int) returns (r: Result)
      requires client.Faithful() && (forall a :: a in starts ==> start <= starts[a]) && end - start >= MILLIS_PER_DAY
      modifies client
      ensures r.Success? ==> fresh(r.report)
      ensures r.Success? ==> forall a :: r.report.CostOf(a) == HourlyCost(starts, a, start, end)
      ensures r.Failure? <==> end % MILLIS_PER_DAY < MILLIS_PER_SECOND
      ensures r.Failure? ==> r.error.InvalidPeriod?
      ensures OnlyNewRequests(old(client.requests), client.requests, starts.Keys)
    {
      NextPeriods(end);
      Later(start, starts);
      Calendar(end);
      WindowFacts(start, end);
      hide DayOf, HourOf, SecondOf, PeriodSum;
      var lastDailyDate := StartOfDay(end);
      r := GetCostByGranularityForLeases(start, lastDailyDate, starts, DAILY);
      assert r.Success?;
      var rest := GetCostByGranularityForLeases(lastDailyDate, end, starts, HOURLY);
      if rest.Failure? {
        return rest;
      }
      r.report.Merge(rest.report);
    }

    method GetCostForBatch(starts: map<AccountId, int>, start: int, end: int, g: Granularity) returns (r: Result)
      requires client.Faithful() && forall a :: a in starts ==> start <= starts[a]
      modifies client
      ensures r.Success? ==> fresh(r.report)
      ensures r.Success? ==> forall a :: r.report.CostOf(a) == CostIn(starts, a, start, end, g)
      ensures r.Failure? <==> Refused(g, start, end)
      ensures r.Failure? ==> r.error.InvalidPeriod?
      ensures OnlyNewRequests(old(client.requests), client.requests, starts.Keys)
    {
      if g.HOURLY? {
        r := GetCostForLeasesHourly(starts, start, end);
      } else {
        r := GetCostForLeasesDaily(starts, start, end);
      }
    }

    ghost function DailyCost(starts: map<AccountId, int>, a: AccountId, end: int): real {
      if a in starts
      then PeriodSum(client.costs, DAILY, a, UnitOf(DAILY, starts[a]), UnitOf(DAILY, end) + 1)
      else 0.0
    }

    ghost function HourlyCost(starts: map<AccountId, int>, a: AccountId, earliest: int, end: int): real {
      if a in starts then HourlyTotal(client.costs, a, starts[a], earliest, end) else 0.0
    }

    ghost function CostIn(starts: map<AccountId, int>, a: AccountId, earliest: int, end: int, g: Granularity): real {
      if g.HOURLY? then HourlyCost(starts, a, earliest, end) else DailyCost(starts, a, end)
    }

    /** Every request made is for some of the accounts, and no hourly one spans 14 days. */
    ghost predicate OnlyNewRequests(was: seq<Request>, now: seq<Request>, accounts: set<AccountId>) {
      && was <= now
      && forall i :: |was| <= i < |now| ==>
           && now[i].accounts == accounts
           && (now[i].granularity.HOURLY? ==> now[i].hi - now[i].lo < 14 * 86400)
    }

    ghost predicate Bounded(was: seq<Request>, now: seq<Request>) {
      && was <= now
      && forall i :: |was| <= i < |now| ==>
           && 0 < |now[i].accounts| <= maxAccountsInFilter
           && (now[i].granularity.HOURLY? ==> now[i].hi - now[i].lo < 14 * 86400)
    }

    lemma BoundedChain(was: seq<Request>, between: seq<Request>, now: seq<Request>)
      requires Bounded(was, between) && Bounded(between, now)
      ensures Bounded(was, now)
    {
    }

    /** Adds the costs of one batch of accounts, asked for from the start of the first. */
    method MergeBatch(
      batch: seq<AccountId>, starts: map<AccountId, int>, end: int, g: Granularity, accountsCost: AccountsCostReport)
      returns (failed: bool)
      requires client.Faithful() && 0 < |batch| <= maxAccountsInFilter
      requires batch[0] in starts && forall a :: a in batch ==> a in starts && starts[batch[0]] <= starts[a]
      modifies client, accountsCost
      ensures failed <==> Refused(g, starts[batch[0]], end)
      ensures !failed ==>
                forall a :: accountsCost.CostOf(a) == old(accountsCost.CostOf(a)) +
                  if a in batch then CostIn(starts, a, starts[batch[0]], end, g) else 0.0
      ensures Bounded(old(client.requests), client.requests)
    {
      hide Refused;
      var batchStarts := map a | a in batch :: starts[a];
      assert batch[0..|batch|] == batch;
      BatchIsSmall(batch, 0, |batch|, batchStarts.Keys);
      var part := GetCostForBatch(batchStarts, starts[batch[0]], end, g);
      if part.Failure? {
        return true;
      }
      accountsCost.Merge(part.report);
      failed := false;
    }

    /** Asks batch by batch and merges the answers; `earliest` is the start that each account was asked from. */
    method MergeBatches(sorted: seq<AccountId>, starts: map<AccountId, int>, end: int, g: Granularity)
      returns (r: Result, ghost earliest: map<AccountId, int>)
      requires client.Faithful() && maxAccountsInFilter > 0
      requires IsListing(sorted, starts.Keys) && IsByStart(sorted, starts)
      modifies client
      ensures forall a :: a in earliest ==> a in starts && earliest[a] <= starts[a] && !Refused(g, earliest[a], end)
      ensures r.Success? ==>
                && (forall a :: a in starts ==> a in earliest)
                && (forall a :: r.report.CostOf(a) ==
                      if a in earliest then CostIn(starts, a, earliest[a], end, g) else 0.0)
      ensures r.Failure? ==> r.error.InvalidPeriod? && exists a :: a in starts && Refused(g, starts[a], end)
      ensures Bounded(old(client.requests), client.requests)
    {
      assert Bounded(client.requests, client.requests);
      hide CostIn, Refused, IsListing, IsByStart, Bounded, AskedFrom;
      var accountsCost := new AccountsCostReport();
      earliest := map[];
      var i := 0;
      while i < |sorted|
        invariant 0 <= i && fresh(accountsCost)
        invariant Bounded(old(client.requests), client.requests)
        invariant forall a :: a in earliest <==> a in sorted[..Min(i, |sorted|)]
        invariant forall a :: a in earliest ==> a in starts && earliest[a] <= starts[a] && !Refused(g, earliest[a], end)
        invariant forall a ::
                    accountsCost.CostOf(a) == if a in earliest then CostIn(starts, a, earliest[a], end, g) else 0.0
      {
        var next := Min(i + maxAccountsInFilter, |sorted|);
        var batch := sorted[i..next];
        BatchFacts(sorted, starts, i, next);
        ghost var sent := client.requests;
        var failed := MergeBatch(batch, starts, end, g, accountsCost);
        BoundedChain(old(client.requests), sent, client.requests);
        if failed {
          return Failure(InvalidPeriod), earliest;
        }
        AskedFromIs(earliest, batch, starts[batch[0]]);
        earliest := AskedFrom(earliest, batch, starts[batch[0]]);
        i := i + maxAccountsInFilter;
      }
      assert (forall a :: a in starts ==> a in sorted) by {
        ListsAll(sorted, starts.Keys);
      }
      assert sorted[..Min(i, |sorted|)] == sorted;
      r := Success(accountsCost);
    }

    /**
      The costs of all accounts, each from its own start. In daily mode they are the plain sums of daily costs; in hourly
      mode each account's cost depends on the rest only through the earliest start of its batch.
     */
    method GetCostForLeases(starts: map<AccountId, int>, end: int, g: Granularity)
      returns (r: Result, ghost earliest: map<AccountId, int>)
      requires client.Faithful() && maxAccountsInFilter > 0
      modifies client
      ensures r.Success? && g.DAILY? ==>
                forall a :: r.report.CostOf(a) ==
                  if a in starts
                  then PeriodSum(client.costs, DAILY, a, starts[a] / 86400000, end / 86400000 + 1) else 0.0
      ensures r.Success? && g.HOURLY? ==>
                && (forall a :: a in starts ==> a in earliest && earliest[a] <= starts[a])
                && (forall a :: a in starts ==>
                      r.report.CostOf(a) == HourlyTotal(client.costs, a, starts[a], earliest[a], end))
                && (forall a :: a !in starts ==> r.report.CostOf(a) == 0.0)
      ensures g.DAILY? && (forall a :: a in starts ==> starts[a] <= end) ==> r.Success?
      ensures g.HOURLY? && (forall a :: a in starts ==> starts[a] <= end) ==>
                (r.Failure? <==>
                   end % 86400000 < 1000 && exists a :: a in starts && end - starts[a] >= 86400000)
      ensures r.Failure? ==> r.error.InvalidPeriod?
      ensures Bounded(old(client.requests), client.requests)
    {
      var sorted := SortByStart(starts);
      r, earliest := MergeBatches(sorted, starts, end, g);
    }
  }

  /** The period of a batch is one that Cost Explorer refuses: it is empty, to the second. */
  predicate Refused(g: Granularity, start: int, end: int) {
    if g.DAILY? then DayOf(start) > DayOf(end)
    else if end - start < MILLIS_PER_DAY then HourOf(start) > HourOf(end)
    else end % MILLIS_PER_DAY < MILLIS_PER_SECOND
  }

  function Min(x: int, y: int): int {
    if x < y then x else y
  }

  /** The accounts of the batch are asked from `start`. */
  function AskedFrom(earliest: map<AccountId, int>, batch: seq<AccountId>, start: int): map<AccountId, int> {
    earliest + map a | a in batch :: start
  }

  lemma AskedFromIs(earliest: map<AccountId, int>, batch: seq<AccountId>, start: int)
    ensures var after := AskedFrom(earliest, batch, start);
            && (forall a :: a in after <==> a in earliest || a in batch)
            && (forall a :: a in after ==> after[a] == if a in batch then start else earliest[a])
  {
  }

  ghost predicate IsByStart(sorted: seq<AccountId>, starts: map<AccountId, int>) {
    && (forall i :: 0 <= i < |sorted| ==> sorted[i] in starts)
    && (forall i, j :: 0 <= i < j < |sorted| ==> starts[sorted[i]] <= starts[sorted[j]])
  }

  lemma ListsAll(q: seq<AccountId>, s: set<AccountId>)
    requires IsListing(q, s)
    ensures forall a :: a in s <==> a in q
  {
  }

  /** A batch starts with its earliest account and does not repeat what came before. */
  lemma BatchFacts(sorted: seq<AccountId>, starts: map<AccountId, int>, i: nat, next: nat)
    requires i < next <= |sorted| && IsListing(sorted, starts.Keys) && IsByStart(sorted, starts)
    ensures sorted[i..next][0] in starts
    ensures forall a :: a in sorted[i..next] ==> a in starts && starts[sorted[i..next][0]] <= starts[a]
    ensures forall a :: a in sorted[i..next] ==> a !in sorted[..i]
    ensures forall a :: a in sorted[..next] <==> a in sorted[..i] || a in sorted[i..next]
  {
    assert sorted[..next] == sorted[..i] + sorted[i..next];
    assert sorted[i..next][0] == sorted[i];
  }

  /** A listing of the accounts by start; the order of equal starts is left open. */
  method SortByStart(starts: map<AccountId, int>) returns (sorted: seq<AccountId>)
    ensures IsListing(sorted, starts.Keys) && IsByStart(sorted, starts)
  {
    sorted := [];
    var rest := starts.Keys;
    while rest != {}
      invariant rest <= starts.Keys && IsListing(sorted, starts.Keys - rest)
      invariant IsByStart(sorted, starts)
      invariant forall a, i :: a in rest && 0 <= i < |sorted| ==> starts[sorted[i]] <= starts[a]
      decreases rest
    {
      EarliestExists(starts, rest);
      var a :| a in rest && forall b :: b in rest ==> starts[a] <= starts[b];
      sorted := sorted + [a];
      rest := rest - {a};
    }
  }

  lemma {:induction false} EarliestExists(starts: map<AccountId, int>, rest: set<AccountId>)
    requires rest <= starts.Keys && rest != {}
    ensures exists a :: a in rest && forall b :: b in rest ==> starts[a] <= starts[b]
    decreases rest
  {
    var a :| a in rest;
    if rest - {a} != {} {
      EarliestExists(starts, rest - {a});
      var c :| c in rest - {a} && forall b :: b in rest - {a} ==> starts[c] <= starts[b];
      var first := if starts[a] <= starts[c] then a else c;
      assert first in rest && forall b :: b in rest ==> starts[first] <= starts[b];
    } else {
      assert forall b :: b in rest ==> b == a || b in rest - {a};
    }
  }

  lemma {:induction false} SliceSize(sorted: seq<AccountId>, i: nat, next: nat, accounts: set<AccountId>)
    requires i <= next <= |sorted| && forall a :: a in accounts <==> a in sorted[i..next]
    ensures |accounts| <= next - i
    decreases next - i
  {
    if i < next {
      assert sorted[i..next] == sorted[i..next - 1] + [sorted[next - 1]];
      var others := set a | a in accounts && a in sorted[i..next - 1];
      SliceSize(sorted, i, next - 1, others);
      assert accounts == others + {sorted[next - 1]};
    } else {
      assert accounts == {};
    }
  }

  lemma BatchIsSmall(sorted: seq<AccountId>, i: nat, next: nat, accounts: set<AccountId>)
    requires i < next <= |sorted| && forall a :: a in accounts <==> a in sorted[i..next]
    ensures 0 < |accounts| <= next - i
  {
    SliceSize(sorted, i, next, accounts);
    assert sorted[i..next][0] in accounts;
  }

  // ----- Hourly costs lie between the exact and the rounded sums -----

  /** The first hour that a period up to the second of `time` does not touch. */
  function HoursUpTo(time: int): int {
    (SecondOf(time) + SECONDS_PER_HOUR - 1) / SECONDS_PER_HOUR
  }

  /** What hourly mode adds up for an account in a batch that starts at `earliest`. */
  function HourlyTotal(costs: Costs, a: AccountId, start: int, earliest: int, end: int): real {
    if end - earliest < MILLIS_PER_DAY
    then PeriodSum(costs, HOURLY, a, Max(HourOf(earliest), HourOf(start)), HourOf(end) + 1)
    else
      PeriodSum(costs, DAILY, a, Max(DayOf(earliest), DayOf(start)), DayOf(end))
      + PeriodSum(costs, HOURLY, a, Max(DayOf(end) * HOURS_PER_DAY, HourOf(start)), HoursUpTo(end))
  }

  lemma {:induction false} PeriodSumSplits(costs: Costs, g: Granularity, a: AccountId, lo: int, mid: int, hi: int)
    requires lo <= mid <= hi
    ensures PeriodSum(costs, g, a, lo, hi) == PeriodSum(costs, g, a, lo, mid) + PeriodSum(costs, g, a, mid, hi)
    decreases hi - mid
  {
    if mid < hi {
      PeriodSumSplits(costs, g, a, lo, mid, hi - 1);
    }
  }

  lemma {:induction false} HoursAreUnits(costs: Costs, a: AccountId, lo: int, hi: int)
    ensures PeriodSum(costs, HOURLY, a, lo, hi) == HoursSum(costs, a, lo, hi)
    decreases hi - lo
  {
    if lo < hi {
      HoursAreUnits(costs, a, lo, hi - 1);
    }
  }

  /** Days and hours tell the same total for whole days. */
  lemma {:induction false} DaysAreHours(costs: Costs, a: AccountId, lo: int, hi: int)
    requires lo <= hi
    ensures PeriodSum(costs, DAILY, a, lo, hi) == PeriodSum(costs, HOURLY, a, lo * HOURS_PER_DAY, hi * HOURS_PER_DAY)
    decreases hi - lo
  {
    if lo < hi {
      DaysAreHours(costs, a, lo, hi - 1);
      PeriodSumSplits(costs, HOURLY, a, lo * HOURS_PER_DAY, (hi - 1) * HOURS_PER_DAY, hi * HOURS_PER_DAY);
      HoursAreUnits(costs, a, (hi - 1) * HOURS_PER_DAY, hi * HOURS_PER_DAY);
    }
  }

  lemma {:induction false} SumsAreNonNegative(costs: Costs, a: AccountId, lo: int, hi: int)
    requires forall h :: costs(a, h) >= 0.0
    ensures PeriodSum(costs, HOURLY, a, lo, hi) >= 0.0
    decreases hi - lo
  {
    if lo < hi {
      SumsAreNonNegative(costs, a, lo, hi - 1);
    }
  }

  lemma WiderCostsMore(costs: Costs, a: AccountId, lo': int, lo: int, hi: int, hi': int)
    requires (forall h :: costs(a, h) >= 0.0) && lo' <= lo <= hi <= hi'
    ensures PeriodSum(costs, HOURLY, a, lo, hi) <= PeriodSum(costs, HOURLY, a, lo', hi')
  {
    PeriodSumSplits(costs, HOURLY, a, lo', lo, hi');
    PeriodSumSplits(costs, HOURLY, a, lo, hi, hi');
    SumsAreNonNegative(costs, a, lo', lo);
    SumsAreNonNegative(costs, a, hi, hi');
  }

  /**
    The hours that hourly mode counts. A window of less than a day is counted from the hour of the start through that of
    the end. A longer one is counted from the beginning of the day of the start, unless that is the day of the end, up to
    the last hour begun by the second of the end.
   */
  function HoursCounted(start: int, earliest: int, end: int): (int, int) {
    if end - earliest < 86400000 then (start / 3600000, end / 3600000 + 1)
    else
      (if start / 86400000 < end / 86400000 then start / 86400000 * 24 else start / 3600000, (end / 1000 + 3599) / 3600)
  }

  lemma HoursCountedAre(start: int, earliest: int, end: int)
    requires earliest <= start <= end
    ensures var (lo, hi) := HoursCounted(start, earliest, end);
            && DayOf(start) * HOURS_PER_DAY <= lo <= HourOf(start)
            && HourOf(end) <= hi <= HourOf(end) + 1 && lo <= hi
  {
  }

  /**
    The daily and the hourly window of hourly mode neither overlap nor leave a gap: the total is a sum over one range of
    hours, from the hour of the start, or the beginning of its day, up to the hour of the end or including it.
   */
  lemma HourlyTotalIsOneRange(costs: Costs, a: AccountId, start: int, earliest: int, end: int)
    requires earliest <= start <= end
    ensures HourlyTotal(costs, a, start, earliest, end) ==
            var (lo, hi) := HoursCounted(start, earliest, end); PeriodSum(costs, HOURLY, a, lo, hi)
  {
    Calendar(start);
    Calendar(end);
    InOrder(earliest, start);
    InOrder(start, end);
    HoursUpToIs(end);
    hide DayOf, HourOf, HoursUpTo;
    if end - earliest >= MILLIS_PER_DAY && DayOf(start) < DayOf(end) {
      DaysAreHours(costs, a, DayOf(start), DayOf(end));
      PeriodSumSplits(
        costs, HOURLY, a, DayOf(start) * HOURS_PER_DAY, DayOf(end) * HOURS_PER_DAY, HoursUpTo(end));
    }
  }

  lemma InOrder(x: int, y: int)
    requires x <= y
    ensures DayOf(x) <= DayOf(y) && HourOf(x) <= HourOf(y) && SecondOf(x) <= SecondOf(y)
  {
  }

  lemma HoursUpToIs(time: int)
    ensures HourOf(time) <= HoursUpTo(time) <= HourOf(time) + 1
  {
    Calendar(time);
  }

  /** With costs that are never negative, hourly mode reports between the hour-exact and the day-rounded cost. */
  lemma HourlyTotalIsBetween(costs: Costs, a: AccountId, start: int, earliest: int, end: int)
    requires (forall h :: costs(a, h) >= 0.0) && earliest <= start <= end
    ensures PeriodSum(costs, HOURLY, a, start / 3600000, end / 3600000) <= HourlyTotal(costs, a, start, earliest, end)
              <= PeriodSum(costs, DAILY, a, start / 86400000, end / 86400000 + 1)
  {
    Calendar(start);
    Calendar(end);
    InOrder(start, end);
    HourlyTotalIsOneRange(costs, a, start, earliest, end);
    HoursCountedAre(start, earliest, end);
    var (lo, hi) := HoursCounted(start, earliest, end);
    hide DayOf, HourOf, PeriodSum, HourlyTotal;
    DaysAreHours(costs, a, DayOf(start), DayOf(end) + 1);
    WiderCostsMore(costs, a, lo, HourOf(start), HourOf(end), hi);
    WiderCostsMore(costs, a, DayOf(start) * HOURS_PER_DAY, lo, hi, (DayOf(end) + 1) * HOURS_PER_DAY);
  }

  function RequestFor(lo: int, hi: int, starts: map<AccountId, int>, g: Granularity): Request {
    Request(ToCostExplorerFormat(lo, g), ToCostExplorerFormat(hi, g), starts.Keys, g)
  }

  /** Where the periods end that a request asks for. */
  lemma NextPeriods(end: int)
    ensures DayOf(ToStartOfNextPeriod(end, DAILY)) == DayOf(end) + 1
    ensures SecondOf(ToStartOfNextPeriod(end, HOURLY)) == (HourOf(end) + 1) * SECONDS_PER_HOUR
    ensures ((HourOf(end) + 1) * SECONDS_PER_HOUR + SECONDS_PER_HOUR - 1) / SECONDS_PER_HOUR == HourOf(end) + 1
    ensures DayOf(StartOfDay(end)) == DayOf(end) && SecondOf(StartOfDay(end)) == DayOf(end) * SECONDS_PER_DAY
    ensures DayOf(end) * SECONDS_PER_DAY / SECONDS_PER_HOUR == DayOf(end) * HOURS_PER_DAY
  {
  }

  lemma Later(start: int, starts: map<AccountId, int>)
    requires forall a :: a in starts ==> start <= starts[a]
    ensures forall a :: a in starts ==> DayOf(start) <= DayOf(starts[a]) && HourOf(start) <= HourOf(starts[a])
  {
  }

  /** No window of hours is anywhere near 14 days, and a window of a day or more begins on an earlier day. */
  lemma WindowFacts(start: int, end: int)
    ensures end - start >= MILLIS_PER_DAY ==> DayOf(start) < DayOf(end)
    ensures end - start < MILLIS_PER_DAY ==>
              && !TooLong(start, ToStartOfNextPeriod(end, HOURLY), HOURLY)
              && SecondOf(ToStartOfNextPeriod(end, HOURLY)) - SecondOf(start) < MAX_DAYS_FOR_HOURLY * SECONDS_PER_DAY
    ensures !TooLong(StartOfDay(end), end, HOURLY)
  {
  }

  predicate TooLong(lo: int, hi: int, g: Granularity) {
    g.HOURLY? && hi - lo >= MAX_DAYS_FOR_HOURLY * MILLIS_PER_DAY
  }

  lemma {:induction false} FreeSum(costs: Costs, g: Granularity, a: AccountId, lo: int, hi: int)
    requires forall u :: lo <= u < hi ==> UnitCost(costs, g, a, u) == 0.0
    ensures PeriodSum(costs, g, a, lo, hi) == 0.0
    decreases hi - lo
  {
    if lo < hi {
      assert UnitCost(costs, g, a, hi - 1) == 0.0;
      FreeSum(costs, g, a, lo, hi - 1);
    }
  }
}
