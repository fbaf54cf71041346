/**
  The start of a clean-up execution: it claims the account unless the execution that claimed it last is still running.
 */
module InitializeCleanup {
  import opened Domain
  import opened SandboxState
  import opened SandboxServices

  /** An execution was requested, works on its account once past initialization, and is done in the end. */
  datatype Stage = Requested | Working | Done

  datatype Execution = Execution(accountId: AccountId, startTime: int, stage: Stage)

  /**
    `admins` are the accounts that run the solution. Executions may be forgotten once they are done; `names` holds the
    names that were ever in use.
   */
  datatype World = World(
    accounts: map<AccountId, AccountRecord>,
    executions: map<string, Execution>,
    names: set<string>,
    admins: set<AccountId>)

  datatype InitResult = Claimed | AlreadyInProgress | AdministrationAccount | AccountNotFound

  /** The status of a forgotten execution counts as not running. */
  predicate StillRunning(executions: map<string, Execution>, arn: string) {
    arn in executions && !executions[arn].stage.Done?
  }

  predicate InProgress(w: World, a: AccountId) {
    && a in w.accounts
    && w.accounts[a].cleanupContext.Some?
    && w.accounts[a].cleanupContext.value.executionArn != ""
    && StillRunning(w.executions, w.accounts[a].cleanupContext.value.executionArn)
  }

  function InitResultOf(w: World, a: AccountId): InitResult {
    if a in w.admins then AdministrationAccount
    else if a !in w.accounts then AccountNotFound
    else if InProgress(w, a) then AlreadyInProgress
    else Claimed
  }

  function Claim(w: World, a: AccountId, context: CleanupContext): World
    requires a in w.accounts
  {
    w.(accounts := w.accounts[a := w.accounts[a].(cleanupContext := Some(context))])
  }

  class CleanupInitializer {
    const accountStore: SandboxAccountStore
    const admins: set<AccountId>
    var executions: map<string, Execution>
    ghost var names: set<string>

    constructor (accountStore: SandboxAccountStore, admins: set<AccountId>)
      ensures this.accountStore == accountStore && this.admins == admins && executions == map[] && names == {}
    {
      this.accountStore, this.admins, executions, names := accountStore, admins, map[], {};
    }

    ghost function Here(): World
      reads this, accountStore
    {
      World(accountStore.table, executions, names, admins)
    }

    method StepFunctionIsStillRunning(executionArn: string) returns (running: bool)
      ensures running <==> StillRunning(executions, executionArn)
    {
      if executionArn !in executions {
        return false;
      }
      running := executions[executionArn].stage != Done;
    }

    method InitializeCleanup(a: AccountId, context: CleanupContext) returns (r: InitResult)
      requires forall b :: b in accountStore.table ==> StorableStatus(accountStore.table[b].status)
      modifies accountStore
      ensures r == InitResultOf(old(Here()), a)
      ensures Here() == if r.Claimed? then Claim(old(Here()), a, context) else old(Here())
      ensures r.Claimed? ==>
                && a in old(accountStore.table)
                && accountStore.table == old(accountStore.table)[
                     a := old(accountStore.table)[a].(cleanupContext := Some(context))]
      ensures !r.Claimed? ==> accountStore.table == old(accountStore.table)
    {
      if a in admins {
        return AdministrationAccount;
      }
      var account := accountStore.Get(a);
      if account.None? {
        return AccountNotFound;
      }
      var claimed := account.value.cleanupContext;
      if claimed.Some? && claimed.value.executionArn != "" {
        var running := StepFunctionIsStillRunning(claimed.value.executionArn);
        if running {
          return AlreadyInProgress;
        }
      }
      var _ := accountStore.Put(a, account.value.(cleanupContext := Some(context)));
      r := Claimed;
    }
  }

  // ----- Runs of any number of executions -----

  datatype Action =
    | Start(arn: string, accountId: AccountId, startTime: int)
    | Initialize(arn: string)
    | Finish(arn: string)
    | Forget(arn: string)
    | WriteRecord(accountId: AccountId, status: Ou, driftAtLastScan: bool)
    | Register(accountId: AccountId)
    | DeleteRecord(accountId: AccountId)

  function WithStage(w: World, arn: string, stage: Stage): World
    requires arn in w.executions
  {
    w.(executions := w.executions[arn := w.executions[arn].(stage := stage)])
  }

  predicate Enabled(w: World, action: Action) {
    match action
    case Start(arn, _, _) => arn != "" && arn !in w.names
    case Initialize(arn) => arn in w.executions && w.executions[arn].stage.Requested?
    case Finish(arn) => arn in w.executions
    case Forget(arn) => arn in w.executions && w.executions[arn].stage.Done?
    case WriteRecord(a, _, _) => a in w.accounts
    case Register(a) => a !in w.accounts
    case DeleteRecord(_) => true
  }

  function Next(w: World, action: Action): World
    requires Enabled(w, action)
  {
    match action
    case Start(arn, a, t) => w.(executions := w.executions[arn := Execution(a, t, Requested)], names := w.names + {arn})
    case Initialize(arn) =>
      var e := w.executions[arn];
      if InitResultOf(w, e.accountId).Claimed?
      then WithStage(Claim(w, e.accountId, CleanupContext(arn, e.startTime)), arn, Working)
      else WithStage(w, arn, Done)
    case Finish(arn) => WithStage(w, arn, Done)
    case Forget(arn) => w.(executions := w.executions - {arn})
    case WriteRecord(a, status, flag) =>
      w.(accounts := w.accounts[a := w.accounts[a].(status := status, driftAtLastScan := flag)])
    case Register(a) => w.(accounts := w.accounts[a := NEW_ACCOUNT_RECORD])
    case DeleteRecord(a) => w.(accounts := w.accounts - {a})
  }

  predicate WorksOn(w: World, arn: string, a: AccountId) {
    arn in w.executions && w.executions[arn].stage.Working? && w.executions[arn].accountId == a
  }

  /** The record of the account still tells of the execution that works on it. */
  predicate Remembered(w: World, arn: string, a: AccountId) {
    a in w.accounts && w.accounts[a].cleanupContext.Some? && w.accounts[a].cleanupContext.value.executionArn == arn
  }

  /** Records name executions that had claimed the account. */
  ghost predicate Traceable(w: World) {
    && "" !in w.executions && w.executions.Keys <= w.names
    && forall arn, a :: Remembered(w, arn, a) && arn != "" ==>
         && arn in w.names
         && (arn in w.executions ==> WorksOn(w, arn, a) || w.executions[arn].stage.Done?)
         && (arn in w.executions ==> w.accounts[a].cleanupContext.value.startTime == w.executions[arn].startTime)
  }

  /** Whoever works on an account is named in its record. */
  ghost predicate AllRemembered(w: World) {
    forall arn, a :: WorksOn(w, arn, a) ==> Remembered(w, arn, a)
  }

  /** The action does not delete the record of an account that an execution works on. */
  ghost predicate KeepsWorked(w: World, action: Action) {
    action.DeleteRecord? ==> forall arn :: !WorksOn(w, arn, action.accountId)
  }

  lemma NextKeepsTraceable(w: World, action: Action)
    requires Traceable(w) && Enabled(w, action)
    ensures Traceable(Next(w, action))
  {
    var v := Next(w, action);
    forall arn, a | Remembered(v, arn, a) && arn != ""
      ensures arn in v.names && (arn in v.executions ==> WorksOn(v, arn, a) || v.executions[arn].stage.Done?)
      ensures arn in v.executions ==> v.accounts[a].cleanupContext.value.startTime == v.executions[arn].startTime
    {
      if !(action.Initialize? && arn == action.arn && Remembered(v, arn, a) && !Remembered(w, arn, a)) {
        assert Remembered(w, arn, a);
      }
    }
  }

  lemma NextKeepsAllRemembered(w: World, action: Action)
    requires AllRemembered(w) && "" !in w.executions && Enabled(w, action) && KeepsWorked(w, action)
    ensures AllRemembered(Next(w, action))
  {
    var v := Next(w, action);
    forall arn, a | WorksOn(v, arn, a)
      ensures Remembered(v, arn, a)
    {
      if action.Initialize? && arn == action.arn {
        assert Remembered(v, arn, a);
      } else {
        assert WorksOn(w, arn, a) && Remembered(w, arn, a);
      }
    }
  }

  /** At first nothing runs; records may name executions of the past. */
  ghost predicate IsRun(worlds: seq<World>, actions: seq<Action>) {
    && |worlds| == |actions| + 1
    && worlds[0].executions == map[]
    && (forall arn, a :: Remembered(worlds[0], arn, a) ==> arn in worlds[0].names)
    && forall i :: 0 <= i < |actions| ==> Enabled(worlds[i], actions[i]) && worlds[i + 1] == Next(worlds[i], actions[i])
  }

  lemma {:induction false} RunsAreTraceable(worlds: seq<World>, actions: seq<Action>, i: nat)
    requires IsRun(worlds, actions) && i <= |actions|
    ensures Traceable(worlds[i])
  {
    if i > 0 {
      RunsAreTraceable(worlds, actions, i - 1);
      NextKeepsTraceable(worlds[i - 1], actions[i - 1]);
    }
  }

  lemma {:induction false} RunsRemember(worlds: seq<World>, actions: seq<Action>, i: nat)
    requires IsRun(worlds, actions) && i <= |actions|
    requires forall j :: 0 <= j < i ==> KeepsWorked(worlds[j], actions[j])
    ensures AllRemembered(worlds[i])
  {
    if i > 0 {
      RunsRemember(worlds, actions, i - 1);
      RunsAreTraceable(worlds, actions, i - 1);
      NextKeepsAllRemembered(worlds[i - 1], actions[i - 1]);
    }
  }

  /**
    However many clean-ups are requested, at most one execution works on an account at any time, as long as no record of
    an account is deleted while an execution works on it.
   */
  lemma OneExecutionWorks(worlds: seq<World>, actions: seq<Action>, i: nat, a: AccountId, arn: string, arn': string)
    requires IsRun(worlds, actions) && i <= |actions|
    requires forall j :: 0 <= j < i ==> KeepsWorked(worlds[j], actions[j])
    requires WorksOn(worlds[i], arn, a) && WorksOn(worlds[i], arn', a)
    ensures arn == arn'
  {
    RunsRemember(worlds, actions, i);
    assert Remembered(worlds[i], arn, a) && Remembered(worlds[i], arn', a);
  }

  /** The execution works on the account, and the record of the account names it and tells when it started. */
  predicate WorksRemembered(w: World, arn: string, a: AccountId) {
    && WorksOn(w, arn, a) && a in w.accounts
    && w.accounts[a].cleanupContext == Some(CleanupContext(arn, w.executions[arn].startTime))
  }

  /**
    What a request is answered in every run. An account that runs the solution is refused, and so is an unknown one. For
    any other, a clean-up is in progress iff the record names an execution that works on the account; the request is
    granted iff there is none: when nobody works on it, or when its record was deleted under them.
   */
  lemma AnswerIs(worlds: seq<World>, actions: seq<Action>, i: nat, a: AccountId)
    requires IsRun(worlds, actions) && i <= |actions|
    ensures var w, answer := worlds[i], InitResultOf(worlds[i], a);
            && (answer.AdministrationAccount? <==> a in w.admins)
            && (answer.AccountNotFound? <==> a !in w.admins && a !in w.accounts)
            && (answer.AlreadyInProgress? <==>
                  a !in w.admins && a in w.accounts && exists arn :: WorksRemembered(w, arn, a))
            && (answer.Claimed? <==>
                  a !in w.admins && a in w.accounts && forall arn :: !WorksRemembered(w, arn, a))
  {
    RunsAreTraceable(worlds, actions, i);
    var w := worlds[i];
    if InProgress(w, a) {
      var arn := w.accounts[a].cleanupContext.value.executionArn;
      assert Remembered(w, arn, a);
      assert WorksRemembered(w, arn, a);
    }
  }

  /** A request is granted iff the record names none of the executions that work on the account. */
  lemma ClaimedIffNoneRemembered(worlds: seq<World>, actions: seq<Action>, i: nat, a: AccountId)
    requires IsRun(worlds, actions) && i <= |actions|
    requires a in worlds[i].accounts && a !in worlds[i].admins
    ensures InitResultOf(worlds[i], a).Claimed? <==>
              forall arn :: WorksOn(worlds[i], arn, a) ==> !Remembered(worlds[i], arn, a)
  {
    AnswerIs(worlds, actions, i, a);
    RunsAreTraceable(worlds, actions, i);
    hide InitResultOf, IsRun;
    var w := worlds[i];
    forall arn
      ensures WorksRemembered(w, arn, a) <==> WorksOn(w, arn, a) && Remembered(w, arn, a)
    {
    }
  }

  /** As long as no record is deleted under a running execution, a request is granted iff nobody works on the account. */
  lemma ClaimedIffNobodyWorks(worlds: seq<World>, actions: seq<Action>, i: nat, a: AccountId)
    requires IsRun(worlds, actions) && i <= |actions|
    requires forall j :: 0 <= j < i ==> KeepsWorked(worlds[j], actions[j])
    ensures InitResultOf(worlds[i], a).Claimed? <==>
              a !in worlds[i].admins && a in worlds[i].accounts && forall arn :: !WorksOn(worlds[i], arn, a)
  {
    RunsRemember(worlds, actions, i);
    if a in worlds[i].accounts && a !in worlds[i].admins {
      ClaimedIffNoneRemembered(worlds, actions, i, a);
    }
  }

  /** From any world where an execution works on the account, deleting and registering it again lets a second one in. */
  lemma DeletionLetsTwoWork(w: World, a: AccountId, arn: string, second: string, startTime: int)
    requires WorksOn(w, arn, a) && a !in w.admins && second != "" && second !in w.names && w.executions.Keys <= w.names
    ensures var deleted := Next(w, DeleteRecord(a));
            var registered := Next(deleted, Register(a));
            var requested := Next(registered, Start(second, a, startTime));
            var granted := Next(requested, Initialize(second));
            WorksOn(granted, arn, a) && WorksOn(granted, second, a) && arn != second
  {
  }
}
