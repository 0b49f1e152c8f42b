/** How often a task's agent can be started. */
module DispatchAccounting {
  import opened Wrappers
  import opened TaskLifecycle
  import opened Scheduler
  import opened SchedulerSafety

  function Count(runs: seq<nat>, id: nat): nat {
    if runs == [] then 0 else Count(runs[..|runs| - 1], id) + if runs[|runs| - 1] == id then 1 else 0
  }

  lemma {:induction false} CountSnoc(runs: seq<nat>, x: nat, id: nat)
    ensures Count(runs + [x], id) == Count(runs, id) + if x == id then 1 else 0
  {
    assert (runs + [x])[..|runs|] == runs;
  }

  function RetrySteps(steps: seq<Step>, id: nat): nat {
    if steps == [] then 0
    else (if steps[0].Retry? && steps[0].id == id then 1 else 0) + RetrySteps(steps[1..], id)
  }

  predicate Waiting(s: Status) {
    s == Pending || s == OnHold
  }

  /** The task was started at most r times, and once more when it is past waiting. */
  predicate Budgeted(s: State, id: nat, r: nat) {
    Count(s.runs, id) <= r + if id in s.rows && !Waiting(s.rows[id].status) then 1 else 0
  }

  lemma PassTaskBudget(t: Task, index: map<string, Status>, r: Response)
    ensures var (t', started) := PassTask(t, index, r);
            && (started ==> Waiting(t.status) && !Waiting(t'.status))
            && (!Waiting(t.status) ==> t' == t && !started)
  {
  }

  lemma {:induction false} PassBudget(
    s: State, index: map<string, Status>, order: seq<nat>, rs: seq<Response>, id: nat, r: nat)
    requires |rs| == |order| && (forall k :: k in order ==> k in s.rows) && Budgeted(s, id, r)
    ensures Budgeted(PassRows(s, index, order, rs), id, r)
  {
    if order != [] {
      var n := |order| - 1;
      PassBudget(s, index, order[..n], rs[..n], id, r);
      PassRowBudget(PassRows(s, index, order[..n], rs[..n]), index, order[n], rs[n], id, r);
    }
  }

  lemma PassRowBudget(s: State, index: map<string, Status>, k: nat, resp: Response, id: nat, r: nat)
    requires k in s.rows && Budgeted(s, id, r)
    ensures Budgeted(PassRow(s, index, k, resp), id, r)
  {
    PassTaskBudget(s.rows[k], index, resp);
    CountSnoc(s.runs, k, id);
  }

  lemma RetryBudget(s: State, k: nat, resp: Response, id: nat, r: nat)
    requires Budgeted(s, id, r)
    ensures Budgeted(RetryStep(s, k, resp), id, r + if k == id then 1 else 0)
  {
    CountSnoc(s.runs, k, id);
  }

  lemma EventBudget(t: Task, event: Event)
    requires !Waiting(t.status)
    ensures !Waiting(WithEvent(t, event).status)
  {
  }

  /** The save puts a task that is past waiting back among the waiting ones. */
  predicate Reopens(s: State, step: Step, id: nat) {
    step.SaveRow? && step.id == id && id in s.rows && !Waiting(s.rows[id].status) && Waiting(step.row.status)
  }

  ghost function Reopenings(s: State, steps: seq<Step>, id: nat): nat
    requires PossibleRun(s, steps)
    decreases steps
  {
    if steps == [] then 0
    else (if Reopens(s, steps[0], id) then 1 else 0) + Reopenings(Apply(s, steps[0]), steps[1..], id)
  }

  /** What one step may add to the starts of a task. */
  function Extra(s: State, step: Step, id: nat): nat {
    if (step.Retry? && step.id == id) || Reopens(s, step, id) then 1 else 0
  }

  lemma StepBudget(s: State, step: Step, id: nat, r: nat)
    requires Possible(s, step) && Budgeted(s, id, r)
    ensures Budgeted(Apply(s, step), id, r + Extra(s, step, id))
  {
    match step
    case DispatchPass(order, rs) => PassBudget(s, StatusIndex(s.rows, order), order, rs, id, r);
    case Retry(k, resp) => RetryBudget(s, k, resp, id, r);
    case Lifecycle(k, event) => if id in s.rows && !Waiting(s.rows[id].status) { EventBudget(s.rows[id], event); }
    case Cascade(event) => if id in s.rows && !Waiting(s.rows[id].status) { EventBudget(s.rows[id], event); }
    case _ =>
  }

  /** A save keeps every budget of a task exactly when it does not reopen a task that was started. */
  lemma {:induction false} SaveKeepsBudgetIff(s: State, k: nat, row: Task, id: nat)
    requires Possible(s, SaveRow(k, row))
    ensures (forall r: nat :: Budgeted(s, id, r) ==> Budgeted(Apply(s, SaveRow(k, row)), id, r)) <==>
            !(Reopens(s, SaveRow(k, row), id) && Count(s.runs, id) > 0)
  {
    var s' := Apply(s, SaveRow(k, row));
    if Reopens(s, SaveRow(k, row), id) && Count(s.runs, id) > 0 {
      var r: nat := Count(s.runs, id) - 1;
      assert Budgeted(s, id, r) && !Budgeted(s', id, r);
    }
  }

  /** In any run a task is started at most once more often than it is retried or reopened. */
  lemma {:induction false} StartsAtMostOncePerRetry(s: State, steps: seq<Step>, id: nat, r: nat)
    requires PossibleRun(s, steps) && Budgeted(s, id, r)
    ensures Count(After(s, steps).runs, id) <= r + RetrySteps(steps, id) + Reopenings(s, steps, id) + 1
    decreases steps
  {
    if steps != [] {
      StepBudget(s, steps[0], id, r);
      StartsAtMostOncePerRetry(Apply(s, steps[0]), steps[1..], id, r + Extra(s, steps[0], id));
    }
  }

  lemma {:induction false} StartsFromEmptyTable(steps: seq<Step>, id: nat)
    requires PossibleRun(State(map[], []), steps)
    ensures Count(After(State(map[], []), steps).runs, id) <=
            1 + RetrySteps(steps, id) + Reopenings(State(map[], []), steps, id)
  {
    StartsAtMostOncePerRetry(State(map[], []), steps, id, 0);
  }

  /** Saves that work on a current reading reopen nothing. */
  lemma {:induction false} IntendedReopensNothing(s: State, steps: seq<Step>, id: nat)
    requires PossibleRun(s, steps) && IntendedRun(s, steps)
    ensures Reopenings(s, steps, id) == 0
    decreases steps
  {
    if steps != [] { IntendedReopensNothing(Apply(s, steps[0]), steps[1..], id); }
  }

  // ---- Runs that start a task again ----------------------------------------------

  function Web(status: Status): Task {
    Task("web", [], status, true, None, None, "")
  }

  function Running(t: Task): Task {
    t.(status := InProgress, deferredAt := None, dispatchedAt := Some(0), lastRun := "")
  }

  /** A pass over the one waiting task starts it. */
  lemma OnePass(t: Task, runs: seq<nat>, s: State)
    requires t == Web(Pending) && s == State(map[0 := t], runs)
    ensures Possible(s, DispatchPass([0], [ALL_OK]))
    ensures Apply(s, DispatchPass([0], [ALL_OK])) == State(map[0 := Running(t)], runs + [0])
  {
    var index := StatusIndex(s.rows, [0]);
    assert [0][..0] == [] && [ALL_OK][..0] == [];
    assert DepsAllDeployed(t, index);
    assert PassRows(s, index, [], []) == s;
    assert PassRows(s, index, [0], [ALL_OK]) == PassRow(s, index, 0, ALL_OK);
    assert s.rows[0 := Running(t)] == map[0 := Running(t)];
  }

  function ReopeningRun(): seq<Step> {
    [DispatchPass([0], [ALL_OK])] + ([SaveRow(0, Web(Pending))] + [DispatchPass([0], [ALL_OK])])
  }

  /** A reading saved after a pass: the task is started twice without any retry. */
  lemma {:induction false} LateSaveStartsTwice(s: State, steps: seq<Step>)
    requires s == State(map[0 := Web(Pending)], []) && steps == ReopeningRun()
    ensures PossibleRun(s, steps) && FromReadings(s, steps) && RetryFree(steps)
    ensures After(s, steps).runs == [0, 0]
  {
    var pass, save := DispatchPass([0], [ALL_OK]), SaveRow(0, Web(Pending));
    var s1, s2 := State(map[0 := Running(Web(Pending))], [0]), State(map[0 := Web(Pending)], [0]);
    OnePass(Web(Pending), [], s);
    OnePass(Web(Pending), [0], s2);
    SaveOver(s1, s2);
    assert [] + [0] == [0] && [0] + [0] == [0, 0];
    ThreeSteps(s, s1, s2, pass, save, pass);
    SaveWasRead(s, steps);
  }

  lemma SaveOver(s1: State, s2: State)
    requires s1 == State(map[0 := Running(Web(Pending))], [0]) && s2 == State(map[0 := Web(Pending)], [0])
    ensures Possible(s1, SaveRow(0, Web(Pending))) && Apply(s1, SaveRow(0, Web(Pending))) == s2
  {
    assert s1.rows[0 := Web(Pending)] == s2.rows;
  }

  lemma {:induction false} SaveWasRead(s: State, steps: seq<Step>)
    requires s == State(map[0 := Web(Pending)], []) && steps == ReopeningRun() && PossibleRun(s, steps)
    ensures FromReadings(s, steps) && RetryFree(steps)
  {
    assert ReadAt(s, steps, 0, 0, Web(Pending));
    assert |steps| == 3 && steps[1] == SaveRow(0, Web(Pending));
  }

  /** A retry of a task in progress is no no-op: it starts another agent exactly when the dispatch goes through. */
  lemma RetryInProgressStartsIff(t: Task, r: Response)
    requires t.status == InProgress
    ensures Retried(t, r).1 <==> r.lookupsOk && PreflightOk(t, r) && Resolved(t, r) && r.agentKeyReady && r.triggered
  {
  }

  /** Two retries in a row of a task in progress start two more agents. */
  lemma {:induction false} SecondRetryStartsAgain(s: State)
    requires s == State(map[0 := Running(Web(Pending))], [0])
    ensures PossibleRun(s, [Retry(0, ALL_OK)] + [Retry(0, ALL_OK)])
    ensures After(s, [Retry(0, ALL_OK)] + [Retry(0, ALL_OK)]).runs == [0, 0, 0]
  {
    var s1 := Apply(s, Retry(0, ALL_OK));
    assert s1 == State(map[0 := Running(Web(Pending))], [0, 0]) by {
      assert s.rows[0 := Running(Web(Pending))] == s.rows;
    }
    OneStep(s1, Retry(0, ALL_OK));
    RunCons(s, Retry(0, ALL_OK), [Retry(0, ALL_OK)]);
  }

  // ---- After a pass ----------------------------------------------------------

  lemma PassedNotPending(t: Task, index: map<string, Status>, r: Response)
    ensures PassTask(t, index, r).0.status != Pending
  {
  }

  /** A pass leaves no task pending: each is held, started or failed. */
  lemma NoPendingAfterPass(s: State, order: seq<nat>, rs: seq<Response>)
    requires Listing(s.rows, order) && |rs| == |order|
    ensures forall id :: id in s.rows ==> PassStep(s, order, rs).rows[id].status != Pending
  {
    var index := StatusIndex(s.rows, order);
    forall id | id in s.rows
      ensures PassRows(s, index, order, rs).rows[id].status != Pending
    {
      var i :| 0 <= i < |order| && order[i] == id;
      PassRowAt(s, index, order, rs, i);
      PassedNotPending(s.rows[id], index, rs[i]);
    }
  }
}
