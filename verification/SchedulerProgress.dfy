/**
  Which tasks the dispatch passes bring to deployment: exactly those whose
  dependencies lead neither into a cycle nor to a name that owns no task.
*/
module SchedulerProgress {
  import opened Wrappers
  import opened TaskLifecycle
  import opened Scheduler
  import opened SchedulerSafety
  import opened Graph

  ghost predicate Doomed(g: Edges, name: string) {
    ReachesCycle(g, name) || ReachesUnknown(g, name)
  }

  function DepSet(t: Task): set<string> {
    set d | d in t.dependsOn
  }

  /** The task's dependency list is the one the graph gives its component. */
  ghost predicate Conforms(t: Task, g: Edges) {
    t.component in g && g[t.component] == DepSet(t)
  }

  // ---- Never dispatched ------------------------------------------------------

  /** Within the blocked names, each task depends on a blocked name. */
  ghost predicate Blocks(rows: Rows, blocked: iset<string>) {
    forall id :: id in rows && rows[id].component in blocked ==> HasDepIn(rows[id], blocked)
  }

  ghost predicate HasDepIn(t: Task, blocked: iset<string>) {
    exists d :: d in t.dependsOn && d in blocked
  }

  ghost predicate Idle(rows: Rows, blocked: iset<string>) {
    forall id :: id in rows && rows[id].component in blocked ==> !Active(rows[id].status)
  }

  ghost predicate BatchesBlock(steps: seq<Step>, blocked: iset<string>) {
    forall i :: 0 <= i < |steps| && steps[i].NewBatch? ==> Blocks(steps[i].batch, blocked)
  }

  /** The runs started since the k-th are none of a blocked component. */
  ghost predicate NoBlockedRun(s: State, k: nat, blocked: iset<string>) {
    forall i :: k <= i < |s.runs| ==> s.runs[i] in s.rows && s.rows[s.runs[i]].component !in blocked
  }

  lemma NotDeployed(rows: Rows, t: Task, blocked: iset<string>)
    requires Idle(rows, blocked) && HasDepIn(t, blocked)
    ensures !DepsIn(t, DeployedNames(rows))
  {
    var d :| d in t.dependsOn && d in blocked;
    assert d !in DeployedNames(rows);
  }

  lemma BlockedTaskWaits(t: Task, index: map<string, Status>, r: Response, blocked: iset<string>)
    requires t.component in blocked ==> HasDepIn(t, blocked) && !Active(t.status)
    requires forall n :: n in index && index[n] == Deployed ==> n !in blocked
    ensures var (t', started) := PassTask(t, index, r);
            && t'.component == t.component && t'.dependsOn == t.dependsOn
            && (t.component in blocked ==> !Active(t'.status) && !started)
  {
    if t.component in blocked {
      var d :| d in t.dependsOn && d in blocked;
      assert !DepsAllDeployed(t, index);
    }
  }

  lemma PassRowBlocks(s: State, k: nat, index: map<string, Status>, id: nat, r: Response, blocked: iset<string>)
    requires id in s.rows && Blocks(s.rows, blocked) && Idle(s.rows, blocked)
    requires forall n :: n in index && index[n] == Deployed ==> n !in blocked
    requires NoBlockedRun(s, k, blocked)
    ensures var next := PassRow(s, index, id, r);
            Blocks(next.rows, blocked) && Idle(next.rows, blocked) && s.runs <= next.runs &&
              NoBlockedRun(next, k, blocked)
  {
    BlockedTaskWaits(s.rows[id], index, r, blocked);
  }

  lemma {:induction false} PassBlocks(
    s: State, index: map<string, Status>, order: seq<nat>, rs: seq<Response>, blocked: iset<string>)
    requires |rs| == |order| && forall k :: k in order ==> k in s.rows
    requires Blocks(s.rows, blocked) && Idle(s.rows, blocked)
    requires forall n :: n in index && index[n] == Deployed ==> n !in blocked
    ensures var s' := PassRows(s, index, order, rs);
            && Blocks(s'.rows, blocked) && Idle(s'.rows, blocked)
            && s.runs <= s'.runs && NoBlockedRun(s', |s.runs|, blocked)
  {
    assert s.runs <= s.runs;
    if order != [] {
      var n := |order| - 1;
      PassBlocks(s, index, order[..n], rs[..n], blocked);
      PassRowBlocks(PassRows(s, index, order[..n], rs[..n]), |s.runs|, index, order[n], rs[n], blocked);
    }
  }

  lemma PassStepBlocks(s: State, order: seq<nat>, rs: seq<Response>, blocked: iset<string>)
    requires Possible(s, DispatchPass(order, rs)) && Blocks(s.rows, blocked) && Idle(s.rows, blocked)
    ensures StaysBlocked(s, Apply(s, DispatchPass(order, rs)), blocked)
  {
    var index := StatusIndex(s.rows, order);
    forall n | n in index && index[n] == Deployed
      ensures n !in blocked
    {
      IndexDeployed(s.rows, order, n);
      var id :| id in s.rows && s.rows[id].status == Deployed && s.rows[id].component == n;
    }
    PassBlocks(s, index, order, rs, blocked);
    StepIsGentle(s, DispatchPass(order, rs));
  }

  lemma RetryBlocks(s: State, id: nat, r: Response, blocked: iset<string>)
    requires id in s.rows && RetryGate(s.rows, id) && Blocks(s.rows, blocked) && Idle(s.rows, blocked)
    ensures StaysBlocked(s, Apply(s, Retry(id, r)), blocked)
  {
    if !r.lookupsOk {
      LookupsFailed(s.rows[id], r, {});
      assert !Active(s.rows[id].status) ==> !Active(Retried(s.rows[id], r).0.status);
      return;
    }
    RetryResult(s.rows[id], r);
    if s.rows[id].component in blocked {
      NotDeployed(s.rows, s.rows[id], blocked);
      WithoutFewer(s.rows, id);
    }
  }

  /** What one step keeps: the blocked components stay blocked and idle, and none of them is started. */
  ghost predicate StaysBlocked(s: State, next: State, blocked: iset<string>) {
    && Blocks(next.rows, blocked) && Idle(next.rows, blocked)
    && s.runs <= next.runs && NoBlockedRun(next, |s.runs|, blocked)
    && forall id :: id in s.rows ==> id in next.rows && next.rows[id].component == s.rows[id].component
  }

  /** The table is rewritten row by row without waking a blocked component, and no run is started. */
  lemma RewrittenBlocks(s: State, next: State, blocked: iset<string>)
    requires Blocks(s.rows, blocked) && Idle(s.rows, blocked) && next.runs == s.runs
    requires forall id :: id in s.rows ==> id in next.rows && SameTask(s.rows[id], next.rows[id])
    requires forall id :: id in s.rows && s.rows[id].component in blocked ==> !Active(next.rows[id].status)
    requires forall id :: id in next.rows && id !in s.rows ==> !Active(next.rows[id].status)
    requires forall id :: id in next.rows && id !in s.rows && next.rows[id].component in blocked ==>
      HasDepIn(next.rows[id], blocked)
    ensures StaysBlocked(s, next, blocked)
  {
    forall id | id in next.rows && next.rows[id].component in blocked
      ensures HasDepIn(next.rows[id], blocked)
    {
      if id in s.rows { assert HasDepIn(s.rows[id], blocked); }
    }
  }

  lemma EventsBlock(s: State, step: Step, blocked: iset<string>)
    requires Possible(s, step) && (step.Lifecycle? || step.Cascade?) && Blocks(s.rows, blocked) && Idle(s.rows, blocked)
    ensures StaysBlocked(s, Apply(s, step), blocked)
  {
    forall id | id in s.rows && s.rows[id].component in blocked
      ensures !Active(WithEvent(s.rows[id], step.event).status)
    {
      EventIdle(s.rows[id], step.event);
    }
    RewrittenBlocks(s, Apply(s, step), blocked);
  }

  lemma StepBlocks(s: State, step: Step, blocked: iset<string>)
    requires Possible(s, step) && GatedRetry(s, step) && (step.NewBatch? ==> Blocks(step.batch, blocked))
    requires step.SaveRow? && step.row.component in blocked ==> !Active(step.row.status)
    requires Blocks(s.rows, blocked) && Idle(s.rows, blocked)
    ensures StaysBlocked(s, Apply(s, step), blocked)
  {
    match step
    case DispatchPass(order, rs) => PassStepBlocks(s, order, rs, blocked);
    case Retry(id, r) => if id in s.rows { RetryBlocks(s, id, r, blocked); }
    case Lifecycle(_, _) => EventsBlock(s, step, blocked);
    case Cascade(_) => EventsBlock(s, step, blocked);
    case _ => RewrittenBlocks(s, Apply(s, step), blocked);
  }

  lemma EventIdle(t: Task, event: Event)
    requires event != DispatchSuccess && event != OperatorRetry && !Active(t.status)
    ensures !Active(WithEvent(t, event).status)
  {
  }

  lemma WithoutFewer(rows: Rows, id: nat)
    ensures DeployedNames(Without(rows, id)) <= DeployedNames(rows)
  {
    forall n | n in DeployedNames(Without(rows, id))
      ensures n in DeployedNames(rows)
    {
      var k :| k in Without(rows, id) && Without(rows, id)[k].status == Deployed && Without(rows, id)[k].component == n;
      assert k in rows && rows[k] == Without(rows, id)[k];
    }
  }

  /** A retry goes only where the gate it skips would let the task through. */
  ghost predicate GatedRetry(s: State, step: Step) {
    step.Retry? && step.id in s.rows ==> RetryGate(s.rows, step.id)
  }

  ghost predicate GatedRetries(s: State, steps: seq<Step>)
    requires PossibleRun(s, steps)
    decreases steps
  {
    steps == [] || (GatedRetry(s, steps[0]) && GatedRetries(Apply(s, steps[0]), steps[1..]))
  }

  lemma {:induction false} GatedRetryAt(s: State, steps: seq<Step>, j: nat)
    requires PossibleRun(s, steps) && GatedRetries(s, steps) && j < |steps|
    ensures GatedRetry(StateAt(s, steps, j), steps[j])
    decreases j
  {
    if j > 0 { GatedRetryAt(Apply(s, steps[0]), steps[1..], j - 1); }
  }

  /** What was read of an idle task is saved as an idle task. */
  lemma SavedIdle(t: Task, row: Task)
    requires SavedFrom(t, row) && !Active(t.status)
    ensures row.component == t.component && !Active(row.status)
  {
  }

  lemma ComposeBlocked(s: State, middle: State, next: State, blocked: iset<string>)
    requires StaysBlocked(s, middle, blocked) && StaysBlocked(middle, next, blocked)
    ensures StaysBlocked(s, next, blocked)
  {
    forall i | |s.runs| <= i < |next.runs|
      ensures next.runs[i] in next.rows && next.rows[next.runs[i]].component !in blocked
    {
      if i < |middle.runs| { assert next.runs[i] == middle.runs[i]; }
    }
  }

  lemma ReadingOf(s: State, steps: seq<Step>, i: nat) returns (j: nat)
    requires PossibleRun(s, steps) && FromReadings(s, steps) && i < |steps| && steps[i].SaveRow?
    ensures j <= i && ReadAt(s, steps, j, steps[i].id, steps[i].row)
  {
    j :| 0 <= j <= i && ReadAt(s, steps, j, steps[i].id, steps[i].row);
  }

  lemma {:induction false} ReadIdle(s: State, steps: seq<Step>, j: nat, id: nat, row: Task, blocked: iset<string>)
    requires PossibleRun(s, steps) && j <= |steps| && ReadAt(s, steps, j, id, row)
    requires StaysBlocked(s, StateAt(s, steps, j), blocked) && row.component in blocked
    ensures !Active(row.status)
  {
    SavedIdle(StateAt(s, steps, j).rows[id], row);
  }

  lemma {:induction false} BlockedUpTo(s: State, steps: seq<Step>, blocked: iset<string>, k: nat)
    requires PossibleRun(s, steps) && GatedRetries(s, steps) && FromReadings(s, steps) && BatchesBlock(steps, blocked)
    requires Blocks(s.rows, blocked) && Idle(s.rows, blocked) && k <= |steps|
    ensures StaysBlocked(s, StateAt(s, steps, k), blocked)
    decreases k
  {
    if k > 0 {
      var i := k - 1;
      BlockedUpTo(s, steps, blocked, i);
      StateAtNext(s, steps, i);
      GatedRetryAt(s, steps, i);
      if steps[i].SaveRow? && steps[i].row.component in blocked {
        var j := ReadingOf(s, steps, i);
        BlockedUpTo(s, steps, blocked, j);
        ReadIdle(s, steps, j, steps[i].id, steps[i].row, blocked);
      }
      BlockedStep(s, StateAt(s, steps, i), StateAt(s, steps, k), steps[i], blocked);
    }
  }

  lemma BlockedStep(s: State, before: State, next: State, step: Step, blocked: iset<string>)
    requires StaysBlocked(s, before, blocked) && Possible(before, step) && GatedRetry(before, step) &&
      next == Apply(before, step)
    requires step.NewBatch? ==> Blocks(step.batch, blocked)
    requires step.SaveRow? && step.row.component in blocked ==> !Active(step.row.status)
    ensures StaysBlocked(s, next, blocked)
  {
    StepBlocks(before, step, blocked);
    ComposeBlocked(s, before, next, blocked);
  }

  /**
    In no run whose retries would pass the gate is a task of a self-blocking set of components
    ever dispatched, however many batches are planned and whatever earlier readings are saved.
  */
  lemma {:induction false} BlockedNeverDispatched(s: State, steps: seq<Step>, blocked: iset<string>)
    requires PossibleRun(s, steps) && GatedRetries(s, steps) && FromReadings(s, steps) && BatchesBlock(steps, blocked)
    requires Blocks(s.rows, blocked) && Idle(s.rows, blocked)
    ensures StaysBlocked(s, After(s, steps), blocked)
  {
    BlockedUpTo(s, steps, blocked, |steps|);
    StateAtEnd(s, steps);
  }

  ghost function DoomedNames(g: Edges): iset<string> {
    iset n | Doomed(g, n)
  }

  lemma DoomedTaskBlocked(g: Edges, t: Task)
    requires Conforms(t, g) && Doomed(g, t.component)
    ensures HasDepIn(t, DoomedNames(g))
  {
    var y;
    if ReachesCycle(g, t.component) {
      y := CycleStep(g, t.component);
    } else {
      y := UnknownStep(g, t.component);
    }
    assert y in DepSet(t) && y in DoomedNames(g);
  }

  ghost predicate BatchesConform(steps: seq<Step>, g: Edges) {
    forall i, id :: 0 <= i < |steps| && steps[i].NewBatch? && id in steps[i].batch ==> Conforms(steps[i].batch[id], g)
  }

  /**
    From an empty table: no task whose dependencies lead into a cycle or to an unknown name is
    dispatched in any run.
  */
  lemma {:induction false} DoomedNeverDispatched(steps: seq<Step>, g: Edges)
    requires PossibleRun(State(map[], []), steps) && GatedRetries(State(map[], []), steps)
    requires FromReadings(State(map[], []), steps) && BatchesConform(steps, g)
    ensures var end := After(State(map[], []), steps);
            && (forall i :: 0 <= i < |end.runs| ==>
              end.runs[i] in end.rows && !Doomed(g, end.rows[end.runs[i]].component))
            && (forall id :: id in end.rows && Doomed(g, end.rows[id].component) ==> !Active(end.rows[id].status))
  {
    var blocked := DoomedNames(g);
    forall i | 0 <= i < |steps| && steps[i].NewBatch?
      ensures Blocks(steps[i].batch, blocked)
    {
      forall id | id in steps[i].batch && steps[i].batch[id].component in blocked
        ensures HasDepIn(steps[i].batch[id], blocked)
      {
        DoomedTaskBlocked(g, steps[i].batch[id]);
      }
    }
    BlockedNeverDispatched(State(map[], []), steps, blocked);
  }

  // ---- Always deployed -------------------------------------------------------

  /** Everything the outside world is asked during a dispatch succeeds. */
  predicate Good(r: Response) {
    r.componentReady && r.bearerIssued && r.workflowsConfigured && r.endpointsResolved && r.agentKeyReady && r.triggered
  }

  predicate AllGood(rs: seq<Response>) {
    forall i :: 0 <= i < |rs| ==> Good(rs[i])
  }

  /** One task per component, as the graph has it; every task has its issue and waits or is deployed. */
  ghost predicate Project(rows: Rows, g: Edges) {
    && UniqueNames(rows)
    && g.Keys == Components(rows)
    && (forall id :: id in rows ==> Conforms(rows[id], g) && rows[id].hasIssue)
    && (forall id :: id in rows ==>
      rows[id].status == Pending || rows[id].status == OnHold || rows[id].status == Deployed)
  }

  ghost predicate UniqueNames(rows: Rows) {
    forall i, j :: i in rows && j in rows && i != j ==> rows[i].component != rows[j].component
  }

  ghost function Components(rows: Rows): set<string> {
    set id | id in rows :: rows[id].component
  }

  /** Every dispatched task is brought to its deployment. */
  function DeliveredRow(t: Task): Task {
    if t.status == InProgress then t.(status := Deployed) else t
  }

  function Delivered(rows: Rows): Rows {
    map id | id in rows :: DeliveredRow(rows[id])
  }

  /** A dispatch pass, and the delivery of what it started. */
  function Round(s: State, order: seq<nat>, rs: seq<Response>): (s': State)
    requires |rs| == |order| && forall id :: id in order ==> id in s.rows
    ensures s'.rows.Keys == s.rows.Keys
  {
    var s1 := PassRows(s, StatusIndex(s.rows, order), order, rs);
    State(Delivered(s1.rows), s1.runs)
  }

  /** The states a project passes through, round by round, under responses that all succeed. */
  ghost predicate Trajectory(states: seq<State>, order: seq<nat>, rounds: seq<seq<Response>>) {
    && |states| == |rounds| + 1
    && Listing(states[0].rows, order)
    && (forall i :: 0 <= i < |rounds| ==> RoundAt(states, order, rounds, i))
  }

  ghost predicate RoundAt(states: seq<State>, order: seq<nat>, rounds: seq<seq<Response>>, i: nat)
    requires |states| == |rounds| + 1 && i < |rounds|
  {
    && Listing(states[i].rows, order) && |rounds[i]| == |order| && AllGood(rounds[i])
    && states[i + 1] == Round(states[i], order, rounds[i])
  }

  lemma {:induction false} IndexExact(rows: Rows, order: seq<nat>, n: string)
    requires UniqueNames(rows) && forall id :: id in order ==> id in rows
    ensures n in StatusIndex(rows, order) <==> exists id :: id in order && rows[id].component == n
    ensures forall id :: id in order && rows[id].component == n ==> StatusIndex(rows, order)[n] == rows[id].status
  {
    IndexIsLast(rows, order, n);
    forall i | 0 <= i < |order| && rows[order[i]].component == n
      ensures exists k: nat :: LastOf(rows, order, k, n) && order[k] == order[i]
    {
      var k := LastRow(rows, order, i, n);
      assert order[k] == order[i];
    }
  }

  /** With one task per component the index answers for exactly the deployed names. */
  lemma {:induction false} IndexIsDeployedNames(rows: Rows, order: seq<nat>, t: Task)
    requires UniqueNames(rows) && Listing(rows, order)
    ensures DepsAllDeployed(t, StatusIndex(rows, order)) <==> DepsIn(t, DeployedNames(rows))
  {
    var index := StatusIndex(rows, order);
    forall d | d in t.dependsOn
      ensures d in index && index[d] == Deployed <==> d in DeployedNames(rows)
    {
      IndexExact(rows, order, d);
    }
  }

  lemma GoodPass(t: Task, index: map<string, Status>, r: Response)
    requires Good(r) && t.hasIssue && (t.status == Pending || t.status == OnHold || t.status == Deployed)
    ensures var (t', started) := PassTask(t, index, r);
            && started == (t.status != Deployed && DepsAllDeployed(t, index))
            && t'.component == t.component && t'.dependsOn == t.dependsOn && t'.hasIssue
            && DeliveredRow(t').status
              == (if t.status == Deployed || DepsAllDeployed(t, index) then Deployed else OnHold)
  {
    DeliveryDeploys(4);
  }

  lemma {:induction false} DeliveredPass(
    s: State, index: map<string, Status>, order: seq<nat>, rs: seq<Response>, i: nat, s1: State)
    requires Listing(s.rows, order) && |rs| == |order| && i < |order| && Good(rs[i]) &&
      s1 == PassRows(s, index, order, rs)
    requires var t := s.rows[order[i]];
             t.hasIssue && (t.status == Pending || t.status == OnHold || t.status == Deployed)
    ensures s.runs <= s1.runs && order[i] in s1.rows
    ensures var t, u := s.rows[order[i]], DeliveredRow(s1.rows[order[i]]);
            && u.component == t.component && u.dependsOn == t.dependsOn && u.hasIssue
            && u.status == (if t.status == Deployed || DepsAllDeployed(t, index) then Deployed else OnHold)
            && (t.status != Deployed && DepsAllDeployed(t, index) ==> Started(s, s1, order[i]))
  {
    PassRowAt(s, index, order, rs, i);
    GoodPass(s.rows[order[i]], index, rs[i]);
  }

  lemma SameRuns(s: State, s1: State, s': State, id: nat)
    requires s1.runs == s'.runs
    ensures Started(s, s1, id) <==> Started(s, s', id)
  {
  }

  /** A round deploys exactly the waiting tasks whose dependencies were deployed, and starts a run for each. */
  lemma RoundRow(s: State, g: Edges, order: seq<nat>, rs: seq<Response>, id: nat)
    requires Project(s.rows, g) && Listing(s.rows, order) && |rs| == |order| && AllGood(rs) && id in s.rows
    ensures var t, s' := s.rows[id], Round(s, order, rs);
            && s'.rows[id].component == t.component && s'.rows[id].dependsOn == t.dependsOn && s'.rows[id].hasIssue
            && s'.rows[id].status
              == (if t.status == Deployed || DepsIn(t, DeployedNames(s.rows)) then Deployed else OnHold)
            && s.runs <= s'.runs
            && (t.status != Deployed && DepsIn(t, DeployedNames(s.rows)) ==> Started(s, s', id))
  {
    var i :| 0 <= i < |order| && order[i] == id;
    var index := StatusIndex(s.rows, order);
    IndexIsDeployedNames(s.rows, order, s.rows[id]);
    DeliveredPass(s, index, order, rs, i, PassRows(s, index, order, rs));
    SameRuns(s, PassRows(s, index, order, rs), Round(s, order, rs), id);
  }

  lemma RoundKeepsProject(s: State, g: Edges, order: seq<nat>, rs: seq<Response>)
    requires Project(s.rows, g) && Listing(s.rows, order) && |rs| == |order| && AllGood(rs)
    ensures Project(Round(s, order, rs).rows, g) && Listing(Round(s, order, rs).rows, order)
    ensures forall id :: id in s.rows ==> Round(s, order, rs).rows[id].component == s.rows[id].component
  {
    forall id | id in s.rows
      ensures var t, t' := s.rows[id], Round(s, order, rs).rows[id];
              && t'.component == t.component && t'.dependsOn == t.dependsOn && t'.hasIssue
              && (t'.status == Deployed || t'.status == OnHold)
    {
      RoundRow(s, g, order, rs, id);
    }
    SameComponents(s.rows, Round(s, order, rs).rows);
  }

  lemma SameComponents(a: Rows, b: Rows)
    requires a.Keys == b.Keys && forall id :: id in a ==> a[id].component == b[id].component
    ensures Components(a) == Components(b)
  {
    assert forall id :: id in a ==> b[id].component in Components(b) && a[id].component in Components(a);
  }

  /** The names still to be deployed that nothing bars from deployment. */
  ghost function Waiting(rows: Rows, g: Edges): set<string> {
    set id | id in rows && rows[id].status != Deployed && !Doomed(g, rows[id].component) :: rows[id].component
  }

  /** A waiting task that could be deployed, if its dependencies all were. */
  ghost predicate ReadyTask(rows: Rows, g: Edges, k: nat) {
    k in rows && rows[k].status != Deployed && !Doomed(g, rows[k].component) && DepsIn(rows[k], DeployedNames(rows))
  }

  /** While such a name is left, one of them has all its dependencies deployed. */
  lemma SomeTaskReady(rows: Rows, g: Edges) returns (id: nat)
    requires Project(rows, g) && Waiting(rows, g) != {}
    ensures ReadyTask(rows, g, id)
  {
    if k :| ReadyTask(rows, g, k) {
      id := k;
    } else {
      WaitingIsTrap(rows, g);
      var n :| n in Waiting(rows, g);
      TrapReachesCycle(g, Waiting(rows, g), n);
      assert false;
    }
  }

  lemma WaitingIsTrap(rows: Rows, g: Edges)
    requires Project(rows, g) && forall k :: !ReadyTask(rows, g, k)
    ensures Trap(g, Waiting(rows, g))
  {
    forall n | n in Waiting(rows, g)
      ensures n in g && g[n] * Waiting(rows, g) != {}
    {
      var k :| k in rows && rows[k].status != Deployed && !Doomed(g, rows[k].component) && rows[k].component == n;
      assert !ReadyTask(rows, g, k);
      var d := WaitingDep(rows, g, k);
      assert d in g[n] * Waiting(rows, g);
    }
  }

  lemma DanglingDoomed(g: Edges, n: string, d: string)
    requires n in g && d in g[n] && d !in g
    ensures ReachesUnknown(g, n)
  {
    var p := [n, d];
    assert IsWalk(g, p) && p[|p| - 1] == d;
  }

  lemma WaitingDep(rows: Rows, g: Edges, k: nat) returns (d: string)
    requires Project(rows, g) && k in rows && !Doomed(g, rows[k].component) && !DepsIn(rows[k], DeployedNames(rows))
    ensures d in g[rows[k].component] && d in Waiting(rows, g)
  {
    var n := rows[k].component;
    d :| d in rows[k].dependsOn && d !in DeployedNames(rows);
    assert d in g[n] by { assert Conforms(rows[k], g) && d in DepSet(rows[k]); }
    if d !in g {
      DanglingDoomed(g, n, d);
    }
    if Doomed(g, d) {
      if ReachesCycle(g, d) { PrependCycle(g, n, d); } else { PrependUnknown(g, n, d); }
    }
    var j :| j in rows && rows[j].component == d;
    assert rows[j].status != Deployed;
  }

  /** Progress: each round over an unfinished project starts a run and shrinks what is left. */
  lemma RoundProgress(s: State, g: Edges, order: seq<nat>, rs: seq<Response>) returns (id: nat)
    requires Project(s.rows, g) && Listing(s.rows, order) && |rs| == |order| && AllGood(rs)
    requires Waiting(s.rows, g) != {}
    ensures s.runs <= Round(s, order, rs).runs
    ensures id in s.rows && s.rows[id].status != Deployed && Started(s, Round(s, order, rs), id)
    ensures s.rows[id].component in Waiting(s.rows, g)
    ensures s.rows[id].component !in Waiting(Round(s, order, rs).rows, g)
  {
    id := SomeTaskReady(s.rows, g);
    ReadyTaskStarts(s, Round(s, order, rs), g, order, rs, id);
  }

  lemma ReadyTaskStarts(s: State, next: State, g: Edges, order: seq<nat>, rs: seq<Response>, id: nat)
    requires Project(s.rows, g) && Listing(s.rows, order) && |rs| == |order| && AllGood(rs) &&
      next == Round(s, order, rs)
    requires id in s.rows && s.rows[id].status != Deployed && !Doomed(g, s.rows[id].component) &&
      DepsIn(s.rows[id], DeployedNames(s.rows))
    ensures s.runs <= next.runs && Started(s, next, id)
    ensures s.rows[id].component in Waiting(s.rows, g) && s.rows[id].component !in Waiting(next.rows, g)
  {
    RoundRow(s, g, order, rs, id);
    RoundKeepsProject(s, g, order, rs);
    NoLongerWaiting(s.rows, next.rows, g, id);
  }

  lemma NoLongerWaiting(before: Rows, after: Rows, g: Edges, id: nat)
    requires id in before && id in after && before[id].component == after[id].component && UniqueNames(after)
    requires before[id].status != Deployed && !Doomed(g, before[id].component) && after[id].status == Deployed
    ensures before[id].component in Waiting(before, g) && before[id].component !in Waiting(after, g)
  {
  }

  lemma RoundShrinks(s: State, g: Edges, order: seq<nat>, rs: seq<Response>)
    requires Project(s.rows, g) && Listing(s.rows, order) && |rs| == |order| && AllGood(rs)
    ensures Waiting(Round(s, order, rs).rows, g) <= Waiting(s.rows, g)
  {
    var rows' := Round(s, order, rs).rows;
    forall n | n in Waiting(rows', g)
      ensures n in Waiting(s.rows, g)
    {
      var k :| k in rows' && rows'[k].status != Deployed && !Doomed(g, rows'[k].component) && rows'[k].component == n;
      RoundRow(s, g, order, rs, k);
    }
  }

  lemma RoundCount(s: State, g: Edges, order: seq<nat>, rs: seq<Response>)
    requires Project(s.rows, g) && Listing(s.rows, order) && |rs| == |order| && AllGood(rs)
    ensures var n, n' := |Waiting(s.rows, g)|, |Waiting(Round(s, order, rs).rows, g)|; n' < n || n' == 0
  {
    if Waiting(s.rows, g) != {} {
      var id := RoundProgress(s, g, order, rs);
      RoundShrinks(s, g, order, rs);
      SmallerSet(Waiting(Round(s, order, rs).rows, g), Waiting(s.rows, g));
    } else {
      RoundShrinks(s, g, order, rs);
    }
  }

  lemma {:induction false} SmallerSet(a: set<string>, b: set<string>)
    requires a < b
    ensures |a| < |b|
  {
    if a != {} {
      var x :| x in a;
      SmallerSet(a - {x}, b - {x});
    }
  }

  lemma DoomedRow(s: State, g: Edges, order: seq<nat>, rs: seq<Response>, id: nat)
    requires SoundProject(s.rows, g) && Listing(s.rows, order) && |rs| == |order| && AllGood(rs)
    requires id in s.rows && Doomed(g, s.rows[id].component)
    ensures Round(s, order, rs).rows[id].status == OnHold
  {
    RoundRow(s, g, order, rs, id);
    DoomedTaskBlocked(g, s.rows[id]);
    NotDeployed(s.rows, s.rows[id], DoomedNames(g));
  }

  lemma DoomedRound(s: State, next: State, g: Edges, order: seq<nat>, rs: seq<Response>)
    requires SoundProject(s.rows, g) && Listing(s.rows, order) && |rs| == |order| && AllGood(rs)
    requires next == Round(s, order, rs)
    requires forall id :: id in s.rows ==> next.rows[id].component == s.rows[id].component
    ensures Idle(next.rows, DoomedNames(g))
  {
    forall id | id in next.rows && Doomed(g, next.rows[id].component)
      ensures next.rows[id].status == OnHold
    {
      DoomedRow(s, g, order, rs, id);
    }
  }

  /** A project, none of whose doomed tasks was ever dispatched. */
  ghost predicate SoundProject(rows: Rows, g: Edges) {
    Project(rows, g) && Idle(rows, DoomedNames(g))
  }

  /** One round keeps the project sound and leaves fewer names waiting, or none. */
  lemma RoundShrinksCount(s: State, next: State, g: Edges, order: seq<nat>, rs: seq<Response>)
    requires SoundProject(s.rows, g) && Listing(s.rows, order) && |rs| == |order| && AllGood(rs) &&
      next == Round(s, order, rs)
    ensures SoundProject(next.rows, g) && next.rows.Keys == s.rows.Keys
    ensures |Waiting(next.rows, g)| < |Waiting(s.rows, g)| || |Waiting(next.rows, g)| == 0
  {
    RoundKeepsProject(s, g, order, rs);
    DoomedRound(s, next, g, order, rs);
    RoundCount(s, g, order, rs);
  }

  /** What is left after k rounds. */
  ghost predicate Shrunk(first: State, s: State, g: Edges, k: nat) {
    && SoundProject(s.rows, g) && s.rows.Keys == first.rows.Keys
    && (|Waiting(s.rows, g)| + k <= |Waiting(first.rows, g)| || |Waiting(s.rows, g)| == 0)
  }

  lemma ShrunkNext(
    first: State, s: State, next: State, g: Edges, order: seq<nat>, rs: seq<Response>, k: nat)
    requires Shrunk(first, s, g, k) && Listing(s.rows, order) && |rs| == |order| && AllGood(rs) &&
      next == Round(s, order, rs)
    ensures Shrunk(first, next, g, k + 1)
  {
    RoundShrinksCount(s, next, g, order, rs);
  }

  lemma TrajectoryNext(states: seq<State>, order: seq<nat>, rounds: seq<seq<Response>>, k: nat)
    requires Trajectory(states, order, rounds) && k < |rounds|
    ensures Listing(states[k].rows, order) && |rounds[k]| == |order| && AllGood(rounds[k])
    ensures states[k + 1] == Round(states[k], order, rounds[k])
  {
    assert RoundAt(states, order, rounds, k);
  }

  lemma {:induction false} TrajectoryShrinks(
    states: seq<State>, g: Edges, order: seq<nat>, rounds: seq<seq<Response>>, k: nat)
    requires Trajectory(states, order, rounds) && k < |states| && SoundProject(states[0].rows, g)
    ensures Shrunk(states[0], states[k], g, k)
  {
    if k > 0 {
      TrajectoryShrinks(states, g, order, rounds, k - 1);
      TrajectoryNext(states, order, rounds, k - 1);
      ShrunkNext(states[0], states[k - 1], states[k], g, order, rounds[k - 1], k - 1);
    }
  }

  lemma WaitingAtMostRows(rows: Rows, g: Edges)
    ensures |Waiting(rows, g)| <= |rows|
  {
    ImageBound(rows, rows.Keys, Waiting(rows, g));
  }

  lemma {:induction false} ImageBound(rows: Rows, ids: set<nat>, names: set<string>)
    requires ids <= rows.Keys && forall n :: n in names ==> exists id :: id in ids && rows[id].component == n
    ensures |names| <= |ids|
  {
    if names != {} {
      var n :| n in names;
      var id :| id in ids && rows[id].component == n;
      ImageBound(rows, ids - {id}, names - {n});
    }
  }

  /**
    As many rounds as there are tasks deploy all the tasks that can be deployed and
    no other: those whose dependencies lead neither to a cycle nor to an unknown name.
  */
  lemma RoundsDeployExactly(states: seq<State>, g: Edges, order: seq<nat>, rounds: seq<seq<Response>>, rows: Rows)
    requires Trajectory(states, order, rounds) && SoundProject(states[0].rows, g) && |rounds| >= |states[0].rows|
    requires rows == states[|rounds|].rows
    ensures rows.Keys == states[0].rows.Keys
    ensures forall id :: id in rows ==> (rows[id].status == Deployed <==> !Doomed(g, rows[id].component))
  {
    TrajectoryShrinks(states, g, order, rounds, |rounds|);
    WaitingAtMostRows(states[0].rows, g);
    NothingWaits(rows, g);
  }

  lemma NothingWaits(rows: Rows, g: Edges)
    requires |Waiting(rows, g)| == 0 && SoundProject(rows, g)
    ensures forall id :: id in rows ==> (rows[id].status == Deployed <==> !Doomed(g, rows[id].component))
  {
    forall id | id in rows
      ensures rows[id].status == Deployed <==> !Doomed(g, rows[id].component)
    {
      assert rows[id].component !in Waiting(rows, g);
    }
  }
}
