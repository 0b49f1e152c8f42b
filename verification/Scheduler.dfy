/**
  The deploy-gated task scheduler: every step that writes the task table, as a
  function of the table, and the service that takes those steps.

  Dispatch passes are serialised and database updates succeed; what the outside
  world answers during one dispatch is a `Response`. Rows are saved whole, so a
  writer that read a row earlier is a step of its own, `SaveRow`.
*/
module Scheduler {
  import opened Wrappers
  import opened TaskLifecycle
  import Design

  datatype Task = Task(
    component: string,
    dependsOn: seq<string>,
    status: Status,
    hasIssue: bool,
    dispatchedAt: Option<int>,
    deferredAt: Option<int>,
    lastRun: string)

  type Rows = map<nat, Task>

  /** The task table, and the coding-agent runs triggered so far, oldest first. */
  datatype State = State(rows: Rows, runs: seq<nat>)

  /** Nanoseconds. */
  const DEFER_DEADLINE: int := 2 * 60 * 1_000_000_000

  /** The outcomes of the external calls one dispatch makes, and the clock readings it takes. */
  datatype Response = Response(
    lookupsOk: bool,                                        // repository and identity, before a retry dispatches
    componentReady: bool,
    bearerIssued: bool,
    workflowsConfigured: bool,
    endpointsResolved: bool,
    stampAt: int,
    checkAt: int,
    agentKeyReady: bool,
    triggered: bool,
    triggeredAt: int,
    runName: string)

  /** A task without dependencies has no endpoint to resolve. */
  predicate Resolved(t: Task, r: Response) {
    t.dependsOn == [] || r.endpointsResolved
  }

  predicate PreflightOk(t: Task, r: Response) {
    t.hasIssue && r.componentReady && r.bearerIssued && r.workflowsConfigured
  }

  predicate DeadlinePassed(t: Task, r: Response) {
    t.deferredAt.Some? && r.checkAt - t.deferredAt.value > DEFER_DEADLINE
  }

  /** `dispatchOne`: the row it leaves, and whether it started an agent run. It does not look at the status. */
  function Dispatched(t: Task, r: Response): (Task, bool) {
    if !PreflightOk(t, r) then
      (t.(status := Failed), false)
    else if !Resolved(t, r) then
      if DeadlinePassed(t, r) then (t.(status := Failed), false)
      else (t.(status := OnHold, deferredAt := if t.deferredAt.None? then Some(r.stampAt) else t.deferredAt), false)
    else if !r.agentKeyReady || !r.triggered then
      (t.(status := Failed, deferredAt := None), false)
    else
      (t.(status := InProgress, deferredAt := None, dispatchedAt := Some(r.triggeredAt), lastRun := r.runName), true)
  }

  /** Component name to status, over the rows in listing order: the last row of a name wins. */
  function StatusIndex(rows: Rows, order: seq<nat>): map<string, Status>
    requires forall id :: id in order ==> id in rows
  {
    if order == [] then map[]
    else
      var last := rows[order[|order| - 1]];
      StatusIndex(rows, order[..|order| - 1])[last.component := last.status]
  }

  /** Row i of the listing is the last one of its component n. */
  ghost predicate LastOf(rows: Rows, order: seq<nat>, i: nat, n: string)
    requires forall id :: id in order ==> id in rows
  {
    && i < |order| && rows[order[i]].component == n
    && forall j :: i < j < |order| ==> rows[order[j]].component != n
  }

  lemma LastOfFront(rows: Rows, order: seq<nat>, i: nat, n: string)
    requires (forall id :: id in order ==> id in rows) && order != [] && rows[order[|order| - 1]].component != n
    ensures LastOf(rows, order, i, n) <==> LastOf(rows, order[..|order| - 1], i, n)
  {
    var front := order[..|order| - 1];
    assert forall j :: 0 <= j < |front| ==> front[j] == order[j];
    if LastOf(rows, front, i, n) {
      assert rows[order[i]].component == n;
    }
  }

  /** The index knows exactly the listed components, each by the status of its last listed row. */
  lemma {:induction false} IndexIsLast(rows: Rows, order: seq<nat>, n: string)
    requires forall id :: id in order ==> id in rows
    ensures n in StatusIndex(rows, order) <==> exists i: nat :: LastOf(rows, order, i, n)
    ensures forall i: nat :: LastOf(rows, order, i, n) ==>
              n in StatusIndex(rows, order) && StatusIndex(rows, order)[n] == rows[order[i]].status
  {
    if order != [] {
      var k := |order| - 1;
      var front := order[..k];
      IndexIsLast(rows, front, n);
      if rows[order[k]].component == n {
        assert LastOf(rows, order, k, n);
      } else {
        forall i: nat ensures LastOf(rows, order, i, n) <==> LastOf(rows, front, i, n) {
          LastOfFront(rows, order, i, n);
        }
      }
    }
  }

  lemma {:induction false} LastRow(rows: Rows, order: seq<nat>, i: nat, n: string) returns (k: nat)
    requires (forall id :: id in order ==> id in rows) && i < |order| && rows[order[i]].component == n
    ensures LastOf(rows, order, k, n)
    decreases |order| - i
  {
    if j :| i < j < |order| && rows[order[j]].component == n {
      k := LastRow(rows, order, j, n);
    } else {
      k := i;
    }
  }

  predicate DepsAllDeployed(t: Task, index: map<string, Status>) {
    forall d :: d in t.dependsOn ==> d in index && index[d] == Deployed
  }

  /** One task of a dispatch pass. */
  function PassTask(t: Task, index: map<string, Status>, r: Response): (Task, bool) {
    if t.status != OnHold && t.status != Pending then (t, false)
    else if !DepsAllDeployed(t, index) then (t.(status := OnHold), false)
    else Dispatched(t.(status := Pending), r)
  }

  /** For each dependency the last listed row of that component is deployed. */
  ghost predicate GateOpen(rows: Rows, order: seq<nat>, t: Task)
    requires forall id :: id in order ==> id in rows
  {
    forall d :: d in t.dependsOn ==> exists i: nat :: LastOf(rows, order, i, d) && rows[order[i]].status == Deployed
  }

  lemma {:induction false} GateIff(rows: Rows, order: seq<nat>, t: Task)
    requires forall id :: id in order ==> id in rows
    ensures DepsAllDeployed(t, StatusIndex(rows, order)) <==> GateOpen(rows, order, t)
  {
    forall d | d in t.dependsOn
      ensures d in StatusIndex(rows, order) && StatusIndex(rows, order)[d] == Deployed <==>
              exists i: nat :: LastOf(rows, order, i, d) && rows[order[i]].status == Deployed
    {
      IndexIsLast(rows, order, d);
    }
  }

  /** How a dispatch ends: started, put off for at most two minutes, or failed. */
  datatype Outcome = Launched | Deferred | GivenUp

  function OutcomeOf(t: Task, r: Response): Outcome {
    var ready := t.hasIssue && r.componentReady && r.bearerIssued && r.workflowsConfigured;
    var found := t.dependsOn == [] || r.endpointsResolved;
    if ready && found && r.agentKeyReady && r.triggered then Launched
    else if ready && !found && (t.deferredAt.None? || r.checkAt <= t.deferredAt.value + 120_000_000_000) then Deferred
    else GivenUp
  }

  /** The row a dispatch leaves, field by field. */
  lemma DispatchedRow(t: Task, r: Response)
    ensures var (u, started) := Dispatched(t, r);
            && (started <==> OutcomeOf(t, r) == Launched)
            && u.status == (match OutcomeOf(t, r) case Launched => InProgress case Deferred => OnHold
              case GivenUp => Failed)
            && (started ==> u.dispatchedAt == Some(r.triggeredAt) && u.lastRun == r.runName && u.deferredAt == None)
            && (!started ==> u.dispatchedAt == t.dispatchedAt && u.lastRun == t.lastRun)
            && (OutcomeOf(t, r) == Deferred && t.deferredAt.None? ==> u.deferredAt == Some(r.stampAt))
            && (OutcomeOf(t, r) == Deferred && t.deferredAt.Some? ==> u.deferredAt == t.deferredAt)
            && u.component == t.component && u.dependsOn == t.dependsOn && u.hasIssue == t.hasIssue
  {
  }

  function PassRow(s: State, index: map<string, Status>, id: nat, r: Response): State
    requires id in s.rows
  {
    var (t, started) := PassTask(s.rows[id], index, r);
    State(s.rows[id := t], if started then s.runs + [id] else s.runs)
  }

  function PassRows(s: State, index: map<string, Status>, order: seq<nat>, rs: seq<Response>): (s': State)
    requires |rs| == |order| && forall id :: id in order ==> id in s.rows
    ensures s'.rows.Keys == s.rows.Keys
  {
    if order == [] then s
    else
      var n := |order| - 1;
      PassRow(PassRows(s, index, order[..n], rs[..n]), index, order[n], rs[n])
  }

  /** Between the two states a run of the task was started. */
  ghost predicate Started(s: State, s': State, id: nat) {
    exists k :: |s.runs| <= k < |s'.runs| && s'.runs[k] == id
  }

  lemma StartedEarlier(s: State, middle: State, s': State, id: nat)
    requires Started(s, middle, id) && middle.runs <= s'.runs
    ensures Started(s, s', id)
  {
    var k :| |s.runs| <= k < |middle.runs| && middle.runs[k] == id;
    assert s'.runs[k] == id;
  }

  /** A pass treats each listed row once, by what the table said when the pass began. */
  lemma {:induction false} PassRowAt(s: State, index: map<string, Status>, order: seq<nat>, rs: seq<Response>, i: nat)
    requires |rs| == |order| && i < |order| && (forall k :: k in order ==> k in s.rows)
    requires forall j, k :: 0 <= j < k < |order| ==> order[j] != order[k]
    ensures PassRows(s, index, order, rs).rows[order[i]] == PassTask(s.rows[order[i]], index, rs[i]).0
    ensures s.runs <= PassRows(s, index, order, rs).runs
    ensures PassTask(s.rows[order[i]], index, rs[i]).1 ==> Started(s, PassRows(s, index, order, rs), order[i])
  {
    var n := |order| - 1;
    var middle, end := PassRows(s, index, order[..n], rs[..n]), PassRows(s, index, order, rs);
    if i == n {
      PassUntouched(s, index, order[..n], rs[..n], order[n]);
      assert PassTask(s.rows[order[n]], index, rs[n]).1 ==> end.runs[|middle.runs|] == order[n];
    } else {
      PassRowAt(s, index, order[..n], rs[..n], i);
      if Started(s, middle, order[i]) { StartedEarlier(s, middle, end, order[i]); }
    }
  }

  lemma {:induction false} PassUntouched(
    s: State, index: map<string, Status>, order: seq<nat>, rs: seq<Response>, id: nat)
    requires |rs| == |order| && (forall k :: k in order ==> k in s.rows)
    requires id in s.rows && id !in order
    ensures PassRows(s, index, order, rs).rows[id] == s.rows[id]
    ensures s.runs <= PassRows(s, index, order, rs).runs
  {
    if order != [] {
      PassUntouched(s, index, order[..|order| - 1], rs[..|order| - 1], id);
    }
  }

  /** The i-th row is treated as it was listed. */
  lemma {:induction false} PassRowsNext(
    s: State, index: map<string, Status>, order: seq<nat>, rs: seq<Response>, i: nat)
    requires Listing(s.rows, order) && |rs| == |order| && i < |order|
    ensures var before := PassRows(s, index, order[..i], rs[..i]);
            && order[i] in before.rows && before.rows[order[i]] == s.rows[order[i]]
            && PassRows(s, index, order[..i + 1], rs[..i + 1]) == PassRow(before, index, order[i], rs[i])
  {
    assert order[..i + 1][..i] == order[..i] && rs[..i + 1][..i] == rs[..i];
    PassUntouched(s, index, order[..i], rs[..i], order[i]);
  }

  /** `RetryTask`: a refused retry event is no error to the projector, so the dispatch follows from any status. */
  function Retried(t: Task, r: Response): (Task, bool) {
    var u := t.(status := Next(t.status, OperatorRetry), dispatchedAt := None, lastRun := "");
    if r.lookupsOk then Dispatched(u, r) else (u, false)
  }

  /** What a retry leaves, from any status: the event moves a task that failed in verification only. */
  lemma RetriedRow(t: Task, r: Response)
    ensures var cleared := t.(status := if t.status == VerificationFailed then InProgress else t.status,
                              dispatchedAt := None, lastRun := "");
            Retried(t, r) == if r.lookupsOk then Dispatched(cleared, r) else (cleared, false)
  {
  }

  function Reconciled(t: Task, current: set<string>): Task {
    if t.status == Pending && Design.Lower(t.component) !in current then t.(status := Rejected) else t
  }

  /** Exactly the pending rows of components that no design component names are rejected. */
  lemma ReconciledRow(t: Task, design: seq<Design.Component>)
    ensures var kept := exists c :: c in design && Design.Lower(c.name) == Design.Lower(t.component);
            Reconciled(t, Design.Keys(design)) == if t.status == Pending && !kept then t.(status := Rejected) else t
  {
  }

  /** `design.Components` indexed by lower-case name, the last of a name winning; unknown names have no dependencies. */
  function DesignDeps(design: seq<Design.Component>, name: string): seq<string> {
    if design == [] then []
    else if Design.Key(design[|design| - 1]) == Design.Lower(name) then design[|design| - 1].dependsOn
    else DesignDeps(design[..|design| - 1], name)
  }

  /** Row i of the design is the last one whose name reads so in lower case. */
  ghost predicate LastNamed(design: seq<Design.Component>, i: nat, name: string) {
    && i < |design| && Design.Lower(design[i].name) == Design.Lower(name)
    && forall j :: i < j < |design| ==> Design.Lower(design[j].name) != Design.Lower(name)
  }

  lemma {:induction false} DepsOfLast(design: seq<Design.Component>, name: string, i: nat)
    requires LastNamed(design, i, name)
    ensures DesignDeps(design, name) == design[i].dependsOn
  {
    if i < |design| - 1 {
      LastNamedFront(design, i, name);
      DepsOfLast(design[..|design| - 1], name, i);
    }
  }

  lemma {:induction false} NoDepsUnnamed(design: seq<Design.Component>, name: string)
    requires forall i :: 0 <= i < |design| ==> Design.Lower(design[i].name) != Design.Lower(name)
    ensures DesignDeps(design, name) == []
  {
    if design != [] {
      var front := design[..|design| - 1];
      assert forall i :: 0 <= i < |front| ==> front[i] == design[i];
      NoDepsUnnamed(front, name);
    }
  }

  lemma LastNamedFront(design: seq<Design.Component>, i: nat, name: string)
    requires design != [] && Design.Lower(design[|design| - 1].name) != Design.Lower(name) && LastNamed(design, i, name)
    ensures LastNamed(design[..|design| - 1], i, name) && design[..|design| - 1][i] == design[i]
  {
    var front := design[..|design| - 1];
    assert forall j :: 0 <= j < |front| ==> front[j] == design[j];
  }

  function PlannedRow(design: seq<Design.Component>, name: string, hasIssue: bool, status: Status): Task {
    Task(name, DesignDeps(design, name), status, hasIssue, None, None, "")
  }

  predicate DepsKnown(design: seq<Design.Component>, name: string) {
    forall d :: d in DesignDeps(design, name) ==> exists c :: c in design && c.name == d
  }

  function WithEvent(t: Task, event: Event): Task {
    t.(status := Next(t.status, event))
  }

  /** An event moves the row where the transitions lead, and leaves it alone when none applies. */
  lemma EventRow(t: Task, event: Event)
    ensures forall to :: Allows(t.status, event, to) ==> WithEvent(t, event) == t.(status := to)
    ensures (forall to :: !Allows(t.status, event, to)) ==> WithEvent(t, event) == t
  {
    assert Allows(t.status, event, Next(t.status, event)) || Next(t.status, event) == t.status;
  }

  /** Everything that writes the task table. */
  datatype Step =
    | Lifecycle(id: nat, event: Event)                      // a webhook or watcher event through the projector
    | MarkBuilding(id: nat)                                 // the build of a merged task was created
    | DispatchPass(order: seq<nat>, responses: seq<Response>)
    | Retry(id: nat, response: Response)
    | NewBatch(batch: Rows)
    | Reconcile(current: set<string>)                       // lower-case names of the current design
    | Cascade(event: Event)                                 // organisation disconnected or repository unselected
    | SaveRow(id: nat, row: Task)                           // a whole row, as its writer last read it

  function LifecycleStep(s: State, id: nat, event: Event): State {
    if id in s.rows then s.(rows := s.rows[id := WithEvent(s.rows[id], event)]) else s
  }

  function BuildingStep(s: State, id: nat): State {
    if id in s.rows && s.rows[id].status == Merged then s.(rows := s.rows[id := s.rows[id].(status := Building)]) else s
  }

  function PassStep(s: State, order: seq<nat>, rs: seq<Response>): State
    requires |rs| == |order| && forall id :: id in order ==> id in s.rows
  {
    PassRows(s, StatusIndex(s.rows, order), order, rs)
  }

  function RetryStep(s: State, id: nat, r: Response): State {
    if id in s.rows then
      var (t, started) := Retried(s.rows[id], r);
      State(s.rows[id := t], if started then s.runs + [id] else s.runs)
    else s
  }

  function ReconcileStep(s: State, current: set<string>): State {
    s.(rows := map id | id in s.rows :: Reconciled(s.rows[id], current))
  }

  function CascadeStep(s: State, event: Event): State {
    s.(rows := map id | id in s.rows :: WithEvent(s.rows[id], event))
  }

  function Apply(s: State, step: Step): State
    requires Possible(s, step)
  {
    match step
    case Lifecycle(id, event) => LifecycleStep(s, id, event)
    case MarkBuilding(id) => BuildingStep(s, id)
    case DispatchPass(order, rs) => PassStep(s, order, rs)
    case Retry(id, r) => RetryStep(s, id, r)
    case NewBatch(batch) => s.(rows := s.rows + batch)
    case Reconcile(current) => ReconcileStep(s, current)
    case Cascade(event) => CascadeStep(s, event)
    case SaveRow(id, row) => s.(rows := s.rows[id := row])
  }

  /** A listing names every row once. */
  ghost predicate Listing(rows: Rows, order: seq<nat>) {
    && (forall id :: id in order <==> id in rows)
    && (forall i, j :: 0 <= i < j < |order| ==> order[i] != order[j])
  }

  /**
    The steps the code can take: no event source raises `dispatch.success`, the retry
    event comes with `RetryTask`, and new rows are pending, or failed for want of an issue.
  */
  ghost predicate Possible(s: State, step: Step) {
    match step
    case Lifecycle(_, event) => event != DispatchSuccess && event != OperatorRetry
    case DispatchPass(order, rs) => Listing(s.rows, order) && |rs| == |order|
    case NewBatch(batch) => FreshBatch(s.rows, batch)
    case Cascade(event) => event == OrgDisconnected || event == RepoUnselected
    case SaveRow(id, row) => id in s.rows && SameTask(s.rows[id], row)
    case _ => true
  }

  /** No writer changes the component of a task or what it depends on. */
  predicate SameTask(t: Task, u: Task) {
    u.component == t.component && u.dependsOn == t.dependsOn
  }

  ghost predicate FreshBatch(rows: Rows, batch: Rows) {
    batch.Keys !! rows.Keys && forall id :: id in batch ==> NewRow(batch[id])
  }

  predicate NewRow(t: Task) {
    (t.status == Pending || t.status == Failed) && t.dispatchedAt.None? && t.deferredAt.None?
  }

  ghost predicate PossibleRun(s: State, steps: seq<Step>)
    decreases steps
  {
    steps == [] || (Possible(s, steps[0]) && PossibleRun(Apply(s, steps[0]), steps[1..]))
  }

  ghost function After(s: State, steps: seq<Step>): State
    requires PossibleRun(s, steps)
    decreases steps
  {
    if steps == [] then s else After(Apply(s, steps[0]), steps[1..])
  }

  // ---- Saves of earlier readings -------------------------------------------------

  /** The state after the first j steps. */
  ghost function StateAt(s: State, steps: seq<Step>, j: nat): State
    requires PossibleRun(s, steps) && j <= |steps|
    decreases j
  {
    if j == 0 then s else StateAt(Apply(s, steps[0]), steps[1..], j - 1)
  }

  /**
    What a writer may save of a row it read as t: the row with another body, with the status a
    disconnect, a lost repository or a removed component gives it, or with its new issue.
  */
  predicate SavedFrom(t: Task, row: Task) {
    || row == t
    || row == WithEvent(t, OrgDisconnected)
    || row == WithEvent(t, RepoUnselected)
    || (t.status == Pending &&
      (row == t.(status := Rejected) || row == t.(status := Failed) || row == t.(hasIssue := true)))
  }

  /** Every saved row comes from what the row was at some earlier moment of the run. */
  ghost predicate FromReadings(s: State, steps: seq<Step>)
    requires PossibleRun(s, steps)
  {
    forall i :: 0 <= i < |steps| && steps[i].SaveRow? ==>
      exists j :: 0 <= j <= i && ReadAt(s, steps, j, steps[i].id, steps[i].row)
  }

  ghost predicate ReadAt(s: State, steps: seq<Step>, j: nat, id: nat, row: Task)
    requires PossibleRun(s, steps) && j <= |steps|
  {
    id in StateAt(s, steps, j).rows && SavedFrom(StateAt(s, steps, j).rows[id], row)
  }

  lemma {:induction false} StateAtEnd(s: State, steps: seq<Step>)
    requires PossibleRun(s, steps)
    ensures StateAt(s, steps, |steps|) == After(s, steps)
    decreases steps
  {
    if steps != [] { StateAtEnd(Apply(s, steps[0]), steps[1..]); }
  }

  lemma {:induction false} StateAtNext(s: State, steps: seq<Step>, j: nat)
    requires PossibleRun(s, steps) && j < |steps|
    ensures Possible(StateAt(s, steps, j), steps[j])
    ensures StateAt(s, steps, j + 1) == Apply(StateAt(s, steps, j), steps[j])
    decreases j
  {
    if j > 0 { StateAtNext(Apply(s, steps[0]), steps[1..], j - 1); }
  }

  lemma {:induction false} RunCons(s: State, step: Step, rest: seq<Step>)
    requires Possible(s, step) && PossibleRun(Apply(s, step), rest)
    ensures PossibleRun(s, [step] + rest) && After(s, [step] + rest) == After(Apply(s, step), rest)
    ensures forall j :: 0 <= j <= |rest| ==> StateAt(s, [step] + rest, j + 1) == StateAt(Apply(s, step), rest, j)
  {
    assert ([step] + rest)[1..] == rest;
  }
}
