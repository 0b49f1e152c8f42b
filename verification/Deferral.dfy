/**
  The deferral of a dispatch over whole runs. A dispatch that gets as far as the endpoints of
  the task's dependencies and finds one missing defers the task; one that finds them all ends
  the deferral, whatever comes of it.
*/
module Deferral {
  import opened Wrappers
  import opened TaskLifecycle
  import opened Scheduler
  import opened DispatchAccounting

  /** One entry in the history of a task's deferral. */
  datatype Attempt =
    | Unresolved(stampAt: int, checkAt: int)
    | EndpointsFound
    | Restored(deferredAt: Option<int>)                     // a whole-row save put back what it read

  function DispatchAttempt(t: Task, r: Response): Option<Attempt> {
    if !PreflightOk(t, r) then None
    else if Resolved(t, r) then Some(EndpointsFound)
    else Some(Attempt.Unresolved(r.stampAt, r.checkAt))
  }

  function Position(order: seq<nat>, id: nat): (i: nat)
    requires id in order
    ensures i < |order| && order[i] == id
  {
    var n := |order| - 1;
    if order[n] == id then n else
      assert order == order[..n] + [order[n]];
      Position(order[..n], id)
  }

  /** What a step adds to the history of one task. */
  ghost function StepAttempt(s: State, step: Step, id: nat): Option<Attempt>
    requires Possible(s, step) && id in s.rows
  {
    var t := s.rows[id];
    match step
    case DispatchPass(order, rs) =>
      if Waiting(t.status) && DepsAllDeployed(t, StatusIndex(s.rows, order))
      then DispatchAttempt(t, rs[Position(order, id)]) else None
    case Retry(k, r) => if k == id && r.lookupsOk then DispatchAttempt(t, r) else None
    case SaveRow(k, row) => if k == id then Some(Restored(row.deferredAt)) else None
    case _ => None
  }

  ghost function History(s: State, steps: seq<Step>, id: nat): seq<Attempt>
    requires PossibleRun(s, steps) && id in s.rows
    decreases steps
  {
    if steps == [] then []
    else
      RowsKept(s, steps[0]);
      (match StepAttempt(s, steps[0], id) case Some(a) => [a] case None => [])
        + History(Apply(s, steps[0]), steps[1..], id)
  }

  lemma RowsKept(s: State, step: Step)
    requires Possible(s, step)
    ensures s.rows.Keys <= Apply(s, step).rows.Keys
  {
  }

  /** One entry's effect on the time of the first deferral. */
  function Advance(first: Option<int>, a: Attempt): Option<int> {
    match a
    case Unresolved(stampAt, _) => if first.None? then Some(stampAt) else first
    case EndpointsFound => None
    case Restored(deferredAt) => deferredAt
  }

  function AdvanceBy(first: Option<int>, a: Option<Attempt>): Option<int> {
    match a
    case Some(attempt) => Advance(first, attempt)
    case None => first
  }

  /** The time of the first deferral since endpoints were last found, starting from `first`. */
  function FirstDeferral(first: Option<int>, log: seq<Attempt>): Option<int>
    decreases log
  {
    if log == [] then first else FirstDeferral(Advance(first, log[0]), log[1..])
  }

  lemma {:induction false} FirstDeferralConcat(first: Option<int>, a: seq<Attempt>, b: seq<Attempt>)
    ensures FirstDeferral(first, a + b) == FirstDeferral(FirstDeferral(first, a), b)
    decreases a
  {
    if a == [] {
      assert a + b == b;
    } else {
      assert (a + b)[1..] == a[1..] + b;
      FirstDeferralConcat(Advance(first, a[0]), a[1..], b);
    }
  }

  /** It is the stamp of the first unresolved attempt after the last that found the endpoints, if there is one. */
  lemma {:induction false} SinceEndpointsFound(first: Option<int>, before: seq<Attempt>, since: seq<Attempt>)
    requires forall i :: 0 <= i < |since| ==> since[i].Unresolved?
    ensures FirstDeferral(first, before + [EndpointsFound] + since) ==
      if since == [] then None else Some(since[0].stampAt)
  {
    FirstDeferralConcat(first, before + [EndpointsFound], since);
    FirstDeferralConcat(first, before, [EndpointsFound]);
    assert [EndpointsFound][1..] == [];
    if since != [] { FirstDeferralStays(Some(since[0].stampAt), since[1..]); }
  }

  lemma {:induction false} FirstDeferralStays(first: Option<int>, log: seq<Attempt>)
    requires first.Some? && forall i :: 0 <= i < |log| ==> log[i].Unresolved?
    ensures FirstDeferral(first, log) == first
    decreases log
  {
    if log != [] { FirstDeferralStays(first, log[1..]); }
  }

  // ---- What the row records ----------------------------------------------------------

  lemma DispatchedDeferral(t: Task, r: Response)
    ensures Dispatched(t, r).0.deferredAt ==
            AdvanceBy(t.deferredAt, DispatchAttempt(t, r))
  {
  }

  lemma PassTaskDeferral(t: Task, index: map<string, Status>, r: Response)
    ensures PassTask(t, index, r).0.deferredAt ==
            if Waiting(t.status) && DepsAllDeployed(t, index)
            then Dispatched(t.(status := Pending), r).0.deferredAt else t.deferredAt
  {
  }

  lemma SameAttempt(t: Task, u: Task, r: Response)
    requires t.hasIssue == u.hasIssue && t.dependsOn == u.dependsOn
    ensures DispatchAttempt(t, r) == DispatchAttempt(u, r)
  {
  }

  lemma PassDeferral(s: State, order: seq<nat>, rs: seq<Response>, id: nat)
    requires Possible(s, DispatchPass(order, rs)) && id in s.rows
    ensures PassStep(s, order, rs).rows[id].deferredAt ==
            AdvanceBy(s.rows[id].deferredAt, StepAttempt(s, DispatchPass(order, rs), id))
  {
    var i, index, t := Position(order, id), StatusIndex(s.rows, order), s.rows[id];
    PassRowAt(s, index, order, rs, i);
    PassTaskDeferral(t, index, rs[i]);
    DispatchedDeferral(t.(status := Pending), rs[i]);
    SameAttempt(t, t.(status := Pending), rs[i]);
  }

  lemma RetryDeferral(s: State, k: nat, r: Response, id: nat)
    requires id in s.rows
    ensures RetryStep(s, k, r).rows[id].deferredAt ==
            AdvanceBy(s.rows[id].deferredAt, StepAttempt(s, Retry(k, r), id))
  {
    if k == id && r.lookupsOk {
      var t := s.rows[id];
      var u := t.(status := Next(t.status, OperatorRetry), dispatchedAt := None, lastRun := "");
      DispatchedDeferral(u, r);
      SameAttempt(t, u, r);
    }
  }

  /** One step changes the recorded deferral exactly as its entry says. */
  lemma StepDeferral(s: State, step: Step, id: nat)
    requires Possible(s, step) && id in s.rows
    ensures id in Apply(s, step).rows
    ensures Apply(s, step).rows[id].deferredAt ==
            AdvanceBy(s.rows[id].deferredAt, StepAttempt(s, step, id))
  {
    RowsKept(s, step);
    match step
    case DispatchPass(order, rs) => PassDeferral(s, order, rs, id);
    case Retry(k, r) => RetryDeferral(s, k, r, id);
    case _ =>
  }

  /** In every run the row records the first deferral since the endpoints were last found. */
  lemma {:induction false} RecordsFirstDeferral(s: State, steps: seq<Step>, id: nat)
    requires PossibleRun(s, steps) && id in s.rows
    ensures id in After(s, steps).rows
    ensures After(s, steps).rows[id].deferredAt == FirstDeferral(s.rows[id].deferredAt, History(s, steps, id))
    decreases steps
  {
    if steps != [] {
      var s' := Apply(s, steps[0]);
      StepDeferral(s, steps[0], id);
      RecordsFirstDeferral(s', steps[1..], id);
      var a := match StepAttempt(s, steps[0], id) case Some(a) => [a] case None => [];
      FirstDeferralConcat(s.rows[id].deferredAt, a, History(s', steps[1..], id));
      assert a != [] ==> a[1..] == [];
    }
  }

  // ---- The window ----------------------------------------------------------------------

  /** A check that comes too late after the first deferral. */
  predicate Late(first: Option<int>, checkAt: int) {
    first.Some? && checkAt - first.value > DEFER_DEADLINE
  }

  lemma DispatchedWindow(t: Task, r: Response)
    requires DispatchAttempt(t, r).Some? && DispatchAttempt(t, r).value.Unresolved?
    ensures Dispatched(t, r).0.status == if Late(t.deferredAt, r.checkAt) then Failed else OnHold
    ensures !Dispatched(t, r).1
  {
  }

  lemma StepWindow(s: State, step: Step, id: nat)
    requires Possible(s, step) && id in s.rows
    requires StepAttempt(s, step, id).Some? && StepAttempt(s, step, id).value.Unresolved?
    ensures id in Apply(s, step).rows
    ensures Apply(s, step).rows[id].status ==
            if Late(s.rows[id].deferredAt, StepAttempt(s, step, id).value.checkAt) then Failed else OnHold
  {
    var t := s.rows[id];
    match step
    case DispatchPass(order, rs) =>
      var i := Position(order, id);
      PassRowAt(s, StatusIndex(s.rows, order), order, rs, i);
      SameAttempt(t, t.(status := Pending), rs[i]);
      DispatchedWindow(t.(status := Pending), rs[i]);
    case Retry(k, r) =>
      var u := t.(status := Next(t.status, OperatorRetry), dispatchedAt := None, lastRun := "");
      SameAttempt(t, u, r);
      DispatchedWindow(u, r);
    case _ =>
  }

  /**
    Whatever happened before, an attempt that finds no endpoint puts the task on hold exactly when it
    comes within two minutes of the first deferral since the endpoints were last found, and fails it otherwise.
  */
  lemma {:induction false} DeferralWindow(s: State, steps: seq<Step>, step: Step, id: nat)
    requires PossibleRun(s, steps) && Possible(After(s, steps), step) && id in s.rows && id in After(s, steps).rows
    requires var a := StepAttempt(After(s, steps), step, id); a.Some? && a.value.Unresolved?
    ensures id in Apply(After(s, steps), step).rows
    ensures var first := FirstDeferral(s.rows[id].deferredAt, History(s, steps, id));
            var checkAt := StepAttempt(After(s, steps), step, id).value.checkAt;
            Apply(After(s, steps), step).rows[id].status == if Late(first, checkAt) then Failed else OnHold
  {
    RecordsFirstDeferral(s, steps, id);
    StepWindow(After(s, steps), step, id);
  }

  // ---- A failed task ---------------------------------------------------------------------

  /** Steps that can touch a failed task: its own retries, and saves of its row. */
  predicate Touches(step: Step, id: nat) {
    (step.Retry? && step.id == id) || (step.SaveRow? && step.id == id)
  }

  lemma {:induction false} PassLeaves(s: State, index: map<string, Status>, order: seq<nat>, rs: seq<Response>, id: nat)
    requires |rs| == |order| && (forall k :: k in order ==> k in s.rows) && id in s.rows && !Waiting(s.rows[id].status)
    ensures var s' := PassRows(s, index, order, rs);
            s'.rows[id] == s.rows[id] && Count(s'.runs, id) == Count(s.runs, id)
  {
    if order != [] {
      var n := |order| - 1;
      PassLeaves(s, index, order[..n], rs[..n], id);
      CountSnoc(PassRows(s, index, order[..n], rs[..n]).runs, order[n], id);
    }
  }

  lemma {:induction false} FailedStep(s: State, step: Step, id: nat)
    requires Possible(s, step) && id in s.rows && s.rows[id].status == Failed && !Touches(step, id)
    ensures id in Apply(s, step).rows && Apply(s, step).rows[id] == s.rows[id]
    ensures Count(Apply(s, step).runs, id) == Count(s.runs, id)
  {
    match step
    case DispatchPass(order, rs) => PassLeaves(s, StatusIndex(s.rows, order), order, rs, id);
    case Retry(k, r) => CountSnoc(s.runs, k, id);
    case _ =>
  }

  /** A task marked failed stays as it is, and is not started, in every run that does not retry or save it. */
  lemma {:induction false} FailedTaskStays(s: State, steps: seq<Step>, id: nat)
    requires PossibleRun(s, steps) && id in s.rows && s.rows[id].status == Failed
    requires forall i :: 0 <= i < |steps| ==> !Touches(steps[i], id)
    ensures id in After(s, steps).rows && After(s, steps).rows[id] == s.rows[id]
    ensures Count(After(s, steps).runs, id) == Count(s.runs, id)
    decreases steps
  {
    if steps != [] {
      FailedStep(s, steps[0], id);
      FailedTaskStays(Apply(s, steps[0]), steps[1..], id);
    }
  }

  /** The retry gets to the endpoints and finds them all. */
  predicate FindsEndpoints(t: Task, r: Response) {
    r.lookupsOk && PreflightOk(t, r) && Resolved(t, r)
  }

  /**
    Nothing clears the deferral of a task failed by the deadline but a retry that finds the endpoints;
    that one can start it.
  */
  lemma RetryAfterDeadlineIff(t: Task, r: Response)
    requires t.status == Failed && Late(t.deferredAt, r.checkAt)
    ensures FindsEndpoints(t, r) <==> Retried(t, r).0.deferredAt != t.deferredAt
    ensures !FindsEndpoints(t, r) ==> Retried(t, r) == (t.(dispatchedAt := None, lastRun := ""), false)
    ensures Retried(t, r).1 <==> FindsEndpoints(t, r) && r.agentKeyReady && r.triggered
  {
  }

  /** Failed by the deadline and still so: the history fields of the last start may have been cleared. */
  predicate StillFailed(t: Task, u: Task) {
    u.status == Failed && u.deferredAt == t.deferredAt && u.hasIssue == t.hasIssue && u.dependsOn == t.dependsOn
  }

  lemma {:induction false} DeadlineStep(s: State, step: Step, id: nat, t: Task)
    requires Possible(s, step) && id in s.rows && StillFailed(t, s.rows[id]) && !(step.SaveRow? && step.id == id)
    requires step.Retry? && step.id == id ==>
      Late(t.deferredAt, step.response.checkAt) && !FindsEndpoints(t, step.response)
    ensures id in Apply(s, step).rows && StillFailed(t, Apply(s, step).rows[id])
    ensures Count(Apply(s, step).runs, id) == Count(s.runs, id)
  {
    if Touches(step, id) {
      RetryAfterDeadlineIff(s.rows[id], step.response);
    } else {
      FailedStep(s, step, id);
    }
  }

  /**
    The failure is final: once the deadline has failed a task, no pass, event or retry that again
    finds an endpoint missing brings it back, as long as the clock does not go back and no
    earlier reading of the row is saved.
  */
  lemma {:induction false} DeadlineFailureIsFinal(s: State, steps: seq<Step>, id: nat, t: Task)
    requires PossibleRun(s, steps) && id in s.rows && StillFailed(t, s.rows[id])
    requires forall i :: 0 <= i < |steps| ==> !(steps[i].SaveRow? && steps[i].id == id)
    requires forall i :: 0 <= i < |steps| && steps[i].Retry? && steps[i].id == id ==>
               Late(t.deferredAt, steps[i].response.checkAt) && !FindsEndpoints(t, steps[i].response)
    ensures id in After(s, steps).rows && StillFailed(t, After(s, steps).rows[id])
    ensures Count(After(s, steps).runs, id) == Count(s.runs, id)
    decreases steps
  {
    if steps != [] {
      DeadlineStep(s, steps[0], id, t);
      assert forall i :: 0 <= i < |steps[1..]| ==> steps[1..][i] == steps[i + 1];
      DeadlineFailureIsFinal(Apply(s, steps[0]), steps[1..], id, t);
    }
  }
}
