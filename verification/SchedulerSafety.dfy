/**
  Deploy gating over all runs: a task that has been dispatched has a deployed task
  for each component it depends on.
*/
module SchedulerSafety {
  import opened Wrappers
  import opened TaskLifecycle
  import opened Scheduler

  /** Statuses a task has only after it was dispatched and before it was given up. */
  predicate Active(s: Status) {
    s == InProgress || s == VerificationFailed || s == ReadyForReview || s == Merged || s == Building || s == Deployed
  }

  /** The components some task has deployed. */
  ghost function DeployedNames(rows: Rows): set<string> {
    set id | id in rows && rows[id].status == Deployed :: rows[id].component
  }

  predicate DepsIn(t: Task, names: set<string>) {
    forall d :: d in t.dependsOn ==> d in names
  }

  ghost predicate Gated(rows: Rows) {
    forall id :: id in rows && Active(rows[id].status) ==> DepsIn(rows[id], DeployedNames(rows))
  }

  /** A row may be rewritten like this without harm: it stays deployed, and becomes active only when gated. */
  ghost predicate GentleRow(before: Task, after: Task, names: set<string>) {
    && after.component == before.component
    && after.dependsOn == before.dependsOn
    && (before.status == Deployed ==> after.status == Deployed)
    && (Active(after.status) ==> Active(before.status) || DepsIn(after, names))
  }

  ghost predicate Gentle(before: Rows, after: Rows) {
    && before.Keys <= after.Keys
    && (forall id :: id in before ==> GentleRow(before[id], after[id], DeployedNames(before)))
    && (forall id :: id in after && id !in before ==> !Active(after[id].status))
  }

  lemma GentleKeeps(before: Rows, after: Rows)
    requires Gentle(before, after)
    ensures DeployedNames(before) <= DeployedNames(after)
    ensures Gated(before) ==> Gated(after)
  {
    forall n | n in DeployedNames(before)
      ensures n in DeployedNames(after)
    {
      var id :| id in before && before[id].status == Deployed && before[id].component == n;
      assert after[id].status == Deployed;
    }
    if Gated(before) {
      forall id | id in after && Active(after[id].status)
        ensures DepsIn(after[id], DeployedNames(after))
      {
        assert id in before && GentleRow(before[id], after[id], DeployedNames(before));
      }
    }
  }

  // ---- Dispatch passes -------------------------------------------------------

  lemma {:induction false} IndexDeployed(rows: Rows, order: seq<nat>, n: string)
    requires forall id :: id in order ==> id in rows
    requires n in StatusIndex(rows, order) && StatusIndex(rows, order)[n] == Deployed
    ensures n in DeployedNames(rows)
  {
    var last := order[|order| - 1];
    if rows[last].component != n {
      IndexDeployed(rows, order[..|order| - 1], n);
    }
  }

  lemma PassTaskGentle(t: Task, index: map<string, Status>, r: Response, names: set<string>)
    requires forall n :: n in index && index[n] == Deployed ==> n in names
    ensures GentleRow(t, PassTask(t, index, r).0, names)
  {
  }

  // ---- Operator retries ------------------------------------------------------

  ghost function Without(rows: Rows, id: nat): Rows {
    rows - {id}
  }

  /** The dispatch gate the retry path skips would let the task through; without an issue it goes no further. */
  ghost predicate RetryGate(rows: Rows, id: nat)
    requires id in rows
  {
    rows[id].hasIssue ==> DepsIn(rows[id], DeployedNames(Without(rows, id)))
  }

  /**
    When a retry is harmless whatever the outside world answers: the dispatch gate the
    retry path skips would let the task through, and no other active task leans on
    this task being deployed.
  */
  ghost predicate RetryAdmissible(rows: Rows, id: nat)
    requires id in rows
  {
    var t, others := rows[id], DeployedNames(Without(rows, id));
    && RetryGate(rows, id)
    && (t.status == Deployed ==>
          forall k :: k in rows && k != id && Active(rows[k].status) && t.component in rows[k].dependsOn ==>
            t.component in others)
  }

  ghost function RetriedRows(rows: Rows, id: nat, r: Response): Rows
    requires id in rows
  {
    rows[id := Retried(rows[id], r).0]
  }

  lemma RetryResult(t: Task, r: Response)
    requires r.lookupsOk
    ensures var u := Retried(t, r).0;
            SameTask(t, u) && (u.status == Failed || u.status == OnHold || (u.status == InProgress && t.hasIssue))
  {
  }

  /** A retry that gets no further than its lookups leaves the row as active as it was. */
  lemma LookupsFailed(t: Task, r: Response, names: set<string>)
    requires !r.lookupsOk
    ensures GentleRow(t, Retried(t, r).0, names) && !Retried(t, r).1
  {
  }

  lemma RetriedNames(rows: Rows, id: nat, r: Response)
    requires id in rows && r.lookupsOk
    ensures DeployedNames(RetriedRows(rows, id, r)) == DeployedNames(Without(rows, id))
  {
    RetryResult(rows[id], r);
    var after, rest := RetriedRows(rows, id, r), Without(rows, id);
    forall n | n in DeployedNames(after)
      ensures n in DeployedNames(rest)
    {
      var k :| k in after && after[k].status == Deployed && after[k].component == n;
      assert k in rest && rest[k] == after[k];
    }
    forall n | n in DeployedNames(rest)
      ensures n in DeployedNames(after)
    {
      var k :| k in rest && rest[k].status == Deployed && rest[k].component == n;
      assert k in after && after[k] == rest[k];
    }
  }

  const ALL_OK := Response(true, true, true, true, true, 0, 0, true, true, 0, "")

  /** A retry keeps a gated table gated under every response exactly when it is admissible. */
  lemma RetryGatedIff(rows: Rows, id: nat)
    requires Gated(rows) && id in rows
    ensures (forall r :: Gated(RetriedRows(rows, id, r))) <==> RetryAdmissible(rows, id)
  {
    if RetryAdmissible(rows, id) {
      forall r
        ensures Gated(RetriedRows(rows, id, r))
      {
        AdmissibleKeepsGated(rows, id, r);
      }
    }
    if Gated(RetriedRows(rows, id, ALL_OK)) {
      GatedNeedsAdmissible(rows, id);
    }
  }

  lemma AdmissibleKeepsGated(rows: Rows, id: nat, r: Response)
    requires Gated(rows) && id in rows && RetryAdmissible(rows, id)
    ensures Gated(RetriedRows(rows, id, r))
  {
    var after, others := RetriedRows(rows, id, r), DeployedNames(Without(rows, id));
    if !r.lookupsOk {
      LookupsFailed(rows[id], r, DeployedNames(rows));
      GentleKeeps(rows, after);
      return;
    }
    RetryResult(rows[id], r);
    RetriedNames(rows, id, r);
    forall k, d | k in after && Active(after[k].status) && d in after[k].dependsOn
      ensures d in others
    {
      if k != id {
        assert DepsIn(rows[k], DeployedNames(rows));
        var q :| q in rows && rows[q].status == Deployed && rows[q].component == d;
        if q != id {
          assert q in Without(rows, id);
        }
      }
    }
  }

  lemma GatedNeedsAdmissible(rows: Rows, id: nat)
    requires id in rows && Gated(RetriedRows(rows, id, ALL_OK))
    ensures RetryAdmissible(rows, id)
  {
    var after := RetriedRows(rows, id, ALL_OK);
    RetriedNames(rows, id, ALL_OK);
    assert Gated(after);
    if rows[id].hasIssue {
      assert Active(after[id].status);
    }
    forall k | k in rows && k != id && Active(rows[k].status) && rows[id].component in rows[k].dependsOn
      ensures rows[id].component in DeployedNames(Without(rows, id))
    {
      assert after[k] == rows[k];
    }
  }

  /** The status the operator's button is meant for is admissible. */
  lemma VerificationFailedAdmissible(rows: Rows, id: nat)
    requires Gated(rows) && id in rows && rows[id].status == VerificationFailed
    ensures RetryAdmissible(rows, id)
  {
    forall d | d in rows[id].dependsOn
      ensures d in DeployedNames(Without(rows, id))
    {
      assert DepsIn(rows[id], DeployedNames(rows));
      var q :| q in rows && rows[q].status == Deployed && rows[q].component == d;
      assert q in Without(rows, id);
    }
  }

  // ---- Whole-row saves ---------------------------------------------------------

  /**
    When saving a row is harmless: the saved row is active only with its dependencies
    deployed, and no active task leans on a deployment that the save takes back.
  */
  ghost predicate SaveAdmissible(rows: Rows, id: nat, row: Task)
    requires id in rows
  {
    var others := DeployedNames(Without(rows, id));
    && (Active(row.status) ==> DepsIn(row, if row.status == Deployed then others + {row.component} else others))
    && (rows[id].status == Deployed && row.status != Deployed ==> Covered(rows, id, others))
  }

  /** Whoever among the other active tasks depends on the task's component finds it deployed elsewhere. */
  ghost predicate Covered(rows: Rows, id: nat, others: set<string>)
    requires id in rows
  {
    forall k :: k in rows && k != id && Active(rows[k].status) && rows[id].component in rows[k].dependsOn ==>
      rows[id].component in others
  }

  lemma SavedNames(rows: Rows, id: nat, row: Task)
    requires id in rows
    ensures DeployedNames(rows[id := row]) ==
            DeployedNames(Without(rows, id)) + if row.status == Deployed then {row.component} else {}
  {
    var after, rest := rows[id := row], Without(rows, id);
    forall n | n in DeployedNames(after)
      ensures n in DeployedNames(rest) || (row.status == Deployed && n == row.component)
    {
      var k :| k in after && after[k].status == Deployed && after[k].component == n;
      if k != id { assert k in rest && rest[k] == after[k]; }
    }
    forall n | n in DeployedNames(rest)
      ensures n in DeployedNames(after)
    {
      var k :| k in rest && rest[k].status == Deployed && rest[k].component == n;
      assert k in after && after[k] == rest[k];
    }
    assert row.status == Deployed ==> after[id] == row;
  }

  /** A save keeps a gated table gated exactly when it is admissible. */
  lemma SaveGatedIff(rows: Rows, id: nat, row: Task)
    requires Gated(rows) && id in rows && SameTask(rows[id], row)
    ensures Gated(rows[id := row]) <==> SaveAdmissible(rows, id, row)
  {
    SavedNames(rows, id, row);
    var after, names := rows[id := row], DeployedNames(rows[id := row]);
    if Gated(after) {
      assert Active(row.status) ==> DepsIn(after[id], names);
      forall k | k in rows && k != id && Active(rows[k].status) && rows[id].component in rows[k].dependsOn
        ensures rows[id].component in names
      {
        assert after[k] == rows[k] && DepsIn(after[k], names);
      }
    }
    if SaveAdmissible(rows, id, row) {
      forall k | k in after && Active(after[k].status)
        ensures DepsIn(after[k], names)
      {
        if k != id { OthersStillGated(rows, id, row, k); }
      }
    }
  }

  lemma OthersStillGated(rows: Rows, id: nat, row: Task, k: nat)
    requires Gated(rows) && id in rows && SameTask(rows[id], row) && SaveAdmissible(rows, id, row)
    requires k in rows && k != id && Active(rows[k].status)
    ensures DepsIn(rows[k], DeployedNames(rows[id := row]))
  {
    SavedNames(rows, id, row);
    forall d | d in rows[k].dependsOn
      ensures d in DeployedNames(rows[id := row])
    {
      assert DepsIn(rows[k], DeployedNames(rows));
      var q :| q in rows && rows[q].status == Deployed && rows[q].component == d;
      if q != id { assert q in Without(rows, id); }
    }
  }

  lemma NamesSplit(rows: Rows, id: nat)
    requires id in rows
    ensures DeployedNames(rows) ==
            DeployedNames(Without(rows, id)) + if rows[id].status == Deployed then {rows[id].component} else {}
  {
    SavedNames(rows, id, rows[id]);
    assert rows[id := rows[id]] == rows;
  }

  /** Saving a row whose status is still the current one is admissible. */
  lemma CurrentSaveAdmissible(rows: Rows, id: nat, row: Task)
    requires Gated(rows) && id in rows && SameTask(rows[id], row) && row.status == rows[id].status
    ensures SaveAdmissible(rows, id, row)
  {
    NamesSplit(rows, id);
  }

  /**
    Saving what was read in an earlier gated state is admissible unless it takes back a
    deployment, as long as the components deployed then are still deployed.
  */
  lemma LateSaveAdmissible(before: Rows, rows: Rows, id: nat, row: Task)
    requires Gated(before) && id in before && id in rows && SameTask(rows[id], row)
    requires SavedFrom(before[id], row) && DeployedNames(before) <= DeployedNames(rows)
    requires rows[id].status == Deployed ==> row.status == Deployed
    ensures SaveAdmissible(rows, id, row)
  {
    NamesSplit(rows, id);
    if Active(row.status) {
      SavedActive(before[id], row);
      assert DepsIn(before[id], DeployedNames(before));
    }
  }

  lemma SavedActive(t: Task, row: Task)
    requires SavedFrom(t, row) && Active(row.status)
    ensures row == t
  {
  }

  // ---- Runs ------------------------------------------------------------------

  ghost predicate Admissible(s: State, step: Step) {
    && (step.Retry? && step.id in s.rows ==> RetryAdmissible(s.rows, step.id))
    && (step.SaveRow? && step.id in s.rows ==> SaveAdmissible(s.rows, step.id, step.row))
  }

  ghost predicate AdmissibleRun(s: State, steps: seq<Step>)
    requires PossibleRun(s, steps)
    decreases steps
  {
    steps == [] || (Admissible(s, steps[0]) && AdmissibleRun(Apply(s, steps[0]), steps[1..]))
  }

  lemma StepKeepsGated(s: State, step: Step)
    requires Possible(s, step) && Admissible(s, step) && Gated(s.rows)
    ensures Gated(Apply(s, step).rows)
  {
    if step.Retry? {
      if step.id in s.rows {
        RetryGatedIff(s.rows, step.id);
        assert Apply(s, step).rows == RetriedRows(s.rows, step.id, step.response);
      }
    } else if step.SaveRow? {
      SaveGatedIff(s.rows, step.id, step.row);
    } else {
      StepIsGentle(s, step);
      GentleKeeps(s.rows, Apply(s, step).rows);
    }
  }

  lemma StepIsGentle(s: State, step: Step)
    requires Possible(s, step) && !step.Retry? && !step.SaveRow?
    ensures Gentle(s.rows, Apply(s, step).rows)
  {
    match step
    case DispatchPass(order, rs) => PassStepGentle(s, order, rs);
    case Lifecycle(id, event) => if id in s.rows { EventGentle(s.rows[id], event, DeployedNames(s.rows)); }
    case Cascade(event) =>
      forall id | id in s.rows
        ensures GentleRow(s.rows[id], WithEvent(s.rows[id], event), DeployedNames(s.rows))
      {
        EventGentle(s.rows[id], event, DeployedNames(s.rows));
      }
    case _ =>
  }

  lemma EventGentle(t: Task, event: Event, names: set<string>)
    requires event != DispatchSuccess && event != OperatorRetry
    ensures GentleRow(t, WithEvent(t, event), names)
  {
  }

  lemma PassStepGentle(s: State, order: seq<nat>, rs: seq<Response>)
    requires Listing(s.rows, order) && |rs| == |order|
    ensures Gentle(s.rows, PassStep(s, order, rs).rows)
  {
    var index := StatusIndex(s.rows, order);
    forall n | n in index && index[n] == Deployed
      ensures n in DeployedNames(s.rows)
    {
      IndexDeployed(s.rows, order, n);
    }
    forall id | id in s.rows
      ensures GentleRow(s.rows[id], PassRows(s, index, order, rs).rows[id], DeployedNames(s.rows))
    {
      var i :| 0 <= i < |order| && order[i] == id;
      PassRowAt(s, index, order, rs, i);
      PassTaskGentle(s.rows[id], index, rs[i], DeployedNames(s.rows));
    }
  }

  /** Gating safety: it holds after any run whose retries and saves are admissible. */
  lemma {:induction false} GatedInEveryRun(s: State, steps: seq<Step>)
    requires Gated(s.rows) && PossibleRun(s, steps) && AdmissibleRun(s, steps)
    ensures Gated(After(s, steps).rows)
    decreases steps
  {
    if steps != [] {
      StepKeepsGated(s, steps[0]);
      GatedInEveryRun(Apply(s, steps[0]), steps[1..]);
    }
  }

  /** In particular when every retry comes from `verification_failed` and every save works on a current reading. */
  predicate Intended(s: State, step: Step) {
    && (step.Retry? && step.id in s.rows ==> s.rows[step.id].status == VerificationFailed)
    && (step.SaveRow? && step.id in s.rows ==> UpToDate(s.rows[step.id], step.row))
  }

  /** The saved status is the current one, or what a cascade or a reconciliation makes of it. */
  predicate UpToDate(t: Task, row: Task) {
    row.status == t.status || SavedFrom(t, row)
  }

  ghost predicate IntendedRun(s: State, steps: seq<Step>)
    requires PossibleRun(s, steps)
    decreases steps
  {
    steps == [] || (Intended(s, steps[0]) && IntendedRun(Apply(s, steps[0]), steps[1..]))
  }

  lemma UpToDateSave(rows: Rows, id: nat, row: Task)
    requires Gated(rows) && id in rows && SameTask(rows[id], row) && UpToDate(rows[id], row)
    ensures SaveAdmissible(rows, id, row) && (rows[id].status == Deployed ==> row.status == Deployed)
  {
    if row.status == rows[id].status {
      CurrentSaveAdmissible(rows, id, row);
    } else {
      LateSaveAdmissible(rows, rows, id, row);
    }
  }

  lemma IntendedStep(s: State, step: Step)
    requires Gated(s.rows) && Possible(s, step) && Intended(s, step)
    ensures Gated(Apply(s, step).rows)
    ensures forall id :: id in s.rows && s.rows[id].status == Deployed ==>
              id in Apply(s, step).rows && Apply(s, step).rows[id].status == Deployed
  {
    if step.Retry? {
      if step.id in s.rows { VerificationFailedAdmissible(s.rows, step.id); }
    } else if step.SaveRow? {
      UpToDateSave(s.rows, step.id, step.row);
    } else {
      StepIsGentle(s, step);
    }
    StepKeepsGated(s, step);
  }

  /** The intended protocol from a gated table: gated for ever, and deployed rows stay deployed. */
  lemma {:induction false} IntendedRunIsGated(s: State, steps: seq<Step>)
    requires Gated(s.rows) && PossibleRun(s, steps) && IntendedRun(s, steps)
    ensures Gated(After(s, steps).rows)
    ensures forall id :: id in s.rows && s.rows[id].status == Deployed ==>
              id in After(s, steps).rows && After(s, steps).rows[id].status == Deployed
    decreases steps
  {
    if steps != [] {
      IntendedStep(s, steps[0]);
      IntendedRunIsGated(Apply(s, steps[0]), steps[1..]);
    }
  }

  function StrayBatch(): Rows {
    map[0 := Task("db", [], Pending, true, None, None, ""), 1 := Task("api", ["db"], Pending, true, None, None, "")]
  }

  /** Without the condition gating fails: two fresh tasks, and a retry of the one that waits for the other. */
  lemma RetryCanBreakGating()
    ensures var start, steps := State(map[], []), [NewBatch(StrayBatch()), Retry(1, ALL_OK)];
            && PossibleRun(start, steps)
            && !Gated(After(start, steps).rows)
            && After(start, steps).runs == [1]
  {
    var start, steps := State(map[], []), [NewBatch(StrayBatch()), Retry(1, ALL_OK)];
    var middle := State(StrayBatch(), []);
    assert Apply(start, steps[0]) == middle by {
      assert start.rows + StrayBatch() == StrayBatch();
    }
    assert steps[1..] == [Retry(1, ALL_OK)];
    OneStep(middle, Retry(1, ALL_OK));
    StrayRetry();
  }

  lemma {:induction false} OneStep(s: State, step: Step)
    requires Possible(s, step)
    ensures PossibleRun(s, [step]) && After(s, [step]) == Apply(s, step)
  {
    assert [step][1..] == [];
    assert PossibleRun(Apply(s, step), []);
  }

  lemma StrayRetry()
    ensures Apply(State(StrayBatch(), []), Retry(1, ALL_OK)).runs == [1]
    ensures !Gated(Apply(State(StrayBatch(), []), Retry(1, ALL_OK)).rows)
  {
    var end := Apply(State(StrayBatch(), []), Retry(1, ALL_OK)).rows;
    assert end[1].status == InProgress && end[1].dependsOn[0] == "db";
    assert "db" !in DeployedNames(end);
  }

  // ---- A late save that breaks gating --------------------------------------------

  function Db(status: Status): Task {
    Task("db", [], status, true, Some(0), None, "")
  }

  function Api(status: Status): Task {
    Task("api", ["db"], status, true, None, None, "")
  }

  /** The build of db succeeds, a pass starts api, and a writer that read db while it was building saves it. */
  function LateSaveRun(): seq<Step> {
    [Lifecycle(0, BuildSucceeded)] + ([DispatchPass([0, 1], [ALL_OK, ALL_OK])] + [SaveRow(0, Db(Building))])
  }

  lemma {:induction false} BothIndexed(rows: Rows)
    requires rows == map[0 := Db(Deployed), 1 := Api(OnHold)]
    ensures StatusIndex(rows, [0, 1]) == map["db" := Deployed, "api" := OnHold]
  {
    var order := [0, 1];
    assert order[..1] == [0] && [0][..0] == [];
    assert StatusIndex(rows, [0]) == map["db" := Deployed];
  }

  /** A failed row of an earlier batch holds nobody back once a later row of its component is deployed. */
  lemma {:induction false} LaterRowCounts(rows: Rows, order: seq<nat>)
    requires rows == map[0 := Db(Failed), 1 := Db(Deployed), 2 := Api(OnHold)] && order == [0, 1, 2]
    ensures GateOpen(rows, order, rows[2])
    ensures DepsAllDeployed(Api(OnHold), StatusIndex(rows, order))
  {
    assert LastOf(rows, order, 1, "db");
    GateIff(rows, order, rows[2]);
  }

  lemma LateSaveStates(s1: State, s2: State)
    requires s1 == State(map[0 := Db(Deployed), 1 := Api(OnHold)], []) && s2 == PassStep(s1, [0, 1], [ALL_OK, ALL_OK])
    ensures Listing(s1.rows, [0, 1])
    ensures s2.rows.Keys == {0, 1} && s2.rows[0] == Db(Deployed)
    ensures s2.rows[1].status == InProgress && SameTask(Api(OnHold), s2.rows[1])
  {
    BothIndexed(s1.rows);
    var index := StatusIndex(s1.rows, [0, 1]);
    PassRowAt(s1, index, [0, 1], [ALL_OK, ALL_OK], 0);
    PassRowAt(s1, index, [0, 1], [ALL_OK, ALL_OK], 1);
  }

  lemma {:induction false} ThreeSteps(s: State, s1: State, s2: State, a: Step, b: Step, c: Step)
    requires Possible(s, a) && Apply(s, a) == s1 && Possible(s1, b) && Apply(s1, b) == s2 && Possible(s2, c)
    ensures PossibleRun(s, [a] + ([b] + [c])) && After(s, [a] + ([b] + [c])) == Apply(s2, c)
  {
    OneStep(s2, c);
    RunCons(s1, b, [c]);
    RunCons(s, a, [b] + [c]);
  }

  lemma {:induction false} LateSaveEnd(s: State, s1: State, s2: State)
    requires s == State(map[0 := Db(Building), 1 := Api(OnHold)], [])
    requires s1 == State(map[0 := Db(Deployed), 1 := Api(OnHold)], []) && s2 == PassStep(s1, [0, 1], [ALL_OK, ALL_OK])
    ensures PossibleRun(s, LateSaveRun())
    ensures var end := After(s, LateSaveRun()).rows;
            end.Keys == {0, 1} && end[0] == Db(Building) && end[1].status == InProgress && SameTask(Api(OnHold), end[1])
  {
    LateSaveStates(s1, s2);
    var event, pass, save :=
      Lifecycle(0, BuildSucceeded), DispatchPass([0, 1], [ALL_OK, ALL_OK]), SaveRow(0, Db(Building));
    BuildDeploys(s, s1);
    ThreeSteps(s, s1, s2, event, pass, save);
  }

  lemma BuildDeploys(s: State, s1: State)
    requires s == State(map[0 := Db(Building), 1 := Api(OnHold)], [])
    requires s1 == State(map[0 := Db(Deployed), 1 := Api(OnHold)], [])
    ensures Apply(s, Lifecycle(0, BuildSucceeded)) == s1
  {
    assert WithEvent(Db(Building), BuildSucceeded) == Db(Deployed);
  }

  lemma NotGatedAlone(rows: Rows)
    requires rows.Keys == {0, 1} && rows[0] == Db(Building) && rows[1].status == InProgress &&
      SameTask(Api(OnHold), rows[1])
    ensures !Gated(rows)
  {
    assert rows[1].dependsOn[0] == "db";
    assert "db" !in DeployedNames(rows);
  }

  lemma {:induction false} LateSaveRead(s: State, steps: seq<Step>)
    requires PossibleRun(s, steps) && |steps| == 3 && 0 in s.rows && steps[2] == SaveRow(0, s.rows[0])
    requires forall i :: 0 <= i < 2 ==> !steps[i].SaveRow?
    ensures FromReadings(s, steps)
  {
    assert ReadAt(s, steps, 0, 0, s.rows[0]);
  }

  lemma {:induction false} LateSaveStart(s: State)
    requires s == State(map[0 := Db(Building), 1 := Api(OnHold)], [])
    ensures Gated(s.rows) && PossibleRun(s, LateSaveRun()) && !Gated(After(s, LateSaveRun()).rows)
  {
    var s1 := State(map[0 := Db(Deployed), 1 := Api(OnHold)], []);
    LateSaveEnd(s, s1, PassStep(s1, [0, 1], [ALL_OK, ALL_OK]));
    NotGatedAlone(After(s, LateSaveRun()).rows);
  }

  predicate RetryFree(steps: seq<Step>) {
    forall i :: 0 <= i < |steps| ==> !steps[i].Retry?
  }

  /** From a gated table, every saved row read in the run and no step a retry, gating is lost. */
  lemma {:induction false} LateSaveBreaksGating(s: State, steps: seq<Step>)
    requires s == State(map[0 := Db(Building), 1 := Api(OnHold)], []) && steps == LateSaveRun()
    ensures Gated(s.rows) && PossibleRun(s, steps) && FromReadings(s, steps) && RetryFree(steps)
    ensures !Gated(After(s, steps).rows)
  {
    LateSaveStart(s);
    LateSaveRead(s, steps);
  }
}
