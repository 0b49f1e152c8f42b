/** The services that write the task table, method by method, proved against the steps of `Scheduler`. */
module DispatchService {
  import opened Wrappers
  import opened TaskLifecycle
  import opened Scheduler
  import Design

  class TaskService {
    var rows: Rows
    var runs: seq<nat>

    constructor ()
      ensures Current() == State(map[], [])
    {
      rows, runs := map[], [];
    }

    ghost function Current(): State
      reads this
    {
      State(rows, runs)
    }

    method MarkFailed(id: nat, task: Task)
      modifies `rows
      ensures rows == old(rows)[id := task.(status := Failed)]
    {
      rows := rows[id := task.(status := Failed)];
    }

    /** Drives one task to a started agent run, a deferral or a failure, whatever its status. */
    method DispatchOne(id: nat, row: Task, r: Response) returns (started: bool)
      modifies this
      ensures rows == old(rows)[id := Dispatched(row, r).0] && started == Dispatched(row, r).1
      ensures runs == if started then old(runs) + [id] else old(runs)
      ensures started <==> OutcomeOf(row, r) == Launched
      ensures rows[id].status ==
        match OutcomeOf(row, r) case Launched => InProgress case Deferred => OnHold case GivenUp => Failed
    {
      DispatchedRow(row, r);
      var task := row;
      if !task.hasIssue || !r.componentReady || !r.bearerIssued || !r.workflowsConfigured {
        MarkFailed(id, task);
        return false;
      }
      if |task.dependsOn| > 0 && !r.endpointsResolved {
        if task.deferredAt.Some? && r.checkAt - task.deferredAt.value > DEFER_DEADLINE {
          MarkFailed(id, task);
          return false;
        }
        if task.deferredAt.None? {
          task := task.(deferredAt := Some(r.stampAt));
        }
        task := task.(status := OnHold);
        rows := rows[id := task];
        return false;
      }
      task := task.(deferredAt := None);
      if !r.agentKeyReady {
        MarkFailed(id, task);
        return false;
      }
      if !r.triggered {
        MarkFailed(id, task);
        return false;
      }
      runs := runs + [id];
      task := task.(dispatchedAt := Some(r.triggeredAt), lastRun := r.runName, status := InProgress);
      rows := rows[id := task];
      return true;
    }

    /** The readiness index, built once per pass. */
    method BuildIndex(order: seq<nat>) returns (index: map<string, Status>)
      requires forall id :: id in order ==> id in rows
      ensures forall n :: n in index <==> exists i :: 0 <= i < |order| && rows[order[i]].component == n
      ensures forall i :: 0 <= i < |order| && NoLater(rows, order, i) ==>
        rows[order[i]].component in index && index[rows[order[i]].component] == rows[order[i]].status
      ensures index == StatusIndex(rows, order)
    {
      index := map[];
      for i := 0 to |order|
        invariant index == StatusIndex(rows, order[..i])
      {
        assert order[..i + 1][..i] == order[..i];
        index := index[rows[order[i]].component := rows[order[i]].status];
      }
      assert order[..|order|] == order;
      IndexOfListing(rows, order);
    }

    method CheckDeps(t: Task, index: map<string, Status>) returns (ok: bool)
      ensures ok == DepsAllDeployed(t, index)
    {
      for i := 0 to |t.dependsOn|
        invariant forall k :: 0 <= k < i ==> t.dependsOn[k] in index && index[t.dependsOn[k]] == Deployed
      {
        if t.dependsOn[i] !in index || index[t.dependsOn[i]] != Deployed {
          return false;
        }
      }
      return true;
    }

    /** The body of the dispatch loop: release, gate, dispatch. */
    method DispatchRow(id: nat, row: Task, index: map<string, Status>, r: Response)
      requires id in rows && rows[id] == row
      modifies this
      ensures Current() == PassRow(old(Current()), index, id, r)
    {
      var task := row;
      assert rows == rows[id := task];
      if task.status == OnHold {
        var released := CheckDeps(task, index);
        if !released {
          return;
        }
        task := task.(status := Pending);
        rows := rows[id := task];
      }
      if task.status != Pending {
        return;
      }
      var ready := CheckDeps(task, index);
      if !ready {
        task := task.(status := OnHold);
        rows := rows[id := task];
        return;
      }
      var _ := DispatchOne(id, task, r);
    }

    /** One dispatch pass over a listing of the table. */
    method DispatchTasks(order: seq<nat>, responses: seq<Response>)
      requires Listing(rows, order) && |responses| == |order|
      modifies this
      ensures Current() == PassStep(old(Current()), order, responses)
      ensures forall i :: 0 <= i < |order| ==>
        PassedGate(old(rows)[order[i]], rows[order[i]], GateOpen(old(rows), order, old(rows)[order[i]]), responses[i])
    {
      var tasks := rows;
      var index := BuildIndex(order);
      ghost var start := Current();
      for i := 0 to |order|
        invariant Current() == PassRows(start, index, order[..i], responses[..i])
      {
        PassRowsNext(start, index, order, responses, i);
        DispatchRow(order[i], tasks[order[i]], index, responses[i]);
      }
      assert order[..|order|] == order && responses[..|order|] == responses;
      PassGates(start, order, responses);
    }

    /** The projector: a refused event is logged and swallowed. */
    method ApplyEvent(id: nat, event: Event) returns (found: bool)
      modifies `rows
      ensures found == (id in old(rows))
      ensures Current() == LifecycleStep(old(Current()), id, event)
    {
      if id !in rows {
        return false;
      }
      var next := ApplyTaskEvent(rows[id].status, event);
      if next.Ok? {
        rows := rows[id := rows[id].(status := next.value)];
      } else {
        assert rows == rows[id := rows[id]];
      }
      return true;
    }

    /** Operator retry: the event, cleared idempotency fields, and a fresh dispatch. */
    method RetryTask(id: nat, r: Response)
      modifies this
      ensures Current() == RetryStep(old(Current()), id, r)
    {
      var found := ApplyEvent(id, OperatorRetry);
      if !found {
        return;
      }
      var task := rows[id].(dispatchedAt := None, lastRun := "");
      SaveTask(id, task);
      if !r.lookupsOk {
        return;
      }
      var _ := DispatchOne(id, task, r);
    }

    /** Saves a whole row as it was read, with its body or status changed. */
    method SaveTask(id: nat, row: Task)
      requires id in rows && SameTask(rows[id], row)
      modifies `rows
      ensures Possible(old(Current()), SaveRow(id, row)) && Current() == Apply(old(Current()), SaveRow(id, row))
    {
      rows := rows[id := row];
    }

    /**
      The cascade loops of an organisation disconnect and of a repository leaving the
      installation: they save the rows they listed, which the table may have left behind.
    */
    method CascadeAll(order: seq<nat>, listed: Rows, event: Event) returns (ghost steps: seq<Step>)
      requires (forall id :: id in order ==> id in listed) && StillThere(listed, rows)
      requires event == OrgDisconnected || event == RepoUnselected
      modifies `rows
      ensures SavesOf(old(Current()), steps, Current(), listed)
      ensures SavedOver(old(rows), rows, order, listed, CascadeRows(listed, event))
      ensures forall id :: id in rows && id in order && listed[id].status in {Pending, InProgress, ReadyForReview} ==>
        rows[id] == listed[id].(status := Abandoned)
      ensures forall id ::
        id in rows && (id in order ==> listed[id].status !in {Pending, InProgress, ReadyForReview}) ==>
          rows[id] == old(rows)[id]
      ensures Listing(old(rows), order) && listed == old(rows) ==> Current() == CascadeStep(old(Current()), event)
    {
      steps := [];
      ghost var start, changed := Current(), CascadeRows(listed, event);
      assert Saved(start, steps, Current(), order, 0, listed, changed);
      for i := 0 to |order|
        invariant Saved(start, steps, Current(), order, i, listed, changed)
      {
        var t := listed[order[i]];
        var next := ApplyTaskEvent(t.status, event);
        EventSaved(t, event, next);
        if next.Err? {
          SavedSkip(start, steps, Current(), order, i, listed, changed);
          continue;
        }
        var row := t.(status := next.value);
        SavedNext(start, steps, Current(), order, i, listed, changed);
        steps := steps + [SaveRow(order[i], row)];
        SaveTask(order[i], row);
      }
      assert order[..|order|] == order;
      if Listing(start.rows, order) && listed == start.rows {
        SavedOverCurrent(start.rows, rows, order, changed);
      }
      CascadeSaves(start.rows, rows, order, listed, event);
    }

    /** Rejects pending tasks of components that left the design, saving the rows it listed. */
    method ReconcilePending(order: seq<nat>, listed: Rows, design: seq<Design.Component>)
      returns (ghost steps: seq<Step>)
      requires (forall id :: id in order ==> id in listed) && StillThere(listed, rows)
      modifies `rows
      ensures SavesOf(old(Current()), steps, Current(), listed)
      ensures SavedOver(old(rows), rows, order, listed, ReconciledRows(listed, Design.Keys(design)))
      ensures forall id :: id in rows && id in order && Orphaned(listed[id], design) ==>
        rows[id] == listed[id].(status := Rejected)
      ensures forall id :: id in rows && !(id in order && Orphaned(listed[id], design)) ==> rows[id] == old(rows)[id]
      ensures Listing(old(rows), order) && listed == old(rows) ==>
        Current() == ReconcileStep(old(Current()), Design.Keys(design))
    {
      steps := [];
      var current := set c | c in design :: Design.Lower(c.name);
      assert current == Design.Keys(design);
      ghost var start, changed := Current(), ReconciledRows(listed, Design.Keys(design));
      for i := 0 to |order|
        invariant Saved(start, steps, Current(), order, i, listed, changed)
      {
        var t := listed[order[i]];
        if t.status != Pending || Design.Lower(t.component) in current {
          SavedSkip(start, steps, Current(), order, i, listed, changed);
          continue;
        }
        var row := t.(status := Rejected);
        SavedNext(start, steps, Current(), order, i, listed, changed);
        steps := steps + [SaveRow(order[i], row)];
        SaveTask(order[i], row);
      }
      assert order[..|order|] == order;
      if Listing(start.rows, order) && listed == start.rows {
        SavedOverCurrent(start.rows, rows, order, changed);
      }
      ReconcileSaves(start.rows, rows, order, listed, design);
    }

    /** The build of a task was created; only a merged task starts building. */
    method MarkBuilding(id: nat)
      modifies `rows
      ensures Current() == BuildingStep(old(Current()), id)
      ensures id in old(rows) && old(rows)[id].status == Merged ==>
        rows == old(rows)[id := old(rows)[id].(status := Building)]
      ensures id !in old(rows) || old(rows)[id].status != Merged ==> rows == old(rows)
    {
      if id in rows && rows[id].status == Merged {
        rows := rows[id := rows[id].(status := Building)];
      }
    }

    /** Creates the rows of a plan in order, stopping at a dependency the design does not know. */
    method CreateRows(design: seq<Design.Component>, plan: seq<string>, ids: seq<nat>, ghost issued: seq<bool>)
      returns (n: nat)
      requires |plan| == |ids| == |issued|
      modifies `rows
      ensures n <= |plan| && forall i :: 0 <= i < n ==> DepsKnown(design, plan[i])
      ensures n < |plan| ==> !DepsKnown(design, plan[n])
      ensures rows == old(rows) + BatchRows(design, plan, ids, issued, n, 0)
    {
      n := 0;
      assert rows == rows + BatchRows(design, plan, ids, issued, 0, 0);
      while n < |plan|
        invariant n <= |plan| && forall i :: 0 <= i < n ==> DepsKnown(design, plan[i])
        invariant rows == old(rows) + BatchRows(design, plan, ids, issued, n, 0)
      {
        if !DepsKnown(design, plan[n]) {
          return;
        }
        rows := rows[ids[n] := PlannedRow(design, plan[n], false, Pending)];
        n := n + 1;
      }
    }

    /** Records the outcome of issue creation, row by row. */
    method SettleRows(
      design: seq<Design.Component>, plan: seq<string>, ids: seq<nat>, issued: seq<bool>, ghost before: Rows)
      requires |plan| == |ids| == |issued| && FreshIds(before, ids)
      requires rows == before + BatchRows(design, plan, ids, issued, |plan|, 0)
      modifies `rows
      ensures rows == before + BatchRows(design, plan, ids, issued, |plan|, |plan|)
    {
      for k := 0 to |plan|
        invariant rows == before + BatchRows(design, plan, ids, issued, |plan|, k)
      {
        BatchSettleRow(before, design, plan, ids, issued, k);
        rows := rows[ids[k] := SettledRow(design, plan[k], issued[k])];
      }
    }

    /**
      Persists a plan under the ids the database hands out. An unknown dependency
      stops the batch where it stands, and the rows already written stay. Otherwise
      every row ends pending, or failed when its issue could not be created.
    */
    method PersistBatch(design: seq<Design.Component>, plan: seq<string>, ids: seq<nat>, issued: seq<bool>)
      returns (ok: bool, ghost created: nat)
      requires |plan| == |ids| == |issued| && FreshIds(rows, ids)
      modifies `rows
      ensures created <= |plan| && (ok <==> created == |plan|)
      ensures ok <==> forall i :: 0 <= i < |plan| ==> DepsKnown(design, plan[i])
      ensures forall i :: 0 <= i < created ==> KnowsAll(design, plan[i])
      ensures !ok ==> !KnowsAll(design, plan[created])
      ensures var batch := BatchRows(design, plan, ids, issued, created, if ok then created else 0);
              FreshBatch(old(rows), batch) && rows == old(rows) + batch
      ensures forall i :: 0 <= i < created ==> ids[i] in rows && BatchRow(design, plan[i], ok, issued[i], rows[ids[i]])
      ensures forall id :: id in rows && (forall i :: 0 <= i < created ==> ids[i] != id) ==>
        id in old(rows) && rows[id] == old(rows)[id]
    {
      ghost var before := rows;
      forall i | 0 <= i < |plan| ensures DepsKnown(design, plan[i]) <==> KnowsAll(design, plan[i]) {
        DepsKnownIff(design, plan[i]);
      }
      var n := CreateRows(design, plan, ids, issued);
      created := n;
      ok := n == |plan|;
      if ok {
        SettleRows(design, plan, ids, issued, before);
      }
      BatchIsNew(before, design, plan, ids, issued, n, if ok then n else 0);
      BatchHas(design, plan, ids, issued, n, if ok then n else 0);
      forall i | 0 <= i < n ensures BatchRow(design, plan[i], ok, issued[i], rows[ids[i]]) {
        BatchRowIs(design, plan[i], ok, issued[i], rows[ids[i]]);
      }
    }
  }

  /**
    What a pass does to a row: a waiting row whose gate is open is dispatched, one whose gate is shut is
    on hold, and every other row stays.
  */
  predicate PassedGate(before: Task, after: Task, open: bool, r: Response) {
    if before.status != Pending && before.status != OnHold then after == before
    else if !open then after == before.(status := OnHold)
    else after == Dispatched(before.(status := Pending), r).0
  }

  lemma {:induction false} PassGate(s: State, order: seq<nat>, rs: seq<Response>, i: nat)
    requires Listing(s.rows, order) && |rs| == |order| && i < |order|
    ensures var after := PassStep(s, order, rs).rows;
            PassedGate(s.rows[order[i]], after[order[i]], GateOpen(s.rows, order, s.rows[order[i]]), rs[i])
  {
    PassRowAt(s, StatusIndex(s.rows, order), order, rs, i);
    GateIff(s.rows, order, s.rows[order[i]]);
  }

  lemma PassGates(s: State, order: seq<nat>, rs: seq<Response>)
    requires Listing(s.rows, order) && |rs| == |order|
    ensures forall i :: 0 <= i < |order| ==>
      PassedGate(s.rows[order[i]], PassStep(s, order, rs).rows[order[i]], GateOpen(s.rows, order, s.rows[order[i]]),
        rs[i])
  {
    forall i | 0 <= i < |order|
      ensures PassedGate(
        s.rows[order[i]], PassStep(s, order, rs).rows[order[i]], GateOpen(s.rows, order, s.rows[order[i]]), rs[i])
    {
      PassGate(s, order, rs, i);
    }
  }

  /** No row listed later is of the same component. */
  ghost predicate NoLater(rows: Rows, order: seq<nat>, i: nat)
    requires (forall id :: id in order ==> id in rows) && i < |order|
  {
    forall j :: i < j < |order| ==> rows[order[j]].component != rows[order[i]].component
  }

  /** The index by the listed rows themselves. */
  lemma {:induction false} IndexOfListing(rows: Rows, order: seq<nat>)
    requires forall id :: id in order ==> id in rows
    ensures forall n :: n in StatusIndex(rows, order) <==> exists i :: 0 <= i < |order| && rows[order[i]].component == n
    ensures forall i :: 0 <= i < |order| && NoLater(rows, order, i) ==>
      rows[order[i]].component in StatusIndex(rows, order)
      && StatusIndex(rows, order)[rows[order[i]].component] == rows[order[i]].status
  {
    forall n
      ensures n in StatusIndex(rows, order) <==> exists i :: 0 <= i < |order| && rows[order[i]].component == n
    {
      IndexIsLast(rows, order, n);
      if i :| 0 <= i < |order| && rows[order[i]].component == n { var k := LastRow(rows, order, i, n); }
    }
    forall i | 0 <= i < |order| && NoLater(rows, order, i)
      ensures rows[order[i]].component in StatusIndex(rows, order)
      ensures StatusIndex(rows, order)[rows[order[i]].component] == rows[order[i]].status
    {
      IndexIsLast(rows, order, rows[order[i]].component);
      assert LastOf(rows, order, i, rows[order[i]].component);
    }
  }

  /** The listed rows are still in the table, for the same components. */
  ghost predicate StillThere(listed: Rows, rows: Rows) {
    forall id :: id in listed ==> id in rows && SameTask(rows[id], listed[id])
  }

  ghost function CascadeRows(rows: Rows, event: Event): Rows {
    map id | id in rows :: WithEvent(rows[id], event)
  }

  ghost function ReconciledRows(rows: Rows, current: set<string>): Rows {
    map id | id in rows :: Reconciled(rows[id], current)
  }

  /** An event that is not refused changes the row. */
  lemma EventSaved(t: Task, event: Event, next: Result<Status, Error>)
    requires (event == OrgDisconnected || event == RepoUnselected) && next == ApplyTaskEvent(t.status, event)
    ensures next.Err? ==> WithEvent(t, event) == t
    ensures next.Ok? ==> WithEvent(t, event) == t.(status := next.value) && WithEvent(t, event) != t
    ensures SavedFrom(t, WithEvent(t, event))
  {
  }

  /** Of the listed rows exactly those that changed were saved over what the table held. */
  ghost predicate SavedOver(before: Rows, after: Rows, order: seq<nat>, listed: Rows, changed: Rows)
    requires changed.Keys == listed.Keys && forall id :: id in order ==> id in listed
  {
    && after.Keys == before.Keys
    && forall id :: id in before ==> after[id] == SavedRow(before[id], id, order, listed, changed)
  }

  function SavedRow(row: Task, id: nat, order: seq<nat>, listed: Rows, changed: Rows): Task
    requires changed.Keys == listed.Keys && forall k :: k in order ==> k in listed
  {
    if id in order && changed[id] != listed[id] then changed[id] else row
  }

  lemma SavedOverSkip(
    before: Rows, after: Rows, order: seq<nat>, i: nat, listed: Rows, changed: Rows)
    requires i < |order| && (forall id :: id in order ==> id in listed) && changed.Keys == listed.Keys
    requires SavedOver(before, after, order[..i], listed, changed) && changed[order[i]] == listed[order[i]]
    ensures SavedOver(before, after, order[..i + 1], listed, changed)
  {
    assert order[..i + 1] == order[..i] + [order[i]];
  }

  lemma SavedOverSnoc(
    before: Rows, after: Rows, order: seq<nat>, i: nat, listed: Rows, changed: Rows)
    requires i < |order| && (forall id :: id in order ==> id in listed) && changed.Keys == listed.Keys
    requires SavedOver(before, after, order[..i], listed, changed) && changed[order[i]] != listed[order[i]]
    requires order[i] in before
    ensures SavedOver(before, after[order[i] := changed[order[i]]], order[..i + 1], listed, changed)
  {
    assert order[..i + 1] == order[..i] + [order[i]];
  }

  /** The listed rows before the i-th have been dealt with. */
  ghost predicate Saved(
    start: State, steps: seq<Step>, now: State, order: seq<nat>, i: nat, listed: Rows, changed: Rows)
    requires i <= |order| && (forall id :: id in order ==> id in listed) && changed.Keys == listed.Keys
  {
    && SavesOf(start, steps, now, listed) && StillThere(listed, now.rows) && now.runs == start.runs
    && SavedOver(start.rows, now.rows, order[..i], listed, changed)
  }

  lemma SavedSkip(
    start: State, steps: seq<Step>, now: State, order: seq<nat>, i: nat, listed: Rows, changed: Rows)
    requires i < |order| && (forall id :: id in order ==> id in listed) && changed.Keys == listed.Keys
    requires Saved(start, steps, now, order, i, listed, changed) && changed[order[i]] == listed[order[i]]
    ensures Saved(start, steps, now, order, i + 1, listed, changed)
  {
    SavedOverSkip(start.rows, now.rows, order, i, listed, changed);
  }

  lemma SavedNext(
    start: State, steps: seq<Step>, now: State, order: seq<nat>, i: nat, listed: Rows, changed: Rows)
    requires i < |order| && (forall id :: id in order ==> id in listed) && changed.Keys == listed.Keys
    requires Saved(start, steps, now, order, i, listed, changed) && changed[order[i]] != listed[order[i]]
    requires SavedFrom(listed[order[i]], changed[order[i]])
    ensures var step := SaveRow(order[i], changed[order[i]]);
            Possible(now, step) && Saved(start, steps + [step], Apply(now, step), order, i + 1, listed, changed)
  {
    SavesSnoc(start, steps, now, listed, SaveRow(order[i], changed[order[i]]));
    SavedOverSnoc(start.rows, now.rows, order, i, listed, changed);
  }

  /** The loop abandons what is pending, in progress or in review, and saves nothing else. */
  lemma CascadeSaves(before: Rows, after: Rows, order: seq<nat>, listed: Rows, event: Event)
    requires (forall id :: id in order ==> id in listed) && (event == OrgDisconnected || event == RepoUnselected)
    requires SavedOver(before, after, order, listed, CascadeRows(listed, event))
    ensures forall id :: id in after && id in order && listed[id].status in {Pending, InProgress, ReadyForReview} ==>
      after[id] == listed[id].(status := Abandoned)
    ensures forall id :: id in after && !(id in order && listed[id].status in {Pending, InProgress, ReadyForReview}) ==>
      after[id] == before[id]
  {
    forall id | id in order
      ensures CascadeRows(listed, event)[id] ==
        if listed[id].status in {Pending, InProgress, ReadyForReview} then listed[id].(status := Abandoned)
          else listed[id]
    {
      AbandonedRow(listed[id], event);
    }
  }

  lemma AbandonedRow(t: Task, event: Event)
    requires event == OrgDisconnected || event == RepoUnselected
    ensures WithEvent(t, event) ==
      if t.status in {Pending, InProgress, ReadyForReview} then t.(status := Abandoned) else t
  {
  }

  /** A pending task of a component that no component of the design names, whatever the letter case. */
  predicate Orphaned(t: Task, design: seq<Design.Component>) {
    t.status == Pending && forall c :: c in design ==> Design.Lower(c.name) != Design.Lower(t.component)
  }

  lemma ReconcileSaves(before: Rows, after: Rows, order: seq<nat>, listed: Rows, design: seq<Design.Component>)
    requires forall id :: id in order ==> id in listed
    requires SavedOver(before, after, order, listed, ReconciledRows(listed, Design.Keys(design)))
    ensures forall id :: id in after && id in order && Orphaned(listed[id], design) ==>
      after[id] == listed[id].(status := Rejected)
    ensures forall id :: id in after && !(id in order && Orphaned(listed[id], design)) ==> after[id] == before[id]
  {
    forall id | id in order
      ensures ReconciledRows(listed, Design.Keys(design))[id] ==
        if Orphaned(listed[id], design) then listed[id].(status := Rejected) else listed[id]
    {
      ReconciledRow(listed[id], design);
    }
  }

  /** With nothing changed since the listing, every row ends as the listing made it. */
  lemma SavedOverCurrent(before: Rows, after: Rows, order: seq<nat>, changed: Rows)
    requires Listing(before, order) && changed.Keys == before.Keys && SavedOver(before, after, order, before, changed)
    ensures after == changed
  {
  }

  /** The steps are saves of rows read in the listing, and lead from one state to the other. */
  ghost predicate SavesOf(before: State, steps: seq<Step>, after: State, listed: Rows) {
    && PossibleRun(before, steps) && After(before, steps) == after
    && forall i :: 0 <= i < |steps| ==> SavesListed(steps[i], listed)
  }

  ghost predicate SavesListed(step: Step, listed: Rows) {
    step.SaveRow? && step.id in listed && SavedFrom(listed[step.id], step.row)
  }

  lemma SavesSnoc(before: State, steps: seq<Step>, after: State, listed: Rows, step: Step)
    requires SavesOf(before, steps, after, listed) && SavesListed(step, listed) && Possible(after, step)
    ensures SavesOf(before, steps + [step], Apply(after, step), listed)
  {
    RunSnoc(before, steps, step);
  }

  lemma {:induction false} RunSnoc(s: State, steps: seq<Step>, step: Step)
    requires PossibleRun(s, steps) && Possible(After(s, steps), step)
    ensures PossibleRun(s, steps + [step]) && After(s, steps + [step]) == Apply(After(s, steps), step)
    decreases steps
  {
    if steps == [] {
      assert [] + [step] == [step] && [step][1..] == [];
    } else {
      assert (steps + [step])[1..] == steps[1..] + [step];
      RunSnoc(Apply(s, steps[0]), steps[1..], step);
    }
  }

  ghost predicate FreshIds(rows: Rows, ids: seq<nat>) {
    && (forall i, j :: 0 <= i < j < |ids| ==> ids[i] != ids[j])
    && (forall i :: 0 <= i < |ids| ==> ids[i] !in rows)
  }

  /** The row once the creation of its issue is known to have succeeded or failed. */
  function SettledRow(design: seq<Design.Component>, name: string, issued: bool): Task {
    PlannedRow(design, name, issued, if issued then Pending else Failed)
  }

  /** The first n rows of a plan, the outcome of issue creation known for the first k of them. */
  ghost function BatchRows(
    design: seq<Design.Component>, plan: seq<string>, ids: seq<nat>, issued: seq<bool>, n: nat, k: nat): Rows
    requires |plan| == |ids| == |issued| && k <= |plan| && n <= |plan|
  {
    if n == 0 then map[]
    else BatchRows(design, plan, ids, issued, n - 1, k)
         [ids[n - 1] :=
            if n - 1 < k then SettledRow(design, plan[n - 1], issued[n - 1])
            else PlannedRow(design, plan[n - 1], false, Pending)]
  }

  /** Each dependency of the last component of this name is the name of a component, letter for letter. */
  ghost predicate KnowsAll(design: seq<Design.Component>, name: string) {
    forall j: nat :: LastNamed(design, j, name) ==> AreNames(design, design[j].dependsOn)
  }

  ghost predicate AreNames(design: seq<Design.Component>, deps: seq<string>) {
    forall d :: d in deps ==> exists c :: c in design && c.name == d
  }

  lemma DepsKnownIff(design: seq<Design.Component>, name: string)
    ensures DepsKnown(design, name) <==> KnowsAll(design, name)
  {
    if forall i :: 0 <= i < |design| ==> Design.Lower(design[i].name) != Design.Lower(name) {
      NoDepsUnnamed(design, name);
      assert forall j: nat :: !LastNamed(design, j, name);
    } else {
      var i :| 0 <= i < |design| && Design.Lower(design[i].name) == Design.Lower(name);
      var k := LastNamedFrom(design, i, name);
      forall j: nat | LastNamed(design, j, name) ensures DesignDeps(design, name) == design[j].dependsOn {
        DepsOfLast(design, name, j);
      }
    }
  }

  lemma {:induction false} LastNamedFrom(design: seq<Design.Component>, i: nat, name: string) returns (k: nat)
    requires i < |design| && Design.Lower(design[i].name) == Design.Lower(name)
    ensures LastNamed(design, k, name)
    decreases |design| - i
  {
    if j :| i < j < |design| && Design.Lower(design[j].name) == Design.Lower(name) {
      k := LastNamedFrom(design, j, name);
    } else {
      k := i;
    }
  }

  /**
    The row of a planned component: its dependencies as the design has them last, and failed only for
    want of its issue.
  */
  ghost predicate BatchRow(design: seq<Design.Component>, name: string, settled: bool, issued: bool, t: Task) {
    && t.component == name && t.dispatchedAt == None && t.deferredAt == None && t.lastRun == ""
    && (t.status == Failed <==> settled && !issued) && (t.status == Failed || t.status == Pending)
    && (t.hasIssue <==> settled && issued)
    && (forall i: nat :: LastNamed(design, i, name) ==> t.dependsOn == design[i].dependsOn)
    && ((forall i :: 0 <= i < |design| ==> Design.Lower(design[i].name) != Design.Lower(name)) ==> t.dependsOn == [])
  }

  function RowOf(design: seq<Design.Component>, name: string, settled: bool, issued: bool): Task {
    if settled then SettledRow(design, name, issued) else PlannedRow(design, name, false, Pending)
  }

  lemma BatchRowIs(design: seq<Design.Component>, name: string, settled: bool, issued: bool, t: Task)
    requires t == RowOf(design, name, settled, issued)
    ensures BatchRow(design, name, settled, issued, t)
  {
    forall i: nat | LastNamed(design, i, name) ensures t.dependsOn == design[i].dependsOn {
      DepsOfLast(design, name, i); }
    if forall i :: 0 <= i < |design| ==>
      Design.Lower(design[i].name) != Design.Lower(name) { NoDepsUnnamed(design, name); }
  }

  lemma {:induction false} BatchHas(
    design: seq<Design.Component>, plan: seq<string>, ids: seq<nat>, issued: seq<bool>, n: nat, k: nat)
    requires |plan| == |ids| == |issued| && k <= |plan| && n <= |plan| && (k == 0 || k == n)
    requires forall i, j :: 0 <= i < j < |ids| ==> ids[i] != ids[j]
    ensures var batch := BatchRows(design, plan, ids, issued, n, k);
            && (forall i :: 0 <= i < n ==>
                  ids[i] in batch && batch[ids[i]] == RowOf(design, plan[i], k > 0, issued[i]))
            && (forall id :: id in batch ==> exists i :: 0 <= i < n && ids[i] == id)
  {
    BatchAt(design, plan, ids, issued, n, k);
  }

  lemma {:induction false} BatchAt(
    design: seq<Design.Component>, plan: seq<string>, ids: seq<nat>, issued: seq<bool>, n: nat, k: nat)
    requires |plan| == |ids| == |issued| && k <= |plan| && n <= |plan|
    requires forall i, j :: 0 <= i < j < |ids| ==> ids[i] != ids[j]
    ensures var batch := BatchRows(design, plan, ids, issued, n, k);
            && (forall i :: 0 <= i < n ==>
                  ids[i] in batch && batch[ids[i]] == RowOf(design, plan[i], i < k, issued[i]))
            && (forall id :: id in batch ==> exists i :: 0 <= i < n && ids[i] == id)
  {
    if n > 0 { BatchAt(design, plan, ids, issued, n - 1, k); }
  }

  lemma {:induction false} BatchSettle(
    design: seq<Design.Component>, plan: seq<string>, ids: seq<nat>, issued: seq<bool>, n: nat, k: nat)
    requires |plan| == |ids| == |issued| && k < |plan| && n <= |plan|
    requires forall i, j :: 0 <= i < j < |ids| ==> ids[i] != ids[j]
    ensures BatchRows(design, plan, ids, issued, n, k + 1) ==
            if n <= k then BatchRows(design, plan, ids, issued, n, k)
            else BatchRows(design, plan, ids, issued, n, k)
                 [ids[k] := SettledRow(design, plan[k], issued[k])]
  {
    if n > 0 {
      BatchSettle(design, plan, ids, issued, n - 1, k);
    }
  }

  lemma BatchSettleRow(
    before: Rows, design: seq<Design.Component>, plan: seq<string>, ids: seq<nat>, issued: seq<bool>, k: nat)
    requires |plan| == |ids| == |issued| && k < |plan| && FreshIds(before, ids)
    ensures before + BatchRows(design, plan, ids, issued, |plan|, k + 1)
         == (before + BatchRows(design, plan, ids, issued, |plan|, k))
            [ids[k] := SettledRow(design, plan[k], issued[k])]
  {
    BatchSettle(design, plan, ids, issued, |plan|, k);
  }

  lemma {:induction false} BatchIsNew(
    before: Rows, design: seq<Design.Component>, plan: seq<string>, ids: seq<nat>, issued: seq<bool>, n: nat, k: nat)
    requires |plan| == |ids| == |issued| && k <= |plan| && n <= |plan|
    requires forall i :: 0 <= i < |ids| ==> ids[i] !in before
    ensures var batch := BatchRows(design, plan, ids, issued, n, k);
            batch.Keys !! before.Keys && forall id :: id in batch ==> NewRow(batch[id])
  {
    if n > 0 {
      BatchIsNew(before, design, plan, ids, issued, n - 1, k);
    }
  }
}
