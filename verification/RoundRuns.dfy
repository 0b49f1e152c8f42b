/** The rounds of `SchedulerProgress` as runs of the scheduler's own steps. */
module RoundRuns {
  import opened Wrappers
  import opened TaskLifecycle
  import opened Scheduler
  import opened SchedulerProgress

  /** The steps can be taken and lead from one state to the other. */
  ghost predicate Leads(s: State, steps: seq<Step>, s': State) {
    PossibleRun(s, steps) && After(s, steps) == s'
  }

  lemma {:induction false} LeadsOn(s: State, a: seq<Step>, middle: State, b: seq<Step>, s': State)
    requires Leads(s, a, middle) && Leads(middle, b, s')
    ensures Leads(s, a + b, s')
    decreases a
  {
    if a == [] {
      assert a + b == b;
    } else {
      assert (a + b)[1..] == a[1..] + b;
      LeadsOn(Apply(s, a[0]), a[1..], middle, b, s');
    }
  }

  /** Lifecycle events of one task, in order. */
  function EventSteps(id: nat, events: seq<Event>): seq<Step> {
    if events == [] then [] else [Lifecycle(id, events[0])] + EventSteps(id, events[1..])
  }

  predicate External(events: seq<Event>) {
    events == [] || (events[0] != DispatchSuccess && events[0] != OperatorRetry && External(events[1..]))
  }

  lemma {:induction false} EventsRun(s: State, id: nat, events: seq<Event>, s': State)
    requires id in s.rows && External(events)
    requires s' == s.(rows := s.rows[id := s.rows[id].(status := StatusAfter(s.rows[id].status, events))])
    ensures Leads(s, EventSteps(id, events), s')
    decreases events
  {
    if events == [] {
      assert s.rows[id := s.rows[id]] == s.rows;
    } else {
      var s1 := Apply(s, Lifecycle(id, events[0]));
      assert s1.rows[id := s'.rows[id]] == s'.rows;
      EventsRun(s1, id, events[1..], s');
      RunCons(s, Lifecycle(id, events[0]), EventSteps(id, events[1..]));
    }
  }

  lemma {:induction false} DeliveryExternal(k: nat)
    requires k <= 4
    ensures External(Delivery(k))
  {
    if k > 0 {
      DeliveryExternal(k - 1);
      assert Delivery(k)[1..] == Delivery(k - 1);
    }
  }

  /** The review, merge, push and build of one started task. */
  function DeliverySteps(t: Task, id: nat): seq<Step> {
    if t.status == InProgress then EventSteps(id, Delivery(4)) else []
  }

  lemma DeliveryRun(s: State, id: nat, s': State)
    requires id in s.rows && s' == s.(rows := s.rows[id := DeliveredRow(s.rows[id])])
    ensures Leads(s, DeliverySteps(s.rows[id], id), s')
  {
    if s.rows[id].status == InProgress {
      DeliveryDeploys(4);
      DeliveryExternal(4);
      EventsRun(s, id, Delivery(4), s');
    } else {
      assert s.rows[id := s.rows[id]] == s.rows;
    }
  }

  /** The deliveries of a list of tasks, one after the other. */
  function DeliverAll(rows: Rows, order: seq<nat>): seq<Step>
    requires forall id :: id in order ==> id in rows
  {
    if order == [] then []
    else
      var n := |order| - 1;
      DeliverAll(rows, order[..n]) + DeliverySteps(rows[order[n]], order[n])
  }

  ghost function DeliveredOf(rows: Rows, ids: seq<nat>): Rows {
    map id | id in rows :: if id in ids then DeliveredRow(rows[id]) else rows[id]
  }

  lemma DeliveredMore(rows: Rows, ids: seq<nat>, id: nat)
    requires id in rows && id !in ids
    ensures DeliveredOf(rows, ids)[id] == rows[id]
    ensures DeliveredOf(rows, ids + [id]) == DeliveredOf(rows, ids)[id := DeliveredRow(rows[id])]
  {
  }

  lemma {:induction false} DeliveriesRun(s: State, order: seq<nat>)
    requires (forall id :: id in order ==> id in s.rows) && forall i, j :: 0 <= i < j < |order| ==> order[i] != order[j]
    ensures Leads(s, DeliverAll(s.rows, order), s.(rows := DeliveredOf(s.rows, order)))
  {
    if order == [] {
      assert DeliveredOf(s.rows, []) == s.rows;
    } else {
      var n := |order| - 1;
      var middle := s.(rows := DeliveredOf(s.rows, order[..n]));
      DeliveriesRun(s, order[..n]);
      assert order == order[..n] + [order[n]];
      DeliveredMore(s.rows, order[..n], order[n]);
      DeliveryRun(middle, order[n], s.(rows := DeliveredOf(s.rows, order)));
      LeadsOn(s, DeliverAll(s.rows, order[..n]), middle, DeliverySteps(s.rows[order[n]], order[n]),
              s.(rows := DeliveredOf(s.rows, order)));
    }
  }

  /** A pass, and the events that deliver what is in progress after it. */
  ghost function RoundSteps(s: State, order: seq<nat>, rs: seq<Response>): seq<Step>
    requires Possible(s, DispatchPass(order, rs))
  {
    [DispatchPass(order, rs)] + DeliverAll(PassStep(s, order, rs).rows, order)
  }

  /** A round is a run of one pass and lifecycle events. */
  lemma RoundIsRun(s: State, order: seq<nat>, rs: seq<Response>)
    requires Possible(s, DispatchPass(order, rs))
    ensures Leads(s, RoundSteps(s, order, rs), Round(s, order, rs))
  {
    var s1 := PassStep(s, order, rs);
    DeliveriesRun(s1, order);
    assert DeliveredOf(s1.rows, order) == Delivered(s1.rows);
    RunCons(s, DispatchPass(order, rs), DeliverAll(s1.rows, order));
  }

  /** So what the rounds of a trajectory reach, the scheduler reaches by steps it can take. */
  lemma {:induction false} TrajectoryIsRun(states: seq<State>, order: seq<nat>, rounds: seq<seq<Response>>, k: nat)
    returns (steps: seq<Step>)
    requires Trajectory(states, order, rounds) && k < |states|
    ensures Leads(states[0], steps, states[k])
  {
    steps := [];
    if k > 0 {
      var before := TrajectoryIsRun(states, order, rounds, k - 1);
      TrajectoryNext(states, order, rounds, k - 1);
      steps := OneMoreRound(states[0], before, states[k - 1], order, rounds[k - 1], states[k]);
    }
  }

  lemma OneMoreRound(first: State, before: seq<Step>, s: State, order: seq<nat>, rs: seq<Response>, next: State)
    returns (steps: seq<Step>)
    requires Leads(first, before, s) && Possible(s, DispatchPass(order, rs)) && next == Round(s, order, rs)
    ensures Leads(first, steps, next)
  {
    RoundIsRun(s, order, rs);
    LeadsOn(first, before, s, RoundSteps(s, order, rs), next);
    steps := before + RoundSteps(s, order, rs);
  }
}
