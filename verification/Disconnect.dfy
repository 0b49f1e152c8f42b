/** What disconnecting an organisation, or losing a repository, leaves of its tasks. */
module Disconnect {
  import opened Wrappers
  import opened TaskLifecycle
  import opened Scheduler

  /** The non-terminal statuses for which the table has no row to `abandoned`. */
  predicate OutOfReach(s: Status) {
    s == OnHold || s == Merged || s == Building || s == VerificationFailed
  }

  /** A cascade abandons a task that is pending, in progress or in review, and changes no other. */
  lemma CascadeOne(t: Task, event: Event)
    requires event == OrgDisconnected || event == RepoUnselected
    ensures WithEvent(t, event) == if IsTerminal(t.status) || OutOfReach(t.status) then t else t.(status := Abandoned)
  {
  }

  /**
    A cascade leaves nothing but finished tasks exactly when none was on hold, merged, building or
    failed in verification.
  */
  lemma CascadeFinishesIff(s: State, event: Event)
    requires event == OrgDisconnected || event == RepoUnselected
    ensures (forall id :: id in s.rows ==> IsTerminal(CascadeStep(s, event).rows[id].status)) <==>
            (forall id :: id in s.rows ==> !OutOfReach(s.rows[id].status))
  {
    forall id | id in s.rows
      ensures IsTerminal(CascadeStep(s, event).rows[id].status) <==> !OutOfReach(s.rows[id].status)
    {
      CascadeOne(s.rows[id], event);
    }
  }

  /** A task on hold is one that survives. */
  lemma HeldTaskSurvives(s: State, event: Event)
    requires s == State(map[0 := Task("api", ["db"], OnHold, true, None, None, "")], [])
    requires event == OrgDisconnected || event == RepoUnselected
    ensures Possible(s, Cascade(event)) && Apply(s, Cascade(event)) == s && !IsTerminal(s.rows[0].status)
  {
    CascadeOne(s.rows[0], event);
    assert CascadeStep(s, event).rows == s.rows;
  }
}
