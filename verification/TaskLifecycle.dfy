/** The lifecycle table of a component task and what any sequence of lifecycle events can do. */
module TaskLifecycle {
  import opened Wrappers

  datatype Status =
    | Pending | InProgress | ReadyForReview | Merged | Building | Deployed
    | Rejected | Failed | Abandoned | OnHold | VerificationFailed

  datatype Event =
    | DispatchSuccess | PrReady | PrMerged | PrRejected | PushMatched
    | BuildSucceeded | BuildFailed | OrgDisconnected | RepoUnselected
    | BuildAuthRetryExhausted | CodingAgentFailed | BuildPathMismatch
    | AgentVerificationFailed | OperatorRetry

  datatype Error = InvalidTransition

  predicate IsTerminal(s: Status) {
    s == Deployed || s == Rejected || s == Failed || s == Abandoned
  }

  /** The allowed transitions; no two rows share a status and an event. */
  function TransitionRow(from: Status, event: Event): Option<Status> {
    match (from, event)
    case (Pending, DispatchSuccess) => Some(InProgress)
    case (InProgress, PrReady) => Some(ReadyForReview)
    case (ReadyForReview, PrMerged) => Some(Merged)
    case (ReadyForReview, PrRejected) => Some(Rejected)
    case (InProgress, PrRejected) => Some(Rejected)
    case (Merged, PushMatched) => Some(Building)
    case (Building, BuildSucceeded) => Some(Deployed)
    case (Building, BuildFailed) => Some(Failed)
    case (Pending, OrgDisconnected) => Some(Abandoned)
    case (InProgress, OrgDisconnected) => Some(Abandoned)
    case (ReadyForReview, OrgDisconnected) => Some(Abandoned)
    case (Pending, RepoUnselected) => Some(Abandoned)
    case (InProgress, RepoUnselected) => Some(Abandoned)
    case (ReadyForReview, RepoUnselected) => Some(Abandoned)
    case (Building, BuildAuthRetryExhausted) => Some(Failed)
    case (InProgress, CodingAgentFailed) => Some(Failed)
    case (Merged, BuildPathMismatch) => Some(Failed)
    case (InProgress, AgentVerificationFailed) => Some(VerificationFailed)
    case (VerificationFailed, OperatorRetry) => Some(InProgress)
    case _ => None
  }

  function ApplyTaskEvent(current: Status, event: Event): Result<Status, Error> {
    if IsTerminal(current) then Err(InvalidTransition)
    else
      match TransitionRow(current, event)
      case Some(s) => Ok(s)
      case None => Err(InvalidTransition)
  }

  /** The same transitions by what the event stands for. */
  predicate Allows(from: Status, event: Event, to: Status) {
    match event
    case DispatchSuccess => from == Pending && to == InProgress
    case OperatorRetry => from == VerificationFailed && to == InProgress
    case PrReady => from == InProgress && to == ReadyForReview
    case PrMerged => from == ReadyForReview && to == Merged
    case PushMatched => from == Merged && to == Building
    case BuildSucceeded => from == Building && to == Deployed
    case PrRejected => from in {InProgress, ReadyForReview} && to == Rejected
    case CodingAgentFailed => from == InProgress && to == Failed
    case BuildPathMismatch => from == Merged && to == Failed
    case BuildFailed | BuildAuthRetryExhausted => from == Building && to == Failed
    case OrgDisconnected | RepoUnselected => from in {Pending, InProgress, ReadyForReview} && to == Abandoned
    case AgentVerificationFailed => from == InProgress && to == VerificationFailed
  }

  lemma AllowedIff(from: Status, event: Event, to: Status)
    ensures ApplyTaskEvent(from, event) == Ok(to) <==> Allows(from, event, to)
  {
  }

  /** The events that can bring about each end. */
  function Causes(end: Status): set<Event> {
    match end
    case Deployed => {BuildSucceeded}
    case Rejected => {PrRejected}
    case Failed => {BuildFailed, BuildAuthRetryExhausted, CodingAgentFailed, BuildPathMismatch}
    case Abandoned => {OrgDisconnected, RepoUnselected}
    case _ => {}
  }

  /**
    A task that was not finished and is now deployed, rejected, failed or abandoned met an event that
    stands for it.
  */
  lemma {:induction false} EndHasCause(s: Status, events: seq<Event>)
    requires s !in {Deployed, Rejected, Failed, Abandoned}
    requires StatusAfter(s, events) in {Deployed, Rejected, Failed, Abandoned}
    ensures exists e :: e in events && e in Causes(StatusAfter(s, events))
    decreases events
  {
    var next := Next(s, events[0]);
    if next in {Deployed, Rejected, Failed, Abandoned} {
      TerminalAbsorbs(next, events[1..]);
      assert events[0] in events;
    } else {
      EndHasCause(next, events[1..]);
      var e :| e in events[1..] && e in Causes(StatusAfter(s, events));
      assert e in events;
    }
  }

  /** A refused event leaves the status alone, as every caller of the table does. */
  function Next(current: Status, event: Event): Status {
    match ApplyTaskEvent(current, event)
    case Ok(s) => s
    case Err(_) => current
  }

  /** How far a status is from the end of the lifecycle. */
  function Rank(s: Status): nat {
    match s
    case Pending => 5
    case InProgress => 4
    case ReadyForReview | VerificationFailed => 3
    case Merged => 2
    case Building => 1
    case _ => 0
  }

  /** Every transition but a retry lowers the rank; a retry raises it by one. */
  lemma TransitionRank(current: Status, event: Event)
    requires ApplyTaskEvent(current, event).Ok?
    ensures event != OperatorRetry ==> Rank(Next(current, event)) < Rank(current)
    ensures event == OperatorRetry ==> current == VerificationFailed && Next(current, event) == InProgress
  {
  }

  function StatusAfter(s: Status, events: seq<Event>): Status
    decreases events
  {
    if events == [] then s else StatusAfter(Next(s, events[0]), events[1..])
  }

  /** How many of the events take effect. */
  function Effective(s: Status, events: seq<Event>): nat
    decreases events
  {
    if events == [] then 0
    else (if ApplyTaskEvent(s, events[0]).Ok? then 1 else 0) + Effective(Next(s, events[0]), events[1..])
  }

  function Retries(events: seq<Event>): nat {
    if events == [] then 0 else (if events[0] == OperatorRetry then 1 else 0) + Retries(events[1..])
  }

  lemma {:induction false} LifecycleBound(s: Status, events: seq<Event>)
    ensures Effective(s, events) + Rank(StatusAfter(s, events)) <= Rank(s) + 2 * Retries(events)
    ensures Effective(s, events) <= 5 + 2 * Retries(events)
    decreases events
  {
    if events != [] {
      LifecycleBound(Next(s, events[0]), events[1..]);
      if ApplyTaskEvent(s, events[0]).Ok? {
        TransitionRank(s, events[0]);
      }
    }
  }

  /** Nothing follows a terminal status. */
  lemma {:induction false} TerminalAbsorbs(s: Status, events: seq<Event>)
    requires IsTerminal(s)
    ensures StatusAfter(s, events) == s && Effective(s, events) == 0
    decreases events
  {
    if events != [] {
      TerminalAbsorbs(s, events[1..]);
    }
  }

  /** The status k transitions before deployment, and the event that leads out of it. */
  function Rung(k: nat): Status
    requires k <= 4
  {
    if k == 4 then InProgress
    else if k == 3 then ReadyForReview
    else if k == 2 then Merged
    else if k == 1 then Building
    else Deployed
  }

  function Climb(k: nat): Event
    requires 1 <= k <= 4
  {
    if k == 4 then PrReady else if k == 3 then PrMerged else if k == 2 then PushMatched else BuildSucceeded
  }

  /** The events that take a task from there to its deployment. */
  function Delivery(k: nat): seq<Event>
    requires k <= 4
  {
    if k == 0 then [] else [Climb(k)] + Delivery(k - 1)
  }

  /** The events deploy the task in n effective transitions, r of them retries. */
  predicate Attains(s: Status, events: seq<Event>, n: nat, r: nat) {
    StatusAfter(s, events) == Deployed && Effective(s, events) == n && Retries(events) == r
  }

  lemma AttainsCons(s: Status, e: Event, next: Status, rest: seq<Event>, n: nat, r: nat)
    requires ApplyTaskEvent(s, e) == Ok(next) && Attains(next, rest, n, r)
    ensures Attains(s, [e] + rest, n + 1, r + if e == OperatorRetry then 1 else 0)
  {
    assert ([e] + rest)[1..] == rest;
  }

  lemma {:induction false} DeliveryDeploys(k: nat)
    requires k <= 4
    ensures Attains(Rung(k), Delivery(k), k, 0)
  {
    if k > 0 {
      DeliveryDeploys(k - 1);
      AttainsCons(Rung(k), Climb(k), Rung(k - 1), Delivery(k - 1), k - 1, 0);
    }
  }

  /** A history with r retries that uses the whole bound. */
  function LongestHistory(r: nat): seq<Event> {
    [DispatchSuccess] + FromInProgress(r)
  }

  function FromInProgress(r: nat): seq<Event>
    decreases r, 0
  {
    if r == 0 then Delivery(4) else [AgentVerificationFailed] + FromVerificationFailed(r)
  }

  function FromVerificationFailed(r: nat): seq<Event>
    requires r > 0
    decreases r - 1, 1
  {
    [OperatorRetry] + FromInProgress(r - 1)
  }

  /** The bound is attained for every number of retries. */
  lemma BoundIsAttained(r: nat)
    ensures Retries(LongestHistory(r)) == r
    ensures Effective(Pending, LongestHistory(r)) == 5 + 2 * r
    ensures StatusAfter(Pending, LongestHistory(r)) == Deployed
  {
    LoopsAttain(r);
    AttainsCons(Pending, DispatchSuccess, InProgress, FromInProgress(r), 4 + 2 * r, r);
  }

  lemma {:induction false} LoopsAttain(r: nat)
    ensures Attains(InProgress, FromInProgress(r), 4 + 2 * r, r)
  {
    if r == 0 {
      DeliveryDeploys(4);
    } else {
      LoopsAttain(r - 1);
      AttainsCons(VerificationFailed, OperatorRetry, InProgress, FromInProgress(r - 1), 2 + 2 * r, r - 1);
      AttainsCons(InProgress, AgentVerificationFailed, VerificationFailed, FromVerificationFailed(r), 3 + 2 * r, r);
    }
  }
}
