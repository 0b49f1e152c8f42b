/**
  A dispatch pass that is not atomic: it lists the rows and indexes their statuses once, and
  then saves one listed row after another while every other writer goes on. One pass at a time.
*/
module InterleavedPass {
  import opened Wrappers
  import opened TaskLifecycle
  import opened Scheduler
  import opened SchedulerSafety
  import opened DispatchAccounting

  /** A pass under way: the rows it listed, the index it built, and the rows still to be treated. */
  datatype Pass = Pass(listed: Rows, index: map<string, Status>, rest: seq<nat>)

  datatype World = World(s: State, pass: Option<Pass>)

  datatype Move =
    | Begin(order: seq<nat>)
    | Release                                     // the next row, on hold and ready, is saved as pending
    | Treat(response: Response)                   // the next row is held, dispatched or passed over
    | End
    | Other(step: Step)

  /** The next row of a pass, as it was listed. */
  ghost predicate HasNext(w: World) {
    w.pass.Some? && w.pass.value.rest != [] && w.pass.value.rest[0] in w.pass.value.listed
  }

  ghost function NextId(w: World): nat
    requires HasNext(w)
  {
    w.pass.value.rest[0]
  }

  ghost function NextRow(w: World): Task
    requires HasNext(w)
  {
    w.pass.value.listed[NextId(w)]
  }

  ghost predicate CanMove(w: World, m: Move) {
    match m
    case Begin(order) => w.pass.None? && Listing(w.s.rows, order)
    case Release => HasNext(w) && NextRow(w).status == OnHold && DepsAllDeployed(NextRow(w), w.pass.value.index)
    case Treat(_) => HasNext(w)
    case End => w.pass.Some? && w.pass.value.rest == []
    case Other(step) => Possible(w.s, step) && !step.DispatchPass?
  }

  /** The pass saves the row unless it passes over it. */
  predicate Treats(t: Task, index: map<string, Status>) {
    t.status == Pending || (t.status == OnHold && DepsAllDeployed(t, index))
  }

  ghost function Treated(w: World, r: Response): World
    requires HasNext(w)
  {
    var p, id := w.pass.value, NextId(w);
    var (t, started) := PassTask(NextRow(w), p.index, r);
    World(State(if Treats(NextRow(w), p.index) then w.s.rows[id := t] else w.s.rows,
                if started then w.s.runs + [id] else w.s.runs),
          Some(p.(rest := p.rest[1..])))
  }

  ghost function Moved(w: World, m: Move): World
    requires CanMove(w, m)
  {
    match m
    case Begin(order) => w.(pass := Some(Pass(w.s.rows, StatusIndex(w.s.rows, order), order)))
    case Release => w.(s := w.s.(rows := w.s.rows[NextId(w) := NextRow(w).(status := Pending)]))
    case Treat(r) => Treated(w, r)
    case End => w.(pass := None)
    case Other(step) => w.(s := Apply(w.s, step))
  }

  ghost predicate MovesRun(w: World, moves: seq<Move>)
    decreases moves
  {
    moves == [] || (CanMove(w, moves[0]) && MovesRun(Moved(w, moves[0]), moves[1..]))
  }

  ghost function AfterMoves(w: World, moves: seq<Move>): World
    requires MovesRun(w, moves)
    decreases moves
  {
    if moves == [] then w else AfterMoves(Moved(w, moves[0]), moves[1..])
  }

  /** The other writers retry from `verification_failed` only, and save on a current reading. */
  ghost predicate IntendedMove(w: World, m: Move) {
    m.Other? ==> Intended(w.s, m.step)
  }

  ghost predicate IntendedMoves(w: World, moves: seq<Move>)
    requires MovesRun(w, moves)
    decreases moves
  {
    moves == [] || (IntendedMove(w, moves[0]) && IntendedMoves(Moved(w, moves[0]), moves[1..]))
  }

  // ---- The frozen index stays sound ---------------------------------------------------

  ghost predicate Sound(index: map<string, Status>, rows: Rows) {
    forall n :: n in index && index[n] == Deployed ==> n in DeployedNames(rows)
  }

  /** A row that was listed as waiting has not been started since. */
  ghost predicate Untreated(w: World, id: nat) {
    && w.pass.Some? && id in w.pass.value.listed && id in w.s.rows
    && SameTask(w.pass.value.listed[id], w.s.rows[id])
    && (Waiting(w.pass.value.listed[id].status) ==> !Active(w.s.rows[id].status))
  }

  predicate Distinct(ids: seq<nat>) {
    forall i, j :: 0 <= i < j < |ids| ==> ids[i] != ids[j]
  }

  ghost predicate PassOk(w: World) {
    w.pass.Some? ==>
      && Sound(w.pass.value.index, w.s.rows) && Distinct(w.pass.value.rest)
      && forall id :: id in w.pass.value.rest ==> Untreated(w, id)
  }

  ghost predicate Inv(w: World) {
    Gated(w.s.rows) && PassOk(w)
  }

  ghost predicate DeployedStay(before: Rows, after: Rows) {
    forall id :: id in before && before[id].status == Deployed ==>
      id in after && after[id].component == before[id].component && after[id].status == Deployed
  }

  lemma SoundStays(index: map<string, Status>, before: Rows, after: Rows)
    requires Sound(index, before) && DeployedStay(before, after)
    ensures Sound(index, after)
  {
    forall n | n in index && index[n] == Deployed
      ensures n in DeployedNames(after)
    {
      var id :| id in before && before[id].status == Deployed && before[id].component == n;
      assert after[id].component == n;
    }
  }

  lemma BeginOk(w: World, order: seq<nat>)
    requires Inv(w) && CanMove(w, Begin(order))
    ensures Inv(Moved(w, Begin(order)))
  {
    var index := StatusIndex(w.s.rows, order);
    forall n | n in index && index[n] == Deployed
      ensures n in DeployedNames(w.s.rows)
    {
      IndexDeployed(w.s.rows, order, n);
    }
  }

  /** Saving over a row that is not active what is gated by the deployed names. */
  lemma SaveOverIdle(rows: Rows, id: nat, row: Task)
    requires Gated(rows) && id in rows && SameTask(rows[id], row) && !Active(rows[id].status)
    requires row.status != Deployed && (Active(row.status) ==> DepsIn(row, DeployedNames(rows)))
    ensures Gated(rows[id := row]) && DeployedStay(rows, rows[id := row])
  {
    NamesSplit(rows, id);
    SaveGatedIff(rows, id, row);
  }

  lemma PassTaskResult(t: Task, index: map<string, Status>, r: Response)
    requires Waiting(t.status)
    ensures var (u, started) := PassTask(t, index, r);
            && SameTask(t, u) && u.status != Deployed && (started ==> u.status == InProgress && Treats(t, index))
            && (Active(u.status) ==> DepsAllDeployed(t, index))
  {
  }

  /** What the pass leaves of the next row keeps the table gated. */
  lemma NextSaved(w: World, row: Task)
    requires Inv(w) && HasNext(w) && SameTask(NextRow(w), row) && Waiting(NextRow(w).status) && row.status != Deployed
    requires Active(row.status) ==> DepsAllDeployed(NextRow(w), w.pass.value.index)
    ensures NextId(w) in w.s.rows
    ensures Gated(w.s.rows[NextId(w) := row]) && DeployedStay(w.s.rows, w.s.rows[NextId(w) := row])
  {
    assert Untreated(w, NextId(w));
    SaveOverIdle(w.s.rows, NextId(w), row);
  }

  /** A save of one row leaves the others of the pass untreated. */
  lemma OthersUntreated(w: World, w': World, k: nat, id: nat)
    requires Untreated(w, id) && k != id && w'.pass.Some? && w'.pass.value.listed == w.pass.value.listed
    requires id in w'.s.rows && w'.s.rows[id] == w.s.rows[id]
    ensures Untreated(w', id)
  {
  }

  lemma ReleaseOk(w: World)
    requires Inv(w) && CanMove(w, Release)
    ensures Inv(Moved(w, Release)) && DeployedStay(w.s.rows, Moved(w, Release).s.rows)
  {
    var w', id := Moved(w, Release), NextId(w);
    NextSaved(w, NextRow(w).(status := Pending));
    SoundStays(w.pass.value.index, w.s.rows, w'.s.rows);
    forall k | k in w'.pass.value.rest ensures Untreated(w', k) {
      assert Untreated(w, k);
    }
  }

  lemma TreatSaves(w: World, r: Response)
    requires Inv(w) && HasNext(w)
    ensures Gated(Treated(w, r).s.rows) && DeployedStay(w.s.rows, Treated(w, r).s.rows)
    ensures forall k :: k in w.s.rows && k != NextId(w) ==>
      k in Treated(w, r).s.rows && Treated(w, r).s.rows[k] == w.s.rows[k]
  {
    if Treats(NextRow(w), w.pass.value.index) {
      PassTaskResult(NextRow(w), w.pass.value.index, r);
      NextSaved(w, PassTask(NextRow(w), w.pass.value.index, r).0);
    }
  }

  lemma TreatOk(w: World, r: Response)
    requires Inv(w) && CanMove(w, Treat(r))
    ensures Inv(Moved(w, Treat(r))) && DeployedStay(w.s.rows, Moved(w, Treat(r)).s.rows)
  {
    var w', rest := Treated(w, r), w.pass.value.rest;
    TreatSaves(w, r);
    SoundStays(w.pass.value.index, w.s.rows, w'.s.rows);
    forall k | k in rest[1..] ensures Untreated(w', k) {
      var i :| 1 <= i < |rest| && rest[i] == k;
      assert rest[0] != rest[i];
      OthersUntreated(w, w', NextId(w), k);
    }
  }

  /** No step of another writer makes an inactive row active, nor changes what it stands for. */
  lemma OtherRow(s: State, step: Step, id: nat)
    requires Possible(s, step) && !step.DispatchPass? && Intended(s, step) && id in s.rows
    ensures id in Apply(s, step).rows && SameTask(s.rows[id], Apply(s, step).rows[id])
    ensures !Active(s.rows[id].status) ==> !Active(Apply(s, step).rows[id].status)
  {
    match step
    case Lifecycle(_, event) => EventGentle(s.rows[id], event, {}); IdleEvent(s.rows[id], event);
    case Cascade(event) => EventGentle(s.rows[id], event, {}); IdleEvent(s.rows[id], event);
    case Retry(k, r) => if k == id { RetriedSame(s.rows[id], r); }
    case SaveRow(k, row) => if k == id && SavedFrom(s.rows[id], row) && Active(row.status) {
      SavedActive(s.rows[id], row); }
    case _ =>
  }

  lemma IdleEvent(t: Task, event: Event)
    requires event != DispatchSuccess && event != OperatorRetry
    ensures !Active(t.status) ==> !Active(WithEvent(t, event).status)
  {
  }

  lemma RetriedSame(t: Task, r: Response)
    ensures SameTask(t, Retried(t, r).0)
  {
  }

  lemma OtherOk(w: World, step: Step)
    requires Inv(w) && CanMove(w, Other(step)) && Intended(w.s, step)
    ensures Inv(Moved(w, Other(step))) && DeployedStay(w.s.rows, Moved(w, Other(step)).s.rows)
  {
    var w' := Moved(w, Other(step));
    IntendedStep(w.s, step);
    forall id | id in w.s.rows ensures id in w'.s.rows && SameTask(w.s.rows[id], w'.s.rows[id]) {
      OtherRow(w.s, step, id);
    }
    if w.pass.Some? {
      SoundStays(w.pass.value.index, w.s.rows, w'.s.rows);
      forall id | id in w.pass.value.rest ensures Untreated(w', id) {
        assert Untreated(w, id);
        OtherRow(w.s, step, id);
      }
    }
  }

  lemma MoveOk(w: World, m: Move)
    requires Inv(w) && CanMove(w, m) && IntendedMove(w, m)
    ensures Inv(Moved(w, m)) && DeployedStay(w.s.rows, Moved(w, m).s.rows)
  {
    match m
    case Begin(order) => BeginOk(w, order);
    case Release => ReleaseOk(w);
    case Treat(r) => TreatOk(w, r);
    case End =>
    case Other(step) => OtherOk(w, step);
  }

  /**
    With passes taken row by row under the index frozen at their start, and every other writer stepping
    in between, a gated table stays gated after every move, and deployed rows stay deployed.
  */
  lemma {:induction false} InterleavedIsGated(w: World, moves: seq<Move>)
    requires Inv(w) && MovesRun(w, moves) && IntendedMoves(w, moves)
    ensures Inv(AfterMoves(w, moves)) && DeployedStay(w.s.rows, AfterMoves(w, moves).s.rows)
    decreases moves
  {
    if moves != [] {
      MoveOk(w, moves[0]);
      InterleavedIsGated(Moved(w, moves[0]), moves[1..]);
    }
  }

  // ---- Starts -------------------------------------------------------------------------

  function RetryMoves(moves: seq<Move>, id: nat): nat {
    if moves == [] then 0
    else (if IsRetryOf(moves[0], id) then 1 else 0) + RetryMoves(moves[1..], id)
  }

  predicate IsRetryOf(m: Move, id: nat) {
    m.Other? && m.step.Retry? && m.step.id == id
  }

  /** The task is within its budget, and below it while a pass that listed it as waiting has not treated it. */
  ghost predicate Within(w: World, id: nat, r: nat) {
    && Budgeted(w.s, id, r)
    && (w.pass.Some? && id in w.pass.value.rest && id in w.pass.value.listed && Waiting(w.pass.value.listed[id].status)
        ==> Count(w.s.runs, id) <= r)
  }

  lemma TreatWithin(w: World, resp: Response, id: nat, r: nat)
    requires Inv(w) && HasNext(w) && Within(w, id, r)
    ensures Within(Treated(w, resp), id, r)
  {
    var p := w.pass.value;
    CountSnoc(w.s.runs, NextId(w), id);
    PassTaskBudget(NextRow(w), p.index, resp);
    assert Untreated(w, NextId(w));
    if Waiting(NextRow(w).status) { PassTaskResult(NextRow(w), p.index, resp); }
    RestWithin(p.rest, id);
  }

  lemma RestWithin(rest: seq<nat>, id: nat)
    requires rest != [] && Distinct(rest)
    ensures id in rest[1..] ==> id in rest && id != rest[0]
  {
    if id in rest[1..] {
      var i :| 1 <= i < |rest| && rest[i] == id;
    }
  }

  /** Only retries of the task among the other steps start it, and none of a task not yet started. */
  lemma OtherWithin(w: World, step: Step, id: nat, r: nat)
    requires Inv(w) && CanMove(w, Other(step)) && Intended(w.s, step) && Within(w, id, r)
    ensures Within(Moved(w, Other(step)), id, r + if IsRetryOf(Other(step), id) then 1 else 0)
  {
    NoReopening(w.s, step, id);
    StepBudget(w.s, step, id, r);
    if step.Retry? { CountSnoc(w.s.runs, step.id, id); }
  }

  lemma NoReopening(s: State, step: Step, id: nat)
    requires Possible(s, step) && Intended(s, step)
    ensures !Reopens(s, step, id)
  {
  }

  lemma MoveWithin(w: World, m: Move, id: nat, r: nat)
    requires Inv(w) && CanMove(w, m) && IntendedMove(w, m) && Within(w, id, r)
    ensures Within(Moved(w, m), id, r + if IsRetryOf(m, id) then 1 else 0)
  {
    match m
    case Begin(order) =>
    case Release => assert Untreated(w, NextId(w));
    case Treat(resp) => TreatWithin(w, resp, id, r);
    case End =>
    case Other(step) => OtherWithin(w, step, id, r);
  }

  /** In any such run a task is started at most once more often than it is retried. */
  lemma {:induction false} InterleavedStarts(w: World, moves: seq<Move>, id: nat, r: nat)
    requires Inv(w) && MovesRun(w, moves) && IntendedMoves(w, moves) && Within(w, id, r)
    ensures Count(AfterMoves(w, moves).s.runs, id) <= r + RetryMoves(moves, id) + 1
    decreases moves
  {
    if moves != [] {
      MoveOk(w, moves[0]);
      MoveWithin(w, moves[0], id, r);
      InterleavedStarts(Moved(w, moves[0]), moves[1..], id, r + if IsRetryOf(moves[0], id) then 1 else 0);
    }
  }

  // ---- Without interruption -------------------------------------------------------------

  /** The moves of a pass left alone. */
  function TreatMoves(rs: seq<Response>): seq<Move> {
    if rs == [] then [End] else [Treat(rs[0])] + TreatMoves(rs[1..])
  }

  lemma TreatedInPlace(w: World, r: Response)
    requires HasNext(w) && NextId(w) in w.s.rows && w.s.rows[NextId(w)] == NextRow(w)
    ensures Treated(w, r).s == PassRow(w.s, w.pass.value.index, NextId(w), r)
  {
    var (t, started) := PassTask(NextRow(w), w.pass.value.index, r);
    if !Treats(NextRow(w), w.pass.value.index) { assert w.s.rows[NextId(w) := t] == w.s.rows; }
  }

  /** The world of a pass left alone, after its first i rows. */
  ghost function PassAfter(s: State, order: seq<nat>, rs: seq<Response>, i: nat): World
    requires Listing(s.rows, order) && |rs| == |order| && i <= |order|
  {
    var index := StatusIndex(s.rows, order);
    World(PassRows(s, index, order[..i], rs[..i]), Some(Pass(s.rows, index, order[i..])))
  }

  lemma PassGoesOn(s: State, order: seq<nat>, rs: seq<Response>, i: nat)
    requires Listing(s.rows, order) && |rs| == |order| && i < |order|
    ensures CanMove(PassAfter(s, order, rs, i), Treat(rs[i]))
    ensures Moved(PassAfter(s, order, rs, i), Treat(rs[i])) == PassAfter(s, order, rs, i + 1)
  {
    PassRowsNext(s, StatusIndex(s.rows, order), order, rs, i);
    TreatedInPlace(PassAfter(s, order, rs, i), rs[i]);
    assert order[i..][1..] == order[i + 1..];
  }

  lemma {:induction false} RestOfPass(s: State, order: seq<nat>, rs: seq<Response>, i: nat)
    requires Listing(s.rows, order) && |rs| == |order| && i <= |order|
    ensures MovesRun(PassAfter(s, order, rs, i), TreatMoves(rs[i..]))
    ensures AfterMoves(PassAfter(s, order, rs, i), TreatMoves(rs[i..])) == World(PassStep(s, order, rs), None)
    decreases |order| - i
  {
    var w := PassAfter(s, order, rs, i);
    if i == |order| {
      assert order[..i] == order && rs[..i] == rs;
      MovesCons(w, End, []);
      assert [End] + [] == TreatMoves(rs[i..]);
    } else {
      PassGoesOn(s, order, rs, i);
      RestOfPass(s, order, rs, i + 1);
      assert rs[i..][1..] == rs[i + 1..];
      MovesCons(w, Treat(rs[i]), TreatMoves(rs[i + 1..]));
    }
  }

  /** A pass that nothing interrupts is the atomic pass. */
  lemma {:induction false} UninterruptedIsPass(s: State, order: seq<nat>, rs: seq<Response>)
    requires Possible(s, DispatchPass(order, rs))
    ensures MovesRun(World(s, None), [Begin(order)] + TreatMoves(rs))
    ensures AfterMoves(World(s, None), [Begin(order)] + TreatMoves(rs))
      == World(Apply(s, DispatchPass(order, rs)), None)
  {
    var w := World(s, None);
    assert order[0..] == order && rs[0..] == rs && order[..0] == [] && rs[..0] == [];
    assert Moved(w, Begin(order)) == PassAfter(s, order, rs, 0);
    RestOfPass(s, order, rs, 0);
    MovesCons(w, Begin(order), TreatMoves(rs));
  }

  // ---- A row that moved on meanwhile --------------------------------------------------

  /** The pass treats the row as it listed it: one abandoned since is dispatched all the same. */
  lemma TreatRevives(w: World, r: Response)
    requires HasNext(w) && NextId(w) in w.s.rows && IsTerminal(w.s.rows[NextId(w)].status)
    requires Treats(NextRow(w), w.pass.value.index)
    ensures Treated(w, r).s.rows[NextId(w)] == PassTask(NextRow(w), w.pass.value.index, r).0
    ensures IsTerminal(Treated(w, r).s.rows[NextId(w)].status) <==>
            PassTask(NextRow(w), w.pass.value.index, r).0.status == Failed
  {
    PassTaskResult(NextRow(w), w.pass.value.index, r);
  }

  lemma {:induction false} MovesCons(w: World, m: Move, rest: seq<Move>)
    requires CanMove(w, m) && MovesRun(Moved(w, m), rest)
    ensures MovesRun(w, [m] + rest) && AfterMoves(w, [m] + rest) == AfterMoves(Moved(w, m), rest)
    ensures IntendedMove(w, m) && IntendedMoves(Moved(w, m), rest) ==> IntendedMoves(w, [m] + rest)
  {
    assert ([m] + rest)[1..] == rest;
  }

  /** The table a pass listed with one pending task, which was abandoned since. */
  function Listed(status: Status): World {
    World(State(map[0 := Web(status)], []), Some(Pass(map[0 := Web(Pending)], map["web" := Pending], [0])))
  }

  lemma ListedFirst(w: World)
    requires w == World(State(map[0 := Web(Pending)], []), None)
    ensures CanMove(w, Begin([0])) && Moved(w, Begin([0])) == Listed(Pending) && Inv(w)
  {
    assert [0][..0] == [];
  }

  lemma ThenAbandoned(event: Step)
    requires event == Lifecycle(0, OrgDisconnected)
    ensures CanMove(Listed(Pending), Other(event)) && Moved(Listed(Pending), Other(event)) == Listed(Abandoned)
  {
    assert Listed(Pending).s.rows[0 := WithEvent(Web(Pending), OrgDisconnected)] == Listed(Abandoned).s.rows;
  }

  lemma ThenStarted(w: World)
    requires w == Listed(Abandoned)
    ensures CanMove(w, Treat(ALL_OK))
    ensures Moved(w, Treat(ALL_OK)).s == State(map[0 := Running(Web(Pending))], [0])
  {
    assert DepsAllDeployed(NextRow(w), w.pass.value.index);
    assert w.s.rows[0 := Running(Web(Pending))] == map[0 := Running(Web(Pending))];
    assert [] + [0] == [0];
  }

  /** The organisation disconnects between the listing and the dispatch: the abandoned task is started. */
  lemma {:induction false} AbandonedIsStarted(w: World, event: Step)
    requires w == World(State(map[0 := Web(Pending)], []), None) && event == Lifecycle(0, OrgDisconnected)
    ensures var moves := [Begin([0])] + ([Other(event)] + ([Treat(ALL_OK)] + []));
            && Inv(w) && MovesRun(w, moves) && IntendedMoves(w, moves)
            && AfterMoves(w, moves).s == State(map[0 := Running(Web(Pending))], [0])
  {
    ListedFirst(w);
    ThenAbandoned(event);
    ThenStarted(Listed(Abandoned));
    MovesCons(Listed(Abandoned), Treat(ALL_OK), []);
    MovesCons(Listed(Pending), Other(event), [Treat(ALL_OK)] + []);
    MovesCons(w, Begin([0]), [Other(event)] + ([Treat(ALL_OK)] + []));
  }
}
