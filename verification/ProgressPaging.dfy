/**
  Paging through an agent's log. The log source keeps the lines received from a moment on,
  while the cursor is computed from the timestamps written inside the lines.
*/
module ProgressPaging {
  import opened Progress
  import opened Sequences
  import opened Wrappers

  /** Nanoseconds. */
  const MS: int := 1_000_000
  const SECOND: int := 1_000 * MS
  const WINDOW: int := 30 * 24 * 3_600 * SECOND

  const DEFAULT_LIMIT: nat := 200

  /**
    A log line: the event parsed from its text, the moment the log received it, and that
    moment as text if the response carries it.
  */
  datatype Line = Line(event: Event, at: int, stamp: string)

  /** Events without a timestamp of their own take the line's. */
  function Stamped(l: Line): Event {
    if l.event.ts == "" && l.stamp != "" then l.event.(ts := l.stamp) else l.event
  }

  lemma StampedFields(l: Line)
    ensures Stamped(l).ts == if l.event.ts == "" then l.stamp else l.event.ts
    ensures Stamped(l).(ts := l.event.ts) == l.event
  {
  }

  ghost predicate StampIsTime(clock: Clock, l: Line) {
    l.stamp != "" ==> clock(l.stamp) == Some(l.at / MS)
  }

  function Delivered(lines: seq<Line>): seq<Event> {
    Dedup(SortEvents(Map(Stamped, lines)))
  }

  function PageOf(lines: seq<Line>, limit: nat): seq<Event> {
    if |Delivered(lines)| > limit then Delivered(lines)[..limit] else Delivered(lines)
  }

  /** `parseAndSort`. */
  method ParseAndSort(lines: seq<Line>) returns (events: seq<Event>)
    ensures events == Delivered(lines)
  {
    var stamped: seq<Event> := [];
    for i := 0 to |lines|
      invariant stamped == Map(Stamped, lines[..i])
    {
      assert lines[..i + 1] == lines[..i] + [lines[i]];
      stamped := stamped + [Stamped(lines[i])];
    }
    assert lines[..|lines|] == lines;
    var sorted := SortEvents(stamped);
    var a := new Event[|sorted|](i requires 0 <= i < |sorted| => sorted[i]);
    assert a[..] == sorted;
    var n := DedupOnTsSeq(a);
    events := a[..n];
  }

  /** `GetAgentProgress`, from the lines it fetched on. */
  method AgentProgress(clock: Clock, lines: seq<Line>, since: int, asked: int)
    returns (page: seq<Event>, cursor: int, truncated: bool)
    ensures page == PageOf(lines, Limit(asked)) && IsNextCursor(clock, page, since, cursor)
    ensures truncated <==> |Delivered(lines)| > Limit(asked)
  {
    page := ParseAndSort(lines);
    truncated := |page| > Limit(asked);
    if truncated { page := page[..Limit(asked)]; }
    cursor := NextCursor(clock, page, since);
  }

  function Limit(asked: int): (limit: nat)
    ensures 0 < limit <= DEFAULT_LIMIT
    ensures 1 <= asked <= 200 ==> limit == asked
    ensures asked < 1 || asked > 200 ==> limit == 200
  {
    if asked <= 0 || asked > DEFAULT_LIMIT then DEFAULT_LIMIT else asked
  }

  // ---- What a poll asks for --------------------------------------------------------

  /** `resolveSinceTime`, and the default window for a start that is missing or ahead of the clock. */
  function StartOf(since: int, dispatchedAt: Option<int>, now: int): int {
    var start :=
      if since > 0 then Some(since * MS)
      else if dispatchedAt.Some? then Some(dispatchedAt.value - SECOND)
      else None;
    if start.None? || start.value > now then now - WINDOW else start.value
  }

  /** In nanoseconds: the cursor's millisecond, a second before the dispatch, or thirty days back. */
  lemma StartCases(since: int, dispatchedAt: Option<int>, now: int)
    ensures since > 0 && since * 1_000_000 <= now ==> StartOf(since, dispatchedAt, now) == since * 1_000_000
    ensures since <= 0 && dispatchedAt.Some? && dispatchedAt.value - 1_000_000_000 <= now ==>
              StartOf(since, dispatchedAt, now) == dispatchedAt.value - 1_000_000_000
    ensures (since > 0 && since * 1_000_000 > now) || (since <= 0 && dispatchedAt.None?) ==>
              StartOf(since, dispatchedAt, now) == now - 2_592_000_000_000_000
    ensures since <= 0 && dispatchedAt.Some? && dispatchedAt.value - 1_000_000_000 > now ==>
              StartOf(since, dispatchedAt, now) == now - 2_592_000_000_000_000
  {
  }

  /** One poll: what it was made with, the lines the log returned, and the cursor it returned. */
  datatype Poll = Poll(since: int, dispatchedAt: Option<int>, now: int, lines: seq<Line>, limit: nat, cursor: int)

  predicate InWindow(p: Poll, l: Line) {
    StartOf(p.since, p.dispatchedAt, p.now) <= l.at <= p.now
  }

  ghost predicate IsPoll(clock: Clock, p: Poll) {
    && 0 < p.limit <= DEFAULT_LIMIT && |p.lines| <= p.limit + 1
    && (forall l :: l in p.lines ==> InWindow(p, l) && StampIsTime(clock, l))
    && IsNextCursor(clock, PageOf(p.lines, p.limit), p.since, p.cursor)
  }

  /** Polls of one viewer, each made with the cursor the one before returned. */
  ghost predicate Polls(clock: Clock, polls: seq<Poll>) {
    && (forall i :: 0 <= i < |polls| ==> PollAt(clock, polls, i))
    && (forall i :: 0 < i < |polls| ==> Chained(polls, i))
  }

  ghost predicate PollAt(clock: Clock, polls: seq<Poll>, i: nat)
    requires i < |polls|
  {
    IsPoll(clock, polls[i])
  }

  predicate Chained(polls: seq<Poll>, i: nat)
    requires 0 < i < |polls|
  {
    polls[i].since == polls[i - 1].cursor
  }

  /** The cursor of the poll is not ahead of the service's clock. */
  predicate InTime(p: Poll) {
    p.since * MS <= p.now || p.since <= 0
  }

  lemma {:induction false} CursorNeverDecreases(clock: Clock, polls: seq<Poll>, i: nat, j: nat)
    requires Polls(clock, polls) && i < j < |polls|
    ensures polls[i].cursor <= polls[j].since
    decreases j - i
  {
    CursorTaken(clock, polls, j);
    if i + 1 < j {
      CursorNeverDecreases(clock, polls, i, j - 1);
    }
  }

  lemma CursorTaken(clock: Clock, polls: seq<Poll>, j: nat)
    requires Polls(clock, polls) && 0 < j < |polls|
    ensures polls[j - 1].since <= polls[j - 1].cursor == polls[j].since
  {
    assert PollAt(clock, polls, j - 1) && Chained(polls, j);
  }

  // ---- What comes again ------------------------------------------------------------

  /**
    A line received before the cursor's millisecond is fetched by no later poll whose cursor is not
    ahead of the clock.
  */
  lemma KeptOut(clock: Clock, polls: seq<Poll>, i: nat, j: nat, l: Line)
    requires Polls(clock, polls) && i < j < |polls| && InTime(polls[j])
    requires polls[i].cursor > 0 && l.at < polls[i].cursor * MS
    ensures l !in polls[j].lines
  {
    CursorNeverDecreases(clock, polls, i, j);
    assert PollAt(clock, polls, j);
  }

  /** The poll that follows at a moment and fetches just this line. */
  function PollFor(clock: Clock, since: int, dispatchedAt: Option<int>, now: int, l: Line): Poll {
    Poll(since, dispatchedAt, now, [l], 1, CursorAfter(clock, PageOf([l], 1), since))
  }

  lemma PollForIs(clock: Clock, polls: seq<Poll>, p: Poll, dispatchedAt: Option<int>, l: Line)
    requires Polls(clock, polls) && polls != [] && StampIsTime(clock, l)
    requires p == PollFor(clock, polls[|polls| - 1].cursor, dispatchedAt, p.now, l) && InWindow(p, l)
    ensures Polls(clock, polls + [p])
  {
    CursorAfterIs(clock, PageOf([l], 1), p.since);
    PollsMore(clock, polls, p);
  }

  lemma PollsMore(clock: Clock, polls: seq<Poll>, p: Poll)
    requires Polls(clock, polls) && IsPoll(clock, p) && (polls != [] ==> p.since == polls[|polls| - 1].cursor)
    ensures Polls(clock, polls + [p])
  {
    var all := polls + [p];
    forall i | 0 <= i < |all| ensures PollAt(clock, all, i) { PollAtMore(clock, polls, p, all, i); }
    ChainMore(polls, p);
  }

  lemma ChainMore(polls: seq<Poll>, p: Poll)
    requires (forall i :: 0 < i < |polls| ==> Chained(polls, i)) &&
      (polls != [] ==> p.since == polls[|polls| - 1].cursor)
    ensures forall i :: 0 < i < |polls + [p]| ==> Chained(polls + [p], i)
  {
    var all := polls + [p];
    forall i | 0 < i < |all| ensures Chained(all, i) {
      if i < |polls| { assert Chained(polls, i); }
    }
  }

  lemma PollAtMore(clock: Clock, polls: seq<Poll>, p: Poll, all: seq<Poll>, i: nat)
    requires all == polls + [p] && i < |all| && IsPoll(clock, p) && (i < |polls| ==> PollAt(clock, polls, i))
    ensures PollAt(clock, all, i)
  {
    assert all[i] == if i < |polls| then polls[i] else p;
  }

  /** The line can be fetched by a poll that follows. */
  ghost predicate FetchedBy(clock: Clock, polls: seq<Poll>, p: Poll, l: Line) {
    Polls(clock, polls + [p]) && l in p.lines
  }

  /** What the next poll can fetch, whatever its clock says: the lines between its start and now. */
  lemma NextFetchesIff(
    clock: Clock, polls: seq<Poll>, dispatchedAt: Option<int>, now: int, l: Line)
    requires Polls(clock, polls) && polls != [] && StampIsTime(clock, l)
    ensures (exists p :: FetchedBy(clock, polls, p, l) && p.dispatchedAt == dispatchedAt && p.now == now) <==>
            StartOf(polls[|polls| - 1].cursor, dispatchedAt, now) <= l.at <= now
  {
    var cursor := polls[|polls| - 1].cursor;
    if p :| FetchedBy(clock, polls, p, l) && p.dispatchedAt == dispatchedAt && p.now == now {
      LastOfPolls(clock, polls, p);
    }
    if StartOf(cursor, dispatchedAt, now) <= l.at <= now {
      var p := PollFor(clock, cursor, dispatchedAt, now, l);
      PollForIs(clock, polls, p, dispatchedAt, l);
      assert FetchedBy(clock, polls, p, l);
    }
  }

  lemma LastOfPolls(clock: Clock, polls: seq<Poll>, p: Poll)
    requires Polls(clock, polls + [p]) && polls != []
    ensures IsPoll(clock, p) && p.since == polls[|polls| - 1].cursor
  {
    var all := polls + [p];
    assert all[|polls|] == p && PollAt(clock, all, |polls|) && Chained(all, |polls|);
  }

  /** Among the polls that may follow, the k-th is made in time and fetches the line. */
  ghost predicate ComesAgain(clock: Clock, polls: seq<Poll>, more: seq<Poll>, k: nat, l: Line) {
    k < |more| && Polls(clock, polls + more) && InTime(more[k]) && l in more[k].lines
  }

  lemma NeverAgain(clock: Clock, polls: seq<Poll>, more: seq<Poll>, k: nat, l: Line)
    requires Polls(clock, polls + more) && polls != [] && k < |more| && InTime(more[k])
    requires polls[|polls| - 1].cursor > 0 && l.at < polls[|polls| - 1].cursor * MS
    ensures l !in more[k].lines
  {
    var all, n := polls + more, |polls| - 1;
    assert all[n] == polls[n] && all[n + 1 + k] == more[k];
    KeptOut(clock, all, n, n + 1 + k, l);
  }

  lemma NextFetches(clock: Clock, polls: seq<Poll>, l: Line, p: Poll)
    requires Polls(clock, polls) && polls != [] && StampIsTime(clock, l)
    requires polls[|polls| - 1].cursor <= 0 || l.at >= polls[|polls| - 1].cursor * MS
    requires p == PollFor(clock, polls[|polls| - 1].cursor, Some(l.at + SECOND), l.at, l)
    ensures ComesAgain(clock, polls, [p], 0, l)
  {
    InWindowNow(p.since, l.at);
    PollForIs(clock, polls, p, p.dispatchedAt, l);
    assert [p][0] == p && InTime(p);
  }

  lemma InWindowNow(since: int, at: int)
    requires since <= 0 || at >= since * MS
    ensures StartOf(since, Some(at + SECOND), at) <= at
  {
  }

  /**
    Whatever the line, and whether the last page delivered it, dropped it or never had it: all later
    polls made in time leave it out exactly when it was received before the cursor that page returned.
  */
  lemma KeptOutIff(clock: Clock, polls: seq<Poll>, l: Line)
    requires Polls(clock, polls) && polls != [] && StampIsTime(clock, l)
    ensures var cursor := polls[|polls| - 1].cursor;
            (forall more, k: nat :: !ComesAgain(clock, polls, more, k, l)) <==> cursor > 0 && l.at < cursor * MS
  {
    var cursor := polls[|polls| - 1].cursor;
    if cursor > 0 && l.at < cursor * MS {
      forall more, k: nat | ComesAgain(clock, polls, more, k, l)
        ensures false
      {
        NeverAgain(clock, polls, more, k, l);
      }
    } else {
      NextFetches(clock, polls, l, PollFor(clock, cursor, Some(l.at + SECOND), l.at, l));
    }
  }

  // ---- Lines stamped when they are received ------------------------------------------

  /** The timestamp of the event, if it can be read, is not before the moment its line was received. */
  ghost predicate NotLate(clock: Clock, l: Line) {
    clock(Stamped(l).ts).Some? ==> l.at / MS <= clock(Stamped(l).ts).value
  }

  lemma {:induction false} DedupFrom(s: seq<Event>)
    ensures forall e :: e in Dedup(s) ==> e in s
  {
    if s != [] { DedupFrom(s[..|s| - 1]); }
  }

  lemma PageFrom(lines: seq<Line>, limit: nat, e: Event) returns (l: Line)
    requires e in PageOf(lines, limit)
    ensures l in lines && e == Stamped(l)
  {
    var events := Map(Stamped, lines);
    assert e in Delivered(lines);
    DedupFrom(SortEvents(events));
    SortInOrder(events);
    assert e in multiset(SortEvents(events)) && e in multiset(events);
    var i :| 0 <= i < |events| && events[i] == e;
    l := lines[i];
  }

  /** A delivered line that was not received after its timestamp is not fetched again. */
  lemma NeverFetchedAgain(clock: Clock, polls: seq<Poll>, i: nat, j: nat, l: Line)
    requires Polls(clock, polls) && i < j < |polls| && InTime(polls[j])
    requires Stamped(l) in PageOf(polls[i].lines, polls[i].limit) && NotLate(clock, l)
    requires clock(Stamped(l).ts).Some? && clock(Stamped(l).ts).value >= 0
    ensures l !in polls[j].lines
  {
    assert PollAt(clock, polls, i);
    KeptOut(clock, polls, i, j, l);
  }

  /**
    When no line of a later poll was received after its timestamp, everything that poll delivers lies
    in a later millisecond than what was delivered before.
  */
  lemma NeverRepeated(clock: Clock, polls: seq<Poll>, i: nat, e: Event, j: nat, f: Event)
    requires Polls(clock, polls) && i < j < |polls| && InTime(polls[j])
    requires e in PageOf(polls[i].lines, polls[i].limit) && f in PageOf(polls[j].lines, polls[j].limit)
    requires clock(e.ts).Some? && clock(f.ts).Some? && clock(e.ts).value >= 0
    requires forall l :: l in polls[j].lines ==> NotLate(clock, l)
    ensures clock(e.ts).value < clock(f.ts).value
  {
    assert PollAt(clock, polls, i) && PollAt(clock, polls, j);
    CursorNeverDecreases(clock, polls, i, j);
    var l := PageFrom(polls[j].lines, polls[j].limit, f);
    assert InWindow(polls[j], l);
  }

  // ---- Runs in which lines come twice or never ---------------------------------------

  lemma PageOfOne(l: Line)
    ensures PageOf([l], 1) == [Stamped(l)]
  {
    var e := Stamped(l);
    assert Map(Stamped, [l]) == [] + [e] && [e][..0] == [];
    assert SortEvents([e]) == [e];
    DedupShort([e]);
  }

  lemma TwoPolls(clock: Clock, p: Poll, q: Poll)
    requires IsPoll(clock, p) && IsPoll(clock, q) && q.since == p.cursor
    ensures Polls(clock, [p] + [q])
  {
    FirstPoll(clock, p);
    PollsMore(clock, [p], q);
  }

  lemma FirstPoll(clock: Clock, p: Poll)
    requires IsPoll(clock, p)
    ensures Polls(clock, [p])
  {
    assert [p][0] == p;
  }

  lemma OnePoll(clock: Clock, p: Poll, e: Event)
    requires 0 < p.limit <= DEFAULT_LIMIT && |p.lines| <= p.limit + 1
    requires forall l :: l in p.lines ==> InWindow(p, l) && StampIsTime(clock, l)
    requires PageOf(p.lines, p.limit) == [e] && clock(e.ts) == Some(100) && p.since <= p.cursor == 101
    ensures IsPoll(clock, p)
  {
    assert [e][0] == e;
  }

  /** An event stamped at 100 ms on a line received at 105 ms is delivered by two polls in a row. */
  lemma DeliveredTwice(clock: Clock, l: Line, p: Poll, q: Poll)
    requires clock(l.event.ts) == Some(100) && l.event.ts != "" && l.at == 105 * MS && l.stamp == ""
    requires p == Poll(1, None, 200 * MS, [l], 1, 101) && q == Poll(101, None, 300 * MS, [l], 1, 101)
    ensures Polls(clock, [p] + [q]) && InTime(p) && InTime(q)
    ensures PageOf(p.lines, p.limit) == PageOf(q.lines, q.limit) == [l.event]
  {
    PageOfOne(l);
    OnePoll(clock, p, l.event);
    OnePoll(clock, q, l.event);
    TwoPolls(clock, p, q);
  }

  /**
    The cursor is ahead of the service's clock: the next poll asks for the last thirty days and delivers
    the line again.
  */
  lemma AheadOfClock(clock: Clock, l: Line, p: Poll, q: Poll)
    requires clock(l.event.ts) == Some(100) && l.event.ts != "" && l.at == 100 * MS && l.stamp == ""
    requires p == Poll(1, None, 100 * MS, [l], 1, 101) && q == Poll(101, None, 100 * MS, [l], 1, 101)
    ensures Polls(clock, [p] + [q]) && NotLate(clock, l) && !InTime(q)
    ensures PageOf(p.lines, p.limit) == PageOf(q.lines, q.limit) == [l.event]
  {
    PageOfOne(l);
    OnePoll(clock, p, l.event);
    OnePoll(clock, q, l.event);
    TwoPolls(clock, p, q);
  }

  lemma PageOfTwo(k: Line, l: Line)
    requires Stamped(k).ts == Stamped(l).ts && 0 < Stamped(k).seqNo < Stamped(l).seqNo
    ensures PageOf([k, l], 1) == [Stamped(k)]
  {
    var d, e := Stamped(k), Stamped(l);
    assert Map(Stamped, [k, l]) == [d] + [e];
    assert [d][..0] == [] && SortEvents([d]) == [d];
    assert ([d] + [e])[..1] == [d];
    assert SortEvents([d] + [e]) == [d] + [e];
    DedupShort([d]);
    assert Dedup([d] + [e]) == [d] + [e];
  }

  /** Of two lines of one millisecond a page of one delivers the first, and no later poll made in time the second. */
  lemma SecondIsLost(clock: Clock, k: Line, l: Line, p: Poll)
    requires k.event.ts != "" && l.event.ts == k.event.ts && clock(k.event.ts) == Some(100)
    requires 0 < k.event.seqNo < l.event.seqNo && k.at == l.at == 100 * MS && k.stamp == l.stamp == ""
    requires p == Poll(1, None, 200 * MS, [k, l], 1, 101)
    ensures Polls(clock, [p]) && PageOf(p.lines, p.limit) == [k.event]
    ensures forall more, n: nat :: !ComesAgain(clock, [p], more, n, l)
  {
    PageOfTwo(k, l);
    OnePoll(clock, p, k.event);
    FirstPoll(clock, p);
    KeptOutIff(clock, [p], l);
  }
}
