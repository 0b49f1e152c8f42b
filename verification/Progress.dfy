/** The progress stream of a task: log events sorted, deduplicated and paged by a millisecond cursor. */
module Progress {
  import opened Strings
  import opened Wrappers

  datatype Event = Event(ts: string, seqNo: int, kind: string, step: string, phase: string, message: string)

  type Key = (string, int)

  function KeyOf(e: Event): Key {
    (e.ts, e.seqNo)
  }

  // ---- Sorting -----------------------------------------------------------------

  /** By timestamp text, then by sequence number. */
  predicate Leq(a: Key, b: Key) {
    if a.0 != b.0 then LexLeq(a.0, b.0) else a.1 <= b.1
  }

  predicate InOrder(s: seq<Event>) {
    forall i, j :: 0 <= i < j < |s| ==> Leq(KeyOf(s[i]), KeyOf(s[j]))
  }

  /** Puts e after everything that is not greater. */
  function InsertEvent(s: seq<Event>, e: Event): seq<Event> {
    if s == [] || Leq(KeyOf(s[|s| - 1]), KeyOf(e)) then s + [e]
    else InsertEvent(s[..|s| - 1], e) + [s[|s| - 1]]
  }

  /** `sortEvents`: a stable sort. */
  function SortEvents(s: seq<Event>): seq<Event> {
    if s == [] then [] else InsertEvent(SortEvents(s[..|s| - 1]), s[|s| - 1])
  }

  /** The events with one key, in order. */
  function WithKey(s: seq<Event>, k: Key): seq<Event> {
    if s == [] then []
    else
      var rest := WithKey(s[..|s| - 1], k);
      if KeyOf(s[|s| - 1]) == k then rest + [s[|s| - 1]] else rest
  }

  lemma LeqTotal(a: Key, b: Key)
    ensures Leq(a, b) || Leq(b, a)
  {
    LexTotal(a.0, b.0);
  }

  lemma LeqTransitive(a: Key, b: Key, c: Key)
    requires Leq(a, b) && Leq(b, c)
    ensures Leq(a, c)
  {
    if a.0 != b.0 && b.0 != c.0 {
      LexTransitive(a.0, b.0, c.0);
      if a.0 == c.0 { LexAntisymmetric(a.0, b.0); }
    }
  }

  lemma LeqAntisymmetric(a: Key, b: Key)
    requires Leq(a, b) && Leq(b, a)
    ensures a == b
  {
    if a.0 != b.0 { LexAntisymmetric(a.0, b.0); }
  }

  lemma {:induction false} WithKeyMore(s: seq<Event>, e: Event, k: Key)
    ensures WithKey(s + [e], k) == if KeyOf(e) == k then WithKey(s, k) + [e] else WithKey(s, k)
  {
    assert (s + [e])[..|s|] == s;
  }

  lemma {:induction false} InsertInOrder(s: seq<Event>, e: Event)
    requires InOrder(s)
    ensures InOrder(InsertEvent(s, e)) && multiset(InsertEvent(s, e)) == multiset(s) + multiset{e}
  {
    if s != [] {
      var n := |s| - 1;
      assert s == s[..n] + [s[n]];
      if Leq(KeyOf(s[n]), KeyOf(e)) {
        forall i | 0 <= i < n
          ensures Leq(KeyOf(s[i]), KeyOf(e))
        {
          LeqTransitive(KeyOf(s[i]), KeyOf(s[n]), KeyOf(e));
        }
      } else {
        InsertInOrder(s[..n], e);
        LeqTotal(KeyOf(s[n]), KeyOf(e));
        var t := InsertEvent(s[..n], e);
        forall i | 0 <= i < |t|
          ensures Leq(KeyOf(t[i]), KeyOf(s[n]))
        {
          assert t[i] in multiset(t);
          if t[i] != e { assert t[i] in s[..n]; }
        }
      }
    }
  }

  lemma {:induction false} InsertWithKey(s: seq<Event>, e: Event, k: Key)
    requires InOrder(s)
    ensures WithKey(InsertEvent(s, e), k) == if KeyOf(e) == k then WithKey(s, k) + [e] else WithKey(s, k)
  {
    if s == [] || Leq(KeyOf(s[|s| - 1]), KeyOf(e)) {
      WithKeyMore(s, e, k);
    } else {
      var n := |s| - 1;
      InsertWithKey(s[..n], e, k);
      WithKeyMore(InsertEvent(s[..n], e), s[n], k);
      if KeyOf(s[n]) == k && KeyOf(e) == k { LeqTotal(k, k); }
    }
  }

  lemma {:induction false} SortInOrder(s: seq<Event>)
    ensures InOrder(SortEvents(s)) && multiset(SortEvents(s)) == multiset(s)
  {
    if s != [] {
      var n := |s| - 1;
      SortInOrder(s[..n]);
      InsertInOrder(SortEvents(s[..n]), s[n]);
      assert s == s[..n] + [s[n]];
    }
  }

  lemma {:induction false} SortWithKey(s: seq<Event>, k: Key)
    ensures WithKey(SortEvents(s), k) == WithKey(s, k)
  {
    if s != [] {
      var n := |s| - 1;
      SortWithKey(s[..n], k);
      SortInOrder(s[..n]);
      InsertWithKey(SortEvents(s[..n]), s[n], k);
    }
  }

  /** The sort orders the events and keeps those of each key in their order. */
  lemma {:induction false} SortIsStable(s: seq<Event>, k: Key)
    ensures InOrder(SortEvents(s)) && multiset(SortEvents(s)) == multiset(s)
    ensures WithKey(SortEvents(s), k) == WithKey(s, k)
  {
    SortInOrder(s);
    SortWithKey(s, k);
  }

  /** So an earlier event has the earlier time text, or the same and no greater number. */
  lemma {:induction false} SortedByTime(s: seq<Event>, i: nat, j: nat)
    requires i < j < |SortEvents(s)|
    ensures var a, b := SortEvents(s)[i], SortEvents(s)[j];
            ComesBefore(a.ts, b.ts) && (a.ts == b.ts ==> a.seqNo <= b.seqNo)
  {
    SortInOrder(s);
    var a, b := SortEvents(s)[i], SortEvents(s)[j];
    assert Leq(KeyOf(a), KeyOf(b));
    LexIff(a.ts, b.ts);
  }

  // ---- Deduplication -------------------------------------------------------------

  predicate Repeats(e: Event, prev: Event) {
    e.ts == prev.ts && e.seqNo == prev.seqNo && e.seqNo != 0
  }

  function Dedup(s: seq<Event>): (d: seq<Event>)
    ensures s != [] ==> d != []
  {
    if s == [] then []
    else
      var d, e := Dedup(s[..|s| - 1]), s[|s| - 1];
      if d != [] && Repeats(e, d[|d| - 1]) then d else d + [e]
  }

  lemma {:induction false} DedupLength(s: seq<Event>)
    ensures |Dedup(s)| <= |s|
  {
    if s != [] { DedupLength(s[..|s| - 1]); }
  }

  /** The first i of the events s are compacted into the first n positions. */
  ghost predicate Compacted(now: seq<Event>, s: seq<Event>, n: nat, i: nat) {
    1 <= n <= i <= |s| == |now| && now[..n] == Dedup(s[..i]) && now[n..] == s[n..]
  }

  /** `dedupOnTsSeq`: compacts the survivors to the front of the same array; what lies behind them stays. */
  method DedupOnTsSeq(a: array<Event>) returns (n: nat)
    modifies a
    ensures n <= a.Length && a[..n] == Dedup(old(a[..])) && a[n..] == old(a[n..])
  {
    ghost var s := a[..];
    if a.Length < 2 {
      DedupShort(s);
      return a.Length;
    }
    n := 1;
    DedupShort(s[..1]);
    for i := 1 to a.Length
      invariant Compacted(a[..], s, n, i)
    {
      var prev, cur := a[n - 1], a[i];
      ghost var now := a[..];
      if Repeats(cur, prev) {
        SkipEvent(now, s, n, i);
        continue;
      }
      KeepEvent(now, s, n, i);
      a[n] := cur;
      assert a[..] == now[n := cur];
      n := n + 1;
    }
    assert s[..a.Length] == s;
  }

  lemma {:induction false} DedupShort(s: seq<Event>)
    requires |s| < 2
    ensures Dedup(s) == s
  {
    if s != [] { assert s[..|s| - 1] == [] && s == [s[0]]; }
  }

  lemma SkipEvent(now: seq<Event>, s: seq<Event>, n: nat, i: nat)
    requires Compacted(now, s, n, i) && i < |s| && Repeats(now[i], now[n - 1])
    ensures Compacted(now, s, n, i + 1)
  {
    assert s[..i + 1][..i] == s[..i];
    assert now[i] == now[n..][i - n] == s[i];
    assert now[n - 1] == now[..n][n - 1];
  }

  lemma KeepEvent(now: seq<Event>, s: seq<Event>, n: nat, i: nat)
    requires Compacted(now, s, n, i) && i < |s| && !Repeats(now[i], now[n - 1])
    ensures Compacted(now[n := now[i]], s, n + 1, i + 1)
  {
    assert s[..i + 1][..i] == s[..i];
    assert now[i] == now[n..][i - n] == s[i];
    assert now[n - 1] == now[..n][n - 1];
    var next := now[n := now[i]];
    assert next[..n + 1] == now[..n] + [s[i]];
    assert next[n + 1..] == now[n..][1..] == s[n + 1..];
  }

  function AtMostOne(s: seq<Event>): seq<Event> {
    if s == [] then [] else [s[0]]
  }

  lemma {:induction false} LastSurvivor(s: seq<Event>)
    requires s != []
    ensures KeyOf(Dedup(s)[|Dedup(s)| - 1]) == KeyOf(s[|s| - 1])
  {
  }

  lemma {:induction false} WithKeyEmptyIff(s: seq<Event>, k: Key)
    ensures WithKey(s, k) == [] <==> forall i :: 0 <= i < |s| ==> KeyOf(s[i]) != k
  {
    if s != [] {
      var n := |s| - 1;
      WithKeyEmptyIff(s[..n], k);
      assert forall i :: 0 <= i < n ==> s[..n][i] == s[i];
    }
  }

  lemma Sandwich(a: Key, b: Key, c: Key)
    requires Leq(a, b) && Leq(b, c) && a == c
    ensures b == c
  {
    LeqAntisymmetric(b, c);
  }

  lemma SeenAtIsLast(all: seq<Event>, i: nat)
    requires InOrder(all) && i < |all| - 1 && KeyOf(all[i]) == KeyOf(all[|all| - 1])
    ensures KeyOf(all[|all| - 2]) == KeyOf(all[|all| - 1])
  {
    var n := |all| - 2;
    OrderedPair(all, n, n + 1);
    if i < n {
      OrderedPair(all, i, n);
      Sandwich(KeyOf(all[i]), KeyOf(all[n]), KeyOf(all[n + 1]));
    }
  }

  /** In sorted events a key seen before is the key of the last event. */
  lemma {:induction false} SeenIsLast(s: seq<Event>, e: Event)
    requires InOrder(s + [e]) && WithKey(s, KeyOf(e)) != []
    ensures s != [] && KeyOf(s[|s| - 1]) == KeyOf(e)
  {
    WithKeyEmptyIff(s, KeyOf(e));
    var i :| 0 <= i < |s| && KeyOf(s[i]) == KeyOf(e);
    SeenAtIsLast(s + [e], i);
  }

  lemma OrderedPair(s: seq<Event>, i: nat, j: nat)
    requires InOrder(s) && i < j < |s|
    ensures Leq(KeyOf(s[i]), KeyOf(s[j]))
  {
  }

  /** A further event repeats the last survivor exactly when it has a sequence number and its key was seen. */
  lemma {:induction false} RepeatsIffSeen(s: seq<Event>, e: Event)
    requires s != [] && InOrder(s + [e])
    ensures Repeats(e, Dedup(s)[|Dedup(s)| - 1]) <==> e.seqNo != 0 && WithKey(s, KeyOf(e)) != []
  {
    LastSurvivor(s);
    WithKeyEmptyIff(s, KeyOf(e));
    if WithKey(s, KeyOf(e)) != [] { SeenIsLast(s, e); }
  }

  lemma {:induction false} DedupNext(s: seq<Event>, e: Event)
    requires InOrder(s + [e])
    ensures Dedup(s + [e]) == if e.seqNo != 0 && WithKey(s, KeyOf(e)) != [] then Dedup(s) else Dedup(s) + [e]
  {
    assert (s + [e])[..|s|] == s;
    if s != [] { RepeatsIffSeen(s, e); }
  }

  /** Of sorted events the first of each key survives, and every event without a sequence number. */
  lemma {:induction false} DedupKeepsFirst(s: seq<Event>, k: Key)
    requires InOrder(s)
    ensures WithKey(Dedup(s), k) == if k.1 == 0 then WithKey(s, k) else AtMostOne(WithKey(s, k))
  {
    if s != [] {
      var before, e := s[..|s| - 1], s[|s| - 1];
      assert s == before + [e];
      DedupKeepsFirst(before, k);
      DedupNext(before, e);
      WithKeyMore(before, e, k);
      WithKeyMore(Dedup(before), e, k);
    }
  }

  /**
    `parseAndSort` after parsing: whatever order the lines come in, the events with a
    sequence number are delivered once, the first of each key, and the others all.
  */
  lemma {:induction false} DeliveredOnce(s: seq<Event>, k: Key)
    ensures InOrder(Dedup(SortEvents(s)))
    ensures WithKey(Dedup(SortEvents(s)), k) == if k.1 == 0 then WithKey(s, k) else AtMostOne(WithKey(s, k))
  {
    SortIsStable(s, k);
    DedupKeepsFirst(SortEvents(s), k);
    DedupInOrder(SortEvents(s));
  }

  lemma {:induction false} DedupInOrder(s: seq<Event>)
    requires InOrder(s)
    ensures InOrder(Dedup(s))
  {
    if s != [] {
      var before, e := s[..|s| - 1], s[|s| - 1];
      DedupInOrder(before);
      var d := Dedup(before);
      if before != [] {
        LastSurvivor(before);
        forall i | 0 <= i < |d|
          ensures Leq(KeyOf(d[i]), KeyOf(e))
        {
          if i < |d| - 1 { LeqTransitive(KeyOf(d[i]), KeyOf(d[|d| - 1]), KeyOf(e)); }
        }
      }
    }
  }

  // ---- The cursor ----------------------------------------------------------------

  /** Parses a timestamp to Unix milliseconds; nothing for the empty or a malformed one. */
  type Clock = string -> Option<int>

  ghost predicate IsNextCursor(clock: Clock, events: seq<Event>, fallback: int, cursor: int) {
    && cursor >= fallback
    && (forall i :: 0 <= i < |events| && clock(events[i].ts).Some? ==> clock(events[i].ts).value < cursor)
    && (cursor == fallback || exists i :: 0 <= i < |events| && clock(events[i].ts) == Some(cursor - 1))
  }

  /** `nextCursor`. */
  method NextCursor(clock: Clock, events: seq<Event>, fallback: int) returns (cursor: int)
    ensures IsNextCursor(clock, events, fallback, cursor)
  {
    cursor := fallback;
    for i := 0 to |events|
      invariant IsNextCursor(clock, events[..i], fallback, cursor)
    {
      var t := clock(events[i].ts);
      assert forall j :: 0 <= j < i ==> events[..i + 1][j] == events[..i][j];
      assert events[..i + 1][i] == events[i];
      if t.None? { continue; }
      if t.value + 1 > cursor { cursor := t.value + 1; }
    }
    assert events[..|events|] == events;
  }

  /** The cursor the scan computes. */
  function CursorAfter(clock: Clock, events: seq<Event>, fallback: int): int {
    if events == [] then fallback
    else
      var cursor := CursorAfter(clock, events[..|events| - 1], fallback);
      match clock(events[|events| - 1].ts)
      case Some(t) => if t + 1 > cursor then t + 1 else cursor
      case None => cursor
  }

  lemma {:induction false} CursorAfterIs(clock: Clock, events: seq<Event>, fallback: int)
    ensures IsNextCursor(clock, events, fallback, CursorAfter(clock, events, fallback))
  {
    if events != [] {
      var n := |events| - 1;
      CursorAfterIs(clock, events[..n], fallback);
      assert forall i :: 0 <= i < n ==> events[..n][i] == events[i];
    }
  }

  /** `lastPhase`: the phase of the last event that carries one. */
  method LastPhase(events: seq<Event>) returns (phase: string)
    ensures phase == "" <==> forall i :: 0 <= i < |events| ==> events[i].kind != "phase" || events[i].phase == ""
    ensures phase != "" ==> exists i :: 0 <= i < |events| && events[i].kind == "phase" && events[i].phase == phase
                                        && forall j :: i < j < |events| ==>
                                          events[j].kind != "phase" || events[j].phase == ""
  {
    var i := |events|;
    while i > 0
      invariant 0 <= i <= |events|
      invariant forall j :: i <= j < |events| ==> events[j].kind != "phase" || events[j].phase == ""
    {
      i := i - 1;
      if events[i].kind == "phase" && events[i].phase != "" {
        return events[i].phase;
      }
    }
    return "";
  }

  // ---- Build steps ---------------------------------------------------------------

  datatype BuildStep = BuildStep(name: string, phase: string, message: string, startedAt: string, completedAt: string)

  /** `pickStepTs`. */
  function StepTs(s: BuildStep): string {
    if s.completedAt != "" then s.completedAt else s.startedAt
  }

  /** A step's time is when it ended, or else when it started. */
  lemma StepTimes(s: BuildStep)
    ensures s.completedAt != "" ==> StepTs(s) == s.completedAt
    ensures s.completedAt == "" ==> StepTs(s) == s.startedAt
  {
  }

  /** A step is passed over when it has a readable time before a positive cursor. */
  lemma TooOldIff(clock: Clock, s: BuildStep, since: int, time: string)
    requires time == if s.completedAt == "" then s.startedAt else s.completedAt
    ensures TooOld(clock, s, since) <==> since >= 1 && time != "" && exists t :: clock(time) == Some(t) && t < since
  {
  }

  predicate TooOld(clock: Clock, s: BuildStep, since: int) {
    StepTs(s) != "" && since > 0 && clock(StepTs(s)).Some? && clock(StepTs(s)).value < since
  }

  function PhaseOf(seen: map<string, string>, name: string): string {
    if name in seen then seen[name] else ""
  }

  function Observe(seen: map<string, string>, steps: seq<BuildStep>): map<string, string> {
    if steps == [] then seen
    else Observe(seen, steps[..|steps| - 1])[steps[|steps| - 1].name := steps[|steps| - 1].phase]
  }

  /** The steps a poll reports: their phase is not the one observed before, and they are not too old. */
  function Reported(clock: Clock, seen: map<string, string>, steps: seq<BuildStep>, since: int): seq<BuildStep> {
    if steps == [] then []
    else
      var n := |steps| - 1;
      var rest, s := Reported(clock, seen, steps[..n], since), steps[n];
      if PhaseOf(Observe(seen, steps[..n]), s.name) == s.phase || TooOld(clock, s, since) then rest else rest + [s]
  }

  function StepEvent(s: BuildStep, seqNo: int): Event {
    Event(StepTs(s), seqNo, "build_step", s.name, s.phase, s.message)
  }

  lemma EventFields(s: BuildStep, seqNo: int)
    ensures var e := StepEvent(s, seqNo);
            && e.kind == "build_step" && e.step == s.name && e.phase == s.phase && e.message == s.message
            && e.seqNo == seqNo && e.ts == (if s.completedAt == "" then s.startedAt else s.completedAt)
  {
  }

  /** The events of the reported steps, numbered on from the last number used. */
  function Numbered(steps: seq<BuildStep>, last: int): seq<Event> {
    if steps == [] then []
    else Numbered(steps[..|steps| - 1], last) + [StepEvent(steps[|steps| - 1], last + |steps|)]
  }

  lemma {:induction false} NumberedOn(steps: seq<BuildStep>, last: int, i: nat)
    requires i < |steps|
    ensures |Numbered(steps, last)| == |steps| && Numbered(steps, last)[i] == StepEvent(steps[i], last + 1 + i)
  {
    var n := |steps| - 1;
    if i < n { NumberedOn(steps[..n], last, i); } else if n > 0 { NumberedOn(steps[..n], last, 0); }
  }

  /** Two observations agree on the phase of every step. */
  ghost predicate SamePhases(a: map<string, string>, b: map<string, string>) {
    forall name :: PhaseOf(a, name) == PhaseOf(b, name)
  }

  /** What the loop has collected after i steps. */
  ghost predicate Collected(
    clock: Clock, seen: map<string, string>, steps: seq<BuildStep>, since: int, last: int, i: nat,
                            now: map<string, string>, buildSeq: int, out: seq<Event>)
    requires i <= |steps|
  {
    var reported := Reported(clock, seen, steps[..i], since);
    SamePhases(now, Observe(seen, steps[..i])) && out == Numbered(reported, last) && buildSeq == last + |reported|
  }

  /** The loop of `diffBuildSteps` over the steps of a run. */
  method CollectChanged(clock: Clock, seen: map<string, string>, steps: seq<BuildStep>, since: int, last: int)
    returns (taskSteps: map<string, string>, buildSeq: int, out: seq<Event>)
    ensures Collected(clock, seen, steps, since, last, |steps|, taskSteps, buildSeq, out)
  {
    taskSteps, buildSeq, out := seen, last, [];
    for i := 0 to |steps|
      invariant Collected(clock, seen, steps, since, last, i, taskSteps, buildSeq, out)
    {
      var step := steps[i];
      CollectNext(clock, seen, steps, since, last, i, taskSteps, buildSeq, out);
      if PhaseOf(taskSteps, step.name) == step.phase { continue; }
      taskSteps := taskSteps[step.name := step.phase];
      if TooOld(clock, step, since) { continue; }
      buildSeq := buildSeq + 1;
      out := out + [StepEvent(step, buildSeq)];
    }
  }

  lemma CollectNext(clock: Clock, seen: map<string, string>, steps: seq<BuildStep>, since: int, last: int, i: nat,
                    now: map<string, string>, buildSeq: int, out: seq<Event>)
    requires i < |steps| && Collected(clock, seen, steps, since, last, i, now, buildSeq, out)
    ensures
      var s, next := steps[i], now[steps[i].name := steps[i].phase];
      if PhaseOf(now, s.name) == s.phase then Collected(clock, seen, steps, since, last, i + 1, now, buildSeq, out)
      else if TooOld(clock, s, since) then Collected(clock, seen, steps, since, last, i + 1, next, buildSeq, out)
      else Collected(clock, seen, steps, since, last, i + 1, next, buildSeq + 1, out + [StepEvent(s, buildSeq + 1)])
  {
    ObserveNext(seen, steps, i, now);
    ReportNext(clock, seen, steps, since, i, now);
    NumberedMore(Reported(clock, seen, steps[..i], since), steps[i], last);
  }

  class ProgressService {
    var stepSeen: map<string, map<string, string>>
    var buildSeq: int

    constructor ()
      ensures stepSeen == map[] && buildSeq == 0
    {
      stepSeen, buildSeq := map[], 0;
    }

    ghost function Seen(task: string): map<string, string>
      reads this
    {
      if task in stepSeen then stepSeen[task] else map[]
    }

    /** `diffBuildSteps`. */
    method DiffBuildSteps(clock: Clock, task: string, steps: seq<BuildStep>, since: int) returns (events: seq<Event>)
      modifies this
      ensures SamePhases(Seen(task), Observe(old(Seen(task)), steps))
      ensures forall t :: t != task ==> Seen(t) == old(Seen(t))
      ensures events == SortEvents(Numbered(Reported(clock, old(Seen(task)), steps, since), old(buildSeq)))
      ensures buildSeq == old(buildSeq) + |Reported(clock, old(Seen(task)), steps, since)|
    {
      if task !in stepSeen { stepSeen := stepSeen[task := map[]]; }
      var taskSteps, out;
      taskSteps, buildSeq, out := CollectChanged(clock, stepSeen[task], steps, since, buildSeq);
      assert steps[..|steps|] == steps;
      stepSeen := stepSeen[task := taskSteps];
      events := SortEvents(out);
    }

    /** `evictStepSeen`. */
    method EvictStepSeen(task: string)
      modifies this`stepSeen
      ensures Seen(task) == map[] && forall t :: t != task ==> Seen(t) == old(Seen(t))
    {
      stepSeen := stepSeen - {task};
    }

    /** `GetBuildProgress`, from the steps of the run on: a completed run's phases are forgotten. */
    method GetBuildProgress(clock: Clock, task: string, steps: seq<BuildStep>, completed: bool, since: int)
      returns (events: seq<Event>, cursor: int)
      modifies this
      ensures events == SortEvents(Numbered(Reported(clock, old(Seen(task)), steps, since), old(buildSeq)))
      ensures IsNextCursor(clock, events, since, cursor)
      ensures buildSeq == old(buildSeq) + |Reported(clock, old(Seen(task)), steps, since)|
      ensures if completed then Seen(task) == map[] else SamePhases(Seen(task), Observe(old(Seen(task)), steps))
      ensures forall t :: t != task ==> Seen(t) == old(Seen(t))
    {
      events := DiffBuildSteps(clock, task, steps, since);
      cursor := NextCursor(clock, events, since);
      if completed { EvictStepSeen(task); }
    }
  }

  lemma {:induction false} NumberedMore(steps: seq<BuildStep>, s: BuildStep, last: int)
    ensures Numbered(steps + [s], last) == Numbered(steps, last) + [StepEvent(s, last + |steps| + 1)]
  {
    assert (steps + [s])[..|steps|] == steps;
  }

  lemma {:induction false} ObserveNext(
    seen: map<string, string>, steps: seq<BuildStep>, i: nat, now: map<string, string>)
    requires i < |steps| && SamePhases(now, Observe(seen, steps[..i]))
    ensures SamePhases(now[steps[i].name := steps[i].phase], Observe(seen, steps[..i + 1]))
    ensures PhaseOf(now, steps[i].name) == steps[i].phase ==> SamePhases(now, Observe(seen, steps[..i + 1]))
  {
    assert steps[..i + 1][..i] == steps[..i];
    var next := Observe(seen, steps[..i + 1]);
    forall name
      ensures PhaseOf(next, name) == if name == steps[i].name then steps[i].phase else PhaseOf(now, name)
    {
      assert PhaseOf(now, name) == PhaseOf(Observe(seen, steps[..i]), name);
    }
  }

  lemma {:induction false} ReportNext(
    clock: Clock, seen: map<string, string>, steps: seq<BuildStep>, since: int, i: nat, now: map<string, string>)
    requires i < |steps| && SamePhases(now, Observe(seen, steps[..i]))
    ensures Reported(clock, seen, steps[..i + 1], since) ==
            if PhaseOf(now, steps[i].name) == steps[i].phase || TooOld(clock, steps[i], since)
            then Reported(clock, seen, steps[..i], since)
            else Reported(clock, seen, steps[..i], since) + [steps[i]]
  {
    assert steps[..i + 1][..i] == steps[..i];
    assert PhaseOf(now, steps[i].name) == PhaseOf(Observe(seen, steps[..i]), steps[i].name);
  }

  lemma {:induction false} ObservedLast(seen: map<string, string>, steps: seq<BuildStep>, i: nat)
    requires i < |steps| && forall j, k :: 0 <= j < k < |steps| ==> steps[j].name != steps[k].name
    ensures PhaseOf(Observe(seen, steps), steps[i].name) == steps[i].phase
  {
    var n := |steps| - 1;
    if i < n { ObservedLast(seen, steps[..n], i); }
  }

  lemma {:induction false} ObserveElsewhere(seen: map<string, string>, steps: seq<BuildStep>, name: string)
    requires forall i :: 0 <= i < |steps| ==> steps[i].name != name
    ensures PhaseOf(Observe(seen, steps), name) == PhaseOf(seen, name)
  {
    if steps != [] { ObserveElsewhere(seen, steps[..|steps| - 1], name); }
  }

  /** Of steps with distinct names, a poll reports exactly those in a new phase that are not too old. */
  lemma {:induction false} ReportedIff(
    clock: Clock, seen: map<string, string>, steps: seq<BuildStep>, since: int, i: nat)
    requires i < |steps| && forall j, k :: 0 <= j < k < |steps| ==> steps[j].name != steps[k].name
    ensures steps[i] in Reported(clock, seen, steps, since) <==>
            PhaseOf(seen, steps[i].name) != steps[i].phase && !TooOld(clock, steps[i], since)
  {
    var n := |steps| - 1;
    ReportedAmong(clock, seen, steps[..n], since);
    if i == n {
      ObserveElsewhere(seen, steps[..n], steps[n].name);
    } else {
      ReportedIff(clock, seen, steps[..n], since, i);
    }
  }

  lemma {:induction false} ReportedAmong(clock: Clock, seen: map<string, string>, steps: seq<BuildStep>, since: int)
    ensures forall s :: s in Reported(clock, seen, steps, since) ==> s in steps
  {
    if steps != [] { ReportedAmong(clock, seen, steps[..|steps| - 1], since); }
  }

  lemma {:induction false} NothingNew(clock: Clock, seen: map<string, string>, steps: seq<BuildStep>, since: int)
    requires forall i :: 0 <= i < |steps| ==> PhaseOf(seen, steps[i].name) == steps[i].phase
    ensures SamePhases(Observe(seen, steps), seen) && Reported(clock, seen, steps, since) == []
  {
    if steps != [] {
      NothingNew(clock, seen, steps[..|steps| - 1], since);
      assert PhaseOf(Observe(seen, steps[..|steps| - 1]), steps[|steps| - 1].name) == steps[|steps| - 1].phase;
    }
  }

  /**
    A run whose steps have not moved on since the last poll, and whose phases were kept, reports
    nothing, whatever the cursor.
  */
  lemma {:induction false} UnchangedRunIsQuiet(
    clock: Clock, seen: map<string, string>, now: map<string, string>, steps: seq<BuildStep>, since: int)
    requires forall j, k :: 0 <= j < k < |steps| ==> steps[j].name != steps[k].name
    requires SamePhases(now, Observe(seen, steps))
    ensures Reported(clock, now, steps, since) == []
  {
    forall i | 0 <= i < |steps|
      ensures PhaseOf(now, steps[i].name) == steps[i].phase
    {
      ObservedLast(seen, steps, i);
    }
    NothingNew(clock, now, steps, since);
  }

  predicate Untimed(clock: Clock, s: BuildStep) {
    StepTs(s) == "" || clock(StepTs(s)).None?
  }

  lemma {:induction false} NumberedHas(steps: seq<BuildStep>, last: int, s: BuildStep) returns (e: Event)
    requires s in steps
    ensures e in Numbered(steps, last) && e.ts == StepTs(s)
  {
    var n := |steps| - 1;
    if steps[n] == s {
      e := StepEvent(s, last + |steps|);
    } else {
      e := NumberedHas(steps[..n], last, s);
    }
  }

  lemma {:induction false} ReportedBeforeCursor(
    clock: Clock, reported: seq<BuildStep>, last: int, since: int, cursor: int, s: BuildStep)
    requires IsNextCursor(clock, SortEvents(Numbered(reported, last)), since, cursor)
    requires s in reported && clock(StepTs(s)).Some?
    ensures clock(StepTs(s)).value < cursor
  {
    var e := NumberedHas(reported, last, s);
    SortInOrder(Numbered(reported, last));
    assert e in multiset(Numbered(reported, last)) && e in multiset(SortEvents(Numbered(reported, last)));
  }

  /**
    Once a completed run's phases are forgotten, the next poll reports a step again that this one
    reported exactly when it has a phase and no time that can be read, or the cursor is not positive.
  */
  lemma {:induction false} CompletedRunRepeatsIff(
    clock: Clock, seen: map<string, string>, steps: seq<BuildStep>, since: int, last: int, cursor: int, i: nat)
    requires i < |steps| && forall j, k :: 0 <= j < k < |steps| ==> steps[j].name != steps[k].name
    requires steps[i] in Reported(clock, seen, steps, since)
    requires IsNextCursor(clock, SortEvents(Numbered(Reported(clock, seen, steps, since), last)), since, cursor)
    ensures steps[i] in Reported(clock, map[], steps, cursor) <==>
            steps[i].phase != "" && (Untimed(clock, steps[i]) || cursor <= 0)
  {
    ReportedIff(clock, map[], steps, cursor, i);
    if !Untimed(clock, steps[i]) {
      ReportedBeforeCursor(clock, Reported(clock, seen, steps, since), last, since, cursor, steps[i]);
    }
  }
}
