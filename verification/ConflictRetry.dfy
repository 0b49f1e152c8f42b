/**
  Bounded retries of artifact saves: a token bucket per project, the retry loops that
  draw on it, and how often any number of interleaved saves can re-run their write.
*/
module ConflictRetry {
  datatype Error = Nil | ShaMismatch | RefNotFastForward | TagAlreadyExists | BudgetExhausted | Cancelled | Other

  predicate IsCasConflict(e: Error) {
    e == ShaMismatch || e == RefNotFastForward
  }

  const CAPACITY: int := 6

  /** Nanoseconds: one token every ten seconds. */
  const REFILL_EVERY: int := 10_000_000_000

  const MAX_RETRIES: nat := 3

  datatype Bucket = Bucket(tokens: int, lastRefill: int)

  type Buckets = map<string, Bucket>

  function BucketAt(bs: Buckets, key: string, now: int): Bucket {
    if key in bs then bs[key] else Bucket(CAPACITY, now)
  }

  /** Whole periods since the last refill become tokens; the fraction of a period is lost. */
  function Refilled(b: Bucket, now: int): Bucket {
    var elapsed := now - b.lastRefill;
    if elapsed >= REFILL_EVERY then
      var tokens := b.tokens + elapsed / REFILL_EVERY;
      Bucket(if tokens > CAPACITY then CAPACITY else tokens, now)
    else b
  }

  function Claimed(b: Bucket, now: int): (Bucket, bool) {
    var c := Refilled(b, now);
    if c.tokens <= 0 then (c, false) else (c.(tokens := c.tokens - 1), true)
  }

  function Least(a: int, b: int): int {
    if a < b then a else b
  }

  /**
    The tokens there are for a claim: six at first and at most, and one more for every whole ten seconds
    since the refill.
  */
  function TokensAt(bs: Buckets, key: string, now: int): int {
    if key !in bs then 6
    else if now - bs[key].lastRefill < 10_000_000_000 then bs[key].tokens
    else Least(6, bs[key].tokens + (now - bs[key].lastRefill) / 10_000_000_000)
  }

  /** A claim is granted while there are tokens, takes one, and restarts the clock when it refilled; other keys stay. */
  predicate Draws(before: Buckets, after: Buckets, key: string, now: int, granted: bool) {
    && (granted <==> TokensAt(before, key, now) > 0)
    && after.Keys == before.Keys + {key}
    && after[key].tokens == TokensAt(before, key, now) - (if granted then 1 else 0)
    && after[key].lastRefill ==
       (if key in before && now - before[key].lastRefill < 10_000_000_000 then before[key].lastRefill else now)
    && forall k :: k in before && k != key ==> after[k] == before[k]
  }

  lemma DrawsOne(bs: Buckets, key: string, now: int)
    ensures var (b, granted) := Claimed(BucketAt(bs, key, now), now);
            Draws(bs, bs[key := b], key, now, granted)
  {
  }

  // ---- One bucket over a run of claims ----------------------------------------

  function AfterClaims(b: Bucket, times: seq<int>): Bucket {
    if times == [] then b else Claimed(AfterClaims(b, times[..|times| - 1]), times[|times| - 1]).0
  }

  function Grants(b: Bucket, times: seq<int>): nat {
    if times == [] then 0
    else Grants(b, times[..|times| - 1])
         + if Claimed(AfterClaims(b, times[..|times| - 1]), times[|times| - 1]).1 then 1 else 0
  }

  lemma FloorAdds(a: int, b: int)
    requires a >= 0 && b >= 0
    ensures a / REFILL_EVERY + b / REFILL_EVERY <= (a + b) / REFILL_EVERY
  {
  }

  /** One claim pays for its grant out of the tokens and the whole periods since `since`. */
  lemma ClaimPays(b: Bucket, now: int, since: int)
    requires since <= b.lastRefill
    ensures var (c, granted) := Claimed(b, now);
            && b.lastRefill <= c.lastRefill && (c.lastRefill == b.lastRefill || c.lastRefill == now)
            && (b.tokens >= 0 ==> c.tokens >= 0)
            && c.tokens + (if granted then 1 else 0) + (b.lastRefill - since) / REFILL_EVERY
               <= b.tokens + (c.lastRefill - since) / REFILL_EVERY
  {
    if now - b.lastRefill >= REFILL_EVERY {
      FloorAdds(b.lastRefill - since, now - b.lastRefill);
    }
  }

  /** Upper bound, whatever the order of the clock readings: starting tokens plus whole periods elapsed. */
  lemma {:induction false} GrantsBound(b: Bucket, times: seq<int>, end: int)
    requires b.tokens >= 0 && b.lastRefill <= end && forall i :: 0 <= i < |times| ==> times[i] <= end
    ensures var c := AfterClaims(b, times);
            && c.tokens >= 0 && b.lastRefill <= c.lastRefill <= end
            && Grants(b, times) + c.tokens <= b.tokens + (c.lastRefill - b.lastRefill) / REFILL_EVERY
    ensures Grants(b, times) <= b.tokens + (end - b.lastRefill) / REFILL_EVERY
  {
    if times != [] {
      var n := |times| - 1;
      GrantsBound(b, times[..n], end);
      ClaimPays(AfterClaims(b, times[..n]), times[n], b.lastRefill);
    }
  }

  /** A claim a whole period after the last refill is always granted. */
  lemma OverdueClaimGranted(b: Bucket, now: int)
    requires b.tokens >= 0 && now - b.lastRefill >= REFILL_EVERY
    ensures Claimed(b, now).1 && Claimed(b, now).0.lastRefill == now
  {
  }

  /** The reading before the i-th claim: the claim before it, or the last refill. */
  function Previous(b: Bucket, times: seq<int>, i: nat): int
    requires i <= |times|
  {
    if i == 0 then b.lastRefill else times[i - 1]
  }

  /** Claims no more than d apart, the first no more than d after the last refill. */
  ghost predicate Polling(b: Bucket, times: seq<int>, d: int) {
    forall i :: 0 <= i < |times| ==> Previous(b, times, i) <= times[i] <= Previous(b, times, i) + d
  }

  lemma PollingPrefix(b: Bucket, times: seq<int>, d: int)
    requires Polling(b, times, d) && times != []
    ensures Polling(b, times[..|times| - 1], d)
  {
    var front := times[..|times| - 1];
    forall i | 0 <= i < |front|
      ensures Previous(b, front, i) <= front[i] <= Previous(b, front, i) + d
    {
      assert Previous(b, front, i) == Previous(b, times, i) && front[i] == times[i];
    }
  }

  /**
    A claim d after the previous reading either finds the last refill less than a period old or refills,
    and is granted.
  */
  lemma PollStep(c: Bucket, previous: int, now: int, d: int)
    requires c.tokens >= 0 && d >= 0 && previous < c.lastRefill + REFILL_EVERY && previous <= now <= previous + d
    ensures var (e, granted) := Claimed(c, now);
            && e.tokens >= 0 && now < e.lastRefill + REFILL_EVERY
            && (e.lastRefill == c.lastRefill || (granted && e.lastRefill <= c.lastRefill + REFILL_EVERY + d))
  {
    if now - c.lastRefill >= REFILL_EVERY {
      OverdueClaimGranted(c, now);
    }
  }

  lemma {:induction false} RefillsKeepUp(b: Bucket, times: seq<int>, d: int)
    requires b.tokens >= 0 && d >= 0 && Polling(b, times, d)
    ensures var c := AfterClaims(b, times);
            && c.tokens >= 0
            && c.lastRefill - b.lastRefill <= Grants(b, times) * (REFILL_EVERY + d)
            && Previous(b, times, |times|) < c.lastRefill + REFILL_EVERY
  {
    if times != [] {
      var n := |times| - 1;
      PollingPrefix(b, times, d);
      RefillsKeepUp(b, times[..n], d);
      assert Previous(b, times[..n], n) == Previous(b, times, n);
      PollStep(AfterClaims(b, times[..n]), Previous(b, times, n), times[n], d);
      MulStep(Grants(b, times[..n]), REFILL_EVERY + d);
    }
  }

  lemma MulStep(g: int, k: int)
    ensures (g + 1) * k == g * k + k
  {
  }

  lemma DivBelow(t: int, g: int, k: int)
    requires k > 0 && g >= 0 && t < g * k + k
    ensures t / k <= g
  {
    MulStep(g, k);
    assert t / k < g + 1 by {
      if t / k >= g + 1 {
        MulMonotone(g + 1, t / k, k);
      }
    }
  }

  lemma MulMonotone(a: int, b: int, k: int)
    requires a <= b && k >= 0
    ensures a * k <= b * k
  {
  }

  /** No starvation, although each refill discards a fraction: over time T at least T / (10s + d) grants. */
  lemma {:induction false} PollingIsServed(b: Bucket, times: seq<int>, d: int)
    requires b.tokens >= 0 && d >= 0 && Polling(b, times, d) && times != []
    ensures (times[|times| - 1] - b.lastRefill) / (REFILL_EVERY + d) <= Grants(b, times)
  {
    RefillsKeepUp(b, times, d);
    DivBelow(times[|times| - 1] - b.lastRefill, Grants(b, times), REFILL_EVERY + d);
  }

  // ---- Interleaved saves -----------------------------------------------------

  /** Where one save stands in its CAS retry loop; `attempt` counts the retries granted before. */
  datatype Phase =
    | Ready
    | Conflicted(attempt: nat)
    | Granted(attempt: nat)
    | Done(error: Error)

  datatype Save = Save(key: string, phase: Phase, calls: nat)

  datatype World = World(buckets: Buckets, saves: seq<Save>)

  /** One atomic move of save i: its first write, a claim on the bucket, or the wait and the write it paid for. */
  datatype Move =
    | FirstCall(i: nat, outcome: Error)
    | Claim(i: nat, now: int)
    | Retry(i: nat, slept: bool, outcome: Error)

  predicate Enabled(w: World, move: Move) {
    move.i < |w.saves| &&
    match move
    case FirstCall(i, _) => w.saves[i].phase == Ready
    case Claim(i, _) => w.saves[i].phase.Conflicted?
    case Retry(i, _, _) => w.saves[i].phase.Granted?
  }

  function AfterCall(s: Save, attempt: nat, outcome: Error): Save {
    var phase := if IsCasConflict(outcome) && attempt < MAX_RETRIES then Conflicted(attempt) else Done(outcome);
    Save(s.key, phase, s.calls + 1)
  }

  function Moved(w: World, move: Move): World
    requires Enabled(w, move)
  {
    var s := w.saves[move.i];
    match move
    case FirstCall(i, outcome) => w.(saves := w.saves[i := AfterCall(s, 0, outcome)])
    case Claim(i, now) =>
      var (b, granted) := Claimed(BucketAt(w.buckets, s.key, now), now);
      World(w.buckets[s.key := b],
            w.saves[i := s.(phase := if granted then Granted(s.phase.attempt) else Done(BudgetExhausted))])
    case Retry(i, slept, outcome) =>
      var next := if slept then AfterCall(s, s.phase.attempt + 1, outcome) else s.(phase := Done(Cancelled));
      w.(saves := w.saves[i := next])
  }

  /** What one save has drawn from the bucket: its re-runs, and a grant it has not used yet. */
  function Drawn(s: Save): nat {
    (if s.calls > 0 then s.calls - 1 else 0) + if s.phase.Granted? then 1 else 0
  }

  function TotalDrawn(saves: seq<Save>, key: string): nat {
    if saves == [] then 0
    else TotalDrawn(saves[..|saves| - 1], key) + if saves[|saves| - 1].key == key then Drawn(saves[|saves| - 1]) else 0
  }

  function Reruns(saves: seq<Save>, key: string): nat {
    if saves == [] then 0
    else Reruns(saves[..|saves| - 1], key)
         + if saves[|saves| - 1].key == key && saves[|saves| - 1].calls > 0 then saves[|saves| - 1].calls - 1 else 0
  }

  lemma {:induction false} DrawnUpdate(saves: seq<Save>, i: nat, s: Save, key: string)
    requires i < |saves| && s.key == saves[i].key
    ensures TotalDrawn(saves[i := s], key) ==
            TotalDrawn(saves, key) + (if s.key == key then Drawn(s) - Drawn(saves[i]) else 0)
  {
    var n := |saves| - 1;
    if i == n {
      assert saves[i := s][..n] == saves[..n];
    } else {
      assert saves[i := s][..n] == saves[..n][i := s];
      DrawnUpdate(saves[..n], i, s, key);
    }
  }

  lemma {:induction false} RerunsDrawn(saves: seq<Save>, key: string)
    ensures Reruns(saves, key) <= TotalDrawn(saves, key)
  {
    if saves != [] {
      RerunsDrawn(saves[..|saves| - 1], key);
    }
  }

  /** Each save's call count fits its phase, so it never exceeds four. */
  predicate WellCounted(s: Save) {
    && s.calls <= MAX_RETRIES + 1
    && (s.phase == Ready ==> s.calls == 0)
    && (s.phase.Conflicted? ==> s.phase.attempt < MAX_RETRIES && s.calls == s.phase.attempt + 1)
    && (s.phase.Granted? ==> s.phase.attempt < MAX_RETRIES && s.calls == s.phase.attempt + 1)
  }

  /** Everything drawn under a key is covered by six tokens and the whole periods since `since`. */
  predicate Covered(w: World, key: string, since: int) {
    if key in w.buckets then
      && since <= w.buckets[key].lastRefill
      && w.buckets[key].tokens >= 0
      && TotalDrawn(w.saves, key) + w.buckets[key].tokens <=
         CAPACITY + (w.buckets[key].lastRefill - since) / REFILL_EVERY
    else TotalDrawn(w.saves, key) == 0
  }

  lemma MoveKeeps(w: World, move: Move, key: string, since: int)
    requires Enabled(w, move) && Covered(w, key, since) && (move.Claim? ==> since <= move.now)
    requires forall i :: 0 <= i < |w.saves| ==> WellCounted(w.saves[i])
    ensures Covered(Moved(w, move), key, since)
    ensures forall i :: 0 <= i < |w.saves| ==> WellCounted(Moved(w, move).saves[i])
    ensures key in w.buckets ==> key in Moved(w, move).buckets
    ensures key in Moved(w, move).buckets ==>
              Moved(w, move).buckets[key].lastRefill
                == (if key in w.buckets then w.buckets[key].lastRefill else since) ||
              (move.Claim? && Moved(w, move).buckets[key].lastRefill == move.now)
  {
    var s, s' := w.saves[move.i], Moved(w, move).saves[move.i];
    DrawnUpdate(w.saves, move.i, s', key);
    if move.Claim? && s.key == key {
      ClaimPays(BucketAt(w.buckets, key, move.now), move.now, since);
    }
  }

  ghost predicate EnabledRun(w: World, moves: seq<Move>)
    decreases moves
  {
    moves == [] || (Enabled(w, moves[0]) && EnabledRun(Moved(w, moves[0]), moves[1..]))
  }

  ghost function AfterMoves(w: World, moves: seq<Move>): World
    requires EnabledRun(w, moves)
    decreases moves
  {
    if moves == [] then w else AfterMoves(Moved(w, moves[0]), moves[1..])
  }

  predicate ClaimsWithin(moves: seq<Move>, since: int, until: int) {
    forall i :: 0 <= i < |moves| && moves[i].Claim? ==> since <= moves[i].now <= until
  }

  lemma {:induction false} RunKeeps(w: World, moves: seq<Move>, key: string, since: int, until: int)
    requires EnabledRun(w, moves) && Covered(w, key, since) && ClaimsWithin(moves, since, until) && since <= until
    requires key in w.buckets ==> w.buckets[key].lastRefill <= until
    requires forall i :: 0 <= i < |w.saves| ==> WellCounted(w.saves[i])
    ensures var w' := AfterMoves(w, moves);
            && Covered(w', key, since)
            && (key in w'.buckets ==> w'.buckets[key].lastRefill <= until)
            && forall i :: 0 <= i < |w'.saves| ==> WellCounted(w'.saves[i])
    decreases moves
  {
    if moves != [] {
      MoveKeeps(w, moves[0], key, since);
      assert forall i :: 0 <= i < |moves[1..]| ==> moves[1..][i] == moves[i + 1];
      RunKeeps(Moved(w, moves[0]), moves[1..], key, since, until);
    }
  }

  function Fresh(keys: seq<string>): World {
    World(map[], seq(|keys|, i requires 0 <= i < |keys| => Save(keys[i], Ready, 0)))
  }

  lemma {:induction false} FreshDrawsNothing(saves: seq<Save>, key: string)
    requires forall i :: 0 <= i < |saves| ==> saves[i].phase == Ready && saves[i].calls == 0
    ensures TotalDrawn(saves, key) == 0
  {
    if saves != [] {
      FreshDrawsNothing(saves[..|saves| - 1], key);
    }
  }

  /**
    Retry amplification: however the saves of a project interleave, and whatever other
    projects do, together they re-run their write at most six times plus once for
    every whole ten seconds the run lasts; and no single save calls it more than four times.
  */
  lemma {:induction false} RetryAmplification(keys: seq<string>, moves: seq<Move>, key: string, since: int, until: int)
    requires EnabledRun(Fresh(keys), moves) && ClaimsWithin(moves, since, until) && since <= until
    ensures var w := AfterMoves(Fresh(keys), moves);
            && Reruns(w.saves, key) <= 6 + (until - since) / 10_000_000_000
            && forall i :: 0 <= i < |w.saves| ==> w.saves[i].calls <= 4
  {
    var w := Fresh(keys);
    FreshDrawsNothing(w.saves, key);
    RunKeeps(w, moves, key, since, until);
    RerunsDrawn(AfterMoves(w, moves).saves, key);
  }

  lemma {:induction false} MovesAppend(w: World, moves: seq<Move>, last: Move)
    requires EnabledRun(w, moves) && Enabled(AfterMoves(w, moves), last)
    ensures EnabledRun(w, moves + [last]) && AfterMoves(w, moves + [last]) == Moved(AfterMoves(w, moves), last)
    decreases moves
  {
    var all := moves + [last];
    if moves == [] {
      assert all[1..] == [];
      assert EnabledRun(Moved(w, last), []);
    } else {
      assert all[1..] == moves[1..] + [last];
      MovesAppend(Moved(w, moves[0]), moves[1..], last);
    }
  }

  // ---- One save loop ------------------------------------------------------------

  /** Of the claims a loop makes at these moments, the k-th is granted. */
  predicate GrantedAt(bs: Buckets, key: string, clocks: seq<int>, k: nat)
    requires k < |clocks|
  {
    Claimed(AfterClaims(BucketAt(bs, key, clocks[0]), clocks[..k]), clocks[k]).1
  }

  /** The buckets after the first n claims. */
  function BucketsAfter(bs: Buckets, key: string, clocks: seq<int>, n: nat): Buckets
    requires n <= |clocks|
  {
    if n == 0 then bs else bs[key := AfterClaims(BucketAt(bs, key, clocks[0]), clocks[..n])]
  }

  lemma {:induction false} NextClaim(bs: Buckets, key: string, clocks: seq<int>, n: nat)
    requires n < |clocks|
    ensures var b := BucketAt(BucketsAfter(bs, key, clocks, n), key, clocks[n]);
            && Claimed(b, clocks[n]).1 == GrantedAt(bs, key, clocks, n)
            && BucketsAfter(bs, key, clocks, n)[key := Claimed(b, clocks[n]).0] == BucketsAfter(bs, key, clocks, n + 1)
  {
    assert clocks[..n + 1][..n] == clocks[..n];
    if n == 0 { assert clocks[..0] == []; }
  }

  /** Each of the first n calls met a conflict, was granted a claim and waited its turn. */
  predicate Paid(bs: Buckets, key: string, outcomes: seq<Error>, clocks: seq<int>, slept: seq<bool>, n: nat)
    requires n <= |outcomes| && n <= |clocks| && n <= |slept|
  {
    forall k :: 0 <= k < n ==>
      outcomes[k] in {ShaMismatch, RefNotFastForward} && slept[k] && GrantedAt(bs, key, clocks, k)
  }

  /** The save after a conflict of its attempt-th retry. */
  function Looping(key: string, attempt: nat, err: Error): Save {
    Save(key, if attempt < MAX_RETRIES then Conflicted(attempt) else Done(err), attempt + 1)
  }

  /** The moves can be taken, and lead from one world to the other. */
  ghost predicate Took(start: World, moves: seq<Move>, now: World) {
    EnabledRun(start, moves) && AfterMoves(start, moves) == now
  }

  lemma TookOne(start: World, moves: seq<Move>, now: World, move: Move)
    requires Took(start, moves, now) && Enabled(now, move)
    ensures Took(start, moves + [move], Moved(now, move))
  {
    MovesAppend(start, moves, move);
  }

  /** Before its n-th retry the loop has met n + 1 conflicts, and paid for the retries it made. */
  ghost predicate InLoop(before: Buckets, now: Buckets, key: string, outcomes: seq<Error>, clocks: seq<int>,
                         slept: seq<bool>, moves: seq<Move>, n: nat)
    requires |outcomes| == MAX_RETRIES + 1 && |clocks| == MAX_RETRIES && |slept| == MAX_RETRIES && n <= MAX_RETRIES
  {
    && IsCasConflict(outcomes[n]) && Paid(before, key, outcomes, clocks, slept, n)
    && now == BucketsAfter(before, key, clocks, n)
    && Took(World(before, [Save(key, Ready, 0)]), moves, World(now, [Looping(key, n, outcomes[n])]))
  }

  lemma FirstMove(bs: Buckets, key: string, outcomes: seq<Error>, clocks: seq<int>, slept: seq<bool>)
    requires |outcomes| == MAX_RETRIES + 1 && |clocks| == MAX_RETRIES && |slept| == MAX_RETRIES
    ensures var moves := [FirstCall(0, outcomes[0])];
            if IsCasConflict(outcomes[0]) then InLoop(bs, bs, key, outcomes, clocks, slept, moves, 0)
            else Took(World(bs, [Save(key, Ready, 0)]), moves, World(bs, [Save(key, Done(outcomes[0]), 1)]))
  {
    var start := World(bs, [Save(key, Ready, 0)]);
    TookOne(start, [], start, FirstCall(0, outcomes[0]));
    assert [] + [FirstCall(0, outcomes[0])] == [FirstCall(0, outcomes[0])];
  }

  /** One more claim, and the retry it pays for. */
  lemma NextMoves(before: Buckets, now: Buckets, key: string, outcomes: seq<Error>, clocks: seq<int>,
                  slept: seq<bool>, moves: seq<Move>, n: nat)
    requires |outcomes| == MAX_RETRIES + 1 && |clocks| == MAX_RETRIES && |slept| == MAX_RETRIES && n < MAX_RETRIES
    requires InLoop(before, now, key, outcomes, clocks, slept, moves, n)
    ensures var (b, granted) := Claimed(BucketAt(now, key, clocks[n]), clocks[n]);
            var after, start := now[key := b], World(before, [Save(key, Ready, 0)]);
            var claimed := moves + [Claim(0, clocks[n])];
            var retried := claimed + [Retry(0, slept[n], outcomes[n + 1])];
            && after == BucketsAfter(before, key, clocks, n + 1) && granted == GrantedAt(before, key, clocks, n)
            && (!granted ==> Took(start, claimed, World(after, [Save(key, Done(BudgetExhausted), n + 1)])))
            && (granted && !slept[n] ==> Took(start, retried, World(after, [Save(key, Done(Cancelled), n + 1)])))
            && (granted && slept[n] ==> Paid(before, key, outcomes, clocks, slept, n + 1))
            && (granted && slept[n] && IsCasConflict(outcomes[n + 1]) ==>
                  InLoop(before, after, key, outcomes, clocks, slept, retried, n + 1))
            && (granted && slept[n] && !IsCasConflict(outcomes[n + 1]) ==>
                  Took(start, retried, World(after, [Save(key, Done(outcomes[n + 1]), n + 2)])))
  {
    var (b, granted) := Claimed(BucketAt(now, key, clocks[n]), clocks[n]);
    var start, after := World(before, [Save(key, Ready, 0)]), now[key := b];
    NextClaim(before, key, clocks, n);
    TookOne(start, moves, World(now, [Looping(key, n, outcomes[n])]), Claim(0, clocks[n]));
    if granted {
      TookOne(start, moves + [Claim(0, clocks[n])], World(after, [Save(key, Granted(n), n + 1)]),
              Retry(0, slept[n], outcomes[n + 1]));
    }
  }

  // ---- The retrier -----------------------------------------------------------

  class ConflictRetrier {
    var buckets: Buckets

    constructor ()
      ensures buckets == map[]
    {
      buckets := map[];
    }

    /** Deducts one token; a bucket is created full on first use and refilled before the draw. */
    method ClaimToken(key: string, now: int) returns (granted: bool)
      modifies this
      ensures buckets == old(buckets)[key := Claimed(BucketAt(old(buckets), key, now), now).0]
      ensures granted == Claimed(BucketAt(old(buckets), key, now), now).1
      ensures Draws(old(buckets), buckets, key, now, granted)
    {
      DrawsOne(buckets, key, now);
      if key !in buckets {
        buckets := buckets[key := Bucket(CAPACITY, now)];
      }
      var b := buckets[key];
      var elapsed := now - b.lastRefill;
      if elapsed >= REFILL_EVERY {
        var toAdd := elapsed / REFILL_EVERY;
        b := b.(tokens := b.tokens + toAdd);
        if b.tokens > CAPACITY {
          b := b.(tokens := CAPACITY);
        }
        b := b.(lastRefill := now);
      }
      if b.tokens <= 0 {
        buckets := buckets[key := b];
        return false;
      }
      buckets := buckets[key := b.(tokens := b.tokens - 1)];
      return true;
    }

    /**
      One save run on its own: `outcomes` is what successive calls of the write return,
      `clocks` what the claims read, `slept` whether each wait ran to its end. It takes
      the moves of the interleaved model, so every run of saves is made of these.
    */
    method RetryOnCasConflict(key: string, outcomes: seq<Error>, clocks: seq<int>, slept: seq<bool>)
      returns (err: Error, calls: nat, ghost moves: seq<Move>)
      requires |outcomes| == MAX_RETRIES + 1 && |clocks| == MAX_RETRIES && |slept| == MAX_RETRIES
      modifies this
      ensures Took(World(old(buckets), [Save(key, Ready, 0)]), moves, World(buckets, [Save(key, Done(err), calls)]))
      ensures 1 <= calls <= 4 && Paid(old(buckets), key, outcomes, clocks, slept, calls - 1)
      ensures calls == 4 || outcomes[calls - 1] !in {ShaMismatch, RefNotFastForward} ==>
        err == outcomes[calls - 1] && buckets == BucketsAfter(old(buckets), key, clocks, calls - 1)
      ensures calls < 4 && outcomes[calls - 1] in {ShaMismatch, RefNotFastForward} ==>
        && buckets == BucketsAfter(old(buckets), key, clocks, calls)
        && if GrantedAt(old(buckets), key, clocks, calls - 1) then !slept[calls - 1] && err == Cancelled
           else err == BudgetExhausted
    {
      ghost var before := buckets;
      err, calls := outcomes[0], 1;
      FirstMove(buckets, key, outcomes, clocks, slept);
      moves := [FirstCall(0, err)];
      if !IsCasConflict(err) {
        return;
      }
      for attempt := 0 to MAX_RETRIES
        invariant calls == attempt + 1 && err == outcomes[attempt]
        invariant InLoop(before, buckets, key, outcomes, clocks, slept, moves, attempt)
      {
        NextMoves(before, buckets, key, outcomes, clocks, slept, moves, attempt);
        moves := moves + [Claim(0, clocks[attempt])];
        var granted := ClaimToken(key, clocks[attempt]);
        if !granted {
          return BudgetExhausted, calls, moves;
        }
        moves := moves + [Retry(0, slept[attempt], outcomes[attempt + 1])];
        if !slept[attempt] {
          return Cancelled, calls, moves;
        }
        err := outcomes[attempt + 1];
        calls := calls + 1;
        if !IsCasConflict(err) {
          return;
        }
      }
    }
  }

  /** Tag collisions retry on the same schedule and touch no bucket: up to four calls, while the tag is taken. */
  method RetryOnTagCollision(outcomes: seq<Error>, slept: seq<bool>) returns (err: Error, calls: nat)
    requires |outcomes| == MAX_RETRIES + 1 && |slept| == MAX_RETRIES
    ensures 1 <= calls <= 4
    ensures forall k :: 0 <= k < calls - 1 ==> outcomes[k] == TagAlreadyExists && slept[k]
    ensures if outcomes[calls - 1] == TagAlreadyExists && calls <= MAX_RETRIES
            then !slept[calls - 1] && err == Cancelled
            else err == outcomes[calls - 1]
  {
    err, calls := outcomes[0], 1;
    if err != TagAlreadyExists {
      return;
    }
    for attempt := 0 to MAX_RETRIES
      invariant calls == attempt + 1 && err == outcomes[attempt] == TagAlreadyExists
      invariant forall k :: 0 <= k < attempt ==> outcomes[k] == TagAlreadyExists && slept[k]
    {
      if !slept[attempt] {
        return Cancelled, calls;
      }
      err := outcomes[attempt + 1];
      calls := calls + 1;
      if err != TagAlreadyExists {
        return;
      }
    }
  }
}
