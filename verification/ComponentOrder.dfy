/**
  `topoSortComponents`: dependency order with a fallback for cycles. Passes over the
  design repeat until one emits nothing; what is left is appended in design order.
*/
module ComponentOrder {
  import opened Design
  import opened Graph

  /** Known dependencies only: a dangling name counts as satisfied. */
  function DependencyGraph(cs: seq<Component>): (g: Edges)
    ensures g.Keys == Keys(cs)
  {
    map n | n in Keys(cs) :: Successors(cs, n)
  }

  function Successors(cs: seq<Component>, n: string): set<string> {
    set c, d | c in cs && d in c.dependsOn && Key(c) == n && Lower(d) in Keys(cs) :: Lower(d)
  }

  /** The components from which a dependency cycle can be reached, in design order. */
  ghost function Stuck(cs: seq<Component>, g: Edges): seq<Component> {
    if cs == [] then []
    else
      var front := Stuck(cs[..|cs| - 1], g);
      if ReachesCycle(g, Key(cs[|cs| - 1])) then front + [cs[|cs| - 1]] else front
  }

  /** Each dependency of c that names a component of cs is among the emitted names. */
  ghost predicate DepsAmong(c: Component, cs: seq<Component>, emitted: set<string>) {
    forall d :: d in c.dependsOn && Lower(d) in Keys(cs) ==> Lower(d) in emitted
  }

  /** Each element comes after every known dependency it has. */
  ghost predicate InDependencyOrder(sorted: seq<Component>, cs: seq<Component>) {
    forall i :: 0 <= i < |sorted| ==> DepsAmong(sorted[i], cs, Keys(sorted[..i]))
  }

  /** The readiness test of one component against what has been emitted so far. */
  method IsReady(c: Component, components: seq<Component>, emitted: set<string>) returns (ready: bool)
    ensures ready <==> DepsAmong(c, components, emitted)
  {
    ready := true;
    for i := 0 to |c.dependsOn|
      invariant ready <==>
        forall k :: 0 <= k < i && Lower(c.dependsOn[k]) in Keys(components) ==> Lower(c.dependsOn[k]) in emitted
    {
      var dep := c.dependsOn[i];
      if Lower(dep) !in emitted {
        for j := 0 to |components|
          invariant ready && forall k :: 0 <= k < j ==> Lower(components[k].name) != Lower(dep)
        {
          if Lower(components[j].name) == Lower(dep) {
            assert components[j] in components && Key(components[j]) == Lower(dep);
            ready := false;
            break;
          }
        }
        if !ready {
          break;
        }
      }
    }
  }

  lemma KeysAppend(s: seq<Component>, c: Component)
    ensures Keys(s + [c]) == Keys(s) + {Key(c)}
  {
    assert forall x :: x in s + [c] <==> x in s || x == c;
  }

  lemma OrderAppend(s: seq<Component>, c: Component, cs: seq<Component>)
    requires InDependencyOrder(s, cs) && DepsAmong(c, cs, Keys(s))
    ensures InDependencyOrder(s + [c], cs)
  {
    var t := s + [c];
    forall i | 0 <= i < |t|
      ensures DepsAmong(t[i], cs, Keys(t[..i]))
    {
      assert t[..i] == s[..i];
      if i == |s| { assert s[..i] == s; }
    }
  }

  lemma {:induction false} KeysSubset(a: set<string>, b: set<string>)
    requires a <= b
    ensures |a| <= |b|
  {
    if a != {} {
      var x :| x in a;
      KeysSubset(a - {x}, b - {x});
    }
  }

  /** What holds of the emitted prefix at every point of the main loop. */
  ghost predicate Emitting(components: seq<Component>, result: seq<Component>, emitted: set<string>) {
    && emitted == Keys(result) <= Keys(components)
    && DistinctNames(result)
    && (forall c :: c in result ==> c in components)
    && InDependencyOrder(result, components)
  }

  lemma EmitOne(components: seq<Component>, result: seq<Component>, emitted: set<string>, c: Component)
    requires Emitting(components, result, emitted)
    requires c in components && Key(c) !in emitted && DepsAmong(c, components, emitted)
    ensures Emitting(components, result + [c], emitted + {Key(c)})
  {
    KeysAppend(result, c);
    OrderAppend(result, c, components);
    assert forall x :: x in result ==> Key(x) in Keys(result);
  }

  ghost predicate AllBlocked(cs: seq<Component>, components: seq<Component>, emitted: set<string>) {
    forall n :: n in Keys(cs) && n !in emitted ==> Successors(components, n) * (Keys(components) - emitted) != {}
  }

  lemma BlockedOne(components: seq<Component>, emitted: set<string>, c: Component)
    requires c in components && !DepsAmong(c, components, emitted)
    ensures Successors(components, Key(c)) * (Keys(components) - emitted) != {}
  {
    var d :| d in c.dependsOn && Lower(d) in Keys(components) && Lower(d) !in emitted;
    assert Lower(d) in Successors(components, Key(c)) * (Keys(components) - emitted);
  }

  /** One pass over the design: `progressed` reports whether it emitted anything. */
  method EmitPass(components: seq<Component>, result0: seq<Component>, emitted0: set<string>)
    returns (result: seq<Component>, emitted: set<string>, progressed: bool)
    requires Emitting(components, result0, emitted0)
    ensures Emitting(components, result, emitted)
    ensures |emitted| <= |Keys(components)|
    ensures progressed ==> |emitted0| < |emitted|
    ensures !progressed ==> emitted == emitted0 && AllBlocked(components, components, emitted)
  {
    result, emitted, progressed := result0, emitted0, false;
    for i := 0 to |components|
      invariant Emitting(components, result, emitted)
      invariant |emitted0| <= |emitted| && (progressed ==> |emitted0| < |emitted|)
      invariant !progressed ==> emitted == emitted0 && AllBlocked(components[..i], components, emitted)
    {
      var c := components[i];
      assert components[..i + 1] == components[..i] + [c];
      KeysAppend(components[..i], c);
      if Lower(c.name) in emitted {
        continue;
      }
      var ready := IsReady(c, components, emitted);
      if ready {
        EmitOne(components, result, emitted, c);
        result := result + [c];
        emitted := emitted + {Lower(c.name)};
        progressed := true;
      } else {
        BlockedOne(components, emitted, c);
      }
    }
    assert components[..|components|] == components;
    KeysSubset(emitted, Keys(components));
  }

  lemma EmittedIsAcyclic(components: seq<Component>, result: seq<Component>, emitted: set<string>, n: string)
    requires DistinctNames(components) && n in emitted
    requires Emitting(components, result, emitted)
    ensures !ReachesCycle(DependencyGraph(components), n)
    decreases if n in Keys(result) then PositionOf(result, n) else 0
  {
    var g := DependencyGraph(components);
    if ReachesCycle(g, n) {
      var y := CycleStep(g, n);
      EmittedAfterDeps(components, result, emitted, n, y);
      EmittedIsAcyclic(components, result, emitted, y);
    }
  }

  lemma LeftReachesCycle(components: seq<Component>, emitted: set<string>, n: string)
    requires n in Keys(components) - emitted
    requires AllBlocked(components, components, emitted)
    ensures ReachesCycle(DependencyGraph(components), n)
  {
    var g := DependencyGraph(components);
    TrapReachesCycle(g, Keys(components) - emitted, n);
  }

  lemma EmittedAfterDeps(components: seq<Component>, result: seq<Component>, emitted: set<string>, a: string, b: string)
    requires DistinctNames(components) && Emitting(components, result, emitted)
    requires a in emitted && b in Successors(components, a)
    ensures b in emitted && PositionOf(result, b) < PositionOf(result, a)
  {
    var i := PositionOf(result, a);
    var c, d :| c in components && d in c.dependsOn && Key(c) == a && Lower(d) == b && b in Keys(components);
    assert result[i] in components;
    assert c == result[i];
    assert DepsAmong(result[i], components, Keys(result[..i]));
    ComesBefore(result, i, b);
  }

  lemma ComesBefore(result: seq<Component>, i: nat, b: string)
    requires DistinctNames(result) && i < |result| && b in Keys(result[..i])
    ensures b in Keys(result) && PositionOf(result, b) < i
  {
    var e :| e in result[..i] && Key(e) == b;
    var j :| 0 <= j < i && result[j] == e;
    assert result[j] in result;
    assert PositionOf(result, b) == j;
  }

  ghost function PositionOf(s: seq<Component>, n: string): (i: nat)
    requires n in Keys(s)
    ensures i < |s| && Key(s[i]) == n
  {
    var c :| c in s && Key(c) == n;
    var i :| 0 <= i < |s| && s[i] == c;
    i
  }

  /** Same components in another order, exactly when no two names agree ignoring case. */
  lemma PermutationIffDistinct(components: seq<Component>, result: seq<Component>)
    requires DistinctNames(result) && Keys(result) == Keys(components)
    requires forall c :: c in result ==> c in components
    ensures multiset(result) == multiset(components) <==> DistinctNames(components)
  {
    CountDistinct(result);
    if DistinctNames(components) {
      CountDistinct(components);
      forall c | c in components
        ensures c in result
      {
        assert Key(c) in Keys(result);
        var r :| r in result && Key(r) == Key(c);
        assert r == c;
      }
      assert forall c :: multiset(result)[c] == multiset(components)[c];
    } else {
      var i, j :| 0 <= i < j < |components| && Key(components[i]) == Key(components[j]);
      if components[i] == components[j] {
        CountTwice(components, i, j);
      }
      if components[i] in result && components[j] in result {
        var p, q :| 0 <= p < |result| && 0 <= q < |result| && result[p] == components[i] && result[q] == components[j];
        assert p == q;
      }
    }
  }

  lemma CountTwice(s: seq<Component>, i: nat, j: nat)
    requires i < j < |s| && s[i] == s[j]
    ensures multiset(s)[s[i]] >= 2
  {
    assert s == s[..j] + s[j..];
    assert s[i] in s[..j] && s[j] in s[j..];
  }

  lemma {:induction false} CountDistinct(s: seq<Component>)
    requires DistinctNames(s)
    ensures forall c :: multiset(s)[c] == if c in s then 1 else 0
  {
    if s != [] {
      var front, last := s[..|s| - 1], s[|s| - 1];
      CountDistinct(front);
      assert s == front + [last];
      assert multiset(s) == multiset(front) + multiset{last};
    }
  }

  lemma {:induction false} StuckSnoc(cs: seq<Component>, g: Edges, i: nat)
    requires i < |cs|
    ensures Stuck(cs[..i + 1], g) == Stuck(cs[..i], g) + if ReachesCycle(g, Key(cs[i])) then [cs[i]] else []
  {
    assert cs[..i + 1][..i] == cs[..i];
  }

  /** A component left by the passes is one of the stuck ones, an emitted one is not. */
  lemma LeftIffStuck(components: seq<Component>, main: seq<Component>, emitted: set<string>, n: string)
    requires DistinctNames(components) && n in Keys(components)
    requires Emitting(components, main, emitted) && AllBlocked(components, components, emitted)
    ensures ReachesCycle(DependencyGraph(components), n) <==> n !in emitted
  {
    if n in emitted {
      EmittedIsAcyclic(components, main, emitted, n);
    } else {
      LeftReachesCycle(components, emitted, n);
    }
  }

  /** The names in play after the first i components of the design have been offered to the tail. */
  ghost predicate Resting(
    components: seq<Component>, done: set<string>, i: nat, result: seq<Component>, emitted: set<string>)
    requires i <= |components|
  {
    && DistinctNames(result)
    && (forall c :: c in result ==> c in components)
    && emitted == Keys(result) == done + Keys(components[..i])
  }

  lemma RestingStep(components: seq<Component>, done: set<string>, i: nat, result: seq<Component>, emitted: set<string>)
    requires i < |components| && Resting(components, done, i, result, emitted)
    ensures Key(components[i]) in emitted ==> Resting(components, done, i + 1, result, emitted)
    ensures Key(components[i]) !in emitted ==>
      Resting(components, done, i + 1, result + [components[i]], emitted + {Key(components[i])})
  {
    var c := components[i];
    assert components[..i + 1] == components[..i] + [c];
    KeysAppend(components[..i], c);
    KeysAppend(result, c);
    assert forall x :: x in result ==> Key(x) in Keys(result);
  }

  lemma KeyIsNew(components: seq<Component>, i: nat)
    requires DistinctNames(components) && i < |components|
    ensures Key(components[i]) !in Keys(components[..i])
  {
  }

  lemma StuckStep(components: seq<Component>, main: seq<Component>, done: set<string>, i: nat, emitted: set<string>)
    requires DistinctNames(components) && i < |components|
    requires LeftIsStuck(components, done) && emitted == done + Keys(components[..i])
    ensures main + Stuck(components[..i + 1], DependencyGraph(components))
         == main + Stuck(components[..i], DependencyGraph(components))
           + if Key(components[i]) in emitted then [] else [components[i]]
  {
    assert Key(components[i]) in Keys(components);
    KeyIsNew(components, i);
    StuckSnoc(components, DependencyGraph(components), i);
  }

  ghost predicate LeftIsStuck(components: seq<Component>, done: set<string>) {
    forall n :: n in Keys(components) ==> (n !in done <==> ReachesCycle(DependencyGraph(components), n))
  }

  /** Appends what the passes left, in design order. */
  method AppendRest(components: seq<Component>, main: seq<Component>, done: set<string>)
    returns (result: seq<Component>)
    requires Resting(components, done, 0, main, done)
    requires done <= Keys(components)
    requires DistinctNames(components) ==> LeftIsStuck(components, done)
    ensures DistinctNames(result) && Keys(result) == Keys(components)
    ensures forall c :: c in result ==> c in components
    ensures DistinctNames(components) ==> result == main + Stuck(components, DependencyGraph(components))
  {
    result := main;
    var emitted := done;
    for i := 0 to |components|
      invariant Resting(components, done, i, result, emitted)
      invariant DistinctNames(components) ==> result == main + Stuck(components[..i], DependencyGraph(components))
    {
      if DistinctNames(components) {
        StuckStep(components, main, done, i, emitted);
      }
      RestingStep(components, done, i, result, emitted);
      if Lower(components[i].name) !in emitted {
        result := result + [components[i]];
        emitted := emitted + {Lower(components[i].name)};
      }
    }
    assert components[..|components|] == components;
  }

  /**
    The whole sort. Its output has one component for each distinct name, so it is a
    permutation exactly when names are distinct ignoring case; then the components
    that reach a dependency cycle form its tail, in design order, and every component
    before the tail comes after all its known dependencies.
  */
  method TopoSortComponents(components: seq<Component>) returns (result: seq<Component>)
    ensures DistinctNames(result) && Keys(result) == Keys(components)
    ensures forall c :: c in result ==> c in components
    ensures multiset(result) == multiset(components) <==> DistinctNames(components)
    ensures DistinctNames(components) ==>
      SortedWithTail(components, result, Stuck(components, DependencyGraph(components)))
  {
    if |components| == 0 {
      return components;
    }
    var emitted: set<string> := {};
    result := [];
    var progressed := true;
    while progressed
      invariant Emitting(components, result, emitted)
      invariant |emitted| <= |Keys(components)|
      invariant !progressed ==> AllBlocked(components, components, emitted)
      decreases |Keys(components)| - |emitted|, progressed
    {
      result, emitted, progressed := EmitPass(components, result, emitted);
    }
    ghost var main := result;
    if DistinctNames(components) {
      LeftAreStuck(components, main, emitted);
    }
    NoneOffered(components, result, emitted);
    result := AppendRest(components, result, emitted);
    PermutationIffDistinct(components, result);
    if DistinctNames(components) {
      TailIsSorted(components, main, emitted, result, Stuck(components, DependencyGraph(components)));
    }
  }

  lemma NoneOffered(components: seq<Component>, main: seq<Component>, emitted: set<string>)
    requires Emitting(components, main, emitted)
    ensures Resting(components, emitted, 0, main, emitted)
  {
    assert components[..0] == [];
  }

  lemma LeftAreStuck(components: seq<Component>, main: seq<Component>, emitted: set<string>)
    requires DistinctNames(components) && Emitting(components, main, emitted)
    requires AllBlocked(components, components, emitted)
    ensures LeftIsStuck(components, emitted)
  {
    forall n | n in Keys(components)
      ensures n !in emitted <==> ReachesCycle(DependencyGraph(components), n)
    {
      LeftIffStuck(components, main, emitted, n);
    }
  }

  lemma TailIsSorted(
    components: seq<Component>, main: seq<Component>, emitted: set<string>,
    result: seq<Component>, tail: seq<Component>)
    requires Emitting(components, main, emitted) && result == main + tail
    ensures SortedWithTail(components, result, tail)
  {
    assert result[..|main|] == main;
  }

  ghost predicate SortedWithTail(components: seq<Component>, result: seq<Component>, tail: seq<Component>) {
    && |tail| <= |result|
    && result[|result| - |tail|..] == tail
    && InDependencyOrder(result[..|result| - |tail|], components)
  }

  /** An acyclic design comes out fully sorted. */
  lemma {:induction false} AcyclicFullySorted(components: seq<Component>, result: seq<Component>)
    requires SortedWithTail(components, result, Stuck(components, DependencyGraph(components)))
    requires forall n :: n in Keys(components) ==> !ReachesCycle(DependencyGraph(components), n)
    ensures InDependencyOrder(result, components)
  {
    StuckEmpty(components, DependencyGraph(components));
    assert result[..|result|] == result;
  }

  lemma {:induction false} StuckEmpty(cs: seq<Component>, g: Edges)
    requires forall n :: n in Keys(cs) ==> !ReachesCycle(g, n)
    ensures Stuck(cs, g) == []
  {
    if cs != [] {
      assert cs == cs[..|cs| - 1] + [cs[|cs| - 1]];
      KeysAppend(cs[..|cs| - 1], cs[|cs| - 1]);
      StuckEmpty(cs[..|cs| - 1], g);
    }
  }
}
