/**
  Finite directed graphs over names, as the dependency lists of a design or of a
  task batch describe them. A key of the map is a known node; a successor that is
  not a key is a dangling reference.
*/
module Graph {
  type Edges = map<string, set<string>>

  ghost predicate IsWalk(g: Edges, p: seq<string>) {
    && |p| > 0
    && forall i :: 0 <= i < |p| - 1 ==> p[i] in g && p[i + 1] in g[p[i]]
  }

  ghost predicate Revisits(p: seq<string>) {
    exists i, j :: 0 <= i < j < |p| && p[i] == p[j]
  }

  /** Some walk from x meets a node twice: x leads into a dependency cycle. */
  ghost predicate ReachesCycle(g: Edges, x: string) {
    exists p :: IsWalk(g, p) && p[0] == x && Revisits(p)
  }

  /** Some walk from x ends in a name that is not a node. */
  ghost predicate ReachesUnknown(g: Edges, x: string) {
    exists p :: IsWalk(g, p) && p[0] == x && p[|p| - 1] !in g
  }

  /** Every member of a trap has a successor inside it, so a walk can stay there for ever. */
  ghost predicate Trap(g: Edges, s: set<string>) {
    forall x :: x in s ==> x in g && g[x] * s != {}
  }

  lemma {:induction false} Pigeonhole(p: seq<string>, s: set<string>)
    requires forall i :: 0 <= i < |p| ==> p[i] in s
    requires |p| > |s|
    ensures Revisits(p)
  {
    var last := p[|p| - 1];
    var front := p[..|p| - 1];
    if i :| 0 <= i < |front| && front[i] == last {
      assert p[i] == p[|p| - 1];
    } else {
      Pigeonhole(front, s - {last});
      var i, j :| 0 <= i < j < |front| && front[i] == front[j];
      assert p[i] == p[j];
    }
  }

  lemma {:induction false} WalkInTrap(g: Edges, s: set<string>, x: string, n: nat) returns (p: seq<string>)
    requires Trap(g, s) && x in s
    ensures IsWalk(g, p) && p[0] == x && |p| == n + 1
    ensures forall i :: 0 <= i < |p| ==> p[i] in s
    decreases n
  {
    if n == 0 {
      p := [x];
    } else {
      var y :| y in g[x] * s;
      var rest := WalkInTrap(g, s, y, n - 1);
      p := [x] + rest;
    }
  }

  lemma TrapReachesCycle(g: Edges, s: set<string>, x: string)
    requires Trap(g, s) && x in s
    ensures ReachesCycle(g, x)
  {
    var p := WalkInTrap(g, s, x, |s|);
    Pigeonhole(p, s);
  }

  /** What leads into a cycle leads there through one of its successors. */
  lemma CycleStep(g: Edges, x: string) returns (y: string)
    requires ReachesCycle(g, x)
    ensures x in g && y in g[x] && ReachesCycle(g, y)
  {
    var p :| IsWalk(g, p) && p[0] == x && Revisits(p);
    var i, j :| 0 <= i < j < |p| && p[i] == p[j];
    y := p[1];
    if i > 0 {
      var q := p[1..];
      assert q[i - 1] == q[j - 1];
      assert IsWalk(g, q) && Revisits(q);
    } else {
      var q := p[1..j + 1] + [p[1]];
      assert q[0] == q[j];
      assert IsWalk(g, q) by {
        forall k | 0 <= k < |q| - 1
          ensures q[k] in g && q[k + 1] in g[q[k]]
        {
          assert q[k] == p[k + 1];
          if k == j - 1 { assert q[k] == p[0] && q[k + 1] == p[1]; }
        }
      }
      assert Revisits(q);
    }
  }

  lemma UnknownStep(g: Edges, x: string) returns (y: string)
    requires ReachesUnknown(g, x) && x in g
    ensures y in g[x] && ReachesUnknown(g, y)
  {
    var p :| IsWalk(g, p) && p[0] == x && p[|p| - 1] !in g;
    y := p[1];
    var q := p[1..];
    assert IsWalk(g, q) && q[|q| - 1] == p[|p| - 1];
  }

  lemma PrependCycle(g: Edges, x: string, y: string)
    requires x in g && y in g[x] && ReachesCycle(g, y)
    ensures ReachesCycle(g, x)
  {
    var p :| IsWalk(g, p) && p[0] == y && Revisits(p);
    var i, j :| 0 <= i < j < |p| && p[i] == p[j];
    var q := [x] + p;
    assert q[i + 1] == q[j + 1];
    assert IsWalk(g, q) && Revisits(q);
  }

  lemma PrependUnknown(g: Edges, x: string, y: string)
    requires x in g && y in g[x] && ReachesUnknown(g, y)
    ensures ReachesUnknown(g, x)
  {
    var p :| IsWalk(g, p) && p[0] == y && p[|p| - 1] !in g;
    var q := [x] + p;
    assert IsWalk(g, q) && q[|q| - 1] == p[|p| - 1];
  }
}
