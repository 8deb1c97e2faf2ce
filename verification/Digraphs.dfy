// Directed graphs as adjacency lists, paths and reachability.
// A key that is missing has no successors, as a Go map lookup would return nil.
module Digraphs {

  type Digraph<T(==)> = map<T, seq<T>>

  function Succ<T>(g: Digraph<T>, v: T): seq<T> {
    if v in g then g[v] else []
  }

  // Every node the graph mentions, as a source or as a target.
  ghost function Nodes<T>(g: Digraph<T>): set<T> {
    g.Keys + set v, w | v in g && w in g[v] :: w
  }

  ghost predicate IsPath<T>(g: Digraph<T>, p: seq<T>, x: T, y: T) {
    && |p| > 0 && p[0] == x && p[|p| - 1] == y
    && forall i :: 0 < i < |p| ==> StepAt(g, p, i)
  }

  ghost predicate StepAt<T>(g: Digraph<T>, p: seq<T>, i: nat)
    requires 0 < i < |p|
  {
    p[i] in Succ(g, p[i - 1])
  }

  // y can be reached from x in zero or more steps.
  ghost predicate Reach<T(!new)>(g: Digraph<T>, x: T, y: T) {
    exists p: seq<T> :: IsPath(g, p, x, y)
  }

  // x can be reached from x in one or more steps.
  ghost predicate OnCycle<T(!new)>(g: Digraph<T>, x: T) {
    exists z :: z in Succ(g, x) && Reach(g, z, x)
  }

  lemma CycleStep<T(!new)>(g: Digraph<T>, x: T) returns (z: T)
    requires OnCycle(g, x)
    ensures z in Succ(g, x) && Reach(g, z, x)
  {
    z :| z in Succ(g, x) && Reach(g, z, x);
  }

  ghost predicate Mutual<T(!new)>(g: Digraph<T>, x: T, y: T) {
    Reach(g, x, y) && Reach(g, y, x)
  }

  ghost predicate Closed<T(!new)>(g: Digraph<T>, s: set<T>) {
    forall x, y :: x in s && y in Succ(g, x) ==> y in s
  }

  lemma ReachRefl<T(!new)>(g: Digraph<T>, x: T)
    ensures Reach(g, x, x)
  {
    assert IsPath(g, [x], x, x);
  }

  lemma ReachEdge<T(!new)>(g: Digraph<T>, x: T, y: T)
    requires y in Succ(g, x)
    ensures Reach(g, x, y)
  {
    assert IsPath(g, [x, y], x, y);
  }

  lemma ReachTrans<T(!new)>(g: Digraph<T>, x: T, y: T, z: T)
    requires Reach(g, x, y) && Reach(g, y, z)
    ensures Reach(g, x, z)
  {
    var p :| IsPath(g, p, x, y);
    var q :| IsPath(g, q, y, z);
    var r := p + q[1..];
    forall i | 0 < i < |r|
      ensures StepAt(g, r, i)
    {
      assert i < |p| ==> StepAt(g, p, i);
      assert i >= |p| ==> StepAt(g, q, i - |p| + 1);
      if i >= |p| {
        assert r[i] == q[i - |p| + 1];
        assert r[i - 1] == q[i - |p|];
      }
    }
    assert IsPath(g, r, x, z);
  }

  // x reaches y, and y has the edge to z.
  lemma ReachStep<T(!new)>(g: Digraph<T>, x: T, y: T, z: T)
    requires Reach(g, x, y) && z in Succ(g, y)
    ensures Reach(g, x, z)
  {
    ReachEdge(g, y, z);
    ReachTrans(g, x, y, z);
  }

  // A walk never leaves a set closed under successors.
  lemma {:induction false} ClosedKeepsReach<T(!new)>(g: Digraph<T>, s: set<T>, x: T, y: T)
    requires Closed(g, s) && x in s && Reach(g, x, y)
    ensures y in s
  {
    var p :| IsPath(g, p, x, y);
    var i := 0;
    while i < |p| - 1
      invariant 0 <= i < |p| && p[i] in s
    {
      assert StepAt(g, p, i + 1);
      i := i + 1;
    }
  }

  // A walk to a different node has a first step.
  lemma ReachFirstStep<T(!new)>(g: Digraph<T>, x: T, y: T) returns (z: T)
    requires Reach(g, x, y) && x != y
    ensures z in Succ(g, x) && Reach(g, z, y)
  {
    var p :| IsPath(g, p, x, y);
    z := p[1];
    assert StepAt(g, p, 1);
    forall i | 0 < i < |p[1..]|
      ensures StepAt(g, p[1..], i)
    {
      assert StepAt(g, p, i + 1);
    }
    assert IsPath(g, p[1..], z, y);
  }

  // Mutual reachability with a different node means lying on a cycle.
  lemma MutualOnCycle<T(!new)>(g: Digraph<T>, x: T, y: T)
    requires Mutual(g, x, y) && x != y
    ensures OnCycle(g, x)
  {
    var z := ReachFirstStep(g, x, y);
    ReachTrans(g, z, y, x);
  }

  ghost predicate BackwardClosed<T(!new)>(g: Digraph<T>, s: set<T>) {
    forall x, y :: y in s && y in Succ(g, x) ==> x in s
  }

  // A walk that ends in a set closed under predecessors never was outside it.
  lemma {:induction false} BackwardClosedKeepsReach<T(!new)>(g: Digraph<T>, s: set<T>, x: T, y: T)
    requires BackwardClosed(g, s) && y in s && Reach(g, x, y)
    ensures x in s
  {
    var p :| IsPath(g, p, x, y);
    var i := |p| - 1;
    while i > 0
      invariant 0 <= i < |p| && p[i] in s
    {
      assert StepAt(g, p, i);
      i := i - 1;
    }
  }

  ghost predicate ReachesCycle<T(!new)>(g: Digraph<T>, x: T) {
    exists c :: Reach(g, x, c) && OnCycle(g, c)
  }

  ghost predicate HasSuccIn<T(!new)>(g: Digraph<T>, s: set<T>, x: T) {
    exists z :: z in Succ(g, x) && z in s
  }

  lemma CycleReached<T(!new)>(g: Digraph<T>, x: T) returns (c: T)
    requires ReachesCycle(g, x)
    ensures Reach(g, x, c) && OnCycle(g, c)
  {
    c :| Reach(g, x, c) && OnCycle(g, c);
  }

  // Where every node of a finite set has a successor in the set, every walk runs into a cycle.
  lemma {:induction false} StuckReachesCycle<T(!new)>(g: Digraph<T>, s: set<T>, x: T)
    requires x in s && forall y {:trigger HasSuccIn(g, s, y)} :: y in s ==> HasSuccIn(g, s, y)
    ensures ReachesCycle(g, x)
    decreases |s|
  {
    ReachRefl(g, x);
    if !OnCycle(g, x) {
      assert HasSuccIn(g, s, x);
      var y :| y in Succ(g, x) && y in s;
      var t := set z | z in s && Reach(g, y, z);
      ReachRefl(g, y);
      forall z | z in t
        ensures HasSuccIn(g, t, z)
      {
        assert HasSuccIn(g, s, z);
        var u :| u in Succ(g, z) && u in s;
        ReachStep(g, y, z, u);
      }
      assert x !in t;
      SubsetSize(t, s - {x});
      StuckReachesCycle(g, t, y);
      var c :| Reach(g, y, c) && OnCycle(g, c);
      ReachEdge(g, x, y);
      ReachTrans(g, x, y, c);
    }
  }

  lemma {:induction false} SubsetSize<T>(a: set<T>, b: set<T>)
    requires a <= b
    ensures |a| <= |b|
  {
    if a != {} {
      var x :| x in a;
      SubsetSize(a - {x}, b - {x});
    }
  }
}
