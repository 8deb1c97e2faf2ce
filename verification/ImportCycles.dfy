// Import cycles of the package graph (tools/arch.go): Tarjan's algorithm, with
// its explicit stack, visiting indices and low links.
module ImportCycles {
  import opened Digraphs
  import opened Sorting

  type Imports = Digraph<Id>

  // ----- What findCycles is for -----

  // One reported cycle: the sorted listing of a whole strongly connected
  // component in which some node reaches itself by at least one import.
  ghost predicate IsCyclicComponent(g: Imports, s: seq<Id>) {
    && |s| > 0 && StrictlySorted(s)
    && OnCycle(g, s[0])
    && forall y :: y in s <==> Mutual(g, s[0], y)
  }

  // The report over the nodes of `done`: cyclic components only, none twice,
  // none missing, and each after every component it can reach.
  ghost predicate IsReport(g: Imports, sccs: seq<seq<Id>>, done: set<Id>) {
    && (forall i :: 0 <= i < |sccs| ==> IsCyclicComponent(g, sccs[i]) && Within(sccs[i], done))
    && (forall i, j :: 0 <= i < j < |sccs| ==> Apart(g, sccs[i], sccs[j]))
    && (forall x :: x in done && OnCycle(g, x) ==> Reported(sccs, x))
  }

  ghost predicate Within(s: seq<Id>, done: set<Id>) {
    forall x :: x in s ==> x in done
  }

  // Two lists without a common node, the earlier not reaching the later.
  ghost predicate Apart(g: Imports, a: seq<Id>, b: seq<Id>) {
    && (forall x :: x in a ==> x !in b)
    && forall x, y :: x in a && y in b ==> !Reach(g, x, y)
  }

  ghost predicate Reported(sccs: seq<seq<Id>>, x: Id) {
    exists i :: 0 <= i < |sccs| && x in sccs[i]
  }

  // ----- The search state -----

  // The stack lists its nodes in the order they were visited.
  ghost predicate StackInOrder(stack: seq<Id>, indices: map<Id, nat>) {
    && (forall x :: x in stack ==> x in indices)
    && forall i, j :: 0 <= i < j < |stack| ==> indices[stack[i]] < indices[stack[j]]
  }

  // x reaches an open node visited no later than itself.
  ghost predicate HasOpen(g: Imports, x: Id, indices: map<Id, nat>, open: set<Id>)
    requires x in indices && forall o :: o in open ==> o in indices
  {
    exists o :: o in open && indices[o] <= indices[x] && Reach(g, x, o)
  }

  ghost predicate ReachesOpen(g: Imports, stack: seq<Id>, indices: map<Id, nat>, open: set<Id>)
    requires forall x :: x in stack ==> x in indices
    requires forall x :: x in open ==> x in indices
  {
    forall x {:trigger HasOpen(g, x, indices, open)} :: x in stack ==> HasOpen(g, x, indices, open)
  }

  // Every open node reaches all stacked nodes visited after it.
  ghost predicate OpenReaches(g: Imports, stack: seq<Id>, indices: map<Id, nat>, open: set<Id>)
    requires forall x :: x in stack ==> x in indices
    requires forall x :: x in open ==> x in indices
  {
    forall o, x :: o in open && x in stack && indices[o] <= indices[x] ==> Reach(g, o, x)
  }

  // The heart of Tarjan's algorithm: a node at position n that nothing above it
  // escapes from is the root of a component, and the component is the stack's top.
  lemma TopIsComponent(g: Imports, stack: seq<Id>, n: nat, indices: map<Id, nat>, open: set<Id>, done: set<Id>)
    requires n < |stack| && open <= Elems(stack) && StackInOrder(stack, indices)
    requires stack[n] in open && forall o :: o in open ==> o == stack[n] || o in stack[..n]
    requires ReachesOpen(g, stack, indices, open) && OpenReaches(g, stack, indices, open)
    requires Closed(g, done) && done !! Elems(stack)
    requires Closed(g, done + Elems(stack[n..]))
    ensures forall y :: y in stack[n..] <==> Mutual(g, stack[n], y)
  {
    forall y
      ensures y in stack[n..] <==> Mutual(g, stack[n], y)
    {
      if y in stack[n..] {
        TopIsMutual(g, stack, n, indices, open, done, y);
      }
      if Mutual(g, stack[n], y) {
        assert stack[n] == stack[n..][0] && stack[n] in stack;
        ClosedKeepsReach(g, done + Elems(stack[n..]), stack[n], y);
        if y in done {
          ClosedKeepsReach(g, done, y, stack[n]);
        }
      }
    }
  }

  lemma TopIsMutual(g: Imports, stack: seq<Id>, n: nat, indices: map<Id, nat>, open: set<Id>, done: set<Id>, y: Id)
    requires n < |stack| && open <= Elems(stack) && StackInOrder(stack, indices)
    requires stack[n] in open && forall o :: o in open ==> o == stack[n] || o in stack[..n]
    requires ReachesOpen(g, stack, indices, open) && OpenReaches(g, stack, indices, open)
    requires done !! Elems(stack) && Closed(g, done + Elems(stack[n..]))
    requires y in stack[n..]
    ensures Mutual(g, stack[n], y)
  {
    var v := stack[n];
    BelowIsNotAbove(stack, n, indices);
    assert y in stack && indices[v] <= indices[y] by {
      var k :| 0 <= k < |stack[n..]| && stack[n..][k] == y;
      assert stack[n + k] == y;
    }
    assert HasOpen(g, y, indices, open);
    var o :| o in open && indices[o] <= indices[y] && Reach(g, y, o);
    ClosedKeepsReach(g, done + Elems(stack[n..]), y, o);
    assert o in Elems(stack);
    assert o in stack[n..];
  }

  lemma BelowIsNotAbove(stack: seq<Id>, n: nat, indices: map<Id, nat>)
    requires n <= |stack| && StackInOrder(stack, indices)
    ensures forall x, y :: x in stack[..n] && y in stack[n..] ==> indices[x] < indices[y]
  {
  }

  // ----- The state of the search, and what every step keeps -----

  datatype State = State(
    index: nat, stack: seq<Id>, indices: map<Id, nat>, lowlink: map<Id, nat>, visited: set<Id>, sccs: seq<seq<Id>>)
  {
    // Visited and no longer stacked: its component is complete.
    ghost function Done(): set<Id> {
      visited - Elems(stack)
    }

    ghost predicate Numbered(g: Imports, open: set<Id>) {
      && indices.Keys == visited && lowlink.Keys == visited
      && visited <= Nodes(g)
      && open <= Elems(stack) <= visited
      && (forall x :: x in visited ==> indices[x] < index)
      && StackInOrder(stack, indices)
    }

    // `open` holds the nodes whose call of StrongConnect has not returned.
    ghost predicate Valid(g: Imports, open: set<Id>) {
      && Numbered(g, open)
      && Closed(g, Done())
      && (forall x, y :: x in stack && x !in open && y in Succ(g, x) ==> y in visited)
      && ReachesOpen(g, stack, indices, open)
      && OpenReaches(g, stack, indices, open)
      && IsReport(g, sccs, Done())
    }

    // The nodes visited by an earlier state keep their numbers.
    ghost predicate Extends(s: State) {
      && s.visited <= visited
      && s.visited <= s.indices.Keys && s.visited <= s.lowlink.Keys
      && s.visited <= indices.Keys && s.visited <= lowlink.Keys
      && forall x :: x in s.visited ==> indices[x] == s.indices[x] && lowlink[x] == s.lowlink[x]
    }

    // v's loop has followed these imports: v's own low link, and what its subtree left stacked above it.
    ghost predicate Exploring(g: Imports, v: Id, open: set<Id>, base: seq<Id>, start: nat, followed: seq<Id>) {
      && Valid(g, open + {v}) && v in visited && open <= Elems(base)
      && |base| < |stack| && stack[..|base|] == base && stack[|base|] == v && indices[v] == start
      && Anchored(g, v, base)
      && NoLower(g, stack[|base| + 1..], base, indices, lowlink[v])
      && forall w :: w in followed ==> w in visited && (w in base ==> w in indices && lowlink[v] <= indices[w])
    }

    // lowlink[v] is the index of v itself or of an older stacked node that v reaches.
    ghost predicate Anchored(g: Imports, v: Id, base: seq<Id>)
      requires v in lowlink && v in indices
    {
      && lowlink[v] <= indices[v]
      && exists y :: (y == v || y in base) && y in indices && lowlink[v] == indices[y] && Reach(g, v, y)
    }
  }

  // No import from `above` to a node of `below` visited before index `low`.
  ghost predicate NoLower(g: Imports, above: seq<Id>, below: seq<Id>, indices: map<Id, nat>, low: nat) {
    forall x, y :: x in above && y in Succ(g, x) && y in below ==> y in indices && low <= indices[y]
  }

  // s after pushing v.
  function Pushed(s: State, v: Id): State {
    State(s.index + 1, s.stack + [v], s.indices[v := s.index], s.lowlink[v := s.index], s.visited + {v}, s.sccs)
  }

  lemma PushedReaches(g: Imports, s: State, v: Id, open: set<Id>)
    requires s.Valid(g, open) && v in Nodes(g) && v !in s.visited
    requires forall o :: o in open ==> Reach(g, o, v)
    ensures ReachesOpen(g, s.stack + [v], s.indices[v := s.index], open + {v})
    ensures OpenReaches(g, s.stack + [v], s.indices[v := s.index], open + {v})
  {
    ReachRefl(g, v);
    assert forall x :: x in s.stack ==> x in s.indices && x != v;
    var indices := s.indices[v := s.index];
    forall o, x | o in open + {v} && x in s.stack + [v] && indices[o] <= indices[x]
      ensures Reach(g, o, x)
    {
      assert o in open ==> o in s.stack;
    }
    forall x | x in s.stack + [v]
      ensures HasOpen(g, x, indices, open + {v})
    {
      if x != v {
        assert HasOpen(g, x, s.indices, open);
      }
    }
  }

  lemma PushedValid(g: Imports, s: State, v: Id, open: set<Id>)
    requires s.Valid(g, open) && v in Nodes(g) && v !in s.visited
    requires forall o :: o in open ==> Reach(g, o, v)
    ensures Pushed(s, v).Exploring(g, v, open, s.stack, s.index, [])
    ensures Pushed(s, v).Extends(s)
  {
    PushedReaches(g, s, v, open);
    ReachRefl(g, v);
    assert Pushed(s, v).Done() == s.Done();
  }

  // What a call of StrongConnect(v) does to the state s.
  ghost predicate Connected(g: Imports, s: State, v: Id, open: set<Id>, r: State) {
    && r.Valid(g, open) && r.Extends(s) && v in r.visited
    && s.stack <= r.stack
    // What v's subtree left on the stack points no lower than lowlink[v] ...
    && NoLower(g, r.stack[|s.stack|..], s.stack, r.indices, r.lowlink[v])
    // ... the index of an older stacked node that v reaches, if anything was left at all.
    && if r.stack == s.stack then r.lowlink[v] >= s.index
       else exists y :: y in s.stack && y in r.indices && r.lowlink[v] == r.indices[y] && Reach(g, v, y)
  }

  // s after lowering lowlink[v].
  function Lowered(s: State, v: Id, low: nat): State {
    if v in s.lowlink && low < s.lowlink[v] then s.(lowlink := s.lowlink[v := low]) else s
  }

  lemma LoweredValid(g: Imports, s: State, v: Id, low: nat, open: set<Id>)
    requires s.Valid(g, open)
    ensures Lowered(s, v, low).Valid(g, open)
  {
    assert Lowered(s, v, low).Done() == s.Done();
  }

  lemma LoweredExploring(g: Imports, s: State, v: Id, open: set<Id>, base: seq<Id>, start: nat, followed: seq<Id>,
      y: Id)
    requires s.Exploring(g, v, open, base, start, followed)
    requires y in s.stack && Reach(g, v, y)
    ensures Lowered(s, v, s.indices[y]).Exploring(g, v, open, base, start, followed)
  {
    BelowIsNotAbove(s.stack, |base|, s.indices);
    var r := Lowered(s, v, s.indices[y]);
    if s.indices[y] < s.lowlink[v] {
      assert y in base;
      assert r.Anchored(g, v, base);
    }
  }

  lemma LoweredExtends(s: State, t: State, r: State, v: Id, low: nat)
    requires t.Extends(s) && r.Extends(t) && v !in s.visited
    ensures Lowered(r, v, low).Extends(s)
  {
  }

  // An import already visited.
  lemma FollowSeen(g: Imports, s: State, v: Id, w: Id, open: set<Id>, base: seq<Id>, start: nat, followed: seq<Id>)
    requires s.Exploring(g, v, open, base, start, followed) && w in Succ(g, v) && w in s.visited
    ensures (if w in s.stack then Lowered(s, v, s.indices[w]) else s).Exploring(g, v, open, base, start, followed + [w])
  {
    ReachEdge(g, v, w);
    if w in s.stack {
      LoweredExploring(g, s, v, open, base, start, followed, w);
    } else {
      assert forall x :: x in base ==> x in s.stack;
    }
  }

  // Every open node reaches an import of the innermost one.
  lemma OpenReachImport(g: Imports, s: State, v: Id, w: Id, open: set<Id>, base: seq<Id>, start: nat, followed: seq<Id>)
    requires s.Exploring(g, v, open, base, start, followed) && w in Succ(g, v)
    ensures forall o :: o in open + {v} ==> Reach(g, o, w)
  {
    BelowIsNotAbove(s.stack, |base|, s.indices);
    assert v == s.stack[|base|..][0];
    forall o | o in open + {v}
      ensures Reach(g, o, w)
    {
      assert o in open ==> o in base;
      assert v in s.stack && s.indices[o] <= s.indices[v];
      ReachStep(g, o, v, w);
    }
  }

  lemma NoLowerJoin(g: Imports, a: seq<Id>, b: seq<Id>, base: seq<Id>, indices: map<Id, nat>, m: nat, n: nat, low: nat)
    requires NoLower(g, a, base, indices, m) && NoLower(g, b, base, indices, n) && low <= m && low <= n
    ensures NoLower(g, a + b, base, indices, low)
  {
    forall x, y | x in a + b && y in Succ(g, x) && y in base
      ensures y in indices && low <= indices[y]
    {
      assert x in a || x in b;
    }
  }

  lemma SuffixSplits(a: seq<Id>, b: seq<Id>, n: nat)
    requires a <= b && n <= |a|
    ensures b[..n] == a[..n] && b[n..] == a[n..] + b[|a|..]
  {
  }

  // The numbers of `below` are the same in `indices'`, which may number more nodes.
  lemma NoLowerKept(g: Imports, above: seq<Id>, below: seq<Id>, indices: map<Id, nat>, indices': map<Id, nat>, low: nat)
    requires NoLower(g, above, below, indices, low)
    requires forall x :: x in below && x in indices ==> x in indices' && indices'[x] == indices[x]
    ensures NoLower(g, above, below, indices', low)
  {
  }

  lemma LoweredIsLower(s: State, v: Id, low: nat)
    requires v in s.lowlink
    ensures v in Lowered(s, v, low).lowlink && Lowered(s, v, low).lowlink[v] <= s.lowlink[v]
    ensures Lowered(s, v, low).lowlink[v] <= low && Lowered(s, v, low).indices == s.indices
  {
  }

  // An import visited by the call just made, from s to r: what is stacked now ...
  lemma FollowFreshStack(g: Imports, s: State, r: State, v: Id, w: Id, open: set<Id>, base: seq<Id>, start: nat,
      followed: seq<Id>)
    requires s.Exploring(g, v, open, base, start, followed) && w in Succ(g, v) && w !in s.visited
    requires Connected(g, s, w, open + {v}, r)
    ensures |base| < |r.stack| && r.stack[..|base|] == base && r.stack[|base|] == v
    ensures v in r.lowlink && w in r.lowlink
    ensures NoLower(g, r.stack[|base| + 1..], base, r.indices, Lowered(r, v, r.lowlink[w]).lowlink[v])
  {
    var above, added := s.stack[|base| + 1..], r.stack[|s.stack|..];
    SuffixSplits(s.stack, r.stack, |base|);
    SuffixSplits(s.stack, r.stack, |base| + 1);
    LoweredIsLower(r, v, r.lowlink[w]);
    assert forall x :: x in base ==> x in s.stack[..|base|] && x in s.stack && x in s.visited;
    NoLowerKept(g, above, base, s.indices, r.indices, s.lowlink[v]);
    NoLowerWithin(g, added, s.stack, base, r.indices, r.lowlink[w]);
    NoLowerJoin(g, above, added, base, r.indices, r.lowlink[v], r.lowlink[w], Lowered(r, v, r.lowlink[w]).lowlink[v]);
  }

  lemma NoLowerWithin(g: Imports, above: seq<Id>, below: seq<Id>, base: seq<Id>, indices: map<Id, nat>, low: nat)
    requires NoLower(g, above, below, indices, low) && forall x :: x in base ==> x in below
    ensures NoLower(g, above, base, indices, low)
  {
  }

  // ... and where v's low link points.
  lemma FollowFreshAnchor(g: Imports, s: State, r: State, v: Id, w: Id, open: set<Id>, base: seq<Id>, start: nat,
      followed: seq<Id>)
    requires s.Exploring(g, v, open, base, start, followed) && w in Succ(g, v) && w !in s.visited
    requires Connected(g, s, w, open + {v}, r)
    ensures v in r.lowlink && v in r.indices && Lowered(r, v, r.lowlink[w]).Anchored(g, v, base)
  {
    assert r.lowlink[v] == s.lowlink[v] && r.indices[v] == s.indices[v] < s.index;
    if r.lowlink[w] < r.lowlink[v] {
      var y :| y in s.stack && y in r.indices && r.lowlink[w] == r.indices[y] && Reach(g, w, y);
      ReachEdge(g, v, w);
      ReachTrans(g, v, w, y);
      BelowIsNotAbove(s.stack, |base|, s.indices);
      assert y in base;
    } else {
      var y :| (y == v || y in base) && y in s.indices && s.lowlink[v] == s.indices[y] && Reach(g, v, y);
      assert y in r.indices && r.indices[y] == s.indices[y];
    }
  }

  lemma FollowFreshSeen(g: Imports, s: State, r: State, v: Id, w: Id, open: set<Id>, base: seq<Id>, start: nat,
      followed: seq<Id>)
    requires s.Exploring(g, v, open, base, start, followed) && w in Succ(g, v) && w !in s.visited
    requires Connected(g, s, w, open + {v}, r)
    ensures v in r.lowlink && forall x :: x in followed + [w] ==>
      x in r.visited && (x in base ==> x in r.indices && Lowered(r, v, r.lowlink[w]).lowlink[v] <= r.indices[x])
  {
    assert forall x :: x in base ==> x in s.stack && x in s.visited;
  }

  lemma FollowFresh(g: Imports, s: State, r: State, v: Id, w: Id, open: set<Id>, base: seq<Id>, start: nat,
      followed: seq<Id>)
    requires s.Exploring(g, v, open, base, start, followed) && w in Succ(g, v) && w !in s.visited
    requires Connected(g, s, w, open + {v}, r)
    ensures v in r.lowlink && Lowered(r, v, r.lowlink[w]).Exploring(g, v, open, base, start, followed + [w])
  {
    FollowFreshStack(g, s, r, v, w, open, base, start, followed);
    FollowFreshAnchor(g, s, r, v, w, open, base, start, followed);
    LoweredValid(g, r, v, r.lowlink[w], open + {v});
    FollowFreshSeen(g, s, r, v, w, open, base, start, followed);
  }

  // v's loop has followed all its imports, and v is not a root: it stays on the stack.
  lemma StaysStacked(g: Imports, s: State, r: State, v: Id, open: set<Id>)
    requires s.Valid(g, open) && v !in s.visited
    requires r.Exploring(g, v, open, s.stack, s.index, Succ(g, v)) && r.Extends(s)
    requires r.lowlink[v] < r.indices[v]
    ensures Connected(g, s, v, open, r)
  {
    StaysValid(g, s, r, v, open);
    var n, base := |s.stack|, s.stack;
    assert r.stack[n..] == [v] + r.stack[n + 1..];
    assert NoLower(g, [v], base, r.indices, r.lowlink[v]);
    NoLowerJoin(g, [v], r.stack[n + 1..], base, r.indices, r.lowlink[v], r.lowlink[v], r.lowlink[v]);
  }

  lemma StaysValid(g: Imports, s: State, r: State, v: Id, open: set<Id>)
    requires s.Valid(g, open) && v !in s.visited
    requires r.Exploring(g, v, open, s.stack, s.index, Succ(g, v)) && r.Extends(s)
    requires r.lowlink[v] < r.indices[v]
    ensures r.Valid(g, open)
  {
    ExploredIsVisited(g, r, v, open, s.stack, s.index);
    forall x | x in r.stack
      ensures HasOpen(g, x, r.indices, open)
    {
      var y :| (y == v || y in s.stack) && y in r.indices && r.lowlink[v] == r.indices[y] && Reach(g, v, y);
      StaysReachesOpen(g, s, r, v, open, x, y);
    }
  }

  // What v's subtree left on the stack, v included, has been followed.
  lemma ExploredIsVisited(g: Imports, r: State, v: Id, open: set<Id>, base: seq<Id>, start: nat)
    requires r.Exploring(g, v, open, base, start, Succ(g, v))
    ensures forall x, y :: x in r.stack && x !in open && y in Succ(g, x) ==> y in r.visited
  {
    forall x, y | x in r.stack && x !in open && y in Succ(g, x)
      ensures y in r.visited
    {
      assert x == v || x !in open + {v};
    }
  }

  lemma StaysReachesOpen(g: Imports, s: State, r: State, v: Id, open: set<Id>, x: Id, y: Id)
    requires s.Valid(g, open) && v !in s.visited
    requires r.Exploring(g, v, open, s.stack, s.index, Succ(g, v)) && r.Extends(s)
    requires r.lowlink[v] < r.indices[v] && x in r.stack
    requires y in s.stack && y in r.indices && r.lowlink[v] == r.indices[y] && Reach(g, v, y)
    ensures HasOpen(g, x, r.indices, open)
  {
    assert HasOpen(g, x, r.indices, open + {v});
    var o :| o in open + {v} && r.indices[o] <= r.indices[x] && Reach(g, x, o);
    if o !in open {
      assert HasOpen(g, y, s.indices, open);
      var p :| p in open && s.indices[p] <= s.indices[y] && Reach(g, y, p);
      assert y in s.visited && p in s.visited;
      ReachTrans(g, x, v, y);
      ReachTrans(g, x, y, p);
    }
  }

  // v's loop has followed all its imports and v is a root: nothing above it escapes.
  lemma RootIsClosed(g: Imports, s: State, r: State, v: Id, open: set<Id>)
    requires s.Valid(g, open) && v !in s.visited
    requires r.Exploring(g, v, open, s.stack, s.index, Succ(g, v)) && r.Extends(s)
    requires r.lowlink[v] == r.indices[v]
    ensures Closed(g, r.Done() + Elems(r.stack[|s.stack|..]))
    ensures r.Done() + Elems(r.stack[|s.stack|..]) == r.visited - Elems(s.stack)
  {
    TopAndDone(r.stack, |s.stack|, r.indices, r.visited);
    ExploredIsVisited(g, r, v, open, s.stack, s.index);
    forall x, y | x in r.visited - Elems(s.stack) && y in Succ(g, x)
      ensures y in r.visited - Elems(s.stack)
    {
      if x in r.stack {
        RootNotEscaped(g, s, r, v, open, x, y);
        assert x !in open;
      } else {
        assert x in r.Done() && y in r.Done();
      }
    }
  }

  lemma TopAndDone(stack: seq<Id>, n: nat, indices: map<Id, nat>, visited: set<Id>)
    requires n <= |stack| && StackInOrder(stack, indices) && Elems(stack) <= visited
    ensures visited - Elems(stack) + Elems(stack[n..]) == visited - Elems(stack[..n])
    ensures Elems(stack[..n]) <= Elems(stack)
    ensures forall x :: x in stack && x !in stack[..n] ==> x in stack[n..]
  {
    BelowIsNotAbove(stack, n, indices);
    assert stack == stack[..n] + stack[n..];
  }

  lemma RootNotEscaped(g: Imports, s: State, r: State, v: Id, open: set<Id>, x: Id, y: Id)
    requires s.Valid(g, open) && v !in s.visited
    requires r.Exploring(g, v, open, s.stack, s.index, Succ(g, v)) && r.Extends(s)
    requires r.lowlink[v] == r.indices[v]
    requires x in r.stack && x !in s.stack && y in Succ(g, x)
    ensures y !in s.stack
  {
    assert forall z :: z in s.stack ==> z in s.visited && r.indices[z] < s.index;
    NothingEscapes(g, r.stack, s.stack, v, r.indices, r.lowlink[v], x, y);
  }

  // All imports to older stacked nodes go to `low` or above, and no older node is there.
  lemma NothingEscapes(g: Imports, stack: seq<Id>, base: seq<Id>, v: Id, indices: map<Id, nat>, low: nat, x: Id, y: Id)
    requires |base| < |stack| && stack[..|base|] == base && stack[|base|] == v
    requires NoLower(g, stack[|base| + 1..], base, indices, low)
    requires forall w :: w in Succ(g, v) && w in base ==> w in indices && low <= indices[w]
    requires forall z :: z in base ==> z in indices && indices[z] < low
    requires x in stack && x !in base && y in Succ(g, x)
    ensures y !in base
  {
    assert stack == base + [v] + stack[|base| + 1..];
    assert x == v || x in stack[|base| + 1..];
  }

  ghost predicate SelfImport(g: Imports, v: Id) {
    v in Succ(g, v)
  }

  lemma RootComponent(g: Imports, s: State, r: State, v: Id, open: set<Id>)
    requires s.Valid(g, open) && v !in s.visited
    requires r.Exploring(g, v, open, s.stack, s.index, Succ(g, v)) && r.Extends(s)
    requires r.lowlink[v] == r.indices[v]
    ensures forall y :: y in r.stack[|s.stack|..] <==> Mutual(g, v, y)
    ensures OnCycle(g, v) <==> |r.stack[|s.stack|..]| > 1 || SelfImport(g, v)
  {
    var n := |s.stack|;
    RootIsClosed(g, s, r, v, open);
    TopIsComponent(g, r.stack, n, r.indices, open + {v}, r.Done());
    var top := r.stack[n..];
    if |top| > 1 {
      assert top[1] in top && r.indices[r.stack[n]] < r.indices[r.stack[n + 1]];
      MutualOnCycle(g, v, top[1]);
    } else {
      if SelfImport(g, v) {
        ReachRefl(g, v);
      }
      if OnCycle(g, v) {
        var z := CycleStep(g, v);
        ReachEdge(g, v, z);
        assert z in top;
      }
    }
  }

  // The report after the component of v, listed in `scc`, is complete.
  function NewReport(g: Imports, sccs: seq<seq<Id>>, scc: seq<Id>): seq<seq<Id>> {
    if |scc| > 1 then sccs + [SortIds(scc)]
    else if |scc| == 1 && scc[0] in Succ(g, scc[0]) then sccs + [scc]
    else sccs
  }

  lemma MutualShift(g: Imports, v: Id, x: Id)
    requires Mutual(g, v, x)
    ensures forall y :: Mutual(g, v, y) <==> Mutual(g, x, y)
    ensures OnCycle(g, v) ==> OnCycle(g, x)
  {
    forall y
      ensures Mutual(g, v, y) <==> Mutual(g, x, y)
    {
      if Mutual(g, v, y) {
        ReachTrans(g, x, v, y);
        ReachTrans(g, y, v, x);
      }
      if Mutual(g, x, y) {
        ReachTrans(g, v, x, y);
        ReachTrans(g, y, x, v);
      }
    }
    if OnCycle(g, v) && x != v {
      MutualOnCycle(g, x, v);
    }
  }

  lemma ListsComponent(g: Imports, scc: seq<Id>, c: seq<Id>, v: Id)
    requires v in scc && OnCycle(g, v) && forall y :: y in scc <==> Mutual(g, v, y)
    requires StrictlySorted(c) && forall y :: y in c <==> y in scc
    ensures |c| > 0 && IsCyclicComponent(g, c)
  {
    assert v in c;
    assert c[0] in c;
    MutualShift(g, v, c[0]);
  }

  lemma DoneIsApart(g: Imports, done: set<Id>, a: seq<Id>, b: seq<Id>)
    requires Closed(g, done) && Within(a, done) && forall y :: y in b ==> y !in done
    ensures Apart(g, a, b)
  {
    forall x, y | x in a && y in b && Reach(g, x, y)
      ensures false
    {
      ClosedKeepsReach(g, done, x, y);
    }
  }

  lemma AddComponent(g: Imports, sccs: seq<seq<Id>>, done: set<Id>, c: seq<Id>)
    requires IsReport(g, sccs, done) && Closed(g, done)
    requires IsCyclicComponent(g, c) && Elems(c) !! done
    ensures IsReport(g, sccs + [c], done + Elems(c))
  {
    var all := sccs + [c];
    forall i | 0 <= i < |all|
      ensures IsCyclicComponent(g, all[i]) && Within(all[i], done + Elems(c))
    {
      assert i < |sccs| ==> Within(sccs[i], done);
    }
    AddedApart(g, sccs, done, c);
    forall x | x in done + Elems(c) && OnCycle(g, x)
      ensures Reported(all, x)
    {
      StillReported(sccs, c, x);
    }
  }

  lemma AddedApart(g: Imports, sccs: seq<seq<Id>>, done: set<Id>, c: seq<Id>)
    requires Closed(g, done) && Elems(c) !! done
    requires forall i :: 0 <= i < |sccs| ==> Within(sccs[i], done)
    requires forall i, j :: 0 <= i < j < |sccs| ==> Apart(g, sccs[i], sccs[j])
    ensures forall i, j :: 0 <= i < j < |sccs + [c]| ==> Apart(g, (sccs + [c])[i], (sccs + [c])[j])
  {
    assert forall y :: y in c ==> y in Elems(c);
    forall i | 0 <= i < |sccs|
      ensures Apart(g, sccs[i], c)
    {
      DoneIsApart(g, done, sccs[i], c);
    }
  }

  lemma StillReported(sccs: seq<seq<Id>>, c: seq<Id>, x: Id)
    ensures Reported(sccs + [c], x) <==> Reported(sccs, x) || x in c
  {
    if Reported(sccs, x) {
      var i :| 0 <= i < |sccs| && x in sccs[i];
      assert x in (sccs + [c])[i];
    }
    if x in c {
      assert x in (sccs + [c])[|sccs|];
    }
  }

  lemma NewReportIsReport(g: Imports, sccs: seq<seq<Id>>, done: set<Id>, scc: seq<Id>, v: Id)
    requires IsReport(g, sccs, done) && Closed(g, done) && Elems(scc) !! done
    requires Distinct(scc) && v in scc && forall y :: y in scc <==> Mutual(g, v, y)
    requires OnCycle(g, v) <==> |scc| > 1 || SelfImport(g, v)
    ensures IsReport(g, NewReport(g, sccs, scc), done + Elems(scc))
  {
    SortIdsDistinct(scc);
    assert |scc| == 1 ==> scc == [v];
    if OnCycle(g, v) {
      var c := if |scc| > 1 then SortIds(scc) else scc;
      ListsComponent(g, scc, c, v);
      AddComponent(g, sccs, done, c);
      assert Elems(c) == Elems(scc);
    } else {
      assert |scc| == 1 && done + Elems(scc) == done + {v};
    }
  }

  lemma RootPoppedOpen(g: Imports, s: State, r: State, v: Id, open: set<Id>)
    requires s.Valid(g, open) && v !in s.visited && r.Numbered(g, open + {v}) && r.Extends(s)
    ensures forall x :: x in s.stack ==> x in r.indices
    ensures StackInOrder(s.stack, r.indices)
    ensures ReachesOpen(g, s.stack, r.indices, open)
    ensures OpenReaches(g, s.stack, r.indices, open)
  {
    assert forall x :: x in s.stack ==> x in s.visited && s.indices[x] == r.indices[x];
    forall x | x in s.stack
      ensures HasOpen(g, x, r.indices, open)
    {
      assert HasOpen(g, x, s.indices, open);
    }
  }

  // v's loop has followed all its imports and v is a root: r, with v's component popped, is p.
  lemma RootPopped(g: Imports, s: State, r: State, scc: seq<Id>, v: Id, open: set<Id>)
    requires s.Valid(g, open) && v !in s.visited
    requires r.Exploring(g, v, open, s.stack, s.index, Succ(g, v)) && r.Extends(s)
    requires r.lowlink[v] == r.indices[v]
    requires Distinct(scc) && |scc| == |r.stack[|s.stack|..]| && Elems(scc) == Elems(r.stack[|s.stack|..])
    ensures Connected(g, s, v, open, r.(stack := s.stack, sccs := NewReport(g, r.sccs, scc)))
  {
    var n := |s.stack|;
    var p := r.(stack := s.stack, sccs := NewReport(g, r.sccs, scc));
    assert r.stack == s.stack + r.stack[n..];
    assert v == r.stack[n..][0];
    assert v in Elems(scc);
    RootIsClosed(g, s, r, v, open);
    RootComponent(g, s, r, v, open);
    assert forall y :: y in scc <==> y in Elems(scc);
    NewReportIsReport(g, r.sccs, r.Done(), scc, v);
    assert p.Done() == r.Done() + Elems(scc);
    RootPoppedOpen(g, s, r, v, open);
  }

  lemma StackIsDistinct(stack: seq<Id>, indices: map<Id, nat>)
    requires StackInOrder(stack, indices)
    ensures Distinct(stack)
  {
  }

  // ----- What the search computes, step by step -----

  // The stack from position n on, from the top down.
  ghost function TopDown(stack: seq<Id>, n: nat): seq<Id>
    requires n <= |stack|
  {
    seq(|stack| - n, k requires 0 <= k < |stack| - n => stack[|stack| - 1 - k])
  }

  ghost function Popped(g: Imports, s: State, n: nat): State {
    if n <= |s.stack|
    then s.(stack := s.stack[..n], sccs := NewReport(g, s.sccs, TopDown(s.stack, n)))
    else s
  }

  ghost predicate IsRoot(s: State, v: Id) {
    v in s.lowlink && v in s.indices && s.lowlink[v] == s.indices[v]
  }

  // s after the call for v.
  ghost function Searched(g: Imports, s: State, v: Id): (r: State)
    requires v in Nodes(g) && v !in s.visited
    ensures s.visited <= r.visited
    decreases Nodes(g) - s.visited, 0, 0
  {
    assert v in Nodes(g) - s.visited && v !in Nodes(g) - Pushed(s, v).visited;
    var t := FollowedAll(g, Pushed(s, v), v, Succ(g, v));
    if IsRoot(t, v) then Popped(g, t, |s.stack|) else t
  }

  // s after v's loop has followed these imports.
  ghost function FollowedAll(g: Imports, s: State, v: Id, imports: seq<Id>): (r: State)
    requires Elems(imports) <= Nodes(g)
    ensures s.visited <= r.visited
    decreases Nodes(g) - s.visited, 2, |imports|
  {
    if imports == [] then s else
      var n := |imports| - 1;
      assert Elems(imports[..n]) <= Elems(imports) && imports[n] in Elems(imports);
      Followed(g, FollowedAll(g, s, v, imports[..n]), v, imports[n])
  }

  ghost function Followed(g: Imports, s: State, v: Id, w: Id): (r: State)
    requires w in Nodes(g)
    ensures s.visited <= r.visited
    decreases Nodes(g) - s.visited, 1, 0
  {
    if w !in s.visited then
      var r := Searched(g, s, w);
      Lowered(r, v, if w in r.lowlink then r.lowlink[w] else 0)
    else if w in s.stack && w in s.indices then Lowered(s, v, s.indices[w])
    else s
  }

  const EMPTY: State := State(0, [], map[], map[], {}, [])

  ghost function SearchedAll(g: Imports, nodes: seq<Id>): State
    requires Elems(nodes) <= Nodes(g)
  {
    if nodes == [] then EMPTY else
      var n := |nodes| - 1;
      assert Elems(nodes[..n]) <= Elems(nodes) && nodes[n] in Elems(nodes);
      var s := SearchedAll(g, nodes[..n]);
      if nodes[n] in s.visited then s else Searched(g, s, nodes[n])
  }

  lemma {:induction false} FollowedNext(g: Imports, s: State, v: Id, imports: seq<Id>, i: nat)
    requires i < |imports| && Elems(imports) <= Nodes(g)
    ensures Elems(imports[..i]) <= Nodes(g) && Elems(imports[..i + 1]) <= Nodes(g) && imports[i] in Nodes(g)
    ensures FollowedAll(g, s, v, imports[..i + 1]) == Followed(g, FollowedAll(g, s, v, imports[..i]), v, imports[i])
  {
    assert imports[i] in Elems(imports);
    assert imports[..i + 1][..i] == imports[..i];
  }

  lemma {:induction false} SearchedNext(g: Imports, nodes: seq<Id>, i: nat)
    requires i < |nodes| && Elems(nodes) <= Nodes(g)
    ensures Elems(nodes[..i]) <= Nodes(g) && Elems(nodes[..i + 1]) <= Nodes(g) && nodes[i] in Nodes(g)
    ensures var s := SearchedAll(g, nodes[..i]);
      SearchedAll(g, nodes[..i + 1]) == if nodes[i] in s.visited then s else Searched(g, s, nodes[i])
  {
    assert nodes[i] in Elems(nodes);
    assert nodes[..i + 1][..i] == nodes[..i];
  }

  lemma {:induction false} FollowedFresh(g: Imports, s: State, r: State, v: Id, w: Id)
    requires w in Nodes(g) && w !in s.visited && r == Searched(g, s, w) && w in r.lowlink
    ensures Followed(g, s, v, w) == Lowered(r, v, r.lowlink[w])
  {
  }

  lemma ImportIsNode(g: Imports, v: Id, w: Id)
    requires w in Succ(g, v)
    ensures w in Nodes(g)
  {
  }

  lemma SuccAreNodes(
g: Imports, v: Id)
    ensures Elems(Succ(g, v)) <= Nodes(g)
  {
  }

  // The report of the search that starts from the sorted nodes.
  ghost predicate IsFound(g: Imports, sccs: seq<seq<Id>>) {
    exists nodes :: IsStart(g, nodes) && sccs == SearchedAll(g, nodes).sccs
  }

  ghost predicate IsStart(g: Imports, nodes: seq<Id>) {
    StrictlySorted(nodes) && Elems(nodes) == g.Keys
  }

  // The report, its order included, is determined by the graph: nothing shows of the
  // order in which the map yields its keys.
  lemma ReportIsUnique(g: Imports, a: seq<seq<Id>>, b: seq<seq<Id>>)
    requires IsFound(g, a) && IsFound(g, b)
    ensures a == b
  {
    var m :| IsStart(g, m) && a == SearchedAll(g, m).sccs;
    var n :| IsStart(g, n) && b == SearchedAll(g, n).sccs;
    assert forall x :: x in m <==> x in Elems(m);
    assert forall x :: x in n <==> x in Elems(n);
    StrictlySortedUnique(m, n);
  }

  // ----- The search itself -----

  lemma OneMore(imports: seq<Id>, i: nat)
    requires i < |imports|
    ensures imports[..i + 1] == imports[..i] + [imports[i]]
  {
  }

  // The variables that strongConnect captures.
  class CycleSearch {
    const g: Imports
    var index: nat
    var stack: seq<Id>
    var onStack: set<Id>
    var indices: map<Id, nat>
    var lowlink: map<Id, nat>
    var visited: set<Id>
    var sccs: seq<seq<Id>>

    ghost function View(): State
      reads this
    {
      State(index, stack, indices, lowlink, visited, sccs)
    }

    ghost predicate Valid(open: set<Id>)
      reads this
    {
      View().Valid(g, open) && onStack == Elems(stack)
    }

    constructor (g: Imports)
      ensures this.g == g && Valid({}) && View() == EMPTY
    {
      this.g := g;
      index, stack, onStack := 0, [], {};
      indices, lowlink, visited, sccs := map[], map[], {}, [];
    }

    method StrongConnect(v: Id, ghost open: set<Id>)
      requires Valid(open) && v in Nodes(g) && v !in visited
      requires forall o :: o in open ==> Reach(g, o, v)
      modifies this
      ensures Valid(open) && Connected(g, old(View()), v, open, View())
      ensures View() == Searched(g, old(View()), v)
      decreases Nodes(g) - visited, 0
    {
      ghost var s := View();
      Push(v, open);
      var imports := Succ(g, v);
      SuccAreNodes(g, v);
      for i := 0 to |imports|
        invariant onStack == Elems(stack) && View().Extends(s) && v in visited
        invariant View().Exploring(g, v, open, s.stack, s.index, imports[..i])
        invariant Elems(imports[..i]) <= Nodes(g) && View() == FollowedAll(g, Pushed(s, v), v, imports[..i])
      {
        OneMore(imports, i);
        FollowedNext(g, Pushed(s, v), v, imports, i);
        Follow(v, imports[i], open, s, imports[..i]);
      }
      assert imports[..|imports|] == imports;
      if lowlink[v] == indices[v] {
        PopComponent(v, open, s);
      } else {
        StaysStacked(g, s, View(), v, open);
      }
    }

    method Push(v: Id, ghost open: set<Id>)
      requires Valid(open) && v in Nodes(g) && v !in visited
      requires forall o :: o in open ==> Reach(g, o, v)
      modifies this
      ensures onStack == Elems(stack) && View().Extends(old(View())) && visited == old(visited) + {v}
      ensures View().Exploring(g, v, open, old(stack), old(index), [])
      ensures View() == Pushed(old(View()), v)
    {
      PushedValid(g, View(), v, open);
      indices := indices[v := index];
      lowlink := lowlink[v := index];
      index := index + 1;
      visited := visited + {v};
      stack := stack + [v];
      onStack := onStack + {v};
    }

    // The loop body for the import w; s is the state at v's call.
    method Follow(v: Id, w: Id, ghost open: set<Id>, ghost s: State, ghost followed: seq<Id>)
      requires onStack == Elems(stack) && View().Extends(s) && v !in s.visited && w in Succ(g, v)
      requires View().Exploring(g, v, open, s.stack, s.index, followed)
      modifies this
      ensures onStack == Elems(stack) && View().Extends(s) && old(visited) <= visited
      ensures View().Exploring(g, v, open, s.stack, s.index, followed + [w])
      ensures w in Nodes(g) && View() == Followed(g, old(View()), v, w)
      decreases Nodes(g) - visited, 2
    {
      if w !in visited {
        FollowNew(v, w, open, s, followed);
      } else {
        ghost var t := View();
        FollowSeen(g, t, v, w, open, s.stack, s.index, followed);
        if w in onStack {
          LoweredExtends(s, t, t, v, indices[w]);
          Lower(v, indices[w]);
        }
      }
    }

    method FollowNew(v: Id, w: Id, ghost open: set<Id>, ghost s: State, ghost followed: seq<Id>)
      requires onStack == Elems(stack) && View().Extends(s) && v !in s.visited && w in Succ(g, v) && w !in visited
      requires View().Exploring(g, v, open, s.stack, s.index, followed)
      modifies this
      ensures onStack == Elems(stack) && View().Extends(s) && old(visited) <= visited
      ensures View().Exploring(g, v, open, s.stack, s.index, followed + [w])
      ensures w in Nodes(g) && View() == Followed(g, old(View()), v, w)
      decreases Nodes(g) - visited, 1
    {
      ghost var t := View();
      OpenReachImport(g, t, v, w, open, s.stack, s.index, followed);
      ImportIsNode(g, v, w);
      StrongConnect(w, open + {v});
      ghost var r := View();
      FollowFresh(g, t, r, v, w, open, s.stack, s.index, followed);
      LoweredExtends(s, t, r, v, lowlink[w]);
      FollowedFresh(g, t, r, v, w);
      Lower(v, lowlink[w]);
    }

    method Lower(v: Id, low: nat)
      requires v in lowlink
      modifies this`lowlink
      ensures View() == Lowered(old(View()), v, low)
    {
      if low < lowlink[v] {
        lowlink := lowlink[v := low];
      }
    }

    // v is the root of a component: pop it and report it if it is a cycle.
    method PopComponent(v: Id, ghost open: set<Id>, ghost s: State)
      requires s.Valid(g, open) && v !in s.visited && onStack == Elems(stack) && View().Extends(s)
      requires View().Exploring(g, v, open, s.stack, s.index, Succ(g, v)) && lowlink[v] == indices[v]
      modifies this
      ensures onStack == Elems(stack) && Connected(g, s, v, open, View())
      ensures View() == Popped(g, old(View()), |s.stack|)
    {
      ghost var r := View();
      StackIsDistinct(stack, indices);
      var scc := PopThrough(v, |s.stack|);
      RootPopped(g, s, r, scc, v, open);
      ReportComponent(scc);
    }

    method ReportComponent(scc: seq<Id>)
      modifies this`sccs
      ensures sccs == NewReport(g, old(sccs), scc)
    {
      if |scc| > 1 {
        sccs := sccs + [SortIds(scc)];
      } else if |scc| == 1 {
        var deps := Succ(g, scc[0]);
        var k := 0;
        while k < |deps|
          invariant 0 <= k <= |deps| && scc[0] !in deps[..k] && sccs == old(sccs)
        {
          if deps[k] == scc[0] {
            sccs := sccs + [scc];
            return;
          }
          k := k + 1;
        }
      }
    }

    // Pops the stack down to and including v, which is at position n.
    method PopThrough(v: Id, ghost n: nat) returns (scc: seq<Id>)
      requires n < |stack| && stack[n] == v && Distinct(stack) && onStack == Elems(stack)
      modifies this`stack, this`onStack
      ensures stack == old(stack)[..n] && onStack == Elems(stack)
      ensures Distinct(scc) && |scc| == |old(stack)[n..]| && Elems(scc) == Elems(old(stack)[n..])
      ensures scc == TopDown(old(stack), n)
    {
      scc := [];
      ghost var all := stack;
      while true
        invariant n < |stack| <= |all| && stack == all[..|stack|] && onStack == Elems(stack)
        invariant |scc| == |all| - |stack|
        invariant forall k :: 0 <= k < |scc| ==> scc[k] == all[|all| - 1 - k]
        decreases |stack|
      {
        var w := stack[|stack| - 1];
        stack := stack[..|stack| - 1];
        onStack := onStack - {w};
        scc := scc + [w];
        if w == v {
          break;
        }
      }
      assert forall x :: x in scc ==> x in all[n..];
      assert forall k :: n <= k < |all| ==> all[k] == scc[|all| - 1 - k];
    }
  }

  // The sorted keys, collected in whatever order the map yields them.
  method SortedKeys(g: Imports) returns (nodes: seq<Id>)
    ensures StrictlySorted(nodes) && Elems(nodes) == g.Keys
  {
    nodes := [];
    var rest := g.Keys;
    while rest != {}
      invariant rest <= g.Keys && Distinct(nodes) && Elems(nodes) == g.Keys - rest
    {
      var n :| n in rest;
      rest := rest - {n};
      assert Elems(nodes + [n]) == Elems(nodes) + {n};
      nodes := nodes + [n];
    }
    SortIdsDistinct(nodes);
    assert Elems(SortIds(nodes)) == Elems(nodes);
    nodes := SortIds(nodes);
  }

  method FindCycles(g: Imports) returns (sccs: seq<seq<Id>>)
    ensures IsReport(g, sccs, Nodes(g)) && IsFound(g, sccs)
  {
    var search := new CycleSearch(g);
    var nodes := SortedKeys(g);
    for i := 0 to |nodes|
      invariant search.Valid({}) && Elems(nodes[..i]) <= search.visited
      invariant Elems(nodes[..i]) <= Nodes(g) && search.View() == SearchedAll(g, nodes[..i])
    {
      ElemsNext(nodes, i);
      SearchedNext(g, nodes, i);
      if nodes[i] !in search.visited {
        search.StrongConnect(nodes[i], {});
      }
    }
    NothingLeftStacked(g, search.View());
    assert nodes[..|nodes|] == nodes;
    AllVisited(g, search.View());
    sccs := search.sccs;
  }

  lemma OpenOf(g: Imports, stack: seq<Id>, indices: map<Id, nat>, open: set<Id>, x: Id) returns (o: Id)
    requires (forall y :: y in stack ==> y in indices) && (forall y :: y in open ==> y in indices)
    requires ReachesOpen(g, stack, indices, open) && x in stack
    ensures o in open && indices[o] <= indices[x] && Reach(g, x, o)
  {
    assert HasOpen(g, x, indices, open);
    o :| o in open && indices[o] <= indices[x] && Reach(g, x, o);
  }

  lemma NothingLeftStacked(g: Imports, s: State)
    requires s.Valid(g, {})
    ensures s.stack == [] && s.Done() == s.visited
  {
    if s.stack != [] {
      var o := OpenOf(g, s.stack, s.indices, {}, s.stack[0]);
    }
  }

  lemma AllVisited(g: Imports, s: State)
    requires s.Valid(g, {}) && s.stack == [] && g.Keys <= s.visited
    ensures s.visited == Nodes(g)
  {
    assert s.Done() == s.visited;
    forall x | x in Nodes(g)
      ensures x in s.visited
    {
      if x !in g {
        var v :| v in g && x in g[v];
        assert v in s.Done() && x in Succ(g, v);
      }
    }
  }

  // ----- What a report says -----

  // The report lists exactly the cyclic components, each of them once.
  lemma ReportIsExact(g: Imports, sccs: seq<seq<Id>>, c: seq<Id>)
    requires IsReport(g, sccs, Nodes(g)) && |c| > 0
    ensures IsCyclicComponent(g, c) <==> c in sccs
    ensures forall i, j :: 0 <= i < |sccs| && 0 <= j < |sccs| && sccs[i] == c && sccs[j] == c ==> i == j
  {
    forall i, j | 0 <= i < j < |sccs|
      ensures sccs[i] != sccs[j]
    {
      assert Apart(g, sccs[i], sccs[j]);
      assert sccs[i][0] in sccs[i];
    }
    if IsCyclicComponent(g, c) {
      assert c[0] in c;
      OnCycleIsNode(g, c[0]);
      assert Reported(sccs, c[0]);
      var i :| 0 <= i < |sccs| && c[0] in sccs[i];
      MutualShift(g, sccs[i][0], c[0]);
      StrictlySortedUnique(sccs[i], c);
    }
  }

  lemma ReportedAt(g: Imports, sccs: seq<seq<Id>>, done: set<Id>, x: Id) returns (i: nat)
    requires IsReport(g, sccs, done) && x in done && OnCycle(g, x)
    ensures i < |sccs| && x in sccs[i]
  {
    assert Reported(sccs, x);
    i :| 0 <= i < |sccs| && x in sccs[i];
  }

  // Nothing is reported exactly when the import graph is acyclic.
  lemma EmptyReportIffAcyclic(g: Imports, sccs: seq<seq<Id>>)
    requires IsReport(g, sccs, Nodes(g))
    ensures sccs == [] <==> forall x :: !OnCycle(g, x)
  {
    if sccs == [] {
      forall x
        ensures !OnCycle(g, x)
      {
        if OnCycle(g, x) {
          OnCycleIsNode(g, x);
          var i := ReportedAt(g, sccs, Nodes(g), x);
        }
      }
    } else {
      assert IsCyclicComponent(g, sccs[0]) && OnCycle(g, sccs[0][0]);
    }
  }

  lemma OnCycleIsNode(g: Imports, x: Id)
    requires OnCycle(g, x)
    ensures x in Nodes(g)
  {
    var z := CycleStep(g, x);
  }
}
