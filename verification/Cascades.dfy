// What an invalidation cascade reaches and does (artifact/graph.go).
module Cascades {
  import opened Digraphs
  import opened Sorting
  import opened Artifacts

  // The changed artifact depends, through another artifact, on itself.
  ghost predicate DependsOnSelfVia(items: Items, root: Id) {
    exists b :: b != root && b in Succ(Deps(items), root) && Reach(Deps(items), b, root)
  }

  ghost predicate TransitiveDependent(items: Items, a: Id, root: Id) {
    a in items && Reach(Deps(items), a, root) && (a == root ==> DependsOnSelfVia(items, root))
  }

  function FileSet(a: Artifact): set<string> {
    set f | f in a.files
  }

  ghost predicate SharesFile(items: Items, a: Id, root: Id)
    requires a in items && root in items
  {
    a != root && FileSet(items[a]) * FileSet(items[root]) != {}
  }

  // The ids that Cascade reports for a change of root.
  ghost predicate IsAffected(items: Items, a: Id, root: Id)
    requires root in items
  {
    a in items && (TransitiveDependent(items, a, root) || SharesFile(items, a, root))
  }

  predicate Invalidatable(s: Status) {
    s == InProgress || s == Claimed || s == Ready
  }

  function Invalidate(a: Artifact): Artifact {
    if Invalidatable(a.status) then a.(status := Invalidated) else a
  }

  ghost function InvalidateAll(items: Items, ids: set<Id>): Items {
    map id | id in items :: if id in ids then Invalidate(items[id]) else items[id]
  }

  // Status changes leave the dependencies alone.
  lemma InvalidateKeepsDeps(items: Items, ids: set<Id>)
    ensures Deps(InvalidateAll(items, ids)) == Deps(items)
    ensures InvalidateAll(items, ids).Keys == items.Keys
  {
  }

  lemma InvalidateMore(items: Items, s: set<Id>, t: set<Id>)
    requires s !! t
    ensures InvalidateAll(InvalidateAll(items, s), t) == InvalidateAll(items, s + t)
  {
  }

  // Every artifact, x itself aside, that depends directly on x is affected.
  ghost predicate Propagated(items: Items, x: Id, affected: set<Id>) {
    forall b :: b in items && b != x && x in items[b].dependsOn ==> b in affected
  }

  ghost predicate AllPropagated(items: Items, xs: set<Id>, affected: set<Id>) {
    forall x :: x in xs ==> Propagated(items, x, affected)
  }

  ghost predicate Sound(items: Items, affected: set<Id>, root: Id) {
    forall a :: a in affected ==> TransitiveDependent(items, a, root)
  }

  // Propagating from the changed artifact and everything affected reaches all transitive dependents.
  lemma PropagatedIsComplete(items: Items, affected: set<Id>, root: Id, a: Id)
    requires AllPropagated(items, affected + {root}, affected) && TransitiveDependent(items, a, root)
    ensures a in affected
  {
    var g := Deps(items);
    forall x, y | y in affected + {root} && y in Succ(g, x)
      ensures x in affected + {root}
    {
      assert x == y || Propagated(items, y, affected);
    }
    BackwardClosedKeepsReach(g, affected + {root}, a, root);
    if a == root {
      var b :| b != root && b in Succ(g, root) && Reach(g, b, root);
      BackwardClosedKeepsReach(g, affected + {root}, b, root);
      assert Propagated(items, b, affected);
    }
  }

  // What one direct dependency on the changed or an affected artifact implies.
  lemma DependencyIsSound(items: Items, affected: set<Id>, root: Id, changed: Id, a: Id, dep: Id)
    requires Sound(items, affected, root) && Reach(Deps(items), changed, root)
    requires a in items && a != changed && a !in affected
    requires dep in items[a].dependsOn && (dep == changed || dep in affected)
    ensures Sound(items, affected + {a}, root)
  {
    var g := Deps(items);
    assert dep in Succ(g, a) && Reach(g, dep, root);
    ReachEdge(g, a, dep);
    ReachTrans(g, a, dep, root);
  }

  // Two artifacts that list each other: each is affected by its own change.
  lemma MutualDependencyIsAffected(x: Id, y: Id)
    requires x != y
    ensures
      var items := map[x := Artifact(x, Ready, [y], [], 0), y := Artifact(y, Ready, [x], [], 0)];
      Keyed(items) && IsAffected(items, x, x) && IsAffected(items, y, y)
  {
    var items := map[x := Artifact(x, Ready, [y], [], 0), y := Artifact(y, Ready, [x], [], 0)];
    var g := Deps(items);
    ReachRefl(g, x);
    ReachRefl(g, y);
    ReachEdge(g, x, y);
    ReachEdge(g, y, x);
  }
}
