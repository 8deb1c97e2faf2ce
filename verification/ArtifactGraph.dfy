// The artifact graph's own methods (artifact/graph.go).
module ArtifactGraph {
  import opened Digraphs
  import opened Sorting
  import opened Artifacts
  import opened TopoOrder
  import opened KahnSteps
  import opened Cascades

  // The artifacts with these ids, in this order.
  ghost predicate Lists(items: Items, sorted: seq<Artifact>, ids: seq<Id>) {
    && |sorted| == |ids|
    && forall k :: 0 <= k < |ids| ==> ids[k] in items && sorted[k] == items[ids[k]]
  }

  ghost function IdsOf(sorted: seq<Artifact>): seq<Id> {
    seq(|sorted|, k requires 0 <= k < |sorted| => sorted[k].id)
  }

  lemma {:induction false} ListsInOrder(items: Items, sorted: seq<Artifact>)
    requires Keyed(items) && Lists(items, sorted, Order(items))
    ensures IdsOf(sorted) == Order(items) && Elems(IdsOf(sorted)) == items.Keys && Distinct(IdsOf(sorted))
    ensures forall k :: 0 <= k < |sorted| ==> sorted[k].id in items && sorted[k] == items[sorted[k].id]
    ensures forall i, j :: 0 <= i < j < |sorted| && ReachesCycle(Deps(items), sorted[i].id) ==>
      ReachesCycle(Deps(items), sorted[j].id) && sorted[i].id.Lt(sorted[j].id)
    ensures forall k, d :: 0 <= k < |sorted| && d in sorted[k].dependsOn && d in items ==>
      !ReachesCycle(Deps(items), sorted[k].id) ==> d in IdsOf(sorted[..k])
    ensures exists n :: FreeAreLeast(items, IdsOf(sorted), n)
  {
    OrderIsTopoOrder(items);
    ListsIds(items, sorted, Order(items));
    ListsCyclesLast(items, sorted, Order(items));
    ListsRespectDeps(items, sorted, Order(items));
  }

  lemma ListsIds(items: Items, sorted: seq<Artifact>, ids: seq<Id>)
    requires Keyed(items) && Lists(items, sorted, ids)
    ensures IdsOf(sorted) == ids
    ensures forall k :: 0 <= k < |sorted| ==> sorted[k].id in items && sorted[k] == items[sorted[k].id]
  {
    forall k | 0 <= k < |sorted|
      ensures sorted[k].id == ids[k] && ids[k] in items && sorted[k] == items[ids[k]]
    {
    }
  }

  lemma ListsCyclesLast(items: Items, sorted: seq<Artifact>, ids: seq<Id>)
    requires IdsOf(sorted) == ids && CyclesLast(items, ids)
    ensures forall i, j :: 0 <= i < j < |sorted| && ReachesCycle(Deps(items), sorted[i].id) ==>
      ReachesCycle(Deps(items), sorted[j].id) && sorted[i].id.Lt(sorted[j].id)
  {
    forall i, j | 0 <= i < j < |sorted| && ReachesCycle(Deps(items), sorted[i].id)
      ensures ReachesCycle(Deps(items), sorted[j].id) && sorted[i].id.Lt(sorted[j].id)
    {
      assert ids[i] == sorted[i].id && ids[j] == sorted[j].id && !Free(items, ids[i]);
    }
  }

  lemma ListsRespectDeps(items: Items, sorted: seq<Artifact>, ids: seq<Id>)
    requires Keyed(items) && Lists(items, sorted, ids) && IdsOf(sorted) == ids && FreeRespectDeps(items, ids)
    ensures forall k, d :: 0 <= k < |sorted| && d in sorted[k].dependsOn && d in items ==>
      !ReachesCycle(Deps(items), sorted[k].id) ==> d in IdsOf(sorted[..k])
  {
    forall k, d | 0 <= k < |sorted| && !ReachesCycle(Deps(items), sorted[k].id)
        && d in sorted[k].dependsOn && d in items
      ensures d in IdsOf(sorted[..k])
    {
      assert ids[k] == sorted[k].id && Free(items, ids[k]) && IsKnownDependency(items, ids[k], d);
      assert IdsOf(sorted[..k]) == ids[..k];
    }
  }

  class Graph {
    var items: Items

    ghost predicate Valid()
      reads this
    {
      Keyed(items)
    }

    // Every artifact once. Those that reach no cycle come first, each after its known
    // dependencies, and in the least such order; the others follow in ascending order.
    // So the result is determined by the items: no map iteration order shows in it.
    method TopoSort() returns (sorted: seq<Artifact>)
      requires Valid()
      ensures Lists(items, sorted, Order(items))
      ensures Elems(IdsOf(sorted)) == items.Keys && Distinct(IdsOf(sorted))
      ensures forall k :: 0 <= k < |sorted| ==> sorted[k].id in items && sorted[k] == items[sorted[k].id]
      ensures forall i, j :: 0 <= i < j < |sorted| && ReachesCycle(Deps(items), sorted[i].id) ==>
        ReachesCycle(Deps(items), sorted[j].id) && sorted[i].id.Lt(sorted[j].id)
      ensures forall k, d :: 0 <= k < |sorted| && d in sorted[k].dependsOn && d in items ==>
        !ReachesCycle(Deps(items), sorted[k].id) ==> d in IdsOf(sorted[..k])
      ensures exists n :: FreeAreLeast(items, IdsOf(sorted), n)
    {
      var inDegree, dependents := CountDependencies(items);
      var queue := InitialFrontier(items, inDegree);
      queue := SortQueue(queue);
      ghost var done;
      sorted, done := KahnPhase(inDegree, dependents, queue);
      if |sorted| < |items| {
        var remaining := Remaining(sorted, done);
        sorted := AppendArtifacts(sorted, remaining, done);
      } else {
        DistinctCoversAll(done, items.Keys);
        assert SortedSet(items.Keys - Elems(done)) == [];
        assert done + [] == done;
      }
      ListsInOrder(items, sorted);
    }

    method KahnPhase(inDegree0: Degrees, dependents: Digraph<Id>, queue0: seq<Id>)
      returns (sorted: seq<Artifact>, ghost done: seq<Id>)
      requires StrictlySorted(queue0) && Elems(queue0) == Frontier(items, [])
      requires Counts(items, inDegree0, {}) && inDegree0.Keys == items.Keys
      requires Inverts(items, dependents, items.Keys)
      ensures done == Kahn(items, []) && RespectsDeps(items, done) && Elems(done) <= items.Keys
      ensures Lists(items, sorted, done)
    {
      var inDegree, queue := inDegree0, queue0;
      sorted, done := [], [];
      assert Elems(done) == {};
      while |queue| > 0
        invariant RespectsDeps(items, done) && Elems(done) <= items.Keys && Kahn(items, done) == Kahn(items, [])
        invariant Lists(items, sorted, done)
        invariant StrictlySorted(queue) && Elems(queue) == Frontier(items, done)
        invariant Counts(items, inDegree, Elems(done)) && inDegree.Keys == items.Keys
        decreases items.Keys - Elems(done)
      {
        ghost var before := done;
        inDegree, queue, sorted, done := EmitNext(inDegree, dependents, queue, sorted, done);
        assert Elems(done) == Elems(before) + {done[|before|]};
      }
      assert queue == [];
    }

    method AppendArtifacts(sorted0: seq<Artifact>, remaining: seq<Id>, ghost done: seq<Id>)
      returns (sorted: seq<Artifact>)
      requires Lists(items, sorted0, done) && Elems(remaining) <= items.Keys
      ensures Lists(items, sorted, done + remaining)
    {
      sorted := sorted0;
      for k := 0 to |remaining|
        invariant Lists(items, sorted, done + remaining[..k])
      {
        assert done + remaining[..k + 1] == done + remaining[..k] + [remaining[k]];
        assert remaining[k] in Elems(remaining);
        sorted := sorted + [items[remaining[k]]];
      }
      assert remaining[..|remaining|] == remaining;
    }

    // One turn of the loop: emit the least id of the frontier.
    method EmitNext(inDegree0: Degrees, dependents: Digraph<Id>, queue0: seq<Id>, sorted0: seq<Artifact>,
        ghost done0: seq<Id>)
      returns (inDegree: Degrees, queue: seq<Id>, sorted: seq<Artifact>, ghost done: seq<Id>)
      requires RespectsDeps(items, done0) && Elems(done0) <= items.Keys && Lists(items, sorted0, done0)
      requires queue0 != [] && StrictlySorted(queue0) && Elems(queue0) == Frontier(items, done0)
      requires Counts(items, inDegree0, Elems(done0)) && inDegree0.Keys == items.Keys
      requires Inverts(items, dependents, items.Keys)
      ensures done == done0 + [queue0[0]] && queue0[0] in items && queue0[0] !in done0
      ensures RespectsDeps(items, done) && Elems(done) <= items.Keys && Kahn(items, done) == Kahn(items, done0)
      ensures Lists(items, sorted, done)
      ensures StrictlySorted(queue) && Elems(queue) == Frontier(items, done)
      ensures Counts(items, inDegree, Elems(done)) && inDegree.Keys == items.Keys
    {
      var id := queue0[0];
      queue := queue0[1..];
      LeastIsHead(queue0);
      sorted := sorted0 + [items[id]];
      done := done0 + [id];
      EmitOne(items, done0, id);
      RespectsDepsElems(items, done);
      inDegree, queue := ReleaseDependents(inDegree0, dependents, queue, done0, id);
    }

    // The dependents of the artifact just emitted, and the frontier after it.
    method ReleaseDependents(inDegree0: Degrees, dependents: Digraph<Id>, rest: seq<Id>, ghost done: seq<Id>, id: Id)
      returns (inDegree: Degrees, queue: seq<Id>)
      requires RespectsDeps(items, done) && id in Frontier(items, done)
      requires Counts(items, inDegree0, Elems(done)) && inDegree0.Keys == items.Keys
      requires Inverts(items, dependents, items.Keys)
      requires Distinct(rest) && Elems(rest) == Frontier(items, done) - {id}
      ensures StrictlySorted(queue) && Elems(queue) == Frontier(items, done + [id])
      ensures Counts(items, inDegree, Elems(done + [id])) && inDegree.Keys == items.Keys
    {
      var children := Succ(dependents, id);
      ghost var expected := map c | c in inDegree0 :: inDegree0[c] - multiset(children)[c];
      EmitLowersDegrees(items, done, id, inDegree0, dependents, expected);
      EnoughWaiting(items, done, inDegree0, dependents, id);
      inDegree, queue := Release(children, inDegree0, rest);
      assert inDegree == expected;
      queue := SortQueue(queue);
    }

    method Remaining(sorted: seq<Artifact>, ghost done: seq<Id>) returns (remaining: seq<Id>)
      requires Valid() && Lists(items, sorted, done)
      ensures remaining == SortedSet(items.Keys - Elems(done))
    {
      var inSorted := {};
      for k := 0 to |sorted|
        invariant inSorted == Elems(done[..k])
      {
        assert sorted[k].id == done[k] && done[..k + 1] == done[..k] + [done[k]];
        assert Elems(done[..k + 1]) == Elems(done[..k]) + {done[k]};
        inSorted := inSorted + {sorted[k].id};
      }
      assert done[..|sorted|] == done;
      remaining := [];
      var rest := items.Keys;
      while rest != {}
        invariant rest <= items.Keys && Distinct(remaining)
        invariant Elems(remaining) == items.Keys - rest - inSorted
      {
        var id :| id in rest;
        rest := rest - {id};
        if id !in inSorted {
          assert Elems(remaining + [id]) == Elems(remaining) + {id};
          remaining := remaining + [id];
        }
      }
      remaining := SortQueue(remaining);
      ListsSet(remaining, items.Keys - Elems(done));
    }

    // The changed artifact gets a new version, exactly the affected ones that
    // were ready, claimed or in progress become invalidated, and all affected
    // ids are reported once, in order.
    method Cascade(changedID: Id) returns (ids: seq<Id>)
      requires Valid()
      modifies this
      ensures Valid()
      ensures changedID !in old(items) ==> ids == [] && items == old(items)
      ensures changedID in old(items) ==>
        && StrictlySorted(ids) && (forall a :: a in ids <==> IsAffected(old(items), a, changedID))
        && items == InvalidateAll(Bumped(old(items), changedID), Elems(ids))
      ensures changedID in old(items) ==> Reported(old(items), changedID, ids)
      ensures changedID in old(items) ==> Marked(old(items), items, changedID, ids)
    {
      if changedID !in items {
        return [];
      }
      ghost var before := items;
      items := Bumped(items, changedID);
      ghost var bumped := items;
      BumpKeepsGraph(before, changedID);
      ReachRefl(Deps(items), changedID);
      var affected := CascadeDeps(changedID, {}, changedID);
      ghost var direct := affected;
      assert direct - {} == direct;
      DirectIsDependents(before, changedID, direct);
      affected := CascadeOverlaps(changedID, affected);
      BumpKeepsAffected(before, changedID, direct, affected);
      InvalidateMore(bumped, direct, affected - direct);
      assert direct + (affected - direct) == affected;
      ids := SortedListing(affected);
      assert forall a :: a in ids <==> a in Elems(ids);
      AffectedIsReported(before, changedID, ids);
      AffectedIsMarked(before, changedID, ids);
    }

    method CascadeDeps(changedID: Id, affected0: set<Id>, ghost root: Id) returns (affected: set<Id>)
      requires Valid() && affected0 <= items.Keys
      requires Sound(items, affected0, root) && Reach(Deps(items), changedID, root)
      modifies this
      ensures Valid() && affected0 <= affected <= old(items).Keys
      ensures items == InvalidateAll(old(items), affected - affected0)
      ensures Sound(old(items), affected, root)
      ensures AllPropagated(old(items), affected - affected0 + {changedID}, affected)
      decreases items.Keys - affected0, 2
    {
      affected := affected0;
      ghost var before := items;
      var rest := items.Keys;
      while rest != {}
        invariant Valid() && rest <= before.Keys && affected0 <= affected <= before.Keys
        invariant items == InvalidateAll(before, affected - affected0)
        invariant Sound(before, affected, root)
        invariant AllPropagated(before, affected - affected0, affected)
        invariant forall b :: b in before && b !in rest && b != changedID && changedID in before[b].dependsOn ==>
          b in affected
        decreases rest
      {
        var id :| id in rest;
        rest := rest - {id};
        if id in affected || id == changedID {
          continue;
        }
        affected := CascadeArtifact(id, changedID, affected, before, affected0, root);
      }
    }

    // The inner loop, over one artifact's dependencies.
    method CascadeArtifact(id: Id, changedID: Id, affected1: set<Id>, ghost before: Items, ghost affected0: set<Id>,
        ghost root: Id)
      returns (affected: set<Id>)
      requires Valid() && affected0 <= affected1 <= before.Keys && id in before && id !in affected1 && id != changedID
      requires items == InvalidateAll(before, affected1 - affected0)
      requires Sound(before, affected1, root) && Reach(Deps(before), changedID, root)
      requires AllPropagated(before, affected1 - affected0, affected1)
      modifies this
      ensures Valid() && affected1 <= affected <= before.Keys
      ensures items == InvalidateAll(before, affected - affected0)
      ensures Sound(before, affected, root)
      ensures AllPropagated(before, affected - affected0, affected)
      ensures changedID in before[id].dependsOn ==> id in affected
      decreases before.Keys - affected1, 1
    {
      affected := affected1;
      var deps := items[id].dependsOn;
      for k := 0 to |deps|
        invariant affected == affected1 && items == old(items)
        invariant changedID !in deps[..k]
      {
        if deps[k] == changedID || deps[k] in affected {
          affected := Mark(id, changedID, deps[k], affected, before, affected0, root);
          return;
        }
      }
      assert deps[..|deps|] == deps;
    }

    method Mark(id: Id, changedID: Id, dep: Id, affected1: set<Id>, ghost before: Items, ghost affected0: set<Id>,
        ghost root: Id)
      returns (affected: set<Id>)
      requires Valid() && affected0 <= affected1 <= before.Keys && id in before && id !in affected1 && id != changedID
      requires items == InvalidateAll(before, affected1 - affected0)
      requires Sound(before, affected1, root) && Reach(Deps(before), changedID, root)
      requires AllPropagated(before, affected1 - affected0, affected1)
      requires dep in before[id].dependsOn && (dep == changedID || dep in affected1)
      modifies this
      ensures Valid() && affected1 <= affected <= before.Keys && id in affected
      ensures items == InvalidateAll(before, affected - affected0)
      ensures Sound(before, affected, root)
      ensures AllPropagated(before, affected - affected0, affected)
      decreases before.Keys - affected1, 0
    {
      DependencyIsSound(before, affected1, root, changedID, id, dep);
      InvalidateKeepsDeps(before, affected1 - affected0);
      affected := affected1 + {id};
      assert affected - affected0 == affected1 - affected0 + {id};
      InvalidateOne(id, before, affected1 - affected0);
      InvalidateKeepsDeps(before, affected - affected0);
      ghost var marked, markedItems := affected, items;
      affected := CascadeDeps(id, affected, root);
      PropagateOnward(before, affected0, affected1, marked, affected, id);
      assert affected - affected0 == (marked - affected0) + (affected - marked);
      InvalidateMore(before, marked - affected0, affected - marked);
    }

    method InvalidateOne(id: Id, ghost before: Items, ghost marked: set<Id>)
      requires Valid() && id in before && id !in marked && items == InvalidateAll(before, marked)
      modifies this
      ensures Valid() && items == InvalidateAll(before, marked + {id})
    {
      if Invalidatable(items[id].status) {
        items := items[id := items[id].(status := Invalidated)];
      }
      InvalidateMore(before, marked, {id});
      assert items == InvalidateAll(before, marked + {id});
    }

    method CascadeOverlaps(changedID: Id, affected0: set<Id>) returns (affected: set<Id>)
      requires Valid() && changedID in items && affected0 <= items.Keys
      modifies this
      ensures Valid() && affected0 <= affected
      ensures forall a :: a in affected <==> a in affected0 || (a in old(items) && SharesFile(old(items), a, changedID))
      ensures items == InvalidateAll(old(items), affected - affected0)
    {
      affected := affected0;
      ghost var before := items;
      var changedFiles := FileSet(items[changedID]);
      if changedFiles == {} {
        return;
      }
      var rest := items.Keys;
      while rest != {}
        invariant Valid() && rest <= before.Keys && affected0 <= affected <= before.Keys
        invariant items == InvalidateAll(before, affected - affected0)
        invariant forall a :: a in affected <==>
          a in affected0 || (a in before.Keys - rest && SharesFile(before, a, changedID))
      {
        var id :| id in rest;
        rest := rest - {id};
        if id == changedID || id in affected {
          continue;
        }
        if FileSet(items[id]) * changedFiles != {} {
          assert affected + {id} - affected0 == affected - affected0 + {id};
          InvalidateMore(before, affected - affected0, {id});
          affected := affected + {id};
          if Invalidatable(items[id].status) {
            items := items[id := items[id].(status := Invalidated)];
          }
          assert items == InvalidateAll(before, affected - affected0);
        }
      }
    }
  }

  lemma PropagateOnward(items: Items, affected0: set<Id>, affected1: set<Id>, marked: set<Id>, affected: set<Id>,
      id: Id)
    requires affected0 <= affected1 && marked == affected1 + {id} && marked <= affected
    requires AllPropagated(items, affected1 - affected0, affected1)
    requires AllPropagated(items, affected - marked + {id}, affected)
    ensures AllPropagated(items, affected - affected0, affected)
  {
    forall x | x in affected - affected0
      ensures Propagated(items, x, affected)
    {
      if x in affected1 {
        assert Propagated(items, x, affected1);
      }
    }
  }

  method SortedListing(s: set<Id>) returns (ids: seq<Id>)
    ensures StrictlySorted(ids) && Elems(ids) == s
  {
    ids := [];
    var rest := s;
    while rest != {}
      invariant rest <= s && Distinct(ids) && Elems(ids) == s - rest
    {
      var id :| id in rest;
      rest := rest - {id};
      assert Elems(ids + [id]) == Elems(ids) + {id};
      ids := ids + [id];
    }
    ids := SortQueue(ids);
  }

  method InitialFrontier(items: Items, inDegree: Degrees) returns (queue: seq<Id>)
    requires inDegree.Keys == items.Keys && Counts(items, inDegree, {})
    ensures Distinct(queue) && Elems(queue) == Frontier(items, [])
  {
    queue := [];
    var rest := inDegree.Keys;
    while rest != {}
      invariant rest <= items.Keys && Distinct(queue)
      invariant Elems(queue) == set c | c in items.Keys - rest && inDegree[c] == 0
    {
      var id :| id in rest;
      rest := rest - {id};
      if inDegree[id] == 0 {
        assert Elems(queue + [id]) == Elems(queue) + {id};
        queue := queue + [id];
      }
    }
    assert Elems<Id>([]) == {};
    forall c | c in items
      ensures c in Frontier(items, []) <==> inDegree[c] == 0
    {
      FrontierIffNoneWaiting(items, [], c);
    }
  }

  method SortQueue(queue: seq<Id>) returns (r: seq<Id>)
    requires Distinct(queue)
    ensures StrictlySorted(r) && Elems(r) == Elems(queue)
  {
    SortIdsDistinct(queue);
    r := SortIds(queue);
  }

  lemma {:induction false} ListsSet(s: seq<Id>, all: set<Id>)
    requires StrictlySorted(s) && Elems(s) == all
    ensures s == SortedSet(all)
  {
    var t := SortedSet(all);
    assert forall x :: x in s <==> x in Elems(s);
    assert forall x :: x in t <==> x in Elems(t);
    StrictlySortedUnique(s, t);
  }

  lemma LeastIsHead(queue: seq<Id>)
    requires queue != [] && StrictlySorted(queue)
    ensures Elems(queue) != {} && Least(Elems(queue)) == queue[0]
  {
    assert queue[0] in Elems(queue);
  }

  lemma EnoughWaiting(items: Items, done: seq<Id>, inDegree: Degrees, dependents: Digraph<Id>, id: Id)
    requires id in items && id !in done
    requires Counts(items, inDegree, Elems(done)) && Inverts(items, dependents, items.Keys)
    ensures forall c :: c in Succ(dependents, id) ==> c in inDegree && multiset(Succ(dependents, id))[c] <= inDegree[c]
  {
    forall c | c in Succ(dependents, id)
      ensures c in inDegree && multiset(Succ(dependents, id))[c] <= inDegree[c]
    {
      assert Mult(dependents, id, c) == Times(items, items.Keys, c, id);
      WaitingDrop(items[c].dependsOn, items.Keys, Elems(done), id);
    }
  }

  lemma DistinctCoversAll(s: seq<Id>, all: set<Id>)
    requires Distinct(s) && Elems(s) <= all && |s| >= |all|
    ensures Elems(s) == all
  {
    DistinctSize(s);
    if x :| x in all && x !in s {
      SubsetSize(Elems(s) + {x}, all);
    }
  }

  // What is reported: what depends on the changed artifact, itself only through another
  // one, and what has a file in common with it.
  ghost predicate Reported(items: Items, changed: Id, ids: seq<Id>)
    requires changed in items
  {
    forall a :: a in ids <==> a in items && (DependsOnChain(items, a, changed) || FileInCommon(items, a, changed))
  }

  ghost predicate DependsOnChain(items: Items, a: Id, changed: Id)
    requires a in items && changed in items
  {
    if a != changed then Reach(Deps(items), a, changed)
    else exists b :: b != changed && b in items[changed].dependsOn && Reach(Deps(items), b, changed)
  }

  ghost predicate FileInCommon(items: Items, a: Id, changed: Id)
    requires a in items && changed in items
  {
    a != changed && exists f :: f in items[a].files && f in items[changed].files
  }

  // What is changed: the version of the changed artifact, and the status of those
  // reported ones that were ready, claimed or in progress.
  ghost predicate Marked(before: Items, after: Items, changed: Id, ids: seq<Id>) {
    && after.Keys == before.Keys
    && forall a :: a in before ==>
      && after[a].id == before[a].id && after[a].dependsOn == before[a].dependsOn && after[a].files == before[a].files
      && after[a].version == before[a].version + (if a == changed then 1 else 0)
      && (a in ids && before[a].status == Ready ==> after[a].status == Invalidated)
      && (a in ids && before[a].status == Claimed ==> after[a].status == Invalidated)
      && (a in ids && before[a].status == InProgress ==> after[a].status == Invalidated)
      && (a !in ids || before[a].status !in {Ready, Claimed, InProgress} ==> after[a].status == before[a].status)
  }

  lemma AffectedIsReported(items: Items, changed: Id, ids: seq<Id>)
    requires changed in items && forall a :: a in ids <==> IsAffected(items, a, changed)
    ensures Reported(items, changed, ids)
  {
    forall a | a in items
      ensures TransitiveDependent(items, a, changed) <==> DependsOnChain(items, a, changed)
      ensures SharesFile(items, a, changed) <==> FileInCommon(items, a, changed)
    {
      ReachRefl(Deps(items), changed);
      if a != changed && SharesFile(items, a, changed) {
        var f :| f in FileSet(items[a]) * FileSet(items[changed]);
        assert f in items[a].files && f in items[changed].files;
      }
      if FileInCommon(items, a, changed) {
        var f :| f in items[a].files && f in items[changed].files;
        assert f in FileSet(items[a]) * FileSet(items[changed]);
      }
    }
  }

  lemma AffectedIsMarked(items: Items, changed: Id, ids: seq<Id>)
    requires changed in items
    ensures Marked(items, InvalidateAll(Bumped(items, changed), Elems(ids)), changed, ids)
  {
    forall a | a in items
      ensures a in ids <==> a in Elems(ids)
    {
    }
  }

  function Bumped(items: Items, id: Id): Items
    requires id in items
  {
    items[id := items[id].(version := items[id].version + 1)]
  }

  lemma BumpKeepsGraph(items: Items, root: Id)
    requires root in items
    ensures Deps(Bumped(items, root)) == Deps(items)
    ensures forall a :: TransitiveDependent(Bumped(items, root), a, root) <==> TransitiveDependent(items, a, root)
  {
  }

  lemma DirectIsDependents(items: Items, root: Id, direct: set<Id>)
    requires root in items && Sound(Bumped(items, root), direct, root)
    requires AllPropagated(Bumped(items, root), direct + {root}, direct)
    ensures forall a :: a in direct <==> TransitiveDependent(items, a, root)
  {
    BumpKeepsGraph(items, root);
    forall a | TransitiveDependent(items, a, root)
      ensures a in direct
    {
      PropagatedIsComplete(Bumped(items, root), direct, root, a);
    }
  }

  lemma BumpKeepsAffected(items: Items, root: Id, direct: set<Id>, affected: set<Id>)
    requires root in items && forall a :: a in direct <==> TransitiveDependent(items, a, root)
    requires forall a :: a in affected <==>
      a in direct || (a in Bumped(items, root) && SharesFile(Bumped(items, root), a, root))
    ensures forall a :: a in affected <==> IsAffected(items, a, root)
  {
    forall a | a in items
      ensures SharesFile(Bumped(items, root), a, root) <==> SharesFile(items, a, root)
    {
    }
  }
}
