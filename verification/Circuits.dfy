// The review circuit walker and circuit extraction (review/walker.go, review/circuit.go).
module Circuits {
  import opened Digraphs
  import opened Selections
  import opened Sorting

  datatype Dependency = Dependency(from: string, to: string, pkg: string)

  datatype EntryPoint = EntryPoint(name: string, pkg: string, kind: string)

  datatype Stop = Stop(id: string, name: string, pkg: string, changed: bool, passThrough: bool)

  datatype Circuit = Circuit(title: string, entryPoint: string, stops: seq<Stop>, shared: seq<string>)

  // ----- The dependency graph -----

  // The targets of a node's edges, in the order of the dependency list.
  ghost function Targets(deps: seq<Dependency>, node: string): seq<string> {
    if deps == [] then [] else
      var n := |deps| - 1;
      Targets(deps[..n], node) + if deps[n].from == node then [deps[n].to] else []
  }

  ghost function Edges(deps: seq<Dependency>): Digraph<string> {
    map node | node in (set d | d in deps :: d.from) :: Targets(deps, node)
  }

  ghost function TargetList(deps: seq<Dependency>): seq<string> {
    seq(|deps|, i requires 0 <= i < |deps| => deps[i].to)
  }

  // The places of the dependencies from this node.
  ghost function PlacesFrom(deps: seq<Dependency>, node: string): set<nat> {
    set i: nat | i < |deps| && deps[i].from == node
  }

  // A node's edges go to the targets of its dependencies, in their order.
  lemma EdgesSay(deps: seq<Dependency>, node: string)
    ensures Picks(Succ(Edges(deps), node), TargetList(deps), PlacesFrom(deps, node))
  {
    SuccIsTargets(deps, node);
    TargetsPicked(deps, node);
  }

  lemma {:induction false} TargetsPicked(deps: seq<Dependency>, node: string)
    ensures Picks(Targets(deps, node), TargetList(deps), PlacesFrom(deps, node))
  {
    if deps == [] {
      PicksNothing<string>(TargetList(deps));
      assert PlacesFrom(deps, node) == {};
    } else {
      var n := |deps| - 1;
      TargetsPicked(deps[..n], node);
      PicksNext(Targets(deps[..n], node), TargetList(deps[..n]), PlacesFrom(deps[..n], node), deps[n].to);
      assert TargetList(deps) == TargetList(deps[..n]) + [deps[n].to];
      if deps[n].from == node {
        assert PlacesFrom(deps, node) == PlacesFrom(deps[..n], node) + {n};
      } else {
        assert PlacesFrom(deps, node) == PlacesFrom(deps[..n], node);
      }
    }
  }

  method BuildAdjacency(deps: seq<Dependency>) returns (adj: Digraph<string>)
    ensures adj == Edges(deps)
    ensures forall node :: Picks(Succ(adj, node), TargetList(deps), PlacesFrom(deps, node))
  {
    forall node
      ensures Picks(Succ(Edges(deps), node), TargetList(deps), PlacesFrom(deps, node))
    {
      EdgesSay(deps, node);
    }
    adj := map[];
    for i := 0 to |deps|
      invariant adj == Edges(deps[..i])
    {
      assert deps[..i + 1] == deps[..i] + [deps[i]];
      EdgesExtend(deps[..i], deps[i]);
      adj := adj[deps[i].from := Succ(adj, deps[i].from) + [deps[i].to]];
    }
    assert deps[..|deps|] == deps;
  }

  lemma EdgesExtend(deps: seq<Dependency>, d: Dependency)
    ensures Edges(deps + [d]) == Edges(deps)[d.from := Succ(Edges(deps), d.from) + [d.to]]
  {
    var more, r := Edges(deps + [d]), Edges(deps)[d.from := Succ(Edges(deps), d.from) + [d.to]];
    SuccIsTargets(deps, d.from);
    forall node | node in r
      ensures node in more && r[node] == more[node]
    {
    }
    assert more.Keys == r.Keys;
  }

  lemma {:induction false} SuccIsTargets(deps: seq<Dependency>, node: string)
    ensures Succ(Edges(deps), node) == Targets(deps, node)
  {
    NoTargets(deps, node);
  }

  lemma {:induction false} NoTargets(deps: seq<Dependency>, node: string)
    ensures node !in (set d | d in deps :: d.from) ==> Targets(deps, node) == []
  {
    if deps != [] && node !in (set d | d in deps :: d.from) {
      var n := |deps| - 1;
      assert deps[n] in deps;
      NoTargets(deps[..n], node);
    }
  }

  // ----- Depth-first order -----

  ghost predicate Finished(g: Digraph<string>, ids: seq<string>, j: nat)
    requires j < |ids|
  {
    forall w :: w in Succ(g, ids[j]) ==> w in ids
  }

  // w is the node that a depth-first walk lists after `ids`: the first unlisted
  // target of the last listed node that still has one.
  ghost predicate ListedNext(g: Digraph<string>, ids: seq<string>, w: string) {
    exists j :: 0 <= j < |ids| && FirstFresh(g, ids, j, w) && forall k :: j < k < |ids| ==> Finished(g, ids, k)
  }

  ghost predicate FirstFresh(g: Digraph<string>, ids: seq<string>, j: nat, w: string)
    requires j < |ids|
  {
    exists i :: 0 <= i < |Succ(g, ids[j])| && Succ(g, ids[j])[i] == w && w !in ids
      && forall h :: 0 <= h < i ==> Succ(g, ids[j])[h] in ids
  }

  ghost predicate Preorder(g: Digraph<string>, ids: seq<string>) {
    forall k :: 0 < k < |ids| ==> ListedAt(g, ids, k)
  }

  ghost predicate ListedAt(g: Digraph<string>, ids: seq<string>, k: nat)
    requires 0 < k < |ids|
  {
    ListedNext(g, ids[..k], ids[k])
  }

  // The whole depth-first listing from an entry.
  ghost predicate IsWalk(g: Digraph<string>, entry: string, ids: seq<string>) {
    && |ids| > 0 && ids[0] == entry
    && Preorder(g, ids)
    && forall j :: 0 <= j < |ids| ==> Finished(g, ids, j)
  }

  lemma PreorderExtends(g: Digraph<string>, ids: seq<string>, w: string)
    requires Preorder(g, ids) && (ids == [] || ListedNext(g, ids, w))
    ensures Preorder(g, ids + [w])
  {
    var r := ids + [w];
    forall k | 0 < k < |r|
      ensures ListedAt(g, r, k)
    {
      if k < |ids| {
        assert ListedAt(g, ids, k) && r[..k] == ids[..k];
      } else {
        assert r[..k] == ids;
      }
    }
  }

  // A walk lists exactly the nodes reachable from the entry ...
  lemma WalkIsReach(g: Digraph<string>, entry: string, ids: seq<string>, x: string)
    requires IsWalk(g, entry, ids)
    ensures x in ids <==> Reach(g, entry, x)
  {
    if x in ids {
      var k :| 0 <= k < |ids| && ids[k] == x;
      ListedIsReached(g, entry, ids, k);
    }
    if Reach(g, entry, x) {
      forall y, z | y in Elems(ids) && z in Succ(g, y)
        ensures z in Elems(ids)
      {
        var j :| 0 <= j < |ids| && ids[j] == y;
        assert Finished(g, ids, j);
      }
      assert entry in Elems(ids);
      ClosedKeepsReach(g, Elems(ids), entry, x);
    }
  }

  lemma {:induction false} ListedIsReached(g: Digraph<string>, entry: string, ids: seq<string>, k: nat)
    requires |ids| > 0 && ids[0] == entry && Preorder(g, ids) && k < |ids|
    ensures Reach(g, entry, ids[k])
  {
    if k == 0 {
      ReachRefl(g, entry);
    } else {
      var j := ListedHasParent(g, ids, k);
      ListedIsReached(g, entry, ids, j);
      ReachStep(g, entry, ids[j], ids[k]);
    }
  }

  // ... every later stop after one it has an edge from ...
  lemma ListedHasParent(g: Digraph<string>, ids: seq<string>, k: nat) returns (j: nat)
    requires Preorder(g, ids) && 0 < k < |ids|
    ensures j < k && ids[k] in Succ(g, ids[j])
  {
    assert ListedAt(g, ids, k);
    j :| 0 <= j < k && FirstFresh(g, ids[..k], j, ids[k]);
  }

  // ... each of them once ...
  lemma PreorderDistinct(g: Digraph<string>, ids: seq<string>)
    requires Preorder(g, ids)
    ensures Distinct(ids)
  {
    forall i, k | 0 <= i < k < |ids|
      ensures ids[i] != ids[k]
    {
      assert ListedAt(g, ids, k);
      var j :| 0 <= j < k && FirstFresh(g, ids[..k], j, ids[k]);
      assert ids[i] == ids[..k][i];
    }
  }

  // ... in depth-first order: between a stop and a later target of it only what is
  // reached from there on is listed, ...
  lemma DepthFirst(g: Digraph<string>, ids: seq<string>, a: nat, b: nat, c: nat) returns (d: nat)
    requires Preorder(g, ids) && a < b < c < |ids| && ids[c] in Succ(g, ids[a])
    ensures a <= d < b && ids[b] in Succ(g, ids[d])
  {
    assert ListedAt(g, ids, b);
    var before := ids[..b];
    d :| 0 <= d < b && FirstFresh(g, before, d, ids[b]) && forall k :: d < k < b ==> Finished(g, before, k);
    PreorderDistinct(g, ids);
    assert !Finished(g, before, a) && before[d] == ids[d];
  }

  // ... and the next stop is the first target not yet listed, if there is one, ...
  lemma TargetsInOrder(g: Digraph<string>, entry: string, ids: seq<string>, j: nat, i: nat)
    requires IsWalk(g, entry, ids) && j < |ids| && i < |Succ(g, ids[j])|
    requires Succ(g, ids[j])[i] !in ids[..j + 1]
    requires forall h :: 0 <= h < i ==> Succ(g, ids[j])[h] in ids[..j + 1]
    ensures j + 1 < |ids| && ids[j + 1] == Succ(g, ids[j])[i]
  {
    var before, w := ids[..j + 1], Succ(g, ids[j])[i];
    assert Finished(g, ids, j) && w in ids;
    var k :| 0 <= k < |ids| && ids[k] == w;
    assert k <= j ==> before[k] == w;
    assert before[j] == ids[j] && FirstFresh(g, before, j, w);
    assert ListedNext(g, before, w);
    assert ListedAt(g, ids, j + 1);
    NextIsUnique(g, before, w, ids[j + 1]);
  }

  // ... and there is only one walk.
  lemma {:induction false} WalkIsUnique(g: Digraph<string>, entry: string, a: seq<string>, b: seq<string>)
    requires IsWalk(g, entry, a) && IsWalk(g, entry, b)
    ensures a == b
  {
    var k := 1;
    assert a[..1] == [entry] == b[..1];
    while k < |a| && k < |b|
      invariant 1 <= k <= |a| && k <= |b| && a[..k] == b[..k]
    {
      SameNext(g, a, b, k);
      k := k + 1;
    }
    assert a[..|a|] == a && b[..|b|] == b;
    if k < |a| {
      WalkIsWhole(g, entry, b, a);
    } else if k < |b| {
      WalkIsWhole(g, entry, a, b);
    }
  }

  lemma SameNext(g: Digraph<string>, a: seq<string>, b: seq<string>, k: nat)
    requires Preorder(g, a) && Preorder(g, b) && 0 < k < |a| && k < |b| && a[..k] == b[..k]
    ensures a[..k + 1] == b[..k + 1]
  {
    assert ListedAt(g, a, k) && ListedAt(g, b, k);
    NextIsUnique(g, a[..k], a[k], b[k]);
    assert a[..k + 1] == a[..k] + [a[k]] && b[..k + 1] == b[..k] + [b[k]];
  }

  // No listing in depth-first order goes on after a walk.
  lemma WalkIsWhole(g: Digraph<string>, entry: string, ids: seq<string>, more: seq<string>)
    requires IsWalk(g, entry, ids) && Preorder(g, more) && |ids| < |more|
    ensures more[..|ids|] != ids
  {
    assert ListedAt(g, more, |ids|);
    NothingNext(g, ids, more[|ids|]);
  }

  lemma FreshNotFinished(g: Digraph<string>, ids: seq<string>, j: nat, w: string)
    requires j < |ids| && FirstFresh(g, ids, j, w)
    ensures !Finished(g, ids, j)
  {
  }

  lemma NothingNext(g: Digraph<string>, ids: seq<string>, w: string)
    requires forall j :: 0 <= j < |ids| ==> Finished(g, ids, j)
    ensures !ListedNext(g, ids, w)
  {
    if ListedNext(g, ids, w) {
      var j :| 0 <= j < |ids| && FirstFresh(g, ids, j, w);
      FreshNotFinished(g, ids, j, w);
    }
  }

  lemma NextIsUnique(g: Digraph<string>, ids: seq<string>, v: string, w: string)
    requires ListedNext(g, ids, v) && ListedNext(g, ids, w)
    ensures v == w
  {
    var i :| 0 <= i < |ids| && FirstFresh(g, ids, i, v) && forall k :: i < k < |ids| ==> Finished(g, ids, k);
    var j :| 0 <= j < |ids| && FirstFresh(g, ids, j, w) && forall k :: j < k < |ids| ==> Finished(g, ids, k);
    FreshNotFinished(g, ids, i, v);
    FreshNotFinished(g, ids, j, w);
    assert i == j;
    FirstFreshIsUnique(g, ids, i, v, w);
  }

  lemma FirstFreshIsUnique(g: Digraph<string>, ids: seq<string>, j: nat, v: string, w: string)
    requires j < |ids| && FirstFresh(g, ids, j, v) && FirstFresh(g, ids, j, w)
    ensures v == w
  {
  }

  // ----- The walker -----

  ghost function Ids(stops: seq<Stop>): seq<string> {
    seq(|stops|, k requires 0 <= k < |stops| => stops[k].id)
  }

  // What splitNode promises of a node's two parts: the last dot separates them.
  ghost predicate IsSplit(node: string, pkg: string, name: string) {
    && '.' !in name
    && if '.' in node then node == pkg + "." + name else pkg == "" && name == node
  }

  method SplitNode(node: string) returns (pkg: string, name: string)
    ensures IsSplit(node, pkg, name)
  {
    var i := |node|;
    while i > 0
      invariant 0 <= i <= |node| && '.' !in node[i..]
    {
      i := i - 1;
      if node[i] == '.' {
        assert node == node[..i] + "." + node[i + 1..];
        return node[..i], node[i + 1..];
      }
    }
    assert node[0..] == node;
    return "", node;
  }

  // A stop that says what its node is and whether it changed.
  ghost predicate Describes(stop: Stop, changedSet: set<string>) {
    && IsSplit(stop.id, stop.pkg, stop.name)
    && stop.changed == (stop.id in changedSet) && stop.passThrough == !stop.changed
  }

  ghost predicate AllDescribe(stops: seq<Stop>, changedSet: set<string>) {
    forall k {:trigger Describes(stops[k], changedSet)} :: 0 <= k < |stops| ==> Describes(stops[k], changedSet)
  }

  class Walker {
    const adj: Digraph<string>
    const changedSet: set<string>
    var stops: seq<Stop>
    var visited: set<string>

    constructor (adj: Digraph<string>, changedSet: set<string>)
      ensures this.adj == adj && this.changedSet == changedSet && stops == [] && visited == {}
    {
      this.adj, this.changedSet := adj, changedSet;
      stops, visited := [], {};
    }

    ghost predicate Valid()
      reads this
    {
      visited == Elems(Ids(stops)) && Preorder(adj, Ids(stops)) && AllDescribe(stops, changedSet)
    }

    // The walk goes on at `node`; everything listed by this call is finished.
    method Dfs(node: string, ghost all: set<string>)
      requires Valid() && Closed(adj, all) && node in all
      requires node in visited || stops == [] || ListedNext(adj, Ids(stops), node)
      modifies this
      ensures Valid() && node in visited && old(stops) <= stops
      ensures node in old(visited) ==> stops == old(stops)
      ensures old(stops) == [] ==> Ids(stops)[0] == node
      ensures forall j :: |old(stops)| <= j < |stops| ==> Finished(adj, Ids(stops), j)
      decreases all - visited, 0
    {
      if node in visited {
        return;
      }
      List(node);
      FollowTargets(node, |old(stops)|, all);
    }

    // The loop over the targets of the stop at position p.
    method FollowTargets(node: string, ghost p: nat, ghost all: set<string>)
      requires Valid() && Closed(adj, all) && node in all && |stops| == p + 1 && Ids(stops)[p] == node
      modifies this
      ensures Valid() && old(stops) <= stops && old(visited) <= visited
      ensures forall j :: p <= j < |stops| ==> Finished(adj, Ids(stops), j)
      ensures Ids(stops)[p] == node
      decreases all - visited, 2
    {
      var targets := Succ(adj, node);
      for i := 0 to |targets|
        invariant Valid() && old(stops) <= stops && old(visited) <= visited && Ids(stops)[p] == node
        invariant forall h :: 0 <= h < i ==> targets[h] in visited
        invariant forall j :: p < j < |stops| ==> Finished(adj, Ids(stops), j)
      {
        Descend(targets[i], p, i, all);
      }
      assert Finished(adj, Ids(stops), p);
    }

    // One iteration: the i-th target of the stop at position p.
    method Descend(target: string, ghost p: nat, ghost i: nat, ghost all: set<string>)
      requires Valid() && Closed(adj, all) && p < |stops| && Ids(stops)[p] in all
      requires i < |Succ(adj, Ids(stops)[p])| && target == Succ(adj, Ids(stops)[p])[i]
      requires forall h :: 0 <= h < i ==> Succ(adj, Ids(stops)[p])[h] in visited
      requires forall j :: p < j < |stops| ==> Finished(adj, Ids(stops), j)
      modifies this
      ensures Valid() && old(stops) <= stops && old(visited) <= visited && target in visited
      ensures Ids(stops)[p] == old(Ids(stops)[p])
      ensures forall j :: p < j < |stops| ==> Finished(adj, Ids(stops), j)
      decreases all - visited, 1
    {
      ghost var before := stops;
      NextTarget(Ids(stops), p, i);
      Dfs(target, all);
      StillFinished(Ids(before), Ids(stops), p);
    }

    method List(node: string)
      requires Valid() && node !in visited
      requires stops == [] || ListedNext(adj, Ids(stops), node)
      modifies this
      ensures Valid() && visited == old(visited) + {node}
      ensures |stops| == |old(stops)| + 1 && old(stops) <= stops && Ids(stops)[|old(stops)|] == node
    {
      visited := visited + {node};
      var pkg, name := SplitNode(node);
      PreorderExtends(adj, Ids(stops), node);
      stops := stops + [Stop(node, name, pkg, node in changedSet, node !in changedSet)];
      assert Ids(stops) == Ids(old(stops)) + [node];
      assert Elems(Ids(stops)) == Elems(Ids(old(stops))) + {node};
    }

    lemma NextTarget(ids: seq<string>, p: nat, i: nat)
      requires p < |ids| && i < |Succ(adj, ids[p])|
      requires forall h :: 0 <= h < i ==> Succ(adj, ids[p])[h] in ids
      requires forall j :: p < j < |ids| ==> Finished(adj, ids, j)
      ensures Succ(adj, ids[p])[i] in ids || ListedNext(adj, ids, Succ(adj, ids[p])[i])
    {
      if Succ(adj, ids[p])[i] !in ids {
        assert FirstFresh(adj, ids, p, Succ(adj, ids[p])[i]);
      }
    }

    lemma StillFinished(ids: seq<string>, more: seq<string>, p: nat)
      requires ids <= more
      requires forall j :: p < j < |ids| ==> Finished(adj, ids, j)
      ensures forall j :: p < j < |ids| ==> Finished(adj, more, j)
    {
      forall j | p < j < |ids|
        ensures Finished(adj, more, j)
      {
        assert Finished(adj, ids, j);
      }
    }
  }

  method WalkCircuit(entry: EntryPoint, deps: seq<Dependency>, changedSet: set<string>) returns (stops: seq<Stop>)
    ensures IsWalk(Edges(deps), entry.name, Ids(stops)) && AllDescribe(stops, changedSet)
  {
    var adj := BuildAdjacency(deps);
    var w := new Walker(adj, changedSet);
    ghost var all := Nodes(adj) + {entry.name};
    forall x, y | y in Succ(adj, x)
      ensures y in Nodes(adj)
    {
    }
    w.Dfs(entry.name, all);
    stops := w.stops;
  }

  // A stop is changed if its node is, and passes through if not; its package and its name
  // are what the last dot of the node separates.
  lemma StopSays(stops: seq<Stop>, changedSet: set<string>, k: nat)
    requires AllDescribe(stops, changedSet) && k < |stops|
    ensures (stops[k].changed <==> stops[k].id in changedSet) && (stops[k].passThrough <==> stops[k].id !in changedSet)
    ensures '.' !in stops[k].name
    ensures '.' in stops[k].id ==> stops[k].id == stops[k].pkg + "." + stops[k].name
    ensures '.' !in stops[k].id ==> stops[k].id == stops[k].name && stops[k].pkg == ""
  {
    assert Describes(stops[k], changedSet);
  }
}
