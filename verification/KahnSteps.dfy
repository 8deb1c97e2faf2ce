// The counting behind TopoSort (artifact/graph.go): in-degrees with multiplicity.
module KahnSteps {
  import opened Digraphs
  import opened Sorting
  import opened Artifacts
  import opened TopoOrder

  // The entries of a DependsOn list, duplicates included, still waiting to be emitted.
  ghost function Waiting(deps: seq<Id>, known: set<Id>, done: set<Id>): nat {
    if deps == [] then 0 else
      var n, d := |deps| - 1, deps[|deps| - 1];
      Waiting(deps[..n], known, done) + if d in known && d !in done then 1 else 0
  }

  lemma {:induction false} WaitingZero(deps: seq<Id>, known: set<Id>, done: set<Id>)
    ensures Waiting(deps, known, done) == 0 <==> forall d :: d in deps && d in known ==> d in done
  {
    if deps != [] {
      var n := |deps| - 1;
      assert deps == deps[..n] + [deps[n]];
      WaitingZero(deps[..n], known, done);
    }
  }

  lemma {:induction false} WaitingDrop(deps: seq<Id>, known: set<Id>, done: set<Id>, id: Id)
    requires id in known && id !in done
    ensures Waiting(deps, known, done + {id}) == Waiting(deps, known, done) - multiset(deps)[id]
  {
    if deps != [] {
      var n := |deps| - 1;
      assert deps == deps[..n] + [deps[n]];
      WaitingDrop(deps[..n], known, done, id);
    }
  }

  lemma {:induction false} WaitingNext(deps: seq<Id>, i: nat, known: set<Id>, done: set<Id>)
    requires i < |deps|
    ensures Waiting(deps[..i + 1], known, done) ==
            Waiting(deps[..i], known, done) + if deps[i] in known && deps[i] !in done then 1 else 0
  {
    assert deps[..i + 1][..i] == deps[..i];
  }

  type Degrees = map<Id, int>

  // How often c lists d, for the artifacts c read so far.
  ghost function Times(items: Items, read: set<Id>, c: Id, d: Id): nat {
    if c in read && c in items && d in items then multiset(items[c].dependsOn)[d] else 0
  }

  ghost function Mult(dependents: Digraph<Id>, d: Id, c: Id): nat {
    multiset(Succ(dependents, d))[c]
  }

  // dependents[d] lists every artifact as often as it lists d.
  ghost predicate Inverts(items: Items, dependents: Digraph<Id>, read: set<Id>) {
    forall d, c {:trigger Mult(dependents, d, c)} :: Mult(dependents, d, c) == Times(items, read, c, d)
  }

  // The same, with only a first part of id's own list read.
  ghost predicate InvertsPart(items: Items, dependents: Digraph<Id>, read: set<Id>, id: Id, part: seq<Id>) {
    forall d, c {:trigger Mult(dependents, d, c)} ::
      Mult(dependents, d, c) == (if c == id && d in items then multiset(part)[d] else Times(items, read, c, d))
  }

  lemma ReadDependency(items: Items, dependents: Digraph<Id>, read: set<Id>, id: Id, part: seq<Id>, dep: Id,
      r: Digraph<Id>)
    requires InvertsPart(items, dependents, read, id, part)
    requires r == if dep in items then dependents[dep := Succ(dependents, dep) + [id]] else dependents
    ensures InvertsPart(items, r, read, id, part + [dep])
  {
    assert multiset(Succ(dependents, dep) + [id]) == multiset(Succ(dependents, dep)) + multiset{id};
    assert multiset(part + [dep]) == multiset(part) + multiset{dep};
    forall d, c
      ensures Mult(r, d, c) == (if c == id && d in items then multiset(part + [dep])[d] else Times(items, read, c, d))
    {
      assert Mult(r, d, c) == Mult(dependents, d, c) + if d == dep && c == id && dep in items then 1 else 0;
    }
  }

  ghost predicate Counts(items: Items, inDegree: Degrees, done: set<Id>) {
    forall c :: c in items ==> c in inDegree && inDegree[c] == Waiting(items[c].dependsOn, items.Keys, done)
  }

  method CountDependencies(items: Items) returns (inDegree: Degrees, dependents: Digraph<Id>)
    ensures inDegree.Keys == items.Keys
    ensures Counts(items, inDegree, {}) && Inverts(items, dependents, items.Keys)
  {
    inDegree, dependents := map[], map[];
    var rest, read := items.Keys, {};
    while rest != {}
      invariant rest <= items.Keys && read == items.Keys - rest && inDegree.Keys == read
      invariant forall c :: c in read ==> inDegree[c] == Waiting(items[c].dependsOn, items.Keys, {})
      invariant Inverts(items, dependents, read)
    {
      var id :| id in rest;
      rest := rest - {id};
      inDegree, dependents := CountArtifact(items, inDegree, dependents, id, read);
      read := read + {id};
    }
  }

  method CountArtifact(items: Items, inDegree0: Degrees, dependents0: Digraph<Id>, id: Id, ghost read: set<Id>)
    returns (inDegree: Degrees, dependents: Digraph<Id>)
    requires id in items && id !in read && id !in inDegree0 && Inverts(items, dependents0, read)
    ensures inDegree == inDegree0[id := Waiting(items[id].dependsOn, items.Keys, {})]
    ensures Inverts(items, dependents, read + {id})
  {
    inDegree, dependents := inDegree0[id := 0], dependents0;
    var deps := items[id].dependsOn;
    for i := 0 to |deps|
      invariant inDegree == inDegree0[id := Waiting(deps[..i], items.Keys, {})]
      invariant InvertsPart(items, dependents, read, id, deps[..i])
    {
      var dep := deps[i];
      WaitingNext(deps, i, items.Keys, {});
      assert deps[..i + 1] == deps[..i] + [dep];
      ghost var before := dependents;
      if dep in items {
        inDegree := inDegree[id := inDegree[id] + 1];
        dependents := dependents[dep := Succ(dependents, dep) + [id]];
      }
      ReadDependency(items, before, read, id, deps[..i], dep, dependents);
    }
    assert deps[..|deps|] == deps;
  }

  // The artifacts whose last waiting dependency is among the first children released.
  ghost function Freed(inDegree: Degrees, children: seq<Id>): set<Id>
    requires forall c :: c in children ==> c in inDegree
  {
    set c | c in children && inDegree[c] == 0
  }

  lemma FrontierIffNoneWaiting(items: Items, done: seq<Id>, c: Id)
    requires c in items
    ensures c in Frontier(items, done) <==> c !in done && Waiting(items[c].dependsOn, items.Keys, Elems(done)) == 0
  {
    WaitingZero(items[c].dependsOn, items.Keys, Elems(done));
  }

  lemma EmittedDepsEmitted(items: Items, done: seq<Id>, c: Id, d: Id)
    requires RespectsDeps(items, done) && c in done && c in items && d in items[c].dependsOn && d in items
    ensures d in done
  {
    var k :| 0 <= k < |done| && done[k] == c;
    assert DepsBefore(items, done, k);
  }

  // Emitting id lowers each degree by the times the artifact lists id.
  lemma EmitLowersDegrees(items: Items, done: seq<Id>, id: Id, inDegree: Degrees, dependents: Digraph<Id>,
      after: Degrees)
    requires RespectsDeps(items, done) && id in Frontier(items, done)
    requires Counts(items, inDegree, Elems(done)) && Inverts(items, dependents, items.Keys)
    requires after.Keys == inDegree.Keys
    requires forall c :: c in items ==> after[c] == inDegree[c] - multiset(Succ(dependents, id))[c]
    ensures Counts(items, after, Elems(done + [id]))
    ensures forall c :: c in Succ(dependents, id) ==> c in items
    ensures Frontier(items, done + [id]) == Frontier(items, done) - {id} + Freed(after, Succ(dependents, id))
    ensures Frontier(items, done) !! Elems(Succ(dependents, id))
  {
    var children := Succ(dependents, id);
    assert Elems(done + [id]) == Elems(done) + {id};
    forall c | c in children
      ensures c in items && id in items[c].dependsOn && c !in done && c !in Frontier(items, done)
    {
      assert Mult(dependents, id, c) == Times(items, items.Keys, c, id);
      if c in done {
        EmittedDepsEmitted(items, done, c, id);
      }
    }
    forall c | c in items
      ensures after[c] == Waiting(items[c].dependsOn, items.Keys, Elems(done + [id]))
      ensures c in Frontier(items, done + [id]) <==> c in Frontier(items, done) - {id} + Freed(after, children)
    {
      WaitingDrop(items[c].dependsOn, items.Keys, Elems(done), id);
      assert Mult(dependents, id, c) == Times(items, items.Keys, c, id);
      FrontierIffNoneWaiting(items, done, c);
      FrontierIffNoneWaiting(items, done + [id], c);
    }
  }

  lemma PrefixCount(s: seq<Id>, j: nat, x: Id)
    requires j <= |s|
    ensures multiset(s[..j])[x] <= multiset(s)[x]
  {
    assert s == s[..j] + s[j..];
  }

  lemma FreedNext(inDegree: Degrees, children: seq<Id>, child: Id)
    requires (forall c :: c in children ==> c in inDegree) && child in inDegree && 0 < inDegree[child]
    ensures Freed(inDegree[child := inDegree[child] - 1], children + [child]) ==
            Freed(inDegree, children) + if inDegree[child] == 1 then {child} else {}
  {
  }

  // The loop over an emitted artifact's dependents.
  method Release(children: seq<Id>, inDegree0: Degrees, queue0: seq<Id>) returns (inDegree: Degrees, queue: seq<Id>)
    requires forall c :: c in children ==> c in inDegree0 && multiset(children)[c] <= inDegree0[c]
    requires Distinct(queue0) && Elems(queue0) !! Elems(children)
    ensures inDegree.Keys == inDegree0.Keys
    ensures forall c :: c in inDegree0 ==> inDegree[c] == inDegree0[c] - multiset(children)[c]
    ensures Distinct(queue) && Elems(queue) == Elems(queue0) + Freed(inDegree, children)
  {
    inDegree, queue := inDegree0, queue0;
    for j := 0 to |children|
      invariant inDegree.Keys == inDegree0.Keys
      invariant forall c :: c in inDegree0 ==> inDegree[c] == inDegree0[c] - multiset(children[..j])[c]
      invariant Distinct(queue) && Elems(queue) == Elems(queue0) + Freed(inDegree, children[..j])
    {
      var child := children[j];
      assert children[..j + 1] == children[..j] + [child];
      PrefixCount(children, j + 1, child);
      assert 0 < inDegree[child];
      assert child !in Elems(queue);
      ghost var before := inDegree;
      inDegree := inDegree[child := inDegree[child] - 1];
      FreedNext(before, children[..j], child);
      if inDegree[child] == 0 {
        assert Elems(queue + [child]) == Elems(queue) + {child};
        queue := queue + [child];
      }
    }
    assert children[..|children|] == children;
  }
}
