// The order that TopoSort promises (artifact/graph.go): Kahn's algorithm with a
// sorted frontier, cycles last.
module TopoOrder {
  import opened Digraphs
  import opened Sorting
  import opened Artifacts

  // The ids not yet emitted whose known dependencies all are.
  ghost function Frontier(items: Items, done: seq<Id>): (r: set<Id>)
    ensures r <= items.Keys
  {
    set id | id in items && id !in done && forall d :: d in items[id].dependsOn && d in items ==> d in done
  }

  ghost function Least(s: set<Id>): (m: Id)
    requires s != {}
    ensures m in s && forall x :: x in s ==> m.Le(x)
  {
    LeastExists(s);
    var m :| m in s && forall x :: x in s ==> m.Le(x);
    m
  }

  lemma {:induction false} LeastExists(s: set<Id>)
    requires s != {}
    ensures exists m :: m in s && forall x :: x in s ==> m.Le(x)
  {
    var x :| x in s;
    if s == {x} {
      assert forall y :: y in s ==> x.Le(y);
    } else {
      LeastExists(s - {x});
      var m :| m in s - {x} && forall y :: y in s - {x} ==> m.Le(y);
      var k := if x.Le(m) then x else m;
      assert forall y :: y in s ==> y == x || y in s - {x};
      assert k in s && forall y :: y in s ==> k.Le(y);
    }
  }

  // The Kahn phase, continued from what has been emitted.
  ghost function Kahn(items: Items, done: seq<Id>): seq<Id>
    requires Distinct(done) && Elems(done) <= items.Keys
    decreases items.Keys - Elems(done)
  {
    if Frontier(items, done) == {} then done
    else
      var id := Least(Frontier(items, done));
      assert Elems(done + [id]) == Elems(done) + {id};
      Kahn(items, done + [id])
  }

  // The ids of TopoSort's result.
  ghost function Order(items: Items): seq<Id> {
    Kahn(items, []) + SortedSet(items.Keys - Elems(Kahn(items, [])))
  }

  // The ascending listing of a set.
  ghost function SortedSet(s: set<Id>): (r: seq<Id>)
    ensures StrictlySorted(r) && Elems(r) == s
    decreases |s|
  {
    if s == {} then [] else
      var m := Least(s);
      var r := SortedSet(s - {m});
      PrependLeast(s, m, r);
      [m] + r
  }

  lemma PrependLeast(s: set<Id>, m: Id, r: seq<Id>)
    requires m in s && forall x :: x in s ==> m.Le(x)
    requires StrictlySorted(r) && Elems(r) == s - {m}
    ensures StrictlySorted([m] + r) && Elems([m] + r) == s
  {
    forall i | 0 <= i < |r|
      ensures m.Lt(r[i])
    {
      assert r[i] in Elems(r);
    }
    assert Elems([m] + r) == {m} + Elems(r);
  }

  // ----- What the order promises -----

  ghost predicate DepsBefore(items: Items, s: seq<Id>, k: nat)
    requires k < |s| && s[k] in items
  {
    forall d :: d in items[s[k]].dependsOn && d in items ==> d in s[..k]
  }

  // Distinct known artifacts, each after all of its known dependencies.
  ghost predicate RespectsDeps(items: Items, s: seq<Id>) {
    && Distinct(s)
    && (forall k :: 0 <= k < |s| ==> s[k] in items)
    && forall k :: 0 <= k < |s| ==> DepsBefore(items, s, k)
  }

  lemma RespectsDepsElems(items: Items, s: seq<Id>)
    requires RespectsDeps(items, s)
    ensures Elems(s) <= items.Keys
  {
  }

  lemma EmitOne(items: Items, done: seq<Id>, id: Id)
    requires RespectsDeps(items, done) && id in Frontier(items, done)
    ensures RespectsDeps(items, done + [id])
  {
    var s := done + [id];
    forall k | 0 <= k < |s|
      ensures DepsBefore(items, s, k)
    {
      if k < |done| {
        assert DepsBefore(items, done, k) && s[..k] == done[..k];
      } else {
        assert s[..k] == done;
      }
    }
  }

  // The Kahn phase only stops when nothing can be emitted, and respects dependencies.
  lemma {:induction false} KahnRespectsDeps(items: Items, done: seq<Id>)
    requires RespectsDeps(items, done)
    ensures Elems(done) <= items.Keys && done <= Kahn(items, done)
    ensures RespectsDeps(items, Kahn(items, done)) && Frontier(items, Kahn(items, done)) == {}
    decreases items.Keys - Elems(done)
  {
    RespectsDepsElems(items, done);
    if Frontier(items, done) != {} {
      var id := Least(Frontier(items, done));
      EmitOne(items, done, id);
      assert Elems(done + [id]) == Elems(done) + {id};
      KahnRespectsDeps(items, done + [id]);
    }
  }

  // TopoSort emits every artifact exactly once.
  lemma OrderIsPermutation(items: Items)
    ensures Distinct(Order(items)) && Elems(Order(items)) == items.Keys
  {
    KahnRespectsDeps(items, []);
    var k, rest := Kahn(items, []), SortedSet(items.Keys - Elems(Kahn(items, [])));
    RespectsDepsElems(items, k);
    DistinctConcat(k, rest);
  }

  // Nothing on a cycle is ever emitted by the Kahn phase.
  lemma {:induction false} EmittedOffCycles(items: Items, s: seq<Id>, k: nat)
    requires RespectsDeps(items, s) && k < |s|
    ensures !OnCycle(Deps(items), s[k])
  {
    var g, c := Deps(items), s[k];
    if OnCycle(g, c) {
      var z := CycleStep(g, c);
      assert DepsBefore(items, s, k);
      PrefixClosed(items, s, k);
      ClosedKeepsReach(g, Elems(s[..k]) + (Nodes(g) - items.Keys), z, c);
    }
  }

  // A prefix is closed under dependencies, unknown ones aside.
  lemma PrefixClosed(items: Items, s: seq<Id>, k: nat)
    requires RespectsDeps(items, s) && k <= |s|
    ensures Closed(Deps(items), Elems(s[..k]) + (Nodes(Deps(items)) - items.Keys))
  {
    var g := Deps(items);
    forall x, y | x in Elems(s[..k]) + (Nodes(g) - items.Keys) && y in Succ(g, x)
      ensures y in Elems(s[..k]) + (Nodes(g) - items.Keys)
    {
      assert x in s[..k];
      var j :| 0 <= j < k && s[j] == x;
      assert DepsBefore(items, s, j);
      if y in items {
        assert y in s[..j];
        assert y in s[..k];
      }
    }
  }

  // An artifact is left to the tail exactly when it depends on a cycle.
  lemma {:induction false} TailReachesCycle(items: Items, x: Id)
    requires x in items
    ensures x !in Kahn(items, []) <==> ReachesCycle(Deps(items), x)
  {
    var g, s := Deps(items), Kahn(items, []);
    KahnRespectsDeps(items, []);
    if x in s && ReachesCycle(g, x) {
      var c := CycleReached(g, x);
      PrefixClosed(items, s, |s|);
      assert s[..|s|] == s;
      ClosedKeepsReach(g, Elems(s) + (Nodes(g) - items.Keys), x, c);
      assert c in items;
      var k :| 0 <= k < |s| && s[k] == c;
      EmittedOffCycles(items, s, k);
    }
    if x !in s {
      var left := items.Keys - Elems(s);
      forall y | y in left
        ensures HasSuccIn(g, left, y)
      {
        assert y !in Frontier(items, s);
        var d :| d in items[y].dependsOn && d in items && d !in s;
        assert d in Succ(g, y);
      }
      StuckReachesCycle(g, left, x);
    }
  }

  // Smaller at the first difference, or equal.
  ghost predicate LexLe(a: seq<Id>, b: seq<Id>) {
    a <= b || exists k :: 0 <= k < |a| && k < |b| && a[..k] == b[..k] && a[k].Lt(b[k])
  }

  lemma {:induction false} KahnAt(items: Items, done: seq<Id>, k: nat)
    requires RespectsDeps(items, done)
    requires Elems(done) <= items.Keys && |done| <= k < |Kahn(items, done)|
    ensures Kahn(items, done)[k] in Frontier(items, Kahn(items, done)[..k])
    ensures forall x :: x in Frontier(items, Kahn(items, done)[..k]) ==> Kahn(items, done)[k].Le(x)
    decreases items.Keys - Elems(done)
  {
    var id := Least(Frontier(items, done));
    EmitOne(items, done, id);
    assert Elems(done + [id]) == Elems(done) + {id};
    KahnRespectsDeps(items, done + [id]);
    if k == |done| {
      assert Kahn(items, done)[..k] == done;
    } else {
      KahnAt(items, done + [id], k);
    }
  }

  // Among all orders of the acyclic part that respect dependencies, the Kahn
  // phase yields the lexicographically least.
  lemma {:induction false} KahnIsLeast(items: Items, s: seq<Id>)
    requires RespectsDeps(items, s) && Elems(s) == Elems(Kahn(items, []))
    ensures LexLe(Kahn(items, []), s)
  {
    var a := Kahn(items, []);
    KahnRespectsDeps(items, []);
    forall i | 0 <= i < |a|
      ensures a[i] in s
    {
      assert a[i] in Elems(a);
    }
    var k := 0;
    while k < |a| && k < |s| && a[k] == s[k]
      invariant k <= |a| && k <= |s| && a[..k] == s[..k]
    {
      k := k + 1;
    }
    if k < |a| && k < |s| {
      KahnAt(items, [], k);
      assert DepsBefore(items, s, k);
      assert s[k] !in s[..k];
      assert s[k] in Frontier(items, s[..k]);
      assert a[k].Lt(s[k]);
    } else {
      assert k == |s| ==> s == a[..k];
      assert k == |a| ==> a == s[..k];
    }
  }

  // ----- The order, without the algorithm -----

  ghost predicate Free(items: Items, x: Id) {
    !ReachesCycle(Deps(items), x)
  }

  // The artifacts that reach a cycle come last, in ascending order.
  ghost predicate CyclesLast(items: Items, ids: seq<Id>) {
    forall i, j :: 0 <= i < j < |ids| && !Free(items, ids[i]) ==> !Free(items, ids[j]) && ids[i].Lt(ids[j])
  }

  // The others come after all their known dependencies.
  ghost predicate FreeRespectDeps(items: Items, ids: seq<Id>) {
    forall k, d :: 0 <= k < |ids| && ids[k] in items && Free(items, ids[k]) && IsKnownDependency(items, ids[k], d) ==>
      d in ids[..k]
  }

  ghost predicate IsKnownDependency(items: Items, x: Id, d: Id)
    requires x in items
  {
    d in items[x].dependsOn && d in items
  }

  // They are the first n, and no order of theirs that respects dependencies is less.
  ghost predicate FreeAreLeast(items: Items, ids: seq<Id>, n: nat) {
    && FreeFirst(items, ids, n)
    && forall s :: RespectsDeps(items, s) && Elems(s) == Elems(ids[..n]) ==> LexLe(ids[..n], s)
  }

  ghost predicate FreeFirst(items: Items, ids: seq<Id>, n: nat) {
    n <= |ids| && forall k :: 0 <= k < |ids| ==> (k < n <==> Free(items, ids[k]))
  }

  ghost predicate IsTopoOrder(items: Items, ids: seq<Id>) {
    && Distinct(ids) && Elems(ids) == items.Keys
    && CyclesLast(items, ids) && FreeRespectDeps(items, ids)
    && exists n :: FreeAreLeast(items, ids, n)
  }

  lemma {:induction false} OrderIsTopoOrder(items: Items)
    ensures IsTopoOrder(items, Order(items))
  {
    OrderIsPermutation(items);
    OrderCyclesLast(items);
    OrderRespectsDeps(items);
    OrderIsLeast(items);
  }

  lemma {:induction false} OrderCyclesLast(items: Items)
    ensures CyclesLast(items, Order(items))
  {
    OrderSplits(items);
    var k := Kahn(items, []);
    var rest, ids := SortedSet(items.Keys - Elems(k)), Order(items);
    forall i, j | 0 <= i < j < |ids| && !Free(items, ids[i])
      ensures !Free(items, ids[j]) && ids[i].Lt(ids[j])
    {
      assert ids[i] == rest[i - |k|] && ids[j] == rest[j - |k|];
    }
  }

  lemma {:induction false} OrderRespectsDeps(items: Items)
    ensures FreeRespectDeps(items, Order(items))
  {
    KahnRespectsDeps(items, []);
    OrderSplits(items);
    var k, ids := Kahn(items, []), Order(items);
    forall i, d | 0 <= i < |ids| && ids[i] in items && Free(items, ids[i]) && IsKnownDependency(items, ids[i], d)
      ensures d in ids[..i]
    {
      assert ids[i] == k[i] && DepsBefore(items, k, i) && ids[..i] == k[..i];
    }
  }

  lemma {:induction false} OrderIsLeast(items: Items)
    ensures exists n :: FreeAreLeast(items, Order(items), n)
  {
    var k := Kahn(items, []);
    OrderSplits(items);
    assert Order(items)[..|k|] == k;
    forall s | RespectsDeps(items, s) && Elems(s) == Elems(k)
      ensures LexLe(k, s)
    {
      KahnIsLeast(items, s);
    }
    assert FreeAreLeast(items, Order(items), |k|);
  }

  // The Kahn phase emits exactly the artifacts that reach no cycle.
  lemma {:induction false} OrderSplits(items: Items)
    ensures forall i :: 0 <= i < |Order(items)| ==> (i < |Kahn(items, [])| <==> Free(items, Order(items)[i]))
  {
    var k, ids := Kahn(items, []), Order(items);
    OrderIsPermutation(items);
    forall i | 0 <= i < |ids|
      ensures i < |k| <==> Free(items, ids[i])
    {
      assert ids[i] in Elems(ids);
      TailReachesCycle(items, ids[i]);
      OrderAt(items, i);
    }
  }

  lemma {:induction false} OrderAt(items: Items, i: nat)
    requires i < |Order(items)|
    ensures i < |Kahn(items, [])| <==> Order(items)[i] in Elems(Kahn(items, []))
  {
    var k := Kahn(items, []);
    if i < |k| {
      assert Order(items)[i] == k[i];
    } else {
      var rest := SortedSet(items.Keys - Elems(k));
      assert Order(items)[i] == rest[i - |k|] && rest[i - |k|] in Elems(rest);
    }
  }

  lemma LexLeAt(a: seq<Id>, b: seq<Id>, k: nat)
    requires LexLe(a, b) && k < |a| && k < |b| && a[..k] == b[..k] && a[k] != b[k]
    ensures a[k].Lt(b[k])
  {
    if !(a <= b) {
      var m :| 0 <= m < |a| && m < |b| && a[..m] == b[..m] && a[m].Lt(b[m]);
      assert forall i :: 0 <= i < k ==> a[i] == a[..k][i] == b[..k][i] == b[i];
      assert forall i :: 0 <= i < m ==> a[i] == a[..m][i] == b[..m][i] == b[i];
    }
  }

  lemma LexLeAntisymmetric(a: seq<Id>, b: seq<Id>)
    requires LexLe(a, b) && LexLe(b, a) && |a| == |b|
    ensures a == b
  {
    var k: nat := 0;
    while k < |a| && a[k] == b[k]
      invariant k <= |a| && forall i :: 0 <= i < k ==> a[i] == b[i]
    {
      k := k + 1;
    }
    if k < |a| {
      assert a[..k] == b[..k];
      LexLeAt(a, b, k);
      LexLeAt(b, a, k);
    }
  }

  // All that determines the order: two such listings are equal.
  lemma {:induction false} TopoOrderIsUnique(items: Items, a: seq<Id>, b: seq<Id>)
    requires IsTopoOrder(items, a) && IsTopoOrder(items, b)
    ensures a == b
  {
    var m: nat :| FreeAreLeast(items, a, m);
    var n: nat :| FreeAreLeast(items, b, n);
    SameFreePart(items, a, m, b, n);
    SameCyclicPart(items, a, m, b, n);
    assert a == a[..m] + a[m..] && b == b[..n] + b[n..];
  }

  lemma SameFreePart(items: Items, a: seq<Id>, m: nat, b: seq<Id>, n: nat)
    requires IsTopoOrder(items, a) && FreeAreLeast(items, a, m)
    requires IsTopoOrder(items, b) && FreeAreLeast(items, b, n)
    ensures a[..m] == b[..n]
  {
    FreePart(items, a, m);
    FreePart(items, b, n);
    LeastPrecedes(items, a, m, b[..n]);
    LeastPrecedes(items, b, n, a[..m]);
    DistinctSize(a[..m]);
    DistinctSize(b[..n]);
    LexLeAntisymmetric(a[..m], b[..n]);
  }

  lemma SameCyclicPart(items: Items, a: seq<Id>, m: nat, b: seq<Id>, n: nat)
    requires IsTopoOrder(items, a) && FreeAreLeast(items, a, m)
    requires IsTopoOrder(items, b) && FreeAreLeast(items, b, n)
    ensures a[m..] == b[n..]
  {
    CyclicPart(items, a, m);
    CyclicPart(items, b, n);
    StrictlySortedUnique(a[m..], b[n..]);
  }

  lemma LeastPrecedes(items: Items, ids: seq<Id>, n: nat, s: seq<Id>)
    requires FreeAreLeast(items, ids, n) && RespectsDeps(items, s) && Elems(s) == Elems(ids[..n])
    ensures LexLe(ids[..n], s)
  {
  }

  lemma {:induction false} DistinctSize(s: seq<Id>)
    requires Distinct(s)
    ensures |Elems(s)| == |s|
  {
    if s != [] {
      var n := |s| - 1;
      DistinctSize(s[..n]);
      assert s == s[..n] + [s[n]];
      assert Elems(s) == Elems(s[..n]) + {s[n]};
    }
  }

  // Where the ids of a sequence are whose first n are those in a set.
  lemma PartOf(ids: seq<Id>, n: nat, first: set<Id>, x: Id)
    requires n <= |ids| && forall k :: 0 <= k < |ids| ==> (k < n <==> ids[k] in first)
    ensures x in ids[..n] <==> x in Elems(ids) && x in first
    ensures x in ids[n..] <==> x in Elems(ids) && x !in first
  {
    if x in ids {
      var k :| 0 <= k < |ids| && ids[k] == x;
      assert k < n ==> ids[..n][k] == x;
      assert k >= n ==> ids[n..][k - n] == x;
    }
    assert forall k :: 0 <= k < n ==> ids[..n][k] == ids[k];
    assert forall k :: 0 <= k < |ids[n..]| ==> ids[n..][k] == ids[n + k];
  }

  lemma PartsOf(items: Items, ids: seq<Id>, n: nat)
    requires Elems(ids) == items.Keys && FreeFirst(items, ids, n)
    ensures forall x :: x in ids[..n] <==> x in items && Free(items, x)
    ensures forall x :: x in ids[n..] <==> x in items && !Free(items, x)
  {
    var free := set x | x in items && Free(items, x);
    assert forall k :: 0 <= k < |ids| ==> ids[k] in Elems(ids);
    forall x
      ensures x in ids[..n] <==> x in items && x in free
      ensures x in ids[n..] <==> x in items && x !in free
    {
      PartOf(ids, n, free, x);
    }
  }

  lemma FreePart(items: Items, ids: seq<Id>, n: nat)
    requires Distinct(ids) && Elems(ids) == items.Keys && FreeFirst(items, ids, n) && FreeRespectDeps(items, ids)
    ensures RespectsDeps(items, ids[..n]) && Elems(ids[..n]) == set x | x in items && Free(items, x)
  {
    PartsOf(items, ids, n);
    forall k | 0 <= k < n
      ensures ids[..n][k] in items && DepsBefore(items, ids[..n], k)
    {
      assert ids[k] in Elems(ids) && ids[..n][..k] == ids[..k];
      forall d | d in items[ids[k]].dependsOn && d in items
        ensures d in ids[..k]
      {
        assert IsKnownDependency(items, ids[k], d);
      }
    }
  }

  lemma CyclicPart(items: Items, ids: seq<Id>, n: nat)
    requires Elems(ids) == items.Keys && FreeFirst(items, ids, n) && CyclesLast(items, ids)
    ensures StrictlySorted(ids[n..]) && forall x :: x in ids[n..] <==> x in items && !Free(items, x)
  {
    PartsOf(items, ids, n);
    assert forall k :: 0 <= k < |ids[n..]| ==> ids[n..][k] == ids[n + k];
  }
}
