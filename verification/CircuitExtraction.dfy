// Circuit extraction and shared stops (review/circuit.go).
module CircuitExtraction {
  import opened Digraphs
  import opened Selections
  import opened Sorting
  import opened Circuits
  import opened EntryPoints

  // ----- Shared stops -----

  ghost predicate OnCircuit(circuits: seq<Circuit>, c: nat, id: string) {
    c < |circuits| && id in Ids(circuits[c].stops)
  }

  ghost predicate OnOther(circuits: seq<Circuit>, c: nat, id: string) {
    exists d :: d != c && OnCircuit(circuits, d, id)
  }

  // The ids among `ids`, in order, that lie on a circuit other than c.
  ghost function SharedOf(circuits: seq<Circuit>, c: nat, ids: seq<string>): seq<string> {
    if ids == [] then [] else
      var n := |ids| - 1;
      SharedOf(circuits, c, ids[..n]) + if OnOther(circuits, c, ids[n]) then [ids[n]] else []
  }

  ghost predicate StopsDistinct(circuits: seq<Circuit>) {
    forall c :: 0 <= c < |circuits| ==> Distinct(Ids(circuits[c].stops))
  }

  type StopIndex = map<string, seq<nat>>

  function Lookup(m: StopIndex, id: string): seq<nat> {
    if id in m then m[id] else []
  }

  ghost predicate Ascending(s: seq<nat>) {
    forall i, j :: 0 <= i < j < |s| ==> s[i] < s[j]
  }

  // m lists, for every stop id, the circuits before n it lies on, and circuit n
  // if it is among that circuit's first stops `part`.
  ghost predicate Indexes(m: StopIndex, circuits: seq<Circuit>, n: nat, part: seq<string>) {
    forall id {:trigger Lookup(m, id)} ::
      && Ascending(Lookup(m, id))
      && forall c: nat :: c in Lookup(m, id) <==> (c < n && OnCircuit(circuits, c, id)) || (c == n && id in part)
  }

  lemma IndexOne(m: StopIndex, circuits: seq<Circuit>, n: nat, part: seq<string>, id: string)
    requires Indexes(m, circuits, n, part) && id !in part
    ensures Indexes(m[id := Lookup(m, id) + [n]], circuits, n, part + [id])
  {
    var r := m[id := Lookup(m, id) + [n]];
    forall x
      ensures Ascending(Lookup(r, x))
      ensures forall c: nat :: c in Lookup(r, x) <==>
        (c < n && OnCircuit(circuits, c, x)) || (c == n && x in part + [id])
    {
      var before := Lookup(m, x);
      assert forall c: nat :: c in before <==> (c < n && OnCircuit(circuits, c, x)) || (c == n && x in part);
      if x == id {
        assert Lookup(r, x) == before + [n];
        AscendingAppend(before, n);
      }
    }
  }

  lemma AscendingAppend(s: seq<nat>, n: nat)
    requires Ascending(s) && forall c :: c in s ==> c < n
    ensures Ascending(s + [n])
  {
    assert forall k :: 0 <= k < |s| ==> s[k] in s;
  }

  lemma NotYetListed(ids: seq<string>, k: nat)
    requires Distinct(ids) && k < |ids|
    ensures ids[k] !in ids[..k]
  {
  }

  method IndexStops(circuits: seq<Circuit>) returns (m: StopIndex)
    requires StopsDistinct(circuits)
    ensures Indexes(m, circuits, |circuits|, [])
  {
    m := map[];
    for ci := 0 to |circuits|
      invariant Indexes(m, circuits, ci, [])
    {
      var stops := circuits[ci].stops;
      for k := 0 to |stops|
        invariant Indexes(m, circuits, ci, Ids(stops)[..k])
      {
        assert Ids(stops)[..k + 1] == Ids(stops)[..k] + [stops[k].id];
        NotYetListed(Ids(stops), k);
        IndexOne(m, circuits, ci, Ids(stops)[..k], stops[k].id);
        m := m[stops[k].id := Lookup(m, stops[k].id) + [ci]];
      }
      assert Ids(stops)[..|stops|] == Ids(stops);
      assert Indexes(m, circuits, ci + 1, []);
    }
  }

  lemma SeveralIffOther(m: StopIndex, circuits: seq<Circuit>, c: nat, id: string)
    requires Indexes(m, circuits, |circuits|, []) && OnCircuit(circuits, c, id)
    ensures |Lookup(m, id)| > 1 <==> OnOther(circuits, c, id)
  {
    var s := Lookup(m, id);
    assert c in s;
    if |s| > 1 {
      var d := if s[0] == c then s[1] else s[0];
      assert d in s && d != c && OnCircuit(circuits, d, id);
    }
    if OnOther(circuits, c, id) {
      var d :| d != c && OnCircuit(circuits, d, id);
      assert d in s;
    }
  }

  // Each circuit as before, with the stops it shares with others appended.
  ghost predicate SharedMarked(before: seq<Circuit>, after: seq<Circuit>, n: nat) {
    && |after| == |before|
    && forall c :: 0 <= c < |before| ==>
         after[c] == if c < n then before[c].(shared := before[c].shared + SharedOf(before, c, Ids(before[c].stops)))
                     else before[c]
  }

  method MarkSharedStops(circuits: seq<Circuit>) returns (marked: seq<Circuit>)
    requires StopsDistinct(circuits)
    ensures SharedMarked(circuits, marked, |circuits|)
  {
    var stopCircuits := IndexStops(circuits);
    marked := circuits;
    for ci := 0 to |circuits|
      invariant SharedMarked(circuits, marked, ci)
    {
      var shared := SharedStops(circuits, stopCircuits, ci);
      marked := marked[ci := circuits[ci].(shared := circuits[ci].shared + shared)];
    }
  }

  method SharedStops(circuits: seq<Circuit>, stopCircuits: StopIndex, ci: nat) returns (shared: seq<string>)
    requires ci < |circuits| && Indexes(stopCircuits, circuits, |circuits|, [])
    ensures shared == SharedOf(circuits, ci, Ids(circuits[ci].stops))
  {
    shared := [];
    var stops := circuits[ci].stops;
    ghost var ids := Ids(stops);
    for k := 0 to |stops|
      invariant shared == SharedOf(circuits, ci, ids[..k])
    {
      assert ids[k] == stops[k].id && ids[..k + 1][..k] == ids[..k];
      SeveralIffOther(stopCircuits, circuits, ci, ids[k]);
      var indices := Lookup(stopCircuits, stops[k].id);
      if |indices| > 1 {
        shared := shared + [stops[k].id];
      }
    }
    assert ids[..|stops|] == ids;
  }

  // A stop is marked exactly when it lies on another circuit, too.
  lemma {:induction false} SharedIffOther(circuits: seq<Circuit>, c: nat, ids: seq<string>, id: string)
    ensures id in SharedOf(circuits, c, ids) <==> id in ids && OnOther(circuits, c, id)
  {
    if ids != [] {
      var n := |ids| - 1;
      assert ids == ids[..n] + [ids[n]];
      SharedIffOther(circuits, c, ids[..n], id);
    }
  }

  lemma {:induction false} SharedOfStopsOnly(a: seq<Circuit>, b: seq<Circuit>, c: nat, ids: seq<string>)
    requires |a| == |b| && forall k :: 0 <= k < |a| ==> a[k].stops == b[k].stops
    ensures SharedOf(a, c, ids) == SharedOf(b, c, ids)
  {
    if ids != [] {
      var n := |ids| - 1;
      SharedOfStopsOnly(a, b, c, ids[..n]);
      assert forall d: nat :: OnCircuit(a, d, ids[n]) <==> OnCircuit(b, d, ids[n]);
    }
  }

  // ----- Extraction -----

  method HasChangedStop(stops: seq<Stop>) returns (r: bool)
    ensures r <==> exists k :: 0 <= k < |stops| && stops[k].changed
  {
    for i := 0 to |stops|
      invariant forall k :: 0 <= k < i ==> !stops[k].changed
    {
      if stops[i].changed {
        return true;
      }
    }
    return false;
  }

  // Changed code can be reached from the node.
  ghost predicate ReachesChange(deps: seq<Dependency>, node: string, changed: seq<string>) {
    exists x :: x in changed && Reach(Edges(deps), node, x)
  }

  ghost predicate IsCircuitOf(deps: seq<Dependency>, changed: seq<string>, c: Circuit, e: EntryPoint) {
    && c.entryPoint == e.name && c.title == e.kind + ": " + e.name
    && IsWalk(Edges(deps), e.name, Ids(c.stops)) && AllDescribe(c.stops, Elems(changed))
    && ReachesChange(deps, e.name, changed)
  }

  ghost function EntryNames(circuits: seq<Circuit>): seq<string> {
    seq(|circuits|, k requires 0 <= k < |circuits| => circuits[k].entryPoint)
  }

  lemma ChangedStopIffReaches(deps: seq<Dependency>, e: EntryPoint, stops: seq<Stop>, changed: seq<string>)
    requires IsWalk(Edges(deps), e.name, Ids(stops)) && AllDescribe(stops, Elems(changed))
    ensures (exists k :: 0 <= k < |stops| && stops[k].changed) <==> ReachesChange(deps, e.name, changed)
  {
    var ids := Ids(stops);
    forall k | 0 <= k < |stops|
      ensures stops[k].changed <==> ids[k] in changed
      ensures Reach(Edges(deps), e.name, ids[k])
    {
      assert Describes(stops[k], Elems(changed));
      assert ids[k] in ids;
      WalkIsReach(Edges(deps), e.name, ids, ids[k]);
    }
    if ReachesChange(deps, e.name, changed) {
      var x :| x in changed && Reach(Edges(deps), e.name, x);
      WalkIsReach(Edges(deps), e.name, ids, x);
      var k :| 0 <= k < |ids| && ids[k] == x;
      assert stops[k].changed;
    }
  }

  // A circuit of some detected entry point.
  ghost predicate Justified(deps: seq<Dependency>, changed: seq<string>, c: Circuit) {
    exists e :: Detected(deps, e) && IsCircuitOf(deps, changed, c, e)
  }

  ghost predicate MustKeep(deps: seq<Dependency>, changed: seq<string>, node: string) {
    node in Sources(deps) && IsEntry(node, PackageOf(deps, node)) && ReachesChange(deps, node, changed)
  }

  // Every detected entry point that reaches changed code has exactly one circuit,
  // its depth-first walk, and no other circuits are kept.
  ghost predicate IsExtraction(changed: seq<string>, deps: seq<Dependency>, circuits: seq<Circuit>) {
    && Distinct(EntryNames(circuits))
    && (forall c :: 0 <= c < |circuits| ==> Justified(deps, changed, circuits[c]))
    && (forall n :: MustKeep(deps, changed, n) ==> n in EntryNames(circuits))
    && forall c :: 0 <= c < |circuits| ==> circuits[c].shared == SharedOf(circuits, c, Ids(circuits[c].stops))
  }

  method ExtractCircuits(changedFiles: seq<string>, deps: seq<Dependency>) returns (circuits: seq<Circuit>)
    ensures IsExtraction(changedFiles, deps, circuits)
  {
    var entries := DetectEntryPoints(deps);
    circuits := KeepChanged(changedFiles, deps, entries);
    ghost var kept := circuits;
    circuits := MarkSharedStops(circuits);
    assert EntryNames(circuits) == EntryNames(kept);
    forall c | 0 <= c < |circuits|
      ensures Justified(deps, changedFiles, circuits[c])
      ensures circuits[c].shared == SharedOf(circuits, c, Ids(circuits[c].stops))
    {
      assert Justified(deps, changedFiles, kept[c]);
      var e :| Detected(deps, e) && IsCircuitOf(deps, changedFiles, kept[c], e);
      assert IsCircuitOf(deps, changedFiles, circuits[c], e);
      SharedOfStopsOnly(kept, circuits, c, Ids(kept[c].stops));
    }
  }

  method KeepChanged(changedFiles: seq<string>, deps: seq<Dependency>, entries: seq<EntryPoint>)
    returns (circuits: seq<Circuit>)
    requires Distinct(Names(entries)) && forall e :: e in entries ==> Detected(deps, e)
    ensures Distinct(EntryNames(circuits)) && StopsDistinct(circuits)
    ensures forall c :: 0 <= c < |circuits| ==> circuits[c].shared == [] && Justified(deps, changedFiles, circuits[c])
    ensures forall n :: n in Names(entries) && ReachesChange(deps, n, changedFiles) ==> n in EntryNames(circuits)
  {
    circuits := [];
    var changedSet := set f | f in changedFiles;
    for i := 0 to |entries|
      invariant Distinct(EntryNames(circuits)) && StopsDistinct(circuits)
      invariant forall n :: n in EntryNames(circuits) ==> n in Names(entries)[..i]
      invariant forall c :: 0 <= c < |circuits| ==>
        circuits[c].shared == [] && Justified(deps, changedFiles, circuits[c])
      invariant forall n :: n in Names(entries)[..i] && ReachesChange(deps, n, changedFiles) ==>
        n in EntryNames(circuits)
    {
      var entry := entries[i];
      assert Names(entries)[..i + 1] == Names(entries)[..i] + [entry.name];
      NotYetListed(Names(entries), i);
      var stops := WalkCircuit(entry, deps, changedSet);
      var hit := HasChangedStop(stops);
      ChangedStopIffReaches(deps, entry, stops, changedFiles);
      if !hit {
        continue;
      }
      PreorderDistinct(Edges(deps), Ids(stops));
      var c := Circuit(entry.kind + ": " + entry.name, entry.name, stops, []);
      assert entry in entries && IsCircuitOf(deps, changedFiles, c, entry);
      assert EntryNames(circuits + [c]) == EntryNames(circuits) + [entry.name];
      circuits := circuits + [c];
    }
    assert Names(entries)[..|entries|] == Names(entries);
  }

  // ----- What a kept circuit says -----

  // The title names the first keyword that the entry's name or package matches.
  ghost predicate IsTitled(deps: seq<Dependency>, c: Circuit) {
    exists pkg, k: nat :: IsLastPackage(deps, c.entryPoint, pkg) && IsTitle(c.title, c.entryPoint, pkg, k)
  }

  ghost predicate IsTitle(title: string, node: string, pkg: string, k: nat) {
    FirstNamed(node, pkg, k) && title == ENTRY_KEYWORDS[k].1 + ": " + node
  }

  // Where circuit c has stops that another circuit has, too.
  ghost function SharedPlaces(circuits: seq<Circuit>, c: nat): set<nat>
    requires c < |circuits|
  {
    set k: nat | k < |circuits[c].stops| && HasStop(circuits, c, circuits[c].stops[k].id)
  }

  // Some circuit other than c stops at this node.
  ghost predicate HasStop(circuits: seq<Circuit>, c: nat, id: string) {
    exists d, k :: 0 <= d < |circuits| && d != c && 0 <= k < |circuits[d].stops| && circuits[d].stops[k].id == id
  }

  lemma ExtractionSays(changed: seq<string>, deps: seq<Dependency>, circuits: seq<Circuit>, c: nat)
    requires IsExtraction(changed, deps, circuits) && c < |circuits|
    ensures IsTitled(deps, circuits[c])
    ensures circuits[c].stops != [] && circuits[c].stops[0].id == circuits[c].entryPoint
    ensures forall s :: s in circuits[c].stops ==> (s.changed <==> s.id in changed) && s.passThrough == !s.changed
    ensures exists s :: s in circuits[c].stops && s.changed
    ensures Picks(circuits[c].shared, Ids(circuits[c].stops), SharedPlaces(circuits, c))
  {
    var stops := circuits[c].stops;
    assert Justified(deps, changed, circuits[c]);
    var e :| Detected(deps, e) && IsCircuitOf(deps, changed, circuits[c], e);
    TitleSays(deps, e, circuits[c]);
    ChangedStopIffReaches(deps, e, stops, changed);
    assert forall k :: 0 <= k < |stops| ==> Describes(stops[k], Elems(changed));
    assert stops[0].id == Ids(stops)[0];
    SharedSays(circuits, c, Ids(stops));
    forall k: nat | k < |stops|
      ensures OnOther(circuits, c, Ids(stops)[k]) <==> HasStop(circuits, c, stops[k].id)
    {
      OnOtherIff(circuits, c, stops[k].id);
    }
    assert OtherPlaces(circuits, c, Ids(stops)) == SharedPlaces(circuits, c);
  }

  lemma TitleSays(deps: seq<Dependency>, e: EntryPoint, c: Circuit)
    requires Detected(deps, e) && c.entryPoint == e.name && c.title == e.kind + ": " + e.name
    ensures IsTitled(deps, c)
  {
    LastPackages(deps);
    var k := KindSays(e.name, e.pkg, e.kind);
    assert IsTitle(c.title, c.entryPoint, e.pkg, k);
  }

  lemma KindSays(node: string, pkg: string, kind: string) returns (k: nat)
    requires IsKind(node, pkg, kind)
    ensures FirstNamed(node, pkg, k) && ENTRY_KEYWORDS[k].1 == kind
  {
    k :| 0 <= k < |ENTRY_KEYWORDS| && ENTRY_KEYWORDS[k].1 == kind && Matches(node, pkg, k)
      && forall j :: 0 <= j < k ==> !Matches(node, pkg, j);
    forall j | 0 <= j < k
      ensures !Named(node, pkg, ENTRY_KEYWORDS[j].0)
    {
      assert !Matches(node, pkg, j);
    }
  }

  lemma OnOtherIff(circuits: seq<Circuit>, c: nat, id: string)
    ensures OnOther(circuits, c, id) <==> HasStop(circuits, c, id)
  {
    if OnOther(circuits, c, id) {
      var d: nat :| d != c && OnCircuit(circuits, d, id);
      var k :| 0 <= k < |Ids(circuits[d].stops)| && Ids(circuits[d].stops)[k] == id;
      assert circuits[d].stops[k].id == id;
    }
    if HasStop(circuits, c, id) {
      var d: nat, k: nat :| d < |circuits| && d != c && k < |circuits[d].stops| && circuits[d].stops[k].id == id;
      assert Ids(circuits[d].stops)[k] == id && OnCircuit(circuits, d, id);
    }
  }

  ghost function OtherPlaces(circuits: seq<Circuit>, c: nat, ids: seq<string>): set<nat> {
    set k: nat | k < |ids| && OnOther(circuits, c, ids[k])
  }

  lemma {:induction false} SharedSays(circuits: seq<Circuit>, c: nat, ids: seq<string>)
    ensures Picks(SharedOf(circuits, c, ids), ids, OtherPlaces(circuits, c, ids))
  {
    if ids == [] {
      PicksNothing<string>([]);
      assert OtherPlaces(circuits, c, ids) == {};
    } else {
      var n := |ids| - 1;
      SharedSays(circuits, c, ids[..n]);
      PicksNext(SharedOf(circuits, c, ids[..n]), ids[..n], OtherPlaces(circuits, c, ids[..n]), ids[n]);
      assert ids == ids[..n] + [ids[n]];
      if OnOther(circuits, c, ids[n]) {
        assert OtherPlaces(circuits, c, ids) == OtherPlaces(circuits, c, ids[..n]) + {n};
      } else {
        assert OtherPlaces(circuits, c, ids) == OtherPlaces(circuits, c, ids[..n]);
      }
    }
  }

  // A source node that matches a keyword, by name or by package, and from which changed
  // code can be reached, has its circuit.
  lemma NoneMissing(changed: seq<string>, deps: seq<Dependency>, circuits: seq<Circuit>, node: string, pkg: string,
      k: nat, x: string) returns (c: nat)
    requires IsExtraction(changed, deps, circuits)
    requires IsLastPackage(deps, node, pkg) && k < |ENTRY_KEYWORDS| && Named(node, pkg, ENTRY_KEYWORDS[k].0)
    requires x in changed && Reach(Edges(deps), node, x)
    ensures c < |circuits| && circuits[c].entryPoint == node
  {
    LastPackages(deps);
    LastPackageIsUnique(deps, node, pkg, PackageOf(deps, node));
    assert Matches(node, pkg, k) && MustKeep(deps, changed, node);
    c :| 0 <= c < |circuits| && EntryNames(circuits)[c] == node;
  }

  lemma LastPackageIsUnique(deps: seq<Dependency>, node: string, a: string, b: string)
    requires IsLastPackage(deps, node, a) && IsLastPackage(deps, node, b)
    ensures a == b
  {
    var i: nat :| IsLast(deps, node, i) && deps[i].pkg == a;
    var j: nat :| IsLast(deps, node, j) && deps[j].pkg == b;
  }

  // ----- The result is determined up to its order -----

  lemma SplitIsUnique(node: string, p: string, n: string, q: string, m: string)
    requires IsSplit(node, p, n) && IsSplit(node, q, m)
    ensures p == q && n == m
  {
    if '.' in node {
      ShorterSplit(node, p, n, q, m);
      ShorterSplit(node, q, m, p, n);
      assert p == node[..|p|] && q == node[..|q|];
      assert n == node[|p| + 1..] && m == node[|q| + 1..];
    }
  }

  lemma ShorterSplit(node: string, p: string, n: string, q: string, m: string)
    requires node == p + "." + n == q + "." + m && '.' !in m
    ensures |p| <= |q|
  {
    assert node[|p|] == '.';
    forall k | |q| < k < |node|
      ensures node[k] != '.'
    {
      assert node[k] == m[k - |q| - 1];
    }
  }

  lemma StopsAreUnique(a: seq<Stop>, b: seq<Stop>, changedSet: set<string>)
    requires Ids(a) == Ids(b) && AllDescribe(a, changedSet) && AllDescribe(b, changedSet)
    ensures a == b
  {
    assert |a| == |Ids(a)| == |Ids(b)| == |b|;
    forall k | 0 <= k < |a|
      ensures a[k] == b[k]
    {
      assert a[k].id == Ids(a)[k] == Ids(b)[k] == b[k].id;
      assert Describes(a[k], changedSet) && Describes(b[k], changedSet);
      SplitIsUnique(a[k].id, a[k].pkg, a[k].name, b[k].pkg, b[k].name);
    }
  }

  ghost predicate SameButShared(c: Circuit, d: Circuit) {
    c == d.(shared := c.shared)
  }

  lemma CircuitIsUnique(deps: seq<Dependency>, changed: seq<string>, c: Circuit, d: Circuit)
    requires Justified(deps, changed, c) && Justified(deps, changed, d) && c.entryPoint == d.entryPoint
    ensures SameButShared(c, d)
  {
    var e :| Detected(deps, e) && IsCircuitOf(deps, changed, c, e);
    var f :| Detected(deps, f) && IsCircuitOf(deps, changed, d, f);
    KindIsUnique(e.name, e.pkg, e.kind, f.kind);
    WalkIsUnique(Edges(deps), e.name, Ids(c.stops), Ids(d.stops));
    StopsAreUnique(c.stops, d.stops, Elems(changed));
  }

  lemma KindIsUnique(node: string, pkg: string, a: string, b: string)
    requires IsKind(node, pkg, a) && IsKind(node, pkg, b)
    ensures a == b
  {
    var i :| 0 <= i < |ENTRY_KEYWORDS| && ENTRY_KEYWORDS[i].1 == a && Matches(node, pkg, i)
      && forall h :: 0 <= h < i ==> !Matches(node, pkg, h);
    var j :| 0 <= j < |ENTRY_KEYWORDS| && ENTRY_KEYWORDS[j].1 == b && Matches(node, pkg, j)
      && forall h :: 0 <= h < j ==> !Matches(node, pkg, h);
    assert i == j;
  }

  lemma Counterpart(changed: seq<string>, deps: seq<Dependency>, a: seq<Circuit>, b: seq<Circuit>, c: nat)
    returns (d: nat)
    requires IsExtraction(changed, deps, a) && IsExtraction(changed, deps, b) && c < |a|
    ensures d < |b| && SameButShared(a[c], b[d])
  {
    assert Justified(deps, changed, a[c]);
    var e :| Detected(deps, e) && IsCircuitOf(deps, changed, a[c], e);
    assert MustKeep(deps, changed, e.name);
    d :| 0 <= d < |b| && EntryNames(b)[d] == e.name;
    CircuitIsUnique(deps, changed, a[c], b[d]);
  }

  lemma SameOthers(changed: seq<string>, deps: seq<Dependency>, a: seq<Circuit>, b: seq<Circuit>, c: nat, d: nat,
      id: string)
    requires IsExtraction(changed, deps, a) && IsExtraction(changed, deps, b)
    requires c < |a| && d < |b| && a[c].entryPoint == b[d].entryPoint && OnOther(a, c, id)
    ensures OnOther(b, d, id)
  {
    var x :| x != c && OnCircuit(a, x, id);
    var y := Counterpart(changed, deps, a, b, x);
    OtherMatches(a, b, c, d, x, y, id);
  }

  lemma OtherMatches(a: seq<Circuit>, b: seq<Circuit>, c: nat, d: nat, x: nat, y: nat, id: string)
    requires Distinct(EntryNames(a)) && c < |a| && x < |a| && x != c && OnCircuit(a, x, id)
    requires d < |b| && y < |b| && a[c].entryPoint == b[d].entryPoint && SameButShared(a[x], b[y])
    ensures OnOther(b, d, id)
  {
    assert EntryNames(a)[x] != EntryNames(a)[c];
    assert y != d && OnCircuit(b, y, id);
  }

  lemma {:induction false} SameShared(changed: seq<string>, deps: seq<Dependency>, a: seq<Circuit>, b: seq<Circuit>,
                                      c: nat, d: nat, ids: seq<string>)
    requires IsExtraction(changed, deps, a) && IsExtraction(changed, deps, b)
    requires c < |a| && d < |b| && a[c].entryPoint == b[d].entryPoint
    ensures SharedOf(a, c, ids) == SharedOf(b, d, ids)
  {
    if ids != [] {
      var n := |ids| - 1;
      SameShared(changed, deps, a, b, c, d, ids[..n]);
      if OnOther(a, c, ids[n]) {
        SameOthers(changed, deps, a, b, c, d, ids[n]);
      } else if OnOther(b, d, ids[n]) {
        SameOthers(changed, deps, b, a, d, c, ids[n]);
      }
    }
  }

  lemma SameCircuits(changed: seq<string>, deps: seq<Dependency>, a: seq<Circuit>, b: seq<Circuit>, x: Circuit)
    requires IsExtraction(changed, deps, a) && IsExtraction(changed, deps, b) && x in a
    ensures x in b
  {
    var c :| 0 <= c < |a| && a[c] == x;
    var d := Counterpart(changed, deps, a, b, c);
    SameShared(changed, deps, a, b, c, d, Ids(x.stops));
    assert b[d].shared == SharedOf(b, d, Ids(b[d].stops));
  }

  lemma DistinctByEntry(circuits: seq<Circuit>)
    requires Distinct(EntryNames(circuits))
    ensures Distinct(circuits)
  {
    forall i, j | 0 <= i < j < |circuits|
      ensures circuits[i] != circuits[j]
    {
      assert EntryNames(circuits)[i] != EntryNames(circuits)[j];
    }
  }

  // Two results for the same input hold the same circuits, each as often.
  lemma ExtractionIsUnique(changed: seq<string>, deps: seq<Dependency>, a: seq<Circuit>, b: seq<Circuit>)
    requires IsExtraction(changed, deps, a) && IsExtraction(changed, deps, b)
    ensures multiset(a) == multiset(b)
  {
    DistinctByEntry(a);
    DistinctByEntry(b);
    forall x
      ensures multiset(a)[x] == multiset(b)[x]
    {
      if x in a {
        SameCircuits(changed, deps, a, b, x);
        DistinctCount(a, x);
        DistinctCount(b, x);
      } else if x in b {
        SameCircuits(changed, deps, b, a, x);
      }
    }
  }
}
