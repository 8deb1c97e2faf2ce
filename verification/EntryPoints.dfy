// Entry point detection (review/circuit.go).
module EntryPoints {
  import opened Sorting
  import opened Circuits

  // Here a string is a sequence of code points. The letters whose lower case is ASCII
  // are the ASCII capitals, the Kelvin sign and the capital I with a dot above. What
  // other letters become is not ASCII, and so neither in a keyword nor alphanumeric.
  function LowerChar(c: char): char {
    if 'A' <= c <= 'Z' then c - 'A' + 'a'
    else if c == '\U{212A}' then 'k'
    else if c == '\U{130}' then 'i'
    else c
  }

  function ToLower(s: string): (r: string)
    ensures |r| == |s| && forall i :: 0 <= i < |s| ==> r[i] == LowerChar(s[i])
    ensures forall i :: 0 <= i < |s| && 'A' <= s[i] <= 'Z' ==> r[i] as int == s[i] as int + 32
    ensures forall i :: 0 <= i < |s| && s[i] == '\U{212A}' ==> r[i] == 'k'
    ensures forall i :: 0 <= i < |s| && s[i] == '\U{130}' ==> r[i] == 'i'
    ensures forall i :: 0 <= i < |s| && !('A' <= s[i] <= 'Z') && s[i] !in ['\U{212A}', '\U{130}'] ==> r[i] == s[i]
  {
    if s == [] then [] else [LowerChar(s[0])] + ToLower(s[1..])
  }

  predicate OccursAt(s: string, w: string, i: nat) {
    i + |w| <= |s| && s[i..i + |w|] == w
  }

  // The first occurrence at or after i, or -1.
  function IndexFrom(s: string, w: string, i: nat): (r: int)
    requires i <= |s|
    ensures r == -1 ==> forall k :: i <= k ==> !OccursAt(s, w, k)
    ensures r != -1 ==> i <= r && OccursAt(s, w, r) && forall k :: i <= k < r ==> !OccursAt(s, w, k)
    decreases |s| - i
  {
    if OccursAt(s, w, i) then i
    else if i == |s| then -1
    else IndexFrom(s, w, i + 1)
  }

  predicate IsAlphaNum(c: char) {
    'a' <= c <= 'z' || 'A' <= c <= 'Z' || '0' <= c <= '9'
  }

  // The characters around s[i..j] do not continue a word.
  predicate Bounded(s: string, i: nat, j: nat)
    requires i <= j <= |s|
  {
    (i > 0 ==> !IsAlphaNum(s[i - 1])) && (j < |s| ==> !IsAlphaNum(s[j]))
  }

  predicate MatchesEntryKeyword(name: string, keyword: string) {
    FirstOccurrenceBounded(ToLower(name), keyword)
  }

  predicate FirstOccurrenceBounded(s: string, keyword: string) {
    var idx := IndexFrom(s, keyword, 0);
    idx >= 0 && Bounded(s, idx, idx + |keyword|)
  }

  ghost predicate WordAt(s: string, w: string, i: nat) {
    OccursAt(s, w, i) && Bounded(s, i, i + |w|)
  }

  // The first occurrence of w, at i, is a whole word.
  ghost predicate FirstIsWord(s: string, w: string, i: nat) {
    WordAt(s, w, i) && forall k: nat :: k < i ==> !OccursAt(s, w, k)
  }

  // A match is a whole word, and it is found exactly when no earlier occurrence
  // inside a longer word hides it.
  lemma BoundedIffFirstIsWord(s: string, keyword: string)
    ensures FirstOccurrenceBounded(s, keyword) <==> exists i: nat :: FirstIsWord(s, keyword, i)
  {
    var idx := IndexFrom(s, keyword, 0);
    if FirstOccurrenceBounded(s, keyword) {
      assert FirstIsWord(s, keyword, idx);
    }
    if i: nat :| FirstIsWord(s, keyword, i) {
      assert OccursAt(s, keyword, i);
      assert idx != -1 && !(idx < i) && !(i < idx);
    }
  }

  ghost predicate HasAt(s: string, keyword: string, i: nat) {
    i + |keyword| <= |s| && s[i..i + |keyword|] == keyword
  }

  // The keyword is at i, as a whole word: no letter or digit is next to it.
  ghost predicate WholeWordAt(s: string, keyword: string, i: nat) {
    var j := i + |keyword|;
    && HasAt(s, keyword, i)
    && (i > 0 ==> var c := s[i - 1]; !('a' <= c <= 'z') && !('A' <= c <= 'Z') && !('0' <= c <= '9'))
    && (j < |s| ==> var c := s[j]; !('a' <= c <= 'z') && !('A' <= c <= 'Z') && !('0' <= c <= '9'))
  }

  ghost predicate FirstWhole(s: string, keyword: string, i: nat) {
    WholeWordAt(s, keyword, i) && forall k: nat :: k < i ==> !HasAt(s, keyword, k)
  }

  // A name matches exactly if the keyword is in its lower case, and a whole word there
  // where it occurs first.
  lemma {:induction false} MatchIff(name: string, keyword: string) returns (s: string)
    ensures s == ToLower(name)
    ensures MatchesEntryKeyword(name, keyword) <==> exists i: nat :: FirstWhole(s, keyword, i)
  {
    s := ToLower(name);
    BoundedIffFirstWhole(s, keyword);
  }

  lemma {:induction false} BoundedIffFirstWhole(s: string, keyword: string)
    ensures FirstOccurrenceBounded(s, keyword) <==> exists i: nat :: FirstWhole(s, keyword, i)
  {
    BoundedIffFirstIsWord(s, keyword);
    forall i: nat
      ensures FirstIsWord(s, keyword, i) <==> FirstWhole(s, keyword, i)
    {
      FirstIsWhole(s, keyword, i);
    }
  }

  lemma WordIsWhole(s: string, keyword: string, i: nat)
    ensures WordAt(s, keyword, i) <==> WholeWordAt(s, keyword, i)
  {
  }

  lemma FirstIsWhole(s: string, keyword: string, i: nat)
    ensures FirstIsWord(s, keyword, i) <==> FirstWhole(s, keyword, i)
  {
    WordIsWhole(s, keyword, i);
    forall k: nat
      ensures OccursAt(s, keyword, k) <==> HasAt(s, keyword, k)
    {
    }
  }

  // w occurs first at i, where it is no whole word, and again at j, where it is one.
  ghost predicate Hides(s: string, w: string, i: nat, j: nat) {
    && OccursAt(s, w, i) && !Bounded(s, i, i + |w|) && (forall k: nat :: k < i ==> !OccursAt(s, w, k))
    && i < j && WordAt(s, w, j)
  }

  // A whole word is missed exactly if the first occurrence is no whole word and a later one is.
  lemma HiddenIff(s: string, keyword: string)
    ensures (exists j: nat :: WordAt(s, keyword, j)) && !FirstOccurrenceBounded(s, keyword) <==>
            exists i: nat, j: nat :: Hides(s, keyword, i, j)
  {
    var idx := IndexFrom(s, keyword, 0);
    if j: nat :| WordAt(s, keyword, j) && !FirstOccurrenceBounded(s, keyword) {
      HidesFirst(s, keyword, j);
      assert Hides(s, keyword, idx, j);
    }
    if i: nat, j: nat :| Hides(s, keyword, i, j) {
      HiddenIsMissed(s, keyword, i, j);
      assert WordAt(s, keyword, j);
    }
  }

  lemma {:induction false} HidesFirst(s: string, w: string, j: nat)
    requires WordAt(s, w, j) && !FirstOccurrenceBounded(s, w)
    ensures IndexFrom(s, w, 0) >= 0 && Hides(s, w, IndexFrom(s, w, 0), j)
  {
    assert OccursAt(s, w, j);
  }

  lemma HiddenIsMissed(s: string, w: string, i: nat, j: nat)
    requires Hides(s, w, i, j)
    ensures !FirstOccurrenceBounded(s, w)
  {
    var idx := IndexFrom(s, w, 0);
    assert OccursAt(s, w, i) && idx != -1 && !(idx < i) && !(i < idx);
  }

  // So of a keyword and a name with that word.
  lemma {:induction false} WordMissedIff(name: string, keyword: string)
    ensures (exists j: nat :: WordAt(ToLower(name), keyword, j)) && !MatchesEntryKeyword(name, keyword) <==>
            exists i: nat, j: nat :: Hides(ToLower(name), keyword, i, j)
    ensures MatchesEntryKeyword(name, keyword) ==> exists j: nat :: WordAt(ToLower(name), keyword, j)
  {
    HiddenIff(ToLower(name), keyword);
    BoundedIffFirstIsWord(ToLower(name), keyword);
  }

  // So a later whole word can be missed, although it has the word boundaries.
  lemma HiddenWord()
    ensures WordAt(ToLower("rapi.api"), "api", 5) && !MatchesEntryKeyword("rapi.api", "api")
  {
    LowerFixed("rapi.api");
    FirstIsInside("rapi.api");
  }

  lemma FirstIsInside(s: string)
    requires s == "rapi.api"
    ensures WordAt(s, "api", 5) && !FirstOccurrenceBounded(s, "api")
  {
    assert s[5..8] == "api";
    assert s[0..3][0] == 'r' && "api"[0] == 'a';
    assert s[1..4] == "api";
    assert !OccursAt(s, "api", 0) && OccursAt(s, "api", 1);
    assert IndexFrom(s, "api", 0) == 1;
  }

  lemma {:induction false} LowerFixed(s: string)
    requires forall c :: c in s ==> LowerChar(c) == c
    ensures ToLower(s) == s
  {
    if s != [] {
      assert s[0] in s && forall c :: c in s[1..] ==> c in s;
      LowerFixed(s[1..]);
    }
  }

  // ----- Detection -----

  datatype Kind = NoKind | Kind(kind: string)

  // The keyword table, in order.
  const ENTRY_KEYWORDS: seq<(string, string)> := [
    ("handler", "handler"), ("server", "server"), ("cmd", "cmd"), ("main", "main"), ("worker", "worker"),
    ("listener", "listener"), ("grpc", "handler"), ("http", "handler"), ("api", "handler")
  ]

  // A keyword is its own kind, and the protocols are kinds of handlers.
  lemma KeywordKinds(k: nat)
    requires k < |ENTRY_KEYWORDS|
    ensures ENTRY_KEYWORDS[k].1 == if k < 6 then ENTRY_KEYWORDS[k].0 else "handler"
    ensures ENTRY_KEYWORDS[k].0 ==
      ["handler", "server", "cmd", "main", "worker", "listener", "grpc", "http", "api"][k]
  {
  }

  predicate Matches(node: string, pkg: string, k: nat)
    requires k < |ENTRY_KEYWORDS|
  {
    MatchesEntryKeyword(node, ENTRY_KEYWORDS[k].0) || MatchesEntryKeyword(pkg, ENTRY_KEYWORDS[k].0)
  }

  // The kind of the first keyword that the node or its package matches.
  ghost predicate IsKind(node: string, pkg: string, kind: string) {
    exists k :: 0 <= k < |ENTRY_KEYWORDS| && ENTRY_KEYWORDS[k].1 == kind && Matches(node, pkg, k)
      && forall j :: 0 <= j < k ==> !Matches(node, pkg, j)
  }

  ghost predicate IsEntry(node: string, pkg: string) {
    exists k :: 0 <= k < |ENTRY_KEYWORDS| && Matches(node, pkg, k)
  }

  // The node or its package matches the keyword.
  ghost predicate Named(node: string, pkg: string, keyword: string) {
    MatchesEntryKeyword(node, keyword) || MatchesEntryKeyword(pkg, keyword)
  }

  ghost predicate FirstNamed(node: string, pkg: string, k: nat) {
    && k < |ENTRY_KEYWORDS| && Named(node, pkg, ENTRY_KEYWORDS[k].0)
    && forall j :: 0 <= j < k ==> !Named(node, pkg, ENTRY_KEYWORDS[j].0)
  }

  method FirstKind(node: string, pkg: string) returns (r: Kind)
    ensures r.Kind? <==> IsEntry(node, pkg)
    ensures r.Kind? ==> IsKind(node, pkg, r.kind)
    ensures r.NoKind? ==> forall k :: 0 <= k < |ENTRY_KEYWORDS| ==> !Named(node, pkg, ENTRY_KEYWORDS[k].0)
    ensures r.Kind? ==> exists k: nat :: FirstNamed(node, pkg, k) && r.kind == ENTRY_KEYWORDS[k].1
  {
    for k := 0 to |ENTRY_KEYWORDS|
      invariant forall j :: 0 <= j < k ==> !Matches(node, pkg, j) && !Named(node, pkg, ENTRY_KEYWORDS[j].0)
    {
      if Matches(node, pkg, k) {
        assert FirstNamed(node, pkg, k);
        return Kind(ENTRY_KEYWORDS[k].1);
      }
    }
    return NoKind;
  }

  // The package of a source node: that of its last dependency.
  ghost function PackageOf(deps: seq<Dependency>, node: string): string {
    if deps == [] then "" else
      var n := |deps| - 1;
      if deps[n].from == node then deps[n].pkg else PackageOf(deps[..n], node)
  }

  // The i-th dependency is the last one from this node.
  ghost predicate IsLast(deps: seq<Dependency>, node: string, i: nat) {
    i < |deps| && deps[i].from == node && forall j :: i < j < |deps| ==> deps[j].from != node
  }

  ghost predicate IsLastPackage(deps: seq<Dependency>, node: string, pkg: string) {
    exists i: nat :: IsLast(deps, node, i) && deps[i].pkg == pkg
  }

  lemma {:induction false} LastPackages(deps: seq<Dependency>)
    ensures forall n :: n in Sources(deps) <==> exists i :: 0 <= i < |deps| && deps[i].from == n
    ensures forall n :: n in Sources(deps) ==> IsLastPackage(deps, n, PackageOf(deps, n))
  {
    forall n
      ensures n in Sources(deps) <==> exists i :: 0 <= i < |deps| && deps[i].from == n
    {
    }
    forall n | n in Sources(deps)
      ensures IsLastPackage(deps, n, PackageOf(deps, n))
    {
      LastPackage(deps, n);
    }
  }

  lemma {:induction false} LastPackage(deps: seq<Dependency>, n: string)
    requires exists i :: 0 <= i < |deps| && deps[i].from == n
    ensures IsLastPackage(deps, n, PackageOf(deps, n))
  {
    var last := |deps| - 1;
    if deps[last].from == n {
      assert IsLast(deps, n, last);
    } else {
      LastPackage(deps[..last], n);
      var i: nat :| IsLast(deps[..last], n, i) && deps[..last][i].pkg == PackageOf(deps[..last], n);
      LastStays(deps, n, i);
    }
  }

  lemma LastStays(deps: seq<Dependency>, n: string, i: nat)
    requires |deps| > 0 && IsLast(deps[..|deps| - 1], n, i) && deps[|deps| - 1].from != n
    ensures IsLast(deps, n, i) && deps[i] == deps[..|deps| - 1][i]
  {
    forall j | i < j < |deps|
      ensures deps[j].from != n
    {
      if j < |deps| - 1 {
        assert deps[j] == deps[..|deps| - 1][j];
      }
    }
  }

  ghost function Sources(deps: seq<Dependency>): set<string> {
    set d | d in deps :: d.from
  }

  ghost predicate Detected(deps: seq<Dependency>, e: EntryPoint) {
    && e.name in Sources(deps) && e.pkg == PackageOf(deps, e.name)
    && IsKind(e.name, e.pkg, e.kind)
  }

  method FromNodes(deps: seq<Dependency>) returns (m: map<string, string>)
    ensures m.Keys == Sources(deps) && forall n :: n in m ==> m[n] == PackageOf(deps, n)
    ensures forall n :: n in m <==> exists i :: 0 <= i < |deps| && deps[i].from == n
    ensures forall n :: n in m ==> IsLastPackage(deps, n, m[n])
  {
    LastPackages(deps);
    m := map[];
    for i := 0 to |deps|
      invariant m.Keys == Sources(deps[..i]) && forall n :: n in m ==> m[n] == PackageOf(deps[..i], n)
    {
      assert deps[..i + 1] == deps[..i] + [deps[i]] && deps[..i + 1][..i] == deps[..i];
      m := m[deps[i].from := deps[i].pkg];
    }
    assert deps[..|deps|] == deps;
  }

  ghost function Names(entries: seq<EntryPoint>): seq<string> {
    seq(|entries|, k requires 0 <= k < |entries| => entries[k].name)
  }

  // Every source node that matches is detected once, in no particular order.
  method DetectEntryPoints(deps: seq<Dependency>) returns (entries: seq<EntryPoint>)
    ensures Distinct(Names(entries))
    ensures forall e :: e in entries ==> Detected(deps, e)
    ensures forall n :: n in Sources(deps) && IsEntry(n, PackageOf(deps, n)) ==> n in Names(entries)
  {
    var fromNodes := FromNodes(deps);
    entries := [];
    var rest := fromNodes.Keys;
    while rest != {}
      invariant rest <= fromNodes.Keys
      invariant Distinct(Names(entries)) && forall e :: e in entries ==> Detected(deps, e) && e.name !in rest
      invariant forall n :: n in fromNodes.Keys - rest && IsEntry(n, PackageOf(deps, n)) ==> n in Names(entries)
    {
      var node :| node in rest;
      rest := rest - {node};
      var kind := FirstKind(node, fromNodes[node]);
      if kind.Kind? {
        var e := EntryPoint(node, fromNodes[node], kind.kind);
        assert forall k :: 0 <= k < |entries| ==> entries[k] in entries;
        assert Names(entries + [e]) == Names(entries) + [node];
        entries := entries + [e];
      }
    }
  }
}
