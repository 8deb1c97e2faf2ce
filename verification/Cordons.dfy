// Path scopes and cordons (broker/cordon.go).
module Cordons {
  import opened Selections

  function WithSlash(a: string): string {
    if |a| > 0 && a[|a| - 1] == '/' then a else a + "/"
  }

  // a names b or a directory above it.
  predicate PathPrefix(a: string, b: string) {
    a == b || WithSlash(a) <= b
  }

  // The boundary is a directory's: a is b, or b goes on after a slash that a ends with or
  // that comes right after a.
  lemma PathPrefixIff(a: string, b: string)
    ensures PathPrefix(a, b) <==>
      a == b || (a <= b && |a| < |b| && (b[|a|] == '/' || (a != "" && a[|a| - 1] == '/')))
  {
    if WithSlash(a) != a && WithSlash(a) <= b {
      assert b[|a|] == WithSlash(a)[|a|];
    }
  }

  // So "auth" covers what is in that directory, and not what merely starts with its name.
  lemma PrefixIsDirectory()
    ensures PathPrefix("auth", "auth/login.go") && !PathPrefix("auth", "authz") && !PathPrefix("au", "auth/login.go")
  {
    PathPrefixIff("auth", "auth/login.go");
    PathPrefixIff("auth", "authz");
    PathPrefixIff("au", "auth/login.go");
  }

  predicate PathsOverlap(a: seq<string>, b: seq<string>) {
    exists pa, pb :: pa in a && pb in b && (PathPrefix(pa, pb) || PathPrefix(pb, pa))
  }

  // Some scope in the list reaches the path.
  ghost predicate Covers(scopes: seq<string>, path: string) {
    exists s :: s in scopes && PathPrefix(s, path)
  }

  // Of two scopes that cover the same path, one is a directory prefix of the other.
  lemma CommonPathMeansPrefix(a: string, b: string, path: string)
    requires PathPrefix(a, path) && PathPrefix(b, path)
    ensures PathPrefix(a, b) || PathPrefix(b, a)
  {
    if a != path && b != path {
      var sa, sb := WithSlash(a), WithSlash(b);
      if |sa| <= |sb| {
        ShorterSlashed(a, b, path);
      } else {
        ShorterSlashed(b, a, path);
      }
    }
  }

  lemma ShorterSlashed(a: string, b: string, path: string)
    requires WithSlash(a) <= path && WithSlash(b) <= path && |WithSlash(a)| <= |WithSlash(b)|
    ensures PathPrefix(a, b) || PathPrefix(b, a)
  {
    var sa, sb := WithSlash(a), WithSlash(b);
    assert sa == path[..|sa|] && sb == path[..|sb|];
    assert sa <= sb;
    if |sa| <= |b| {
      assert b == sb[..|b|];
      assert sa <= b;
    } else {
      assert |sa| == |sb| && sa == sb;
      assert a == sa[..|a|] && b == sb[..|b|];
    }
  }

  // Being a directory prefix is transitive.
  lemma PathPrefixTrans(a: string, b: string, c: string)
    requires PathPrefix(a, b) && PathPrefix(b, c)
    ensures PathPrefix(a, c)
  {
  }

  // Two scope lists overlap exactly when they cover a common path.
  lemma OverlapIffCommonPath(a: seq<string>, b: seq<string>)
    ensures PathsOverlap(a, b) <==> exists p :: Covers(a, p) && Covers(b, p)
  {
    if PathsOverlap(a, b) {
      var pa, pb :| pa in a && pb in b && (PathPrefix(pa, pb) || PathPrefix(pb, pa));
      var p := if PathPrefix(pa, pb) then pb else pa;
      assert PathPrefix(pa, p) && PathPrefix(pb, p);
      assert Covers(a, p) && Covers(b, p);
    }
    if p :| Covers(a, p) && Covers(b, p) {
      var pa :| pa in a && PathPrefix(pa, p);
      var pb :| pb in b && PathPrefix(pb, p);
      CommonPathMeansPrefix(pa, pb, p);
    }
  }

  // Some path is covered by both.
  ghost predicate ShareAPath(a: seq<string>, b: seq<string>) {
    exists p :: Covers(a, p) && Covers(b, p)
  }

  // ----- The registry -----

  datatype Cordon = Cordon(scope: seq<string>, reason: string, source: string, cleared: bool)

  // The cordons in force whose scope covers a path that `paths` covers too, in order.
  ghost function InForce(cordons: seq<Cordon>, paths: seq<string>): seq<Cordon> {
    if cordons == [] then [] else
      var c := cordons[|cordons| - 1];
      InForce(cordons[..|cordons| - 1], paths) + if !c.cleared && PathsOverlap(c.scope, paths) then [c] else []
  }

  ghost predicate IsCleared(before: Cordon, after: Cordon, scope: seq<string>) {
    after == before.(cleared := before.cleared || PathsOverlap(before.scope, scope))
  }

  class CordonRegistry {
    var cordons: seq<Cordon>

    constructor ()
      ensures cordons == []
    {
      cordons := [];
    }

    method Set(scope: seq<string>, reason: string, source: string)
      modifies this
      ensures cordons == old(cordons) + [Cordon(scope, reason, source, false)]
    {
      cordons := cordons + [Cordon(scope, reason, source, false)];
    }

    method Clear(scope: seq<string>)
      modifies this
      ensures |cordons| == |old(cordons)|
      ensures forall i :: 0 <= i < |cordons| ==> IsCleared(old(cordons)[i], cordons[i], scope)
      ensures forall i :: 0 <= i < |cordons| ==>
        && cordons[i] == old(cordons)[i].(cleared := cordons[i].cleared)
        && (cordons[i].cleared <==> old(cordons)[i].cleared || ShareAPath(old(cordons)[i].scope, scope))
    {
      forall c: Cordon
        ensures PathsOverlap(c.scope, scope) <==> ShareAPath(c.scope, scope)
      {
        OverlapIffCommonPath(c.scope, scope);
      }
      for i := 0 to |cordons|
        invariant |cordons| == |old(cordons)|
        invariant forall k :: 0 <= k < i ==> IsCleared(old(cordons)[k], cordons[k], scope)
        invariant forall k :: i <= k < |cordons| ==> cordons[k] == old(cordons)[k]
      {
        if !cordons[i].cleared && PathsOverlap(cordons[i].scope, scope) {
          cordons := cordons[i := cordons[i].(cleared := true)];
        }
      }
    }

    method Overlaps(paths: seq<string>) returns (out: seq<Cordon>)
      ensures out == InForce(cordons, paths)
      ensures Picks(out, cordons, InForcePlaces(cordons, paths))
    {
      InForceSays(cordons, paths);
      out := [];
      for i := 0 to |cordons|
        invariant out == InForce(cordons[..i], paths)
      {
        assert cordons[..i + 1][..i] == cordons[..i];
        if !cordons[i].cleared && PathsOverlap(cordons[i].scope, paths) {
          out := out + [cordons[i]];
        }
      }
      assert cordons[..|cordons|] == cordons;
    }
  }

  // Where the cordons are that are not cleared and share a path with these.
  ghost function InForcePlaces(cordons: seq<Cordon>, paths: seq<string>): set<nat> {
    set i: nat | i < |cordons| && !cordons[i].cleared && ShareAPath(cordons[i].scope, paths)
  }

  lemma {:induction false} InForceSays(cordons: seq<Cordon>, paths: seq<string>)
    ensures Picks(InForce(cordons, paths), cordons, InForcePlaces(cordons, paths))
  {
    if cordons == [] {
      PicksNothing<Cordon>([]);
      assert InForcePlaces(cordons, paths) == {};
    } else {
      var n := |cordons| - 1;
      InForceSays(cordons[..n], paths);
      OverlapIffCommonPath(cordons[n].scope, paths);
      PicksNext(InForce(cordons[..n], paths), cordons[..n], InForcePlaces(cordons[..n], paths), cordons[n]);
      assert cordons == cordons[..n] + [cordons[n]];
      if !cordons[n].cleared && ShareAPath(cordons[n].scope, paths) {
        assert InForcePlaces(cordons, paths) == InForcePlaces(cordons[..n], paths) + {n};
      } else {
        assert InForcePlaces(cordons, paths) == InForcePlaces(cordons[..n], paths);
      }
    }
  }

  lemma {:induction false} InForceIff(cordons: seq<Cordon>, paths: seq<string>, c: Cordon)
    ensures c in InForce(cordons, paths) <==>
      c in cordons && !c.cleared && exists p :: Covers(c.scope, p) && Covers(paths, p)
  {
    if cordons != [] {
      var n := |cordons| - 1;
      assert cordons == cordons[..n] + [cordons[n]];
      InForceIff(cordons[..n], paths, c);
      OverlapIffCommonPath(cordons[n].scope, paths);
    }
  }

  // Of a cleared scope and everything below it, no cordon in force covers any path.
  lemma {:induction false} ClearedBelowIsFree(before: seq<Cordon>, after: seq<Cordon>, scope: seq<string>,
      paths: seq<string>)
    requires |after| == |before| && forall k :: 0 <= k < |before| ==> IsCleared(before[k], after[k], scope)
    requires forall p :: p in paths ==> Covers(scope, p)
    ensures InForce(after, paths) == []
  {
    if InForce(after, paths) != [] {
      var c := InForce(after, paths)[0];
      InForceIff(after, paths, c);
      var k :| 0 <= k < |after| && after[k] == c;
      assert IsCleared(before[k], after[k], scope);
      var p :| Covers(c.scope, p) && Covers(paths, p);
      var q :| q in paths && PathPrefix(q, p);
      var s :| s in scope && PathPrefix(s, q);
      PathPrefixTrans(s, q, p);
      OverlapIffCommonPath(c.scope, scope);

    }
  }

  // Once a scope is cleared, no cordon in force covers any path that it covers,
  // and the cordons that covered none of them stay in force.
  lemma {:induction false} ClearedScopeIsFree(before: seq<Cordon>, after: seq<Cordon>, scope: seq<string>, i: nat)
    requires |after| == |before| && forall k :: 0 <= k < |before| ==> IsCleared(before[k], after[k], scope)
    requires i < |before|
    ensures InForce(after, scope) == []
    ensures (forall p :: Covers(before[i].scope, p) ==> !Covers(scope, p)) ==> after[i] == before[i]
  {
    assert forall p :: p in scope ==> PathPrefix(p, p);
    ClearedBelowIsFree(before, after, scope, scope);
    assert IsCleared(before[i], after[i], scope);
    OverlapIffCommonPath(before[i].scope, scope);
  }
}
