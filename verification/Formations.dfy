// Formations: scope disjointness, budget division and instantiation
// (broker/unit.go, broker/disjoint.go, broker/formation.go, broker/instantiate.go).
module Formations {
  import opened Wrappers
  import opened Arithmetic
  import opened Cordons

  const ROLE_OBSERVER := "observer"
  const SCOPE_VAR := "${task.scope}"

  datatype Budget = Budget(tokens: int, wallClock: int) {
    predicate IsZero() {
      tokens == 0 && wallClock == 0
    }
  }

  datatype Termination = Termination(kind: string, target: string)

  datatype Unit = Unit(role: string, ro: seq<string>, rw: seq<string>, budget: Budget, terminatesWhen: Termination,
                       env: map<string, string>)
  {
    predicate IsObserver() {
      role == ROLE_OBSERVER
    }
  }

  datatype Edge = Edge(from: int, to: int, channel: string)

  datatype Error =
    | NoFormationName
    | EmptyFormation
    | EmptyRole(unit: nat)
    | InvalidEdgeIndex(edge: nat)
    | OverlappingScopes(first: nat, second: nat)

  datatype Result<T> = Ok(value: T) | Err(error: Error)

  // ----- Disjointness -----

  predicate Clash(units: seq<Unit>, i: nat, j: nat)
    requires i < |units| && j < |units|
  {
    !units[i].IsObserver() && !units[j].IsObserver() && PathsOverlap(units[i].rw, units[j].rw)
  }

  // No path is covered by the RW scopes of two different non-observer units.
  ghost predicate NoPathShared(units: seq<Unit>) {
    forall i, j, p :: 0 <= i < j < |units| && !units[i].IsObserver() && !units[j].IsObserver() && Covers(units[i].rw, p)
      ==> !Covers(units[j].rw, p)
  }

  // The first clash in the order of the double search.
  ghost predicate FirstClash(units: seq<Unit>, i: nat, j: nat) {
    && i < j < |units| && Clash(units, i, j)
    && forall a, b :: 0 <= a < b < |units| && (a < i || (a == i && b < j)) ==> !Clash(units, a, b)
  }

  method ValidateScopeDisjointness(units: seq<Unit>) returns (r: Option<Error>)
    ensures r.None? <==> NoPathShared(units)
    ensures r.Some? ==> r.value.OverlappingScopes? && FirstClash(units, r.value.first, r.value.second)
  {
    for i := 0 to |units|
      invariant forall a, b :: 0 <= a < i && a < b < |units| ==> !Clash(units, a, b)
    {
      if units[i].IsObserver() {
        continue;
      }
      for j := i + 1 to |units|
        invariant forall b :: i < b < j ==> !Clash(units, i, b)
      {
        if units[j].IsObserver() {
          continue;
        }
        if PathsOverlap(units[i].rw, units[j].rw) {
          ClashIffShared(units, i, j);
          return Some(OverlappingScopes(i, j));
        }
      }
    }
    forall i, j | 0 <= i < j < |units|
      ensures !Clash(units, i, j)
      ensures forall p :: !units[i].IsObserver() && !units[j].IsObserver() && Covers(units[i].rw, p) ==>
        !Covers(units[j].rw, p)
    {
      ClashIffShared(units, i, j);
    }
    return None;
  }

  lemma ClashIffShared(units: seq<Unit>, i: nat, j: nat)
    requires i < |units| && j < |units|
    ensures Clash(units, i, j) <==>
      !units[i].IsObserver() && !units[j].IsObserver() && exists p :: Covers(units[i].rw, p) && Covers(units[j].rw, p)
  {
    OverlapIffCommonPath(units[i].rw, units[j].rw);
  }

  // ----- Budget division -----

  // Integer division as the language does it, towards zero.
  function Quotient(a: int, n: int): int
    requires n > 0
  {
    if a >= 0 then a / n else -((-a) / n)
  }

  predicate NeedsBudget(u: Unit) {
    u.budget.IsZero() && !u.IsObserver()
  }

  ghost function Needing(units: seq<Unit>): nat {
    if units == [] then 0
    else Needing(units[..|units| - 1]) + if NeedsBudget(units[|units| - 1]) then 1 else 0
  }

  // The units after an aggregate budget has been divided.
  ghost function Divided(units: seq<Unit>, total: Budget): seq<Unit> {
    if total.IsZero() || Needing(units) == 0 then units
    else
      var share := Budget(Quotient(total.tokens, Needing(units)), Quotient(total.wallClock, Needing(units)));
      seq(|units|, i requires 0 <= i < |units| =>
        if NeedsBudget(units[i]) then units[i].(budget := share) else units[i])
  }

  ghost function SumTokens(units: seq<Unit>): int {
    if units == [] then 0 else SumTokens(units[..|units| - 1]) + units[|units| - 1].budget.tokens
  }

  ghost function SumWallClock(units: seq<Unit>): int {
    if units == [] then 0 else SumWallClock(units[..|units| - 1]) + units[|units| - 1].budget.wallClock
  }

  // The units without a budget of their own, observers aside.
  ghost function InNeed(units: seq<Unit>): set<nat> {
    set i: nat | i < |units| && units[i].role != "observer" && units[i].budget == Budget(0, 0)
  }

  // q is a divided by n, towards zero.
  ghost predicate IsShare(a: int, n: int, q: int) {
    if a >= 0 then 0 <= a - n * q < n && q >= 0 else -n < a - n * q <= 0 && q <= 0
  }

  // A budget divided: each unit in need gets a share of it, and nothing else changes.
  ghost predicate IsDivided(before: seq<Unit>, after: seq<Unit>, total: Budget) {
    && |after| == |before|
    && forall i: nat :: i < |before| ==>
         if i in InNeed(before) && total != Budget(0, 0) then
           && after[i] == before[i].(budget := after[i].budget)
           && IsShare(total.tokens, |InNeed(before)|, after[i].budget.tokens)
           && IsShare(total.wallClock, |InNeed(before)|, after[i].budget.wallClock)
         else after[i] == before[i]
  }

  lemma {:induction false} NeedingCounts(units: seq<Unit>)
    ensures Needing(units) == |InNeed(units)|
  {
    if units == [] {
      assert InNeed(units) == {};
    } else {
      var n := |units| - 1;
      NeedingCounts(units[..n]);
      if NeedsBudget(units[n]) {
        assert InNeed(units) == InNeed(units[..n]) + {n};
      } else {
        assert InNeed(units) == InNeed(units[..n]);
      }
    }
  }

  lemma QuotientIsShare(a: int, n: int)
    requires n > 0
    ensures IsShare(a, n, Quotient(a, n))
  {
    QuotientRemainder(a, n);
    QuotientSign(a, n);
  }

  lemma QuotientSign(a: int, n: int)
    requires n > 0
    ensures a >= 0 ==> Quotient(a, n) >= 0
    ensures a < 0 ==> Quotient(a, n) <= 0
  {
  }

  lemma {:induction false} DividedSays(units: seq<Unit>, total: Budget)
    ensures IsDivided(units, Divided(units, total), total)
  {
    var n := Needing(units);
    NeedingCounts(units);
    if n > 0 {
      QuotientIsShare(total.tokens, n);
      QuotientIsShare(total.wallClock, n);
    } else {
      assert InNeed(units) == {};
    }
  }

  // Giving the same share to every unit in need adds it that many times.
  lemma {:induction false} SharesAdd(before: seq<Unit>, after: seq<Unit>, share: Budget)
    requires |after| == |before|
    requires forall i :: 0 <= i < |before| ==>
      after[i] == if NeedsBudget(before[i]) then before[i].(budget := share) else before[i]
    ensures SumTokens(after) == SumTokens(before) + Needing(before) * share.tokens
    ensures SumWallClock(after) == SumWallClock(before) + Needing(before) * share.wallClock
  {
    if before != [] {
      var n := |before| - 1;
      SharesAdd(before[..n], after[..n], share);
      var k := Needing(before[..n]);
      if NeedsBudget(before[n]) {
        assert (k + 1) * share.tokens == k * share.tokens + share.tokens;
        assert (k + 1) * share.wallClock == k * share.wallClock + share.wallClock;
      }
    }
  }

  lemma QuotientRemainder(a: int, n: int)
    requires n > 0
    ensures a >= 0 ==> 0 <= a - n * Quotient(a, n) < n
    ensures a < 0 ==> -n < a - n * Quotient(a, n) <= 0
  {
    if a < 0 {
      assert n * -((-a) / n) == -(n * ((-a) / n));
    }
  }

  // The part of a total that n equal shares leave over: never negative for a
  // total that is not, and always smaller than n.
  ghost predicate LeavesLessThan(total: int, given: int, n: int) {
    && (total >= 0 ==> 0 <= total - given < n)
    && (total < 0 ==> -n < total - given <= 0)
  }

  // The shares newly assigned sum to the total, up to a remainder smaller than
  // the number of units served.
  lemma {:induction false} DividedSums(units: seq<Unit>, total: Budget)
    requires !total.IsZero() && Needing(units) > 0
    ensures LeavesLessThan(total.tokens, SumTokens(Divided(units, total)) - SumTokens(units), Needing(units))
    ensures LeavesLessThan(total.wallClock, SumWallClock(Divided(units, total)) - SumWallClock(units), Needing(units))
  {
    var n := Needing(units);
    SharesAdd(units, Divided(units, total), Budget(Quotient(total.tokens, n), Quotient(total.wallClock, n)));
    QuotientRemainder(total.tokens, n);
    QuotientRemainder(total.wallClock, n);
  }

  // So the shares stay within the total exactly if it is not negative, or divides evenly.
  lemma {:induction false} SharesWithinTotalIff(units: seq<Unit>, total: Budget)
    requires !total.IsZero() && Needing(units) > 0
    ensures SumTokens(Divided(units, total)) - SumTokens(units) <= total.tokens <==>
            total.tokens >= 0 || total.tokens % Needing(units) == 0
    ensures SumWallClock(Divided(units, total)) - SumWallClock(units) <= total.wallClock <==>
            total.wallClock >= 0 || total.wallClock % Needing(units) == 0
  {
    var n := Needing(units);
    SharesAdd(units, Divided(units, total), Budget(Quotient(total.tokens, n), Quotient(total.wallClock, n)));
    QuotientWithinIff(total.tokens, n);
    QuotientWithinIff(total.wallClock, n);
  }

  // Two units that share a total of -1 get nothing, which is more than the total.
  lemma SharesExceedNegativeTotal()
    ensures
      var u := Unit("executor", [], [], Budget(0, 0), Termination("manual", ""), map[]);
      var total := Budget(-1, 0);
      Needing([u, u]) == 2 && SumTokens(Divided([u, u], total)) - SumTokens([u, u]) == 0 > total.tokens
  {
    var u := Unit("executor", [], [], Budget(0, 0), Termination("manual", ""), map[]);
    var total := Budget(-1, 0);
    assert [u, u][..1] == [u] && [u][..0] == [];
    assert Needing([u]) == 1;
    SharesAdd([u, u], Divided([u, u], total), Budget(0, 0));
  }

  lemma QuotientWithinIff(t: int, n: int)
    requires n > 0
    ensures n * Quotient(t, n) <= t <==> t >= 0 || t % n == 0
  {
    if t < 0 {
      var q, r := (-t) / n, (-t) % n;
      assert -t == n * q + r;
      assert n * Quotient(t, n) == -(n * q) == t + r;
      if r == 0 {
        assert t == n * (-q);
        ModIs(0, t, -q, n);
      }
      if t % n == 0 {
        assert -t == n * -(t / n);
        ModIs(0, -t, -(t / n), n);
      }
    }
  }

  // ----- Formations -----

  ghost predicate ValidParts(name: string, units: seq<Unit>, edges: seq<Edge>) {
    && name != "" && units != []
    && (forall i :: 0 <= i < |units| ==> units[i].role != "")
    && (forall i :: 0 <= i < |edges| ==> 0 <= edges[i].from < |units| && 0 <= edges[i].to < |units|)
    && NoPathShared(units)
  }

  ghost predicate RolesGiven(units: seq<Unit>, n: nat) {
    forall i :: 0 <= i < n && i < |units| ==> units[i].role != ""
  }

  ghost predicate EdgesInRange(units: seq<Unit>, edges: seq<Edge>, n: nat) {
    forall i :: 0 <= i < n && i < |edges| ==> 0 <= edges[i].from < |units| && 0 <= edges[i].to < |units|
  }

  // e is the first thing wrong with the parts, in the order they are validated.
  ghost predicate FirstError(name: string, units: seq<Unit>, edges: seq<Edge>, e: Error) {
    match e
    case NoFormationName => name == ""
    case EmptyFormation => name != "" && units == []
    case EmptyRole(i) => name != "" && i < |units| && RolesGiven(units, i) && units[i].role == ""
    case InvalidEdgeIndex(i) =>
      && name != "" && units != [] && RolesGiven(units, |units|)
      && i < |edges| && EdgesInRange(units, edges, i) && !EdgesInRange(units, edges, i + 1)
    case OverlappingScopes(i, j) =>
      && name != "" && units != [] && RolesGiven(units, |units|) && EdgesInRange(units, edges, |edges|)
      && FirstClash(units, i, j)
  }

  class Formation {
    var name: string
    var units: seq<Unit>
    var edges: seq<Edge>
    var budget: Budget
    var observers: seq<Unit>

    constructor (name: string, units: seq<Unit>, edges: seq<Edge>, budget: Budget, observers: seq<Unit>)
      ensures this.name == name && this.units == units && this.edges == edges
      ensures this.budget == budget && this.observers == observers
    {
      this.name, this.units, this.edges, this.budget, this.observers := name, units, edges, budget, observers;
    }

    ghost predicate WellFormed()
      reads this
    {
      ValidParts(name, units, edges)
    }

    method Validate() returns (r: Option<Error>)
      ensures r.None? <==> WellFormed()
      ensures r.None? <==>
        && name != "" && units != [] && (forall i :: 0 <= i < |units| ==> units[i].role != "")
        && (forall i :: 0 <= i < |edges| ==> 0 <= edges[i].from < |units| && 0 <= edges[i].to < |units|)
        && NoPathShared(units)
      ensures r.Some? ==> FirstError(name, units, edges, r.value)
    {
      if name == "" {
        return Some(NoFormationName);
      }
      if |units| == 0 {
        return Some(EmptyFormation);
      }
      for i := 0 to |units|
        invariant forall k :: 0 <= k < i ==> units[k].role != ""
      {
        if units[i].role == "" {
          return Some(EmptyRole(i));
        }
      }
      for i := 0 to |edges|
        invariant forall k :: 0 <= k < i ==> 0 <= edges[k].from < |units| && 0 <= edges[k].to < |units|
      {
        if !(0 <= edges[i].from < |units| && 0 <= edges[i].to < |units|) {
          return Some(InvalidEdgeIndex(i));
        }
      }
      r := ValidateScopeDisjointness(units);
    }

    method DivideBudget()
      modifies this`units
      ensures units == Divided(old(units), budget) && IsDivided(old(units), units, budget)
    {
      DividedSays(units, budget);
      if budget.IsZero() {
        return;
      }
      var needBudget := CountNeeding();
      if needBudget == 0 {
        return;
      }
      var share := Budget(Quotient(budget.tokens, needBudget), Quotient(budget.wallClock, needBudget));
      for i := 0 to |units|
        invariant |units| == |old(units)|
        invariant forall k :: 0 <= k < |units| ==>
          units[k] == (if k < i && NeedsBudget(old(units)[k]) then old(units)[k].(budget := share) else old(units)[k])
      {
        if NeedsBudget(units[i]) {
          units := units[i := units[i].(budget := share)];
        }
      }
    }

    method CountNeeding() returns (n: nat)
      ensures n == Needing(units)
    {
      n := 0;
      for i := 0 to |units|
        invariant n == Needing(units[..i])
      {
        assert units[..i + 1][..i] == units[..i];
        if NeedsBudget(units[i]) {
          n := n + 1;
        }
      }
      assert units[..|units|] == units;
    }
  }

  // ----- Instantiation -----

  // Every occurrence of `v`, found from the left, replaced.
  function ReplaceAll(s: string, v: string, with: string): string
    requires v != ""
  {
    if s == "" then ""
    else if v <= s then with + ReplaceAll(s[|v|..], v, with)
    else [s[0]] + ReplaceAll(s[1..], v, with)
  }

  ghost predicate Occurs(v: string, s: string) {
    exists i :: 0 <= i <= |s| && v <= s[i..]
  }

  // The pieces in order, with `between` between any two.
  ghost function Interleaved(pieces: seq<string>, between: string): string {
    if pieces == [] then ""
    else if |pieces| == 1 then pieces[0]
    else pieces[0] + between + Interleaved(pieces[1..], between)
  }

  // r is s with each v replaced: the pieces of text around them stay.
  ghost predicate IsReplaced(s: string, v: string, with: string, r: string) {
    exists pieces: seq<string> ::
      && (forall p :: p in pieces ==> !Occurs(v, p))
      && s == Interleaved(pieces, v) && r == Interleaved(pieces, with)
  }

  lemma {:induction false} InterleavedFirst(pieces: seq<string>, between: string)
    requires pieces != []
    ensures pieces[0] <= Interleaved(pieces, between)
    ensures |pieces| > 1 ==> pieces[0] + between <= Interleaved(pieces, between)
  {
  }

  // One character more in front of the first piece.
  lemma {:induction false} InterleavedLonger(c: char, pieces: seq<string>, between: string)
    requires pieces != []
    ensures Interleaved([[c] + pieces[0]] + pieces[1..], between) == [c] + Interleaved(pieces, between)
  {
    var more := [[c] + pieces[0]] + pieces[1..];
    assert more[1..] == pieces[1..];
    if |pieces| > 1 {
      assert ([c] + pieces[0]) + between == [c] + (pieces[0] + between);
    }
  }

  lemma NotInLonger(c: char, p: string, v: string)
    requires v != "" && !Occurs(v, p) && !(v <= [c] + p)
    ensures !Occurs(v, [c] + p)
  {
    var q := [c] + p;
    forall i | 0 <= i <= |q|
      ensures !(v <= q[i..])
    {
      if i == 0 {
        assert q[0..] == q;
      } else {
        assert q[i..] == p[i - 1..];
      }
    }
  }

  lemma {:induction false} LongerFirst(s: string, rest: seq<string>, v: string)
    requires v != "" && s != "" && !(v <= s) && rest != [] && s[1..] == Interleaved(rest, v)
    requires forall p :: p in rest ==> !Occurs(v, p)
    ensures forall p :: p in [[s[0]] + rest[0]] + rest[1..] ==> !Occurs(v, p)
  {
    InterleavedFirst(rest, v);
    assert [s[0]] + rest[0] <= s;
    assert rest[0] in rest;
    NotInLonger(s[0], rest[0], v);
    assert forall p :: p in rest[1..] ==> p in rest;
  }

  lemma {:induction false} Pieces(s: string, v: string, with: string) returns (pieces: seq<string>)
    requires v != ""
    ensures pieces != [] && forall p :: p in pieces ==> !Occurs(v, p)
    ensures s == Interleaved(pieces, v) && ReplaceAll(s, v, with) == Interleaved(pieces, with)
    decreases |s|
  {
    if s == "" {
      pieces := [""];
      assert !Occurs(v, "");
    } else if v <= s {
      var rest := Pieces(s[|v|..], v, with);
      pieces := [""] + rest;
      assert !Occurs(v, "") && pieces[1..] == rest;
      assert s == "" + v + s[|v|..];
    } else {
      var rest := Pieces(s[1..], v, with);
      pieces := [[s[0]] + rest[0]] + rest[1..];
      LongerFirst(s, rest, v);
      InterleavedLonger(s[0], rest, v);
      InterleavedLonger(s[0], rest, with);
    }
  }

  lemma {:induction false} ReplaceAllReplaces(s: string, v: string, with: string)
    requires v != ""
    ensures IsReplaced(s, v, with, ReplaceAll(s, v, with))
    ensures !Occurs(v, s) ==> ReplaceAll(s, v, with) == s
  {
    var pieces := Pieces(s, v, with);
    if |pieces| > 1 {
      InterleavedFirst(pieces, v);
      assert v <= s[|pieces[0]|..];
    }
  }

  function SubstituteVar(s: string, scope: string): string {
    ReplaceAll(s, SCOPE_VAR, scope)
  }

  function SubstituteSlice(paths: seq<string>, scope: string): seq<string> {
    seq(|paths|, i requires 0 <= i < |paths| => SubstituteVar(paths[i], scope))
  }

  function SubstituteUnit(u: Unit, scope: string): Unit {
    Unit(u.role, SubstituteSlice(u.ro, scope), SubstituteSlice(u.rw, scope), u.budget,
         Termination(u.terminatesWhen.kind, SubstituteVar(u.terminatesWhen.target, scope)),
         map k | k in u.env :: SubstituteVar(u.env[k], scope))
  }

  function SubstituteUnits(units: seq<Unit>, scope: string): seq<Unit> {
    seq(|units|, i requires 0 <= i < |units| => SubstituteUnit(units[i], scope))
  }

  // r is s with the scope for each "${task.scope}", and s itself if there is none.
  ghost predicate Scoped(s: string, scope: string, r: string) {
    IsReplaced(s, "${task.scope}", scope, r) && (!Occurs("${task.scope}", s) ==> r == s)
  }

  ghost predicate AllScoped(a: seq<string>, scope: string, b: seq<string>) {
    |b| == |a| && forall j :: 0 <= j < |a| ==> Scoped(a[j], scope, b[j])
  }

  // r is the template unit u for this scope; its budget may differ.
  ghost predicate IsInstance(u: Unit, scope: string, r: Unit) {
    && r.role == u.role && AllScoped(u.ro, scope, r.ro) && AllScoped(u.rw, scope, r.rw)
    && r.env.Keys == u.env.Keys && (forall k :: k in u.env ==> Scoped(u.env[k], scope, r.env[k]))
    && r.terminatesWhen.kind == u.terminatesWhen.kind
    && Scoped(u.terminatesWhen.target, scope, r.terminatesWhen.target)
  }

  ghost predicate AreInstances(units: seq<Unit>, scope: string, r: seq<Unit>) {
    |r| == |units| && forall i :: 0 <= i < |units| ==> IsInstance(units[i], scope, r[i])
  }

  lemma VarIsScoped(s: string, scope: string)
    ensures Scoped(s, scope, SubstituteVar(s, scope))
  {
    ReplaceAllReplaces(s, SCOPE_VAR, scope);
  }

  lemma SliceIsScoped(paths: seq<string>, scope: string)
    ensures AllScoped(paths, scope, SubstituteSlice(paths, scope))
  {
    forall j | 0 <= j < |paths|
      ensures Scoped(paths[j], scope, SubstituteSlice(paths, scope)[j])
    {
      VarIsScoped(paths[j], scope);
    }
  }

  lemma UnitIsInstance(u: Unit, scope: string)
    ensures IsInstance(u, scope, SubstituteUnit(u, scope)) && SubstituteUnit(u, scope).budget == u.budget
  {
    SliceIsScoped(u.ro, scope);
    SliceIsScoped(u.rw, scope);
    VarIsScoped(u.terminatesWhen.target, scope);
    forall k | k in u.env
      ensures Scoped(u.env[k], scope, SubstituteUnit(u, scope).env[k])
    {
      VarIsScoped(u.env[k], scope);
    }
  }

  // The instances keep their budgets, and dividing the total changes nothing else.
  lemma {:induction false} UnitsAreInstances(units: seq<Unit>, scope: string, total: Budget)
    ensures AreInstances(units, scope, SubstituteUnits(units, scope))
    ensures AreInstances(units, scope, Divided(SubstituteUnits(units, scope), total))
    ensures BudgetsDivided(units, Divided(SubstituteUnits(units, scope), total), total)
  {
    var subst := SubstituteUnits(units, scope);
    var divided := Divided(subst, total);
    DividedSays(subst, total);
    forall i | 0 <= i < |units|
      ensures IsInstance(units[i], scope, subst[i]) && subst[i].budget == units[i].budget
      ensures IsInstance(units[i], scope, divided[i])
    {
      UnitIsInstance(units[i], scope);
      assert divided[i] == subst[i].(budget := divided[i].budget);
    }
    assert InNeed(subst) == InNeed(units);
  }

  // The units in need have a share of the total, the others the budget of the template.
  ghost predicate BudgetsDivided(units: seq<Unit>, r: seq<Unit>, total: Budget) {
    && |r| == |units|
    && forall i: nat :: i < |units| ==>
         if i in InNeed(units) && total != Budget(0, 0) then
           && IsShare(total.tokens, |InNeed(units)|, r[i].budget.tokens)
           && IsShare(total.wallClock, |InNeed(units)|, r[i].budget.wallClock)
         else r[i].budget == units[i].budget
  }

  // A formation is returned exactly if the substituted template is valid; then in
  // particular no two of its non-observer units can write the same path.
  method Instantiate(tmpl: Formation, scope: string, totalBudget: Budget) returns (r: Result<Formation>)
    ensures r.Ok? <==> ValidParts(tmpl.name, SubstituteUnits(tmpl.units, scope), tmpl.edges)
    ensures r.Err? ==>
      FirstError(tmpl.name, Divided(SubstituteUnits(tmpl.units, scope), totalBudget), tmpl.edges, r.error)
    ensures r.Ok? ==> fresh(r.value) && r.value.WellFormed() && NoPathShared(r.value.units)
    ensures r.Ok? ==> r.value.units == Divided(SubstituteUnits(tmpl.units, scope), totalBudget)
    ensures r.Ok? ==> r.value.name == tmpl.name && r.value.edges == tmpl.edges && r.value.budget == totalBudget
    ensures r.Ok? ==> r.value.observers == SubstituteUnits(tmpl.observers, scope)
    // Field by field, what comes from the template:
    ensures r.Ok? ==> AreInstances(tmpl.units, scope, r.value.units)
    ensures r.Ok? ==> BudgetsDivided(tmpl.units, r.value.units, totalBudget)
    ensures r.Ok? ==> AreInstances(tmpl.observers, scope, r.value.observers)
    ensures r.Ok? ==> forall i :: 0 <= i < |tmpl.observers| ==> r.value.observers[i].budget == tmpl.observers[i].budget
  {
    UnitsAreInstances(tmpl.units, scope, totalBudget);
    UnitsAreInstances(tmpl.observers, scope, Budget(0, 0));
    var f := new Formation(tmpl.name, SubstituteUnits(tmpl.units, scope), tmpl.edges, totalBudget,
      SubstituteUnits(tmpl.observers, scope));
    f.DivideBudget();
    DividedKeepsScopes(SubstituteUnits(tmpl.units, scope), totalBudget);
    var err := f.Validate();
    if err.Some? {
      return Err(err.value);
    }
    return Ok(f);
  }

  // Dividing the budget leaves scopes and roles alone.
  lemma DividedKeepsScopes(units: seq<Unit>, total: Budget)
    ensures |Divided(units, total)| == |units|
    ensures forall i :: 0 <= i < |units| ==>
      Divided(units, total)[i] == units[i].(budget := Divided(units, total)[i].budget)
    ensures NoPathShared(Divided(units, total)) <==> NoPathShared(units)
  {
    var d := Divided(units, total);
    assert forall i :: 0 <= i < |units| ==> d[i].rw == units[i].rw && d[i].IsObserver() == units[i].IsObserver();
  }

  // Text without the variable is left alone; the variable becomes the scope.
  lemma {:induction false} ReplaceAllSplits(a: string, v: string, b: string, with: string)
    requires v != "" && forall i :: 0 <= i < |a| ==> !(v <= (a + v + b)[i..])
    ensures ReplaceAll(a + v + b, v, with) == a + with + ReplaceAll(b, v, with)
  {
    var s := a + v + b;
    if a == "" {
      assert s == v + b && s[|v|..] == b;
    } else {
      assert s[0..] == s;
      assert s[1..] == a[1..] + v + b;
      forall i | 0 <= i < |a[1..]|
        ensures !(v <= (a[1..] + v + b)[i..])
      {
        assert (a[1..] + v + b)[i..] == s[i + 1..];
      }
      ReplaceAllSplits(a[1..], v, b, with);
    }
  }
}
