// Role composition (uniform/capability.go): a role grants its own capabilities
// and those of every role it composes, directly or not.
module Roles {
  import opened Digraphs
  import opened Sorting

  type Capability = string

  datatype RoleDef = RoleDef(name: string, composes: seq<string>, capabilities: seq<Capability>)

  type RoleTable = map<string, RoleDef>

  ghost function Composition(roles: RoleTable): Digraph<string> {
    map n | n in roles :: roles[n].composes
  }

  // Some known role reachable from `role` lists the capability itself.
  ghost predicate Grants(roles: RoleTable, role: string, c: Capability) {
    exists r :: r in roles && Reach(Composition(roles), role, r) && c in roles[r].capabilities
  }

  ghost function OwnCaps(roles: RoleTable, names: set<string>): set<Capability> {
    set r, c | r in names && r in roles && c in roles[r].capabilities :: c
  }

  // The roles seen are closed under composition.
  ghost predicate Composed(roles: RoleTable, seen: set<string>) {
    Closed(Composition(roles), seen)
  }

  // What a call of resolve(name) adds to the roles seen.
  ghost predicate Visits(roles: RoleTable, name: string, seen: set<string>, seen': set<string>) {
    && seen <= seen' && name in seen'
    && (forall r :: r in seen' && r !in seen ==> Reach(Composition(roles), name, r))
    && forall r, p :: r in seen' && r !in seen && p in Succ(Composition(roles), r) ==> p in seen'
  }

  class RoleRegistry {
    const roles: RoleTable

    // A later definition of the same name replaces an earlier one.
    constructor (defs: seq<RoleDef>)
      ensures roles.Keys == set d | d in defs :: d.name
      ensures forall n :: n in roles ==>
        exists i :: 0 <= i < |defs| && roles[n] == defs[i] && defs[i].name == n &&
          forall j :: i < j < |defs| ==> defs[j].name != n
    {
      var m: RoleTable := map[];
      for i := 0 to |defs|
        invariant m.Keys == set d | d in defs[..i] :: d.name
        invariant forall n :: n in m ==>
          exists k :: 0 <= k < i && m[n] == defs[k] && defs[k].name == n && forall j :: k < j < i ==> defs[j].name != n
      {
        assert defs[..i + 1] == defs[..i] + [defs[i]];
        m := m[defs[i].name := defs[i]];
      }
      assert defs[..|defs|] == defs;
      roles := m;
    }

    method ResolveInto(name: string, seen0: set<string>, caps0: set<Capability>, ghost all: set<string>)
      returns (seen: set<string>, caps: set<Capability>)
      requires Composed(roles, all) && name in all
      ensures Visits(roles, name, seen0, seen) || (name in seen0 && seen == seen0)
      ensures seen0 <= seen && caps == caps0 + OwnCaps(roles, seen - seen0)
      decreases all - seen0
    {
      seen, caps := seen0, caps0;
      if name in seen {
        return;
      }
      seen := seen + {name};
      ReachRefl(Composition(roles), name);
      assert seen - seen0 == {name};
      if name !in roles {
        return;
      }
      var def := roles[name];
      for i := 0 to |def.capabilities|
        invariant caps == caps0 + set c | c in def.capabilities[..i]
      {
        assert def.capabilities[..i + 1] == def.capabilities[..i] + [def.capabilities[i]];
        caps := caps + {def.capabilities[i]};
      }
      assert def.capabilities[..|def.capabilities|] == def.capabilities;
      for i := 0 to |def.composes|
        invariant seen0 + {name} <= seen && caps == caps0 + OwnCaps(roles, seen - seen0)
        invariant forall r :: r in seen && r !in seen0 ==> Reach(Composition(roles), name, r)
        invariant forall r, p :: r in seen && r !in seen0 && r != name && p in Succ(Composition(roles), r) ==> p in seen
        invariant forall k :: 0 <= k < i ==> def.composes[k] in seen
      {
        var parent := def.composes[i];
        assert parent in Succ(Composition(roles), name);
        ghost var before := seen;
        seen, caps := ResolveInto(parent, seen, caps, all);
        forall r | r in seen && r !in seen0
          ensures Reach(Composition(roles), name, r)
        {
          if r !in before {
            ReachEdge(Composition(roles), name, parent);
            ReachTrans(Composition(roles), name, parent, r);
          }
        }
        assert seen - seen0 == (before - seen0) + (seen - before);
      }
    }

    method Resolve(roleName: string) returns (result: seq<Capability>)
      ensures Distinct(result)
      ensures forall c :: c in result <==> Grants(roles, roleName, c)
    {
      ghost var all := Nodes(Composition(roles)) + {roleName};
      var seen, caps := ResolveInto(roleName, {}, {}, all);
      VisitsAreReach(roles, roleName, {}, seen);
      assert seen - {} == seen;
      result := Listing(caps);
    }

    // One seen set is shared by all the persona's roles.
    method ResolvePersona(roleNames: seq<string>) returns (result: seq<Capability>)
      ensures Distinct(result)
      ensures forall c :: c in result <==> exists i :: 0 <= i < |roleNames| && Grants(roles, roleNames[i], c)
    {
      var seen: set<string>, caps: set<Capability> := {}, {};
      for i := 0 to |roleNames|
        invariant Composed(roles, seen) && caps == OwnCaps(roles, seen)
        invariant forall r :: r in seen <==> exists k :: 0 <= k < i && Reach(Composition(roles), roleNames[k], r)
      {
        ghost var before := seen;
        seen, caps := ResolveInto(roleNames[i], seen, caps, Nodes(Composition(roles)) + {roleNames[i]});
        assert seen == before + (seen - before);
        VisitsAreReach(roles, roleNames[i], before, seen);
      }
      result := Listing(caps);
      forall c
        ensures c in caps <==> exists i :: 0 <= i < |roleNames| && Grants(roles, roleNames[i], c)
      {
      }
    }
  }

  // From a closed set, a call adds exactly what is reachable from the name.
  lemma VisitsAreReach(roles: RoleTable, name: string, seen: set<string>, seen': set<string>)
    requires Composed(roles, seen)
    requires Visits(roles, name, seen, seen') || (name in seen && seen' == seen)
    ensures Composed(roles, seen')
    ensures forall r :: r in seen' <==> r in seen || Reach(Composition(roles), name, r)
  {
    forall r | Reach(Composition(roles), name, r)
      ensures r in seen'
    {
      ClosedKeepsReach(Composition(roles), seen', name, r);
    }
  }

  method Listing(caps: set<Capability>) returns (result: seq<Capability>)
    ensures Distinct(result) && forall c :: c in result <==> c in caps
  {
    result := [];
    var rest := caps;
    while rest != {}
      invariant rest <= caps && Distinct(result)
      invariant forall c :: c in result <==> c in caps - rest
    {
      var c :| c in rest;
      rest := rest - {c};
      assert c !in result;
      result := result + [c];
    }
  }

  // A role grants its own capabilities and whatever the roles it composes grant,
  // also when composition is cyclic.
  lemma GrantsUnfold(roles: RoleTable, role: string, c: Capability)
    ensures Grants(roles, role, c) <==>
      role in roles && (c in roles[role].capabilities || exists p :: p in roles[role].composes && Grants(roles, p, c))
  {
    var g := Composition(roles);
    if Grants(roles, role, c) {
      var r :| r in roles && Reach(g, role, r) && c in roles[r].capabilities;
      if r != role {
        var p := ReachFirstStep(g, role, r);
        assert p in roles[role].composes && Grants(roles, p, c);
      }
    }
    if role in roles {
      if c in roles[role].capabilities {
        ReachRefl(g, role);
      }
      if p :| p in roles[role].composes && Grants(roles, p, c) {
        var r :| r in roles && Reach(g, p, r) && c in roles[r].capabilities;
        assert p in Succ(g, role);
        ReachEdge(g, role, p);
        ReachTrans(g, role, p, r);
      }
    }
  }
}
