// Several agents' write-through caches over one shared level (cache/writethrough.go).
module SharedCaches {
  import opened Wrappers
  import opened Sorting
  import opened Caches

  // ----- Agents that keep to scopes of their own -----

  ghost predicate OwnedBy(t: Table, owner: string -> nat, i: nat) {
    forall s :: s in t ==> owner(s) == i
  }

  // Each scope is used through one agent: the first levels hold entries of their own
  // scopes only, and nothing in them is stale.
  ghost predicate DisjointLevels(levels: seq<Table>, b: Table, owner: string -> nat) {
    forall i :: 0 <= i < |levels| ==> OwnedBy(levels[i], owner, i) && Within(levels[i], b)
  }

  // What agent i's write does to agent j's first level: it becomes stale exactly if
  // it is another's and holds something else at that entry.
  lemma WriteSpoils(levels: seq<Table>, b: Table, i: nat, scope: string, key: string, data: Bytes, j: nat, s: string,
      k: string)
    requires i < |levels| && j < |levels|
    ensures AgreesAt(levels[i := Stored(levels[i], scope, key, data)][j], Stored(b, scope, key, data), s, k) <==>
      if (s, k) != (scope, key) then AgreesAt(levels[j], b, s, k)
      else j == i || Lookup(levels[j], scope, key) in {Missing, Found(data)}
  {
    AgreesStored(levels[i], b, scope, key, data);
    AgreesPassedBy(levels[j], b, scope, key, data);
  }

  lemma OwnWriteStaysDisjoint(levels: seq<Table>, b: Table, owner: string -> nat, i: nat, scope: string, key: string,
      data: Bytes)
    requires DisjointLevels(levels, b, owner) && i < |levels| && owner(scope) == i
    ensures DisjointLevels(levels[i := Stored(levels[i], scope, key, data)], Stored(b, scope, key, data), owner)
  {
    var after := levels[i := Stored(levels[i], scope, key, data)];
    forall j | 0 <= j < |after|
      ensures OwnedBy(after[j], owner, j) && Within(after[j], Stored(b, scope, key, data))
    {
      assert OwnedBy(levels[j], owner, j) && Within(levels[j], b);
      forall s, k
        ensures AgreesAt(after[j], Stored(b, scope, key, data), s, k)
      {
        WriteSpoils(levels, b, i, scope, key, data, j, s, k);
        assert AgreesAt(levels[j], b, s, k);
      }
    }
  }

  lemma OwnReadStaysDisjoint(levels: seq<Table>, b: Table, owner: string -> nat, i: nat, scope: string, key: string)
    requires i < |levels|
    ensures DisjointLevels(levels, b, owner) && owner(scope) == i ==>
            DisjointLevels(levels[i := Promoted(levels[i], b, scope, key)], b, owner)
  {
    AgreesPromoted(levels[i], b, scope, key);
    var after := levels[i := Promoted(levels[i], b, scope, key)];
    if DisjointLevels(levels, b, owner) && owner(scope) == i {
      forall j | 0 <= j < |after|
        ensures OwnedBy(after[j], owner, j) && Within(after[j], b)
      {
        assert OwnedBy(levels[j], owner, j) && Within(levels[j], b);
      }
    }
  }

  // Dropping entries, whosever they are, never makes anything stale.
  lemma EvictionStaysDisjoint(levels: seq<Table>, b: Table, owner: string -> nat, i: nat, left: Table)
    requires DisjointLevels(levels, b, owner) && i < |levels|
    requires left.Keys <= levels[i].Keys && forall s, k :: AgreesAt(levels[i], b, s, k) ==> AgreesAt(left, b, s, k)
    ensures DisjointLevels(levels[i := left], b, owner)
  {
    var after := levels[i := left];
    forall j | 0 <= j < |after|
      ensures OwnedBy(after[j], owner, j) && Within(after[j], b)
    {
      assert OwnedBy(levels[j], owner, j) && Within(levels[j], b);
    }
  }

  // ----- What a sequence of operations leaves -----

  datatype Op =
    | Write(i: nat, scope: string, key: string, data: Bytes)
    | Read(i: nat, scope: string, key: string)
    | Drop(i: nat, scope: string, key: string)
    | DropScope(i: nat, scope: string)

  // The first level of each agent, and the level they share.
  datatype Store = Store(levels: seq<Table>, shared: Table)

  ghost function Step(c: Store, op: Op): (r: Store)
    requires op.i < |c.levels|
    ensures |r.levels| == |c.levels|
  {
    var l1 := c.levels[op.i];
    match op
    case Write(i, s, k, data) => Store(c.levels[i := Stored(l1, s, k, data)], Stored(c.shared, s, k, data))
    case Read(i, s, k) => c.(levels := c.levels[i := Promoted(l1, c.shared, s, k)])
    case Drop(i, s, k) => c.(levels := c.levels[i := Evicted(l1, s, k)])
    case DropScope(i, s) => c.(levels := c.levels[i := l1 - {s}])
  }

  ghost predicate ByAgents(run: seq<Op>, n: nat) {
    forall j :: 0 <= j < |run| ==> run[j].i < n
  }

  ghost function After(c: Store, run: seq<Op>): (r: Store)
    requires ByAgents(run, |c.levels|)
    ensures |r.levels| == |c.levels|
  {
    if run == [] then c else Step(After(c, run[..|run| - 1]), run[|run| - 1])
  }

  // The operation is on this entry, by this agent.
  predicate Touches(op: Op, i: nat, s: string, k: string) {
    op.i == i && op.scope == s && (op.DropScope? || op.key == k)
  }

  // What was last written at an entry, by anybody.
  ghost function LastWritten(c: Store, run: seq<Op>, s: string, k: string): Found {
    if run == [] then Lookup(c.shared, s, k) else
      var op := run[|run| - 1];
      if op.Write? && op.scope == s && op.key == k then Found(op.data)
      else LastWritten(c, run[..|run| - 1], s, k)
  }

  // After how many operations agent i's first level took what it holds at an entry: by a
  // write, or by the first read since it last dropped the entry that found something.
  ghost function Taken(c: Store, run: seq<Op>, i: nat, s: string, k: string): (r: Option<nat>)
    requires i < |c.levels|
    ensures r.Some? ==> r.value <= |run|
  {
    if run == [] then (if Lookup(c.levels[i], s, k).Found? then Some(0) else None) else
      var before, op := run[..|run| - 1], run[|run| - 1];
      var taken := Taken(c, before, i, s, k);
      if !Touches(op, i, s, k) then taken
      else if op.Write? then Some(|run|)
      else if op.Drop? || op.DropScope? then None
      else if taken.None? && LastWritten(c, before, s, k).Found? then Some(|run|)
      else taken
  }

  // What was taken: what had been written last, or what was there from the start.
  ghost function Held(c: Store, run: seq<Op>, i: nat, s: string, k: string): Found
    requires i < |c.levels|
  {
    match Taken(c, run, i, s, k)
    case None => Missing
    case Some(t) => if t == 0 then Lookup(c.levels[i], s, k) else LastWritten(c, run[..t], s, k)
  }

  lemma {:induction false} SharedIsLastWritten(c: Store, run: seq<Op>, s: string, k: string)
    requires ByAgents(run, |c.levels|)
    ensures Lookup(After(c, run).shared, s, k) == LastWritten(c, run, s, k)
  {
    if run != [] {
      var before, op := run[..|run| - 1], run[|run| - 1];
      SharedIsLastWritten(c, before, s, k);
      if op.Write? {
        LookupStored(After(c, before).shared, op.scope, op.key, op.data, s, k);
      }
    }
  }

  // What one operation by agent i does to its first level at an entry.
  lemma StepAt(c: Store, op: Op, i: nat, s: string, k: string)
    requires op.i < |c.levels| && i < |c.levels|
    ensures Lookup(Step(c, op).levels[i], s, k) ==
      if !Touches(op, i, s, k) then Lookup(c.levels[i], s, k)
      else if op.Write? then Found(op.data)
      else if op.Read? then Answer(c.levels[i], c.shared, s, k)
      else Missing
  {
    if op.i == i {
      match op
      case Write(_, s', k', data) => LookupStored(c.levels[i], s', k', data, s, k);
      case Read(_, s', k') =>
        PromotedBy(c.levels[i], c.shared, s', k');
        if Lookup(c.shared, s', k').Found? {
          LookupStored(c.levels[i], s', k', Lookup(c.shared, s', k').data, s, k);
        }
      case Drop(_, s', k') => LookupEvicted(c.levels[i], s', k', s, k);
      case DropScope(_, s') => LookupScopeEvicted(c.levels[i], s', s, k);
    }
  }

  lemma {:induction false} LevelIsHeld(c: Store, run: seq<Op>, i: nat, s: string, k: string)
    requires ByAgents(run, |c.levels|) && i < |c.levels|
    ensures Lookup(After(c, run).levels[i], s, k) == Held(c, run, i, s, k)
    ensures Taken(c, run, i, s, k).Some? ==> Held(c, run, i, s, k).Found?
  {
    if run != [] {
      var before, op := run[..|run| - 1], run[|run| - 1];
      LevelIsHeld(c, before, i, s, k);
      SharedIsLastWritten(c, before, s, k);
      StepAt(After(c, before), op, i, s, k);
      HeldEarlier(c, run, i, s, k);
    }
  }

  // What was taken before the last operation is the same without it.
  lemma {:induction false} HeldEarlier(c: Store, run: seq<Op>, i: nat, s: string, k: string)
    requires i < |c.levels| && run != []
    ensures
      var before := run[..|run| - 1];
      Taken(c, run, i, s, k) == Taken(c, before, i, s, k) ==> Held(c, run, i, s, k) == Held(c, before, i, s, k)
    ensures Taken(c, run, i, s, k) == Some(|run|) ==> Held(c, run, i, s, k) == LastWritten(c, run, s, k)
  {
    var before := run[..|run| - 1];
    var taken := Taken(c, before, i, s, k);
    assert run[..|run|] == run;
    if taken.Some? {
      assert run[..taken.value] == before[..taken.value];
    }
  }

  // Whatever all the agents did, an agent's read answers as the plain map of the shared
  // level exactly if it holds nothing, or the writes since it took what it holds left
  // the same data last.
  lemma {:induction false} ReadIsRightIff(c: Store, run: seq<Op>, i: nat, s: string, k: string)
    requires ByAgents(run, |c.levels|) && i < |c.levels|
    ensures Answer(After(c, run).levels[i], After(c, run).shared, s, k) == Plain(Flat(After(c, run).shared), s, k) <==>
            Taken(c, run, i, s, k).None? || Held(c, run, i, s, k) == LastWritten(c, run, s, k)
  {
    AnswerIffAgrees(After(c, run).levels[i], After(c, run).shared, s, k);
    LevelIsHeld(c, run, i, s, k);
    SharedIsLastWritten(c, run, s, k);
  }

  // Agents with an L1 each, sharing the L2.
  class SharedCache {
    const l2: MemCache
    const agents: seq<WriteThrough>
    // Which agent each scope belongs to, should the agents respect that.
    ghost const owner: string -> nat

    constructor (agents: seq<WriteThrough>, l2: MemCache, ghost owner: string -> nat)
      requires forall i :: 0 <= i < |agents| ==> AgentWired(agents, l2, i)
      ensures Wired() && this.agents == agents && this.l2 == l2 && this.owner == owner
    {
      this.agents, this.l2, this.owner := agents, l2, owner;
    }

    static ghost predicate AgentWired(agents: seq<WriteThrough>, l2: MemCache, i: nat)
      requires i < |agents|
      reads set a | a in agents :: a.l1, set a | a in agents :: a.l2
    {
      && agents[i].l2 == l2 && agents[i].Wired()
      && forall j :: 0 <= j < |agents| && j != i ==> agents[j].l1 != agents[i].l1
    }

    ghost predicate Wired()
      reads set a | a in agents :: a.l1, set a | a in agents :: a.l2
    {
      forall i :: 0 <= i < |agents| ==> AgentWired(agents, l2, i)
    }

    ghost function Levels(): seq<Table>
      reads set a | a in agents :: a.l1
    {
      seq(|agents|, i requires 0 <= i < |agents| reads set a | a in agents :: a.l1 => agents[i].l1.data)
    }

    ghost function Stores(): Store
      reads set a | a in agents :: a.l1, l2
    {
      Store(Levels(), l2.data)
    }

    ghost predicate Disjoint()
      reads set a | a in agents :: a.l1, l2
    {
      DisjointLevels(Levels(), l2.data, owner)
    }

    ghost function View(): map<(string, string), Bytes>
      reads l2
    {
      Flat(l2.data)
    }

    lemma OthersApart(i: nat)
      requires Wired() && i < |agents|
      ensures agents[i].Wired() && agents[i].l2 == l2
      ensures forall m :: m in agents && m != agents[i] ==> m.l1 != agents[i].l1 && m.l1 != l2
    {
      assert AgentWired(agents, l2, i);
      forall m | m in agents && m != agents[i]
        ensures m.l1 != agents[i].l1 && m.l1 != l2
      {
        var j :| 0 <= j < |agents| && agents[j] == m;
        assert AgentWired(agents, l2, j);
      }
    }

    // Only agent i's L1 changed, and maybe the L2.
    twostate lemma LevelChanged(i: nat)
      requires old(Wired()) && i < |agents| && agents[i].Wired()
      requires forall m :: m in agents && m != agents[i] ==> m.l1.data == old(m.l1.data)
      ensures Wired() && Levels() == old(Levels())[i := agents[i].l1.data]
      ensures old(Levels())[i] == old(agents[i].l1.data)
    {
      forall j | 0 <= j < |agents|
        ensures AgentWired(agents, l2, j)
        ensures Levels()[j] == old(Levels())[i := agents[i].l1.data][j]
      {
        assert old(AgentWired(agents, l2, j)) && old(AgentWired(agents, l2, i));
        assert agents[j] in agents;
      }
    }

    // Any agent's write reaches the plain map.
    method Put(i: nat, scope: string, key: string, data: Bytes)
      requires Wired() && i < |agents|
      modifies agents[i].l1, l2
      ensures Wired() && View() == old(View())[(scope, key) := data]
      ensures Stores() == Step(old(Stores()), Write(i, scope, key, data))
      ensures old(Disjoint()) && owner(scope) == i ==> Disjoint()
    {
      ghost var before, b := Levels(), l2.data;
      OthersApart(i);
      agents[i].Put(scope, key, data);
      LevelChanged(i);
      if DisjointLevels(before, b, owner) && owner(scope) == i {
        OwnWriteStaysDisjoint(before, b, owner, i, scope, key, data);
      }
    }

    // Any agent's read answers as the plain map exactly if its L1 is not stale there.
    method Get(i: nat, scope: string, key: string) returns (r: Found)
      requires Wired() && i < |agents|
      modifies agents[i].l1
      ensures Wired() && View() == old(View())
      ensures r == Plain(View(), scope, key) <==> AgreesAt(old(Levels())[i], l2.data, scope, key)
      ensures r == Answer(old(Levels())[i], l2.data, scope, key)
      ensures Stores() == Step(old(Stores()), Read(i, scope, key))
      ensures old(Disjoint()) && owner(scope) == i ==> Disjoint()
    {
      ghost var before := Levels();
      OthersApart(i);
      AnswerIffAgrees(before[i], l2.data, scope, key);
      OwnReadStaysDisjoint(before, l2.data, owner, i, scope, key);
      r := Fetch(i, scope, key);
    }

    method Fetch(i: nat, scope: string, key: string) returns (r: Found)
      requires Wired() && i < |agents|
      modifies agents[i].l1
      ensures Wired()
      ensures r == Answer(old(Levels())[i], l2.data, scope, key)
      ensures Levels() == old(Levels())[i := Promoted(old(Levels())[i], l2.data, scope, key)]
    {
      OthersApart(i);
      r := agents[i].Fetch(scope, key);
      LevelChanged(i);
    }

    method Keys(i: nat, scope: string) returns (keys: seq<string>)
      requires Wired() && i < |agents|
      ensures Distinct(keys) && forall k :: k in keys <==> (scope, k) in Flat(Levels()[i]) || (scope, k) in View()
      ensures Within(Levels()[i], l2.data) ==> forall k :: k in keys <==> (scope, k) in View()
    {
      OthersApart(i);
      keys := agents[i].Keys(scope);
    }

    method Scopes(i: nat) returns (scopes: seq<string>)
      requires Wired() && i < |agents|
      ensures Distinct(scopes) && forall s :: s in scopes <==> s in Levels()[i] || exists k :: (s, k) in View()
      ensures Within(Levels()[i], l2.data) ==> forall s :: s in scopes <==> exists k :: (s, k) in View()
    {
      OthersApart(i);
      scopes := agents[i].Scopes();
    }

    method Len(i: nat) returns (n: nat)
      requires Wired() && i < |agents|
      ensures n == |View()|
    {
      OthersApart(i);
      n := agents[i].Len();
    }

    // An eviction does not show in the plain map.
    method Evict(i: nat, scope: string, key: string)
      requires Wired() && i < |agents|
      modifies agents[i].l1
      ensures Wired() && View() == old(View())
      ensures Stores() == Step(old(Stores()), Drop(i, scope, key))
      ensures old(Disjoint()) ==> Disjoint()
    {
      ghost var before := Levels();
      OthersApart(i);
      agents[i].Evict(scope, key);
      LevelChanged(i);
      AgreesEvicted(before[i], l2.data, scope, key);
      if DisjointLevels(before, l2.data, owner) {
        EvictionStaysDisjoint(before, l2.data, owner, i, Evicted(before[i], scope, key));
      }
    }

    method EvictScope(i: nat, scope: string)
      requires Wired() && i < |agents|
      modifies agents[i].l1
      ensures Wired() && View() == old(View())
      ensures Stores() == Step(old(Stores()), DropScope(i, scope))
      ensures old(Disjoint()) ==> Disjoint()
    {
      ghost var before := Levels();
      OthersApart(i);
      agents[i].EvictScope(scope);
      LevelChanged(i);
      AgreesScopeEvicted(before[i], l2.data, scope);
      if DisjointLevels(before, l2.data, owner) {
        EvictionStaysDisjoint(before, l2.data, owner, i, before[i] - {scope});
      }
    }
  }

  // A write through another agent goes unnoticed: agent 0 keeps reading its own entry.
  method ForeignWriteGoesStale() returns (shared: SharedCache, stale: Found)
    ensures fresh(shared) && fresh(shared.l2)
    ensures stale == Found([1]) && Plain(shared.View(), "s", "k") == Found([2])
  {
    var l2 := new MemCache();
    var a := new MemCache();
    var b := new MemCache();
    var first := new WriteThrough(a, l2);
    var second := new WriteThrough(b, l2);
    shared := new SharedCache([first, second], l2, (s: string) => 0);
    shared.Put(0, "s", "k", [1]);
    shared.Put(1, "s", "k", [2]);
    stale := shared.Get(0, "s", "k");
  }
}
