// The in-memory cache (cache/mem.go) and the write-through wrapper
// (cache/writethrough.go).
module Caches {
  import opened Sorting

  type Bytes = seq<bv8>

  type Table = map<string, map<string, Bytes>>

  datatype Found = Missing | Found(data: Bytes)

  // The plain map from scopes and keys that a table stands for.
  ghost function Flat(t: Table): map<(string, string), Bytes> {
    map s, k | s in t && k in t[s] :: (s, k) := t[s][k]
  }

  ghost function KeysIn(t: Table, scope: string): set<string> {
    if scope in t then t[scope].Keys else {}
  }

  // No scope is left without keys.
  ghost predicate NoneEmpty(t: Table) {
    forall s :: s in t ==> t[s] != map[]
  }

  ghost function Lookup(t: Table, scope: string, key: string): Found {
    if scope in t && key in t[scope] then Found(t[scope][key]) else Missing
  }

  // What a lookup in a plain map finds.
  ghost function Plain(m: map<(string, string), Bytes>, scope: string, key: string): Found {
    if (scope, key) in m then Found(m[(scope, key)]) else Missing
  }

  lemma PlainIsLookup(t: Table, scope: string, key: string)
    ensures Plain(Flat(t), scope, key) == Lookup(t, scope, key)
  {
  }

  // a holds nothing at this entry, or what b holds.
  ghost predicate AgreesAt(a: Table, b: Table, scope: string, key: string) {
    Lookup(a, scope, key) == Missing || Lookup(a, scope, key) == Lookup(b, scope, key)
  }

  // Every entry of a is one of b.
  ghost predicate Within(a: Table, b: Table) {
    forall s, k :: AgreesAt(a, b, s, k)
  }

  ghost function Stored(t: Table, scope: string, key: string, data: Bytes): Table {
    t[scope := (if scope in t then t[scope] else map[])[key := data]]
  }

  ghost function Evicted(t: Table, scope: string, key: string): Table {
    if scope !in t then t
    else if t[scope] - {key} == map[] then t - {scope}
    else t[scope := t[scope] - {key}]
  }

  // Storing an entry updates the plain map at that entry, evicting one removes it.
  lemma StoredFlat(t: Table, scope: string, key: string, data: Bytes)
    ensures Flat(Stored(t, scope, key, data)) == Flat(t)[(scope, key) := data]
  {
    var f, g := Flat(Stored(t, scope, key, data)), Flat(t)[(scope, key) := data];
    forall p: (string, string)
      ensures Plain(f, p.0, p.1) == Plain(g, p.0, p.1)
    {
      LookupStored(t, scope, key, data, p.0, p.1);
      PlainIsLookup(Stored(t, scope, key, data), p.0, p.1);
      PlainIsLookup(t, p.0, p.1);
    }
    SamePlain(f, g);
  }

  lemma LookupStored(t: Table, scope: string, key: string, data: Bytes, s: string, k: string)
    ensures Lookup(Stored(t, scope, key, data), s, k) == if (s, k) == (scope, key) then Found(data) else Lookup(t, s, k)
  {
  }

  lemma SamePlain(f: map<(string, string), Bytes>, g: map<(string, string), Bytes>)
    requires forall s, k :: Plain(f, s, k) == Plain(g, s, k)
    ensures f == g
  {
    forall p: (string, string)
      ensures p in f <==> p in g
      ensures p in f ==> f[p] == g[p]
    {
      assert Plain(f, p.0, p.1) == Plain(g, p.0, p.1);
    }
  }

  lemma StoredNoneEmpty(t: Table, scope: string, key: string, data: Bytes)
    requires NoneEmpty(t)
    ensures NoneEmpty(Stored(t, scope, key, data))
  {
    assert key in Stored(t, scope, key, data)[scope];
  }

  lemma EvictedFlat(t: Table, scope: string, key: string)
    ensures Flat(Evicted(t, scope, key)) == Flat(t) - {(scope, key)}
  {
    var f, g := Flat(Evicted(t, scope, key)), Flat(t) - {(scope, key)};
    forall s, k
      ensures Plain(f, s, k) == Plain(g, s, k)
    {
      LookupEvicted(t, scope, key, s, k);
      PlainIsLookup(Evicted(t, scope, key), s, k);
      PlainIsLookup(t, s, k);
    }
    SamePlain(f, g);
  }

  // All entries of one scope.
  ghost function EntriesOf(m: map<(string, string), Bytes>, scope: string): set<(string, string)> {
    set p | p in m && p.0 == scope
  }

  lemma ScopeEvictedFlat(t: Table, scope: string)
    ensures Flat(t - {scope}) == Flat(t) - EntriesOf(Flat(t), scope)
  {
    var f, g := Flat(t - {scope}), Flat(t) - EntriesOf(Flat(t), scope);
    forall s, k
      ensures Plain(f, s, k) == Plain(g, s, k)
    {
      LookupScopeEvicted(t, scope, s, k);
      PlainIsLookup(t - {scope}, s, k);
      PlainIsLookup(t, s, k);
      WithoutScope(Flat(t), scope, s, k);
    }
    SamePlain(f, g);
  }

  lemma WithoutScope(m: map<(string, string), Bytes>, scope: string, s: string, k: string)
    ensures Plain(m - EntriesOf(m, scope), s, k) == if s == scope then Missing else Plain(m, s, k)
  {
    assert (s, k) in EntriesOf(m, scope) <==> (s, k) in m && s == scope;
  }

  lemma LookupEvicted(t: Table, scope: string, key: string, s: string, k: string)
    ensures Lookup(Evicted(t, scope, key), s, k) == if (s, k) == (scope, key) then Missing else Lookup(t, s, k)
  {
    if s == scope && scope in t && k in t[scope] && k != key {
      assert k in t[scope] - {key};
    }
  }

  lemma EvictedNoneEmpty(t: Table, scope: string, key: string)
    requires NoneEmpty(t)
    ensures NoneEmpty(Evicted(t, scope, key))
  {
  }

  // ----- Where one table agrees with another -----

  lemma AgreesStored(a: Table, b: Table, scope: string, key: string, data: Bytes)
    ensures forall s, k :: AgreesAt(Stored(a, scope, key, data), Stored(b, scope, key, data), s, k) <==>
                           (s, k) == (scope, key) || AgreesAt(a, b, s, k)
  {
    forall s, k
      ensures AgreesAt(Stored(a, scope, key, data), Stored(b, scope, key, data), s, k) <==>
              (s, k) == (scope, key) || AgreesAt(a, b, s, k)
    {
      LookupStored(a, scope, key, data, s, k);
      LookupStored(b, scope, key, data, s, k);
    }
  }

  // The first level answers if it can; a hit in the second is promoted to the first.
  ghost function Answer(a: Table, b: Table, scope: string, key: string): Found {
    if Lookup(a, scope, key).Found? then Lookup(a, scope, key) else Lookup(b, scope, key)
  }

  ghost function Promoted(a: Table, b: Table, scope: string, key: string): Table {
    var r := Lookup(b, scope, key);
    if Lookup(a, scope, key).Missing? && r.Found? then Stored(a, scope, key, r.data) else a
  }

  lemma PromotedBy(a: Table, b: Table, scope: string, key: string)
    ensures Lookup(a, scope, key).Found? || Lookup(b, scope, key).Missing? ==> Promoted(a, b, scope, key) == a
    ensures Lookup(a, scope, key).Missing? && Lookup(b, scope, key).Found? ==>
              Promoted(a, b, scope, key) == Stored(a, scope, key, Lookup(b, scope, key).data)
  {
  }

  lemma AgreesPromoted(a: Table, b: Table, scope: string, key: string)
    ensures forall s, k :: AgreesAt(Promoted(a, b, scope, key), b, s, k) <==> AgreesAt(a, b, s, k)
    ensures Within(Promoted(a, b, scope, key), b) <==> Within(a, b)
  {
    var r := Lookup(b, scope, key);
    if Lookup(a, scope, key).Missing? && r.Found? {
      forall s, k
        ensures AgreesAt(Stored(a, scope, key, r.data), b, s, k) <==> AgreesAt(a, b, s, k)
      {
        LookupStored(a, scope, key, r.data, s, k);
      }
    }
  }

  // The answer is that of the plain map exactly if the first level is not stale there.
  lemma AnswerIffAgrees(a: Table, b: Table, scope: string, key: string)
    ensures Answer(a, b, scope, key) == Plain(Flat(b), scope, key) <==> AgreesAt(a, b, scope, key)
  {
    PlainIsLookup(b, scope, key);
  }

  // A write that passes a by.
  lemma AgreesPassedBy(a: Table, b: Table, scope: string, key: string, data: Bytes)
    ensures forall s, k :: AgreesAt(a, Stored(b, scope, key, data), s, k) <==>
      if (s, k) == (scope, key) then Lookup(a, s, k) in {Missing, Found(data)} else AgreesAt(a, b, s, k)
  {
    forall s, k
      ensures AgreesAt(a, Stored(b, scope, key, data), s, k) <==>
        if (s, k) == (scope, key) then Lookup(a, s, k) in {Missing, Found(data)} else AgreesAt(a, b, s, k)
    {
      LookupStored(b, scope, key, data, s, k);
    }
  }

  lemma AgreesEvicted(a: Table, b: Table, scope: string, key: string)
    ensures forall s, k :: AgreesAt(Evicted(a, scope, key), b, s, k) <==> (s, k) == (scope, key) || AgreesAt(a, b, s, k)
  {
    forall s, k
      ensures AgreesAt(Evicted(a, scope, key), b, s, k) <==> (s, k) == (scope, key) || AgreesAt(a, b, s, k)
    {
      LookupEvicted(a, scope, key, s, k);
    }
  }

  lemma LookupScopeEvicted(t: Table, scope: string, s: string, k: string)
    ensures Lookup(t - {scope}, s, k) == if s == scope then Missing else Lookup(t, s, k)
  {
  }

  lemma AgreesScopeEvicted(a: Table, b: Table, scope: string)
    ensures forall s, k :: AgreesAt(a - {scope}, b, s, k) <==> s == scope || AgreesAt(a, b, s, k)
  {
    forall s, k
      ensures AgreesAt(a - {scope}, b, s, k) <==> s == scope || AgreesAt(a, b, s, k)
    {
      LookupScopeEvicted(a, scope, s, k);
    }
  }

  // ----- Sizes -----

  ghost function SizeOf(t: Table, scopes: set<string>): nat
    requires scopes <= t.Keys
  {
    |set s, k | s in scopes && k in t[s] :: (s, k)|
  }

  lemma SizeAdd(t: Table, scopes: set<string>, s: string)
    requires scopes <= t.Keys && s in t && s !in scopes
    ensures SizeOf(t, scopes + {s}) == SizeOf(t, scopes) + |t[s]|
  {
    var a := set x, k | x in scopes && k in t[x] :: (x, k);
    var b := set k | k in t[s].Keys :: (s, k);
    assert (set x, k | x in scopes + {s} && k in t[x] :: (x, k)) == a + b;
    PairSize(t[s].Keys, s);
  }

  lemma {:induction false} PairSize(keys: set<string>, s: string)
    ensures |set k | k in keys :: (s, k)| == |keys|
  {
    if keys == {} {
      assert (set k | k in keys :: (s, k)) == {};
    } else {
      var x :| x in keys;
      PairSize(keys - {x}, s);
      assert (set k | k in keys :: (s, k)) == (set k | k in keys - {x} :: (s, k)) + {(s, x)};
    }
  }

  lemma SizeAll(t: Table)
    ensures SizeOf(t, t.Keys) == |Flat(t)|
  {
    assert (set s, k | s in t.Keys && k in t[s] :: (s, k)) == Flat(t).Keys;
  }

  class MemCache {
    var data: Table

    ghost predicate Valid()
      reads this
    {
      NoneEmpty(data)
    }

    constructor ()
      ensures Valid() && data == map[]
    {
      data := map[];
    }

    method Put(scope: string, key: string, value: Bytes)
      requires Valid()
      modifies this
      ensures Valid() && data == Stored(old(data), scope, key, value)
      ensures Flat(data) == old(Flat(data))[(scope, key) := value]
    {
      ghost var before := data;
      if scope !in data {
        data := data[scope := map[]];
      }
      data := data[scope := data[scope][key := value]];
      assert data == Stored(before, scope, key, value);
      StoredNoneEmpty(before, scope, key, value);
      StoredFlat(before, scope, key, value);
    }

    method Get(scope: string, key: string) returns (r: Found)
      ensures r == Lookup(data, scope, key) == Plain(Flat(data), scope, key)
    {
      if scope !in data || key !in data[scope] {
        return Missing;
      }
      return Found(data[scope][key]);
    }

    method Keys(scope: string) returns (keys: seq<string>)
      ensures Distinct(keys) && Elems(keys) == KeysIn(data, scope)
      ensures forall k :: k in keys <==> (scope, k) in Flat(data)
    {
      if scope !in data {
        return [];
      }
      keys := ListAll(data[scope].Keys);
    }

    // A scope goes with its last key.
    method Evict(scope: string, key: string)
      requires Valid()
      modifies this
      ensures Valid() && data == Evicted(old(data), scope, key)
      ensures Flat(data) == old(Flat(data)) - {(scope, key)}
    {
      ghost var before := data;
      if scope in data {
        var left := data[scope] - {key};
        data := data[scope := left];
        if left == map[] {
          data := data - {scope};
          assert data == before - {scope};
        }
      }
      assert data == Evicted(before, scope, key);
      EvictedNoneEmpty(before, scope, key);
      EvictedFlat(before, scope, key);
    }

    method EvictScope(scope: string)
      requires Valid()
      modifies this
      ensures Valid() && data == old(data) - {scope}
      ensures Flat(data) == old(Flat(data)) - EntriesOf(old(Flat(data)), scope)
    {
      ScopeEvictedFlat(data, scope);
      data := data - {scope};
    }

    method Scopes() returns (scopes: seq<string>)
      ensures Distinct(scopes) && Elems(scopes) == data.Keys
    {
      scopes := ListAll(data.Keys);
    }

    method Len() returns (total: nat)
      ensures total == |Flat(data)|
    {
      total := 0;
      var rest := data.Keys;
      while rest != {}
        invariant rest <= data.Keys && total == SizeOf(data, data.Keys - rest)
      {
        var s :| s in rest;
        SizeAdd(data, data.Keys - rest, s);
        assert data.Keys - (rest - {s}) == data.Keys - rest + {s};
        rest := rest - {s};
        total := total + |data[s]|;
      }
      assert data.Keys - rest == data.Keys;
      SizeAll(data);
    }
  }

  method ListAll(s: set<string>) returns (r: seq<string>)
    ensures Distinct(r) && Elems(r) == s
  {
    r := [];
    var rest := s;
    while rest != {}
      invariant rest <= s && Distinct(r) && Elems(r) == s - rest
    {
      var x :| x in rest;
      rest := rest - {x};
      assert x !in Elems(r) && Elems(r + [x]) == Elems(r) + {x};
      r := r + [x];
    }
  }

  // The elements of b that are not in a yet, appended to a.
  method Merge(a: seq<string>, b: seq<string>) returns (r: seq<string>)
    ensures Distinct(r) && Elems(r) == Elems(a) + Elems(b)
  {
    r := AppendUnseen([], a);
    r := AppendUnseen(r, b);
  }

  method AppendUnseen(a: seq<string>, b: seq<string>) returns (r: seq<string>)
    requires Distinct(a)
    ensures Distinct(r) && Elems(r) == Elems(a) + Elems(b)
  {
    r := a;
    var seen := set x | x in a;
    for i := 0 to |b|
      invariant Distinct(r) && seen == Elems(r) == Elems(a) + Elems(b[..i])
    {
      assert Elems(b[..i + 1]) == Elems(b[..i]) + {b[i]};
      if b[i] !in seen {
        assert Elems(r + [b[i]]) == Elems(r) + {b[i]};
        r := r + [b[i]];
        seen := seen + {b[i]};
      }
    }
    assert b[..|b|] == b;
  }

  // ----- Write-through -----

  class WriteThrough {
    const l1: MemCache
    const l2: MemCache

    ghost predicate Wired()
      reads l1, l2
    {
      l1 != l2 && l1.Valid() && l2.Valid()
    }

    // L1 is not stale at this entry.
    ghost predicate Agrees(scope: string, key: string)
      reads l1, l2
    {
      AgreesAt(l1.data, l2.data, scope, key)
    }

    // Nothing in L1 is stale. It stays so while all writes of the scopes in L1 go
    // through this wrapper.
    ghost predicate Valid()
      reads l1, l2
    {
      Wired() && Within(l1.data, l2.data)
    }

    // The plain map the wrapper behaves as.
    ghost function View(): map<(string, string), Bytes>
      reads l2
    {
      Flat(l2.data)
    }

    constructor (l1: MemCache, l2: MemCache)
      requires l1 != l2 && l1.Valid() && l2.Valid()
      ensures Wired() && this.l1 == l1 && this.l2 == l2
      ensures l1.data == map[] ==> Valid()
    {
      this.l1, this.l2 := l1, l2;
    }

    method Put(scope: string, key: string, data: Bytes)
      requires Wired()
      modifies l1, l2
      ensures Wired() && View() == old(View())[(scope, key) := data]
      ensures l1.data == Stored(old(l1.data), scope, key, data) && l2.data == Stored(old(l2.data), scope, key, data)
      ensures forall s, k :: Agrees(s, k) <==> (s, k) == (scope, key) || old(Agrees(s, k))
      ensures old(Valid()) ==> Valid()
    {
      AgreesStored(l1.data, l2.data, scope, key, data);
      l1.Put(scope, key, data);
      l2.Put(scope, key, data);
    }

    // The answer is the plain map's exactly if L1 is not stale there.
    method Get(scope: string, key: string) returns (r: Found)
      requires Wired()
      modifies l1
      ensures Wired() && View() == old(View())
      ensures r == Answer(old(l1.data), l2.data, scope, key) && l1.data == Promoted(old(l1.data), l2.data, scope, key)
      ensures r == Plain(View(), scope, key) <==> old(Agrees(scope, key))
      ensures Valid() <==> old(Valid())
    {
      AnswerIffAgrees(l1.data, l2.data, scope, key);
      AgreesPromoted(l1.data, l2.data, scope, key);
      r := Fetch(scope, key);
    }

    // L1 first, then L2 with promotion.
    method Fetch(scope: string, key: string) returns (r: Found)
      requires Wired()
      modifies l1
      ensures Wired()
      ensures r == Answer(old(l1.data), l2.data, scope, key) && l1.data == Promoted(old(l1.data), l2.data, scope, key)
    {
      PromotedBy(l1.data, l2.data, scope, key);
      r := l1.Get(scope, key);
      if r.Found? {
        return;
      }
      r := l2.Get(scope, key);
      if r.Found? {
        l1.Put(scope, key, r.data);
      }
    }

    method Keys(scope: string) returns (keys: seq<string>)
      requires Wired()
      ensures Distinct(keys) && forall k :: k in keys <==> (scope, k) in Flat(l1.data) || (scope, k) in View()
      ensures Valid() ==> forall k :: k in keys <==> (scope, k) in View()
    {
      var a := l1.Keys(scope);
      var b := l2.Keys(scope);
      keys := Merge(a, b);
      forall k
        ensures k in keys <==> (scope, k) in Flat(l1.data) || (scope, k) in View()
        ensures Valid() ==> (k in keys <==> (scope, k) in View())
      {
        assert k in keys <==> k in Elems(keys);
        assert Valid() ==> Agrees(scope, k);
      }
    }

    method Evict(scope: string, key: string)
      requires Wired()
      modifies l1
      ensures Wired() && View() == old(View()) && l1.data == Evicted(old(l1.data), scope, key)
      ensures forall s, k :: Agrees(s, k) <==> (s, k) == (scope, key) || old(Agrees(s, k))
      ensures old(Valid()) ==> Valid()
    {
      AgreesEvicted(l1.data, l2.data, scope, key);
      l1.Evict(scope, key);
    }

    method EvictScope(scope: string)
      requires Wired()
      modifies l1
      ensures Wired() && View() == old(View()) && l1.data == old(l1.data) - {scope}
      ensures forall s, k :: Agrees(s, k) <==> s == scope || old(Agrees(s, k))
      ensures old(Valid()) ==> Valid()
    {
      AgreesScopeEvicted(l1.data, l2.data, scope);
      l1.EvictScope(scope);
    }

    // The scopes that have a key.
    method Scopes() returns (scopes: seq<string>)
      requires Wired()
      ensures Distinct(scopes) && forall s :: s in scopes <==> s in l1.data || exists k :: (s, k) in View()
      ensures Valid() ==> forall s :: s in scopes <==> exists k :: (s, k) in View()
    {
      var a := l1.Scopes();
      var b := l2.Scopes();
      scopes := Merge(a, b);
      ScopesHaveKeys(l1.data, l2.data);
      assert forall s :: s in scopes <==> s in Elems(scopes);
    }

    method Len() returns (n: nat)
      requires Wired()
      ensures n == |View()|
    {
      n := l2.Len();
    }
  }

  lemma ScopesHaveKeys(a: Table, b: Table)
    requires NoneEmpty(a) && NoneEmpty(b)
    ensures Within(a, b) ==> a.Keys <= b.Keys
    ensures forall s :: s in b <==> exists k :: (s, k) in Flat(b)
  {
    forall s
      ensures Within(a, b) && s in a ==> s in b
      ensures s in b <==> exists k :: (s, k) in Flat(b)
    {
      if Within(a, b) && s in a {
        var k :| k in a[s];
        assert AgreesAt(a, b, s, k);
      }
      if s in b {
        var k :| k in b[s];
        assert (s, k) in Flat(b);
      }
    }
  }
}
