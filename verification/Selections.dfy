// Picking some positions of a sequence, in order.
module Selections {

  // The positions of a set, in ascending order.
  ghost predicate Selects(idx: seq<nat>, positions: set<nat>) {
    && (forall j, k :: 0 <= j < k < |idx| ==> idx[j] < idx[k])
    && forall p :: p in idx <==> p in positions
  }

  // One position more, behind all others, or none.
  lemma SelectsNext(idx: seq<nat>, positions: set<nat>, n: nat)
    requires Selects(idx, positions) && forall p :: p in positions ==> p < n
    ensures Selects(idx + [n], positions + {n})
  {
    forall j | 0 <= j < |idx|
      ensures idx[j] < n
    {
      assert idx[j] in idx;
    }
    forall p
      ensures p in idx + [n] <==> p in positions + {n}
    {
    }
  }

  lemma SelectsSame(idx: seq<nat>, a: set<nat>, b: set<nat>)
    requires Selects(idx, a) && a == b
    ensures Selects(idx, b)
  {
  }

  // out lists the elements of s at these positions, in order.
  ghost predicate Picks<T>(out: seq<T>, s: seq<T>, positions: set<nat>) {
    exists idx: seq<nat> :: Selects(idx, positions) && ListsAt(idx, out, s)
  }

  ghost predicate ListsAt<T>(idx: seq<nat>, out: seq<T>, s: seq<T>) {
    |out| == |idx| && forall t :: 0 <= t < |idx| ==> idx[t] < |s| && out[t] == s[idx[t]]
  }

  lemma PicksNothing<T>(s: seq<T>)
    ensures Picks([], s, {})
  {
    assert Selects([], {}) && ListsAt([], [], s);
  }

  // One element more, picked or not.
  lemma PicksNext<T>(out: seq<T>, s: seq<T>, positions: set<nat>, x: T)
    requires Picks(out, s, positions)
    ensures Picks(out + [x], s + [x], positions + {|s|})
    ensures Picks(out, s + [x], positions)
  {
    var idx: seq<nat> :| Selects(idx, positions) && ListsAt(idx, out, s);
    forall p | p in positions
      ensures p < |s|
    {
      assert p in idx;
    }
    SelectsNext(idx, positions, |s|);
    assert ListsAt(idx + [|s|], out + [x], s + [x]) && ListsAt(idx, out, s + [x]);
  }
}
