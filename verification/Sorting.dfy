// Sorting of identifiers. Only the order of identifiers matters to the
// algorithms that sort them, so an identifier is its rank in that order.
module Sorting {

  datatype Id = Id(rank: int) {
    predicate Le(other: Id) {
      rank <= other.rank
    }

    predicate Lt(other: Id) {
      rank < other.rank
    }
  }

  ghost predicate Sorted(s: seq<Id>) {
    forall i, j :: 0 <= i < j < |s| ==> s[i].Le(s[j])
  }

  ghost predicate StrictlySorted(s: seq<Id>) {
    forall i, j :: 0 <= i < j < |s| ==> s[i].Lt(s[j])
  }

  ghost predicate Distinct<T>(s: seq<T>) {
    forall i, j :: 0 <= i < j < |s| ==> s[i] != s[j]
  }

  ghost function Elems<T>(s: seq<T>): set<T> {
    set x | x in s
  }

  lemma ElemsNext<T>(s: seq<T>, i: nat)
    requires i < |s|
    ensures Elems(s[..i + 1]) == Elems(s[..i]) + {s[i]}
  {
    assert s[..i + 1] == s[..i] + [s[i]];
  }

  function Insert(x: Id, s: seq<Id>): (r: seq<Id>)
    ensures multiset(r) == multiset(s) + multiset{x}
  {
    if s == [] || x.Le(s[0]) then [x] + s
    else
      assert s == [s[0]] + s[1..];
      [s[0]] + Insert(x, s[1..])
  }

  lemma {:induction false} InsertElems(x: Id, s: seq<Id>)
    ensures forall y :: y in Insert(x, s) <==> y == x || y in s
  {
    assert forall y :: y in Insert(x, s) <==> y in multiset(Insert(x, s));
    assert forall y :: y in s <==> y in multiset(s);
  }

  lemma {:induction false} InsertSorted(x: Id, s: seq<Id>)
    requires Sorted(s)
    ensures Sorted(Insert(x, s))
  {
    if s != [] && s[0].Lt(x) {
      var t := Insert(x, s[1..]);
      InsertSorted(x, s[1..]);
      InsertElems(x, s[1..]);
      forall i | 0 <= i < |t|
        ensures s[0].Le(t[i])
      {
        assert t[i] in t;
      }
    }
  }

  // What sort.Strings leaves in the slice.
  function SortIds(s: seq<Id>): (r: seq<Id>)
    ensures Sorted(r) && multiset(r) == multiset(s)
  {
    if s == [] then [] else
      assert s == [s[0]] + s[1..];
      InsertSorted(s[0], SortIds(s[1..]));
      Insert(s[0], SortIds(s[1..]))
  }

  lemma {:induction false} SortIdsElems(s: seq<Id>)
    ensures |SortIds(s)| == |s|
    ensures forall x :: x in SortIds(s) <==> x in s
  {
    var r := SortIds(s);
    assert |multiset(r)| == |multiset(s)|;
    assert forall x :: x in r <==> x in multiset(r);
    assert forall x :: x in s <==> x in multiset(s);
  }

  lemma {:induction false} DistinctCount<T>(s: seq<T>, x: T)
    requires Distinct(s) && x in s
    ensures multiset(s)[x] == 1
  {
    assert s == [s[0]] + s[1..];
    if s[0] != x {
      DistinctCount(s[1..], x);
    } else {
      assert x !in s[1..];
    }
  }

  lemma TwiceCounted<T>(s: seq<T>, i: nat, j: nat)
    requires i < j < |s| && s[i] == s[j]
    ensures multiset(s)[s[i]] >= 2
  {
    assert s == s[..j] + s[j..];
    assert s[..j][i] in multiset(s[..j]) && s[j..][0] in multiset(s[j..]);
  }

  lemma {:induction false} SortIdsDistinct(s: seq<Id>)
    requires Distinct(s)
    ensures StrictlySorted(SortIds(s)) && |SortIds(s)| == |s|
    ensures forall x :: x in SortIds(s) <==> x in s
  {
    var r := SortIds(s);
    SortIdsElems(s);
    forall i, j | 0 <= i < j < |r|
      ensures r[i].Lt(r[j])
    {
      if r[i] == r[j] {
        TwiceCounted(r, i, j);
        assert r[i] in r;
        DistinctCount(s, r[i]);
      }
    }
  }

  // The sorted listing of a set is unique.
  lemma {:induction false} StrictlySortedUnique(a: seq<Id>, b: seq<Id>)
    requires StrictlySorted(a) && StrictlySorted(b)
    requires forall x :: x in a <==> x in b
    ensures a == b
  {
    assert a != [] ==> a[0] in a && a[0] in b;
    assert b != [] ==> b[0] in b && b[0] in a;
    if a != [] {
      assert a[0] == b[0];
      forall x
        ensures x in a[1..] <==> x in b[1..]
      {
        assert x in a[1..] ==> x in a && x != a[0];
        assert x in b[1..] ==> x in b && x != b[0];
        assert x in a && x != a[0] ==> x in a[1..] by { assert a == [a[0]] + a[1..]; }
        assert x in b && x != b[0] ==> x in b[1..] by { assert b == [b[0]] + b[1..]; }
      }
      StrictlySortedUnique(a[1..], b[1..]);
      assert a == [a[0]] + a[1..] && b == [b[0]] + b[1..];
    }
  }

  lemma DistinctConcat<T>(a: seq<T>, b: seq<T>)
    requires Distinct(a) && Distinct(b) && Elems(a) !! Elems(b)
    ensures Distinct(a + b) && Elems(a + b) == Elems(a) + Elems(b)
  {
    assert forall x :: x in a ==> x in Elems(a);
    assert forall x :: x in b ==> x in Elems(b);
    forall i, j | 0 <= i < j < |a + b|
      ensures (a + b)[i] != (a + b)[j]
    {
      if i < |a| <= j {
        assert a[i] in a && b[j - |a|] in b;
      }
    }
  }
}
