/** Finite counting facts used by several modules. */
module Counting {

  /** The numbers below n. */
  function UpTo(n: nat): (s: set<int>)
    ensures forall v :: v in s <==> 0 <= v < n
  {
    if n == 0 then {} else UpTo(n - 1) + {n - 1}
  }

  /** Counting below n the numbers not in the set, one at a time. */
  function ClearBelow(n: nat, marked: set<int>): nat {
    if n == 0 then 0 else ClearBelow(n - 1, marked) + if n - 1 in marked then 0 else 1
  }

  lemma {:induction false} ClearCount(n: nat, below: set<int>, marked: set<int>)
    requires forall v :: v in below <==> 0 <= v < n
    ensures ClearBelow(n, marked) == |below - marked|
  {
    if n == 0 {
      assert below - marked == {};
    } else {
      ClearCount(n - 1, below - {n - 1}, marked);
      RemoveOne(below, n - 1, marked);
    }
  }

  lemma RemoveOne(a: set<int>, x: int, marked: set<int>)
    requires x in a
    ensures |a - marked| == |a - {x} - marked| + if x in marked then 0 else 1
  {
    if x in marked {
      assert a - marked == a - {x} - marked;
    } else {
      assert a - marked == (a - {x} - marked) + {x};
    }
  }

  /** The count of the clear numbers is the size of the clear set. */
  lemma ClearBelowCounts(n: nat, marked: set<int>)
    ensures ClearBelow(n, marked) == |UpTo(n) - marked|
  {
    ClearCount(n, UpTo(n), marked);
  }

  lemma UpToCount(n: nat)
    ensures |UpTo(n)| == n
  {
    ClearBelowCounts(n, {});
    assert UpTo(n) - {} == UpTo(n);
    NothingMarked(n);
  }

  lemma {:induction false} NothingMarked(n: nat)
    ensures ClearBelow(n, {}) == n
  {
    if n > 0 { NothingMarked(n - 1); }
  }

  lemma SubsetCount<T>(a: set<T>, b: set<T>)
    requires a <= b
    ensures |a| <= |b|
    ensures |a| == |b| ==> a == b
  {
    assert b == a + (b - a);
  }

  /** The set of the elements of a sequence. */
  function Elements<T(!new)>(s: seq<T>): (r: set<T>)
    ensures forall x :: x in r <==> x in s
    ensures |r| <= |s|
  {
    if s == [] then {} else {s[0]} + Elements(s[1..])
  }

  predicate Distinct<T(==)>(s: seq<T>) {
    forall i, j :: 0 <= i < j < |s| ==> s[i] != s[j]
  }

  lemma {:induction false} DistinctCount<T(!new)>(s: seq<T>)
    requires Distinct(s)
    ensures |Elements(s)| == |s|
  {
    if s != [] {
      DistinctCount(s[1..]);
      assert s[0] !in s[1..];
    }
  }
}
