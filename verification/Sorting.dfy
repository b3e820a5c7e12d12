/** Sorted copies of integer sequences (Python's `sorted`). */
module Sorting {
  import opened StableSort

  predicate IsSorted(q: seq<int>) {
    forall i, j :: 0 <= i < j < |q| ==> q[i] <= q[j]
  }

  predicate AtMost(a: int, b: int) { a <= b }

  function Sort(q: seq<int>): seq<int> { SortBy(AtMost, q) }

  lemma SortSorts(q: seq<int>)
    ensures IsSorted(Sort(q)) && multiset(Sort(q)) == multiset(q) && |Sort(q)| == |q|
  {
    SortByIsStable(AtMost, q, 0);
    SortByKeeps(AtMost, q);
    assert forall i, j :: 0 <= i < j < |Sort(q)| ==> AtMost(Sort(q)[i], Sort(q)[j]);
  }

  lemma {:induction false} SortedIsUnique(a: seq<int>, b: seq<int>)
    requires IsSorted(a) && IsSorted(b) && multiset(a) == multiset(b)
    ensures a == b
  {
    SameLength(a, b);
    if a != [] {
      LeastFirst(a, b);
      LeastFirst(b, a);
      TailMultiset(a);
      TailMultiset(b);
      SortedIsUnique(a[1..], b[1..]);
      assert a == [a[0]] + a[1..] && b == [b[0]] + b[1..];
    }
  }

  lemma TailMultiset(a: seq<int>)
    requires a != []
    ensures multiset(a[1..]) == multiset(a) - multiset{a[0]}
  {
    assert a == [a[0]] + a[1..];
  }

  lemma LeastFirst(a: seq<int>, b: seq<int>)
    requires IsSorted(a) && a != [] && b != [] && multiset(a) == multiset(b)
    ensures a[0] <= b[0]
  {
    assert b[0] in multiset(a);
    var i :| 0 <= i < |a| && a[i] == b[0];
  }

  /** Any sorted rearrangement is the sorted copy. */
  lemma SortIs(q: seq<int>, s: seq<int>)
    requires IsSorted(s) && multiset(s) == multiset(q)
    ensures Sort(q) == s
  {
    SortSorts(q);
    SortedIsUnique(Sort(q), s);
  }

  function Drop<T>(b: seq<T>, k: nat): seq<T>
    requires k < |b|
  {
    b[..k] + b[k + 1..]
  }

  /** The first element of a sequence can be removed from any rearrangement of it. */
  lemma MatchFirst<T>(a: seq<T>, b: seq<T>) returns (k: nat)
    requires a != [] && multiset(a) == multiset(b)
    ensures k < |b| && b[k] == a[0] && multiset(a[1..]) == multiset(Drop(b, k))
    ensures b == b[..k] + [a[0]] + b[k + 1..] && Drop(b, k) == b[..k] + b[k + 1..]
  {
    assert a[0] in multiset(b);
    k :| 0 <= k < |b| && b[k] == a[0];
    assert a == [a[0]] + a[1..] && b == b[..k] + [b[k]] + b[k + 1..];
    assert multiset(a[1..]) == multiset(a) - multiset{a[0]};
    assert multiset(Drop(b, k)) == multiset(b) - multiset{a[0]};
  }

  lemma SameLength<T>(a: seq<T>, b: seq<T>)
    requires multiset(a) == multiset(b)
    ensures |a| == |b|
  {
    assert |multiset(a)| == |multiset(b)|;
  }

  function Scaled(q: seq<int>, k: int): (s: seq<int>)
    ensures |s| == |q| && forall i :: 0 <= i < |q| ==> s[i] == q[i] * k
  {
    seq(|q|, i requires 0 <= i < |q| => q[i] * k)
  }

  lemma ProductOrder(a: int, b: int, k: int)
    requires k > 0
    ensures a <= b <==> a * k <= b * k
  {
    if a <= b { assert (b - a) * k >= 0; } else { assert (a - b) * k > 0; }
  }

  lemma {:induction false} ScaleInsert(x: int, q: seq<int>, k: int)
    requires k > 0
    ensures InsertBy(AtMost, x * k, Scaled(q, k)) == Scaled(InsertBy(AtMost, x, q), k)
  {
    if q == [] {
      assert Scaled([x], k) == [x * k];
    } else {
      ProductOrder(x, q[0], k);
      if x <= q[0] {
        assert Scaled([x] + q, k) == [x * k] + Scaled(q, k);
      } else {
        ScaleInsert(x, q[1..], k);
        assert Scaled(q, k)[1..] == Scaled(q[1..], k);
        assert Scaled([q[0]] + InsertBy(AtMost, x, q[1..]), k) == [q[0] * k] + Scaled(InsertBy(AtMost, x, q[1..]), k);
      }
    }
  }

  lemma {:induction false} ScaleSort(q: seq<int>, k: int)
    requires k > 0
    ensures Sort(Scaled(q, k)) == Scaled(Sort(q), k)
  {
    if q != [] {
      ScaleSort(q[1..], k);
      assert Scaled(q, k)[1..] == Scaled(q[1..], k);
      ScaleInsert(q[0], Sort(q[1..]), k);
    }
  }
}
