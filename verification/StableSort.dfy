/** Stable sorting by a total preorder (Python's `sorted` with a key). */
module StableSort {
  ghost predicate IsOrder<T(!new)>(leq: (T, T) -> bool) {
    && (forall a, b :: leq(a, b) || leq(b, a))
    && (forall a, b, c :: leq(a, b) && leq(b, c) ==> leq(a, c))
  }

  predicate IsSortedBy<T>(leq: (T, T) -> bool, q: seq<T>) {
    forall i, j :: 0 <= i < j < |q| ==> leq(q[i], q[j])
  }

  function InsertBy<T>(leq: (T, T) -> bool, x: T, q: seq<T>): seq<T> {
    if q == [] || leq(x, q[0]) then [x] + q else [q[0]] + InsertBy(leq, x, q[1..])
  }

  function SortBy<T>(leq: (T, T) -> bool, q: seq<T>): seq<T> {
    if q == [] then [] else InsertBy(leq, q[0], SortBy(leq, q[1..]))
  }

  /** The elements that rank equal with a. */
  function Ties<T>(leq: (T, T) -> bool, a: T, q: seq<T>): seq<T> {
    if q == [] then [] else (if leq(a, q[0]) && leq(q[0], a) then [q[0]] else []) + Ties(leq, a, q[1..])
  }

  lemma {:induction false} InsertIsIn<T>(leq: (T, T) -> bool, x: T, q: seq<T>)
    ensures multiset(InsertBy(leq, x, q)) == multiset(q) + multiset{x}
  {
    if q != [] && !leq(x, q[0]) {
      InsertIsIn(leq, x, q[1..]);
      assert q == [q[0]] + q[1..];
    }
  }

  lemma {:induction false} InsertOrders<T(!new)>(leq: (T, T) -> bool, x: T, q: seq<T>)
    requires IsOrder(leq) && IsSortedBy(leq, q)
    ensures IsSortedBy(leq, InsertBy(leq, x, q))
  {
    if q != [] && !leq(x, q[0]) {
      InsertOrders(leq, x, q[1..]);
      InsertIsIn(leq, x, q[1..]);
      var r := InsertBy(leq, x, q[1..]);
      forall i | 0 <= i < |r| ensures leq(q[0], r[i]) {
        assert r[i] in multiset(r);
        assert r[i] == x || r[i] in q[1..];
      }
    }
  }

  lemma {:induction false} InsertKeepsTies<T(!new)>(leq: (T, T) -> bool, a: T, x: T, q: seq<T>)
    requires IsOrder(leq)
    ensures Ties(leq, a, InsertBy(leq, x, q)) == Ties(leq, a, [x] + q)
  {
    assert ([x] + q)[1..] == q;
    if q != [] && !leq(x, q[0]) {
      InsertKeepsTies(leq, a, x, q[1..]);
      assert ([x] + q[1..])[1..] == q[1..];
    }
  }

  /** The result is sorted, holds the same elements, and keeps the order of elements that rank equal. */
  lemma {:induction false} SortByIsStable<T(!new)>(leq: (T, T) -> bool, q: seq<T>, a: T)
    requires IsOrder(leq)
    ensures IsSortedBy(leq, SortBy(leq, q)) && multiset(SortBy(leq, q)) == multiset(q)
    ensures Ties(leq, a, SortBy(leq, q)) == Ties(leq, a, q)
  {
    if q != [] {
      var rest := SortBy(leq, q[1..]);
      SortByIsStable(leq, q[1..], a);
      InsertOrders(leq, q[0], rest);
      InsertIsIn(leq, q[0], rest);
      InsertKeepsTies(leq, a, q[0], rest);
      assert q == [q[0]] + q[1..];
      assert ([q[0]] + rest)[1..] == rest;
    }
  }

  lemma SortByKeeps<T>(leq: (T, T) -> bool, q: seq<T>)
    ensures multiset(SortBy(leq, q)) == multiset(q) && |SortBy(leq, q)| == |q|
  {
    if q != [] {
      SortByKeeps(leq, q[1..]);
      InsertIsIn(leq, q[0], SortBy(leq, q[1..]));
      assert q == [q[0]] + q[1..];
    }
    assert |multiset(SortBy(leq, q))| == |multiset(q)|;
  }
}
