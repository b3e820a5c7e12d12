/** Outlier detection and price statistics of a sales history.  Prices are in ten-thousandths. */
module Valuation {
  import opened Wrappers
  import opened Sorting

  /** A parsed sale; `info` stands for date, currency and grades, which neither pass looks at. */
  datatype Row = Row(price: int, isOutlier: bool, info: string)

  datatype Fence = Fence(q1: int, q3: int) {
    function Lower(): int { q1 - 3 * (q3 - q1) }

    function Upper(): int { q3 + 3 * (q3 - q1) }

    predicate Outside(price: int) { price < Lower() || price > Upper() }
  }

  const MIN_ROWS := 5

  function Prices(rows: seq<Row>): (q: seq<int>)
    ensures |q| == |rows| && forall i :: 0 <= i < |q| ==> q[i] == rows[i].price
  {
    seq(|rows|, i requires 0 <= i < |rows| => rows[i].price)
  }

  function FenceOf(prices: seq<int>): Fence
    requires prices != []
  {
    SortSorts(prices);
    var s := Sort(prices);
    Fence(s[|s| / 4], s[3 * |s| / 4])
  }

  function Flag(f: Fence, r: Row): Row { r.(isOutlier := r.isOutlier || f.Outside(r.price)) }

  function FlagAll(f: Fence, rows: seq<Row>): (out: seq<Row>)
    ensures |out| == |rows| && forall i :: 0 <= i < |out| ==> out[i] == Flag(f, rows[i])
  {
    seq(|rows|, i requires 0 <= i < |rows| => Flag(f, rows[i]))
  }

  function Flagged(rows: seq<Row>): seq<Row> {
    if |rows| < MIN_ROWS then rows else FlagAll(FenceOf(Prices(rows)), rows)
  }

  function OutsideCount(f: Fence, prices: seq<int>): nat {
    if prices == [] then 0 else (if f.Outside(prices[0]) then 1 else 0) + OutsideCount(f, prices[1..])
  }

  lemma {:induction false} OutsideCountConcat(f: Fence, p: seq<int>, q: seq<int>)
    ensures OutsideCount(f, p + q) == OutsideCount(f, p) + OutsideCount(f, q)
  {
    if p == [] {
      assert p + q == q;
    } else {
      assert (p + q)[1..] == p[1..] + q;
      OutsideCountConcat(f, p[1..], q);
    }
  }

  /** `apply_outlier_detection`: flags the rows in place and returns `outlier_count`. */
  method ApplyOutlierDetection(rows: array<Row>) returns (count: nat)
    modifies rows
    ensures rows[..] == Flagged(old(rows[..]))
    ensures count == if rows.Length < MIN_ROWS then 0
                     else OutsideCount(FenceOf(Prices(old(rows[..]))), Prices(old(rows[..])))
  {
    if rows.Length < MIN_ROWS { return 0; }
    ghost var was := rows[..];
    var prices := Sort(Prices(rows[..]));
    SortSorts(Prices(was));
    var n := |prices|;
    var q1, q3 := prices[n / 4], prices[3 * n / 4];
    var fence := Fence(q1, q3);
    count := 0;
    for i := 0 to rows.Length
      invariant fence == FenceOf(Prices(was)) && |was| == rows.Length
      invariant forall j :: 0 <= j < i ==> rows[j] == Flag(fence, was[j])
      invariant forall j :: i <= j < rows.Length ==> rows[j] == was[j]
      invariant count == OutsideCount(fence, Prices(was)[..i])
    {
      OutsideCountConcat(fence, Prices(was)[..i], [was[i].price]);
      assert Prices(was)[..i + 1] == Prices(was)[..i] + [was[i].price];
      if fence.Outside(rows[i].price) {
        rows[i] := rows[i].(isOutlier := true);
        count := count + 1;
      }
    }
    assert Prices(was)[..|was|] == Prices(was);
    assert rows[..] == FlagAll(fence, was);
  }

  /** Prices of the rows that are not flagged. */
  function Kept(rows: seq<Row>): seq<int> {
    if rows == [] then [] else (if rows[0].isOutlier then [] else [rows[0].price]) + Kept(rows[1..])
  }

  datatype Stats = Empty | Stats(low: int, median: int, high: int, count: nat)

  function StatsOf(sorted: seq<int>): Stats {
    var n := |sorted|;
    if n == 0 then Empty
    else Stats(sorted[0], if n % 2 == 1 then sorted[n / 2] else sorted[n / 2 - 1], sorted[n - 1], n)
  }

  /** `compute_statistics`. */
  function Statistics(rows: seq<Row>): Stats { StatsOf(Sort(Kept(rows))) }

  /** With five rows or more a row is flagged, if it was not before, exactly when its price lies more than three
      interquartile ranges outside the quartiles of all prices; fewer rows stay as they are. */
  lemma FlaggedExactly(rows: seq<Row>, sorted: seq<int>, i: nat)
    requires i < |rows| && IsSorted(sorted) && multiset(sorted) == multiset(Prices(rows))
    ensures |sorted| == |rows| == |Flagged(rows)| && Flagged(rows)[i].price == rows[i].price
    ensures Flagged(rows)[i].info == rows[i].info
    ensures Flagged(rows)[i].isOutlier <==>
              (rows[i].isOutlier
               || (|rows| >= 5
                   && var q1, q3 := sorted[|rows| / 4], sorted[3 * |rows| / 4];
                   rows[i].price < q1 - 3 * (q3 - q1) || rows[i].price > q3 + 3 * (q3 - q1)))
  {
    assert |multiset(sorted)| == |multiset(Prices(rows))|;
    SortIs(Prices(rows), sorted);
  }

  // ---------------------------------------------------------------------------
  // The rows that are kept
  // ---------------------------------------------------------------------------

  /** Fence of already sorted prices. */
  function Quartiles(s: seq<int>): Fence
    requires s != []
  {
    Fence(s[|s| / 4], s[3 * |s| / 4])
  }

  function Inside(f: Fence, q: seq<int>): seq<int> {
    if q == [] then [] else (if f.Outside(q[0]) then [] else [q[0]]) + Inside(f, q[1..])
  }

  /** In sorted prices those inside the fence are a block that contains both quartile positions. */
  lemma InsideIsABlock(s: seq<int>) returns (lo: nat, hi: nat)
    requires |s| >= MIN_ROWS && IsSorted(s)
    ensures lo <= |s| / 4 && 3 * |s| / 4 <= hi < |s|
    ensures forall i :: 0 <= i < |s| ==> (lo <= i <= hi <==> !Quartiles(s).Outside(s[i]))
  {
    var f, n := Quartiles(s), |s|;
    lo := n / 4;
    while lo > 0 && !f.Outside(s[lo - 1])
      invariant lo <= n / 4
      invariant forall i :: lo <= i <= n / 4 ==> !f.Outside(s[i])
    {
      lo := lo - 1;
    }
    hi := 3 * n / 4;
    while hi + 1 < n && !f.Outside(s[hi + 1])
      invariant 3 * n / 4 <= hi < n
      invariant forall i :: 3 * n / 4 <= i <= hi ==> !f.Outside(s[i])
      decreases n - hi
    {
      hi := hi + 1;
    }
    forall i | 0 <= i < n ensures lo <= i <= hi <==> !f.Outside(s[i]) {
      if i < lo { assert s[i] <= s[lo - 1] && s[lo - 1] <= s[n / 4]; }
      else if i > hi { assert s[i] >= s[hi + 1] && s[hi + 1] >= s[3 * n / 4]; }
      else if n / 4 <= i <= 3 * n / 4 { assert s[n / 4] <= s[i] <= s[3 * n / 4]; }
    }
  }

  lemma BlockOfTail(s: seq<int>, lo: nat, end: nat)
    requires 1 <= lo <= end <= |s|
    ensures s[1..][lo - 1..end - 1] == s[lo..end]
  {}

  lemma {:induction false} InsideOfBlock(f: Fence, s: seq<int>, lo: nat, hi: nat)
    requires lo <= hi < |s|
    requires forall i :: 0 <= i < |s| ==> (lo <= i <= hi <==> !f.Outside(s[i]))
    ensures Inside(f, s) == s[lo..hi + 1] && OutsideCount(f, s) == |s| - (hi + 1 - lo)
    decreases |s|
  {
    if lo > 0 {
      InsideOfBlock(f, s[1..], lo - 1, hi - 1);
      BlockOfTail(s, lo, hi + 1);
    } else {
      InsideOfPrefix(f, s, hi + 1);
    }
  }

  lemma {:induction false} InsideOfPrefix(f: Fence, s: seq<int>, n: nat)
    requires n <= |s| && forall i :: 0 <= i < |s| ==> (i < n <==> !f.Outside(s[i]))
    ensures Inside(f, s) == s[..n] && OutsideCount(f, s) == |s| - n
    decreases |s|
  {
    if s != [] {
      InsideOfPrefix(f, s[1..], if n > 0 then n - 1 else 0);
      if n > 0 { assert s[..n] == [s[0]] + s[1..][..n - 1]; }
    }
  }

  lemma {:induction false} InsideMultiset(f: Fence, q: seq<int>, v: int)
    ensures multiset(Inside(f, q))[v] == if f.Outside(v) then 0 else multiset(q)[v]
    ensures OutsideCount(f, q) + |Inside(f, q)| == |q|
  {
    if q != [] {
      InsideMultiset(f, q[1..], v);
      assert q == [q[0]] + q[1..];
    }
  }

  lemma {:induction false} KeptIsInside(f: Fence, rows: seq<Row>)
    requires forall i :: 0 <= i < |rows| ==> !rows[i].isOutlier
    ensures Kept(FlagAll(f, rows)) == Inside(f, Prices(rows))
  {
    if rows != [] {
      KeptIsInside(f, rows[1..]);
      assert FlagAll(f, rows)[1..] == FlagAll(f, rows[1..]) && Prices(rows)[1..] == Prices(rows[1..]);
    }
  }

  /** Filtering and sorting commute. */
  lemma SortInside(f: Fence, q: seq<int>, s: seq<int>)
    requires IsSorted(s) && multiset(s) == multiset(q) && IsSorted(Inside(f, s))
    ensures Sort(Inside(f, q)) == Inside(f, s)
  {
    forall v ensures multiset(Inside(f, q))[v] == multiset(Inside(f, s))[v] {
      InsideMultiset(f, q, v);
      InsideMultiset(f, s, v);
    }
    SortIs(Inside(f, q), Inside(f, s));
  }

  /** For five or more rows, whatever the outliers are: the prices kept are a contiguous block
      [lo, hi] of the sorted prices that contains both quartile positions, fewer than half of the rows
      are flagged, low and high are the ends of the block, and the median is an observed price that
      lies between the quartiles of the full set. */
  lemma RobustMedian(rows: seq<Row>) returns (lo: nat, hi: nat)
    requires |rows| >= MIN_ROWS && forall i :: 0 <= i < |rows| ==> !rows[i].isOutlier
    ensures var n := |rows|;
            var s := Sort(Prices(rows));
            var t := Statistics(Flagged(rows));
            && |s| == n && lo <= n / 4 && 3 * n / 4 <= hi < n
            && (forall i :: 0 <= i < n ==> (lo <= i <= hi <==> !FenceOf(Prices(rows)).Outside(s[i])))
            && 2 * OutsideCount(FenceOf(Prices(rows)), Prices(rows)) < n
            && t == Stats(s[lo], s[lo + (hi - lo) / 2], s[hi], hi + 1 - lo)
            && s[n / 4] <= t.median <= s[3 * n / 4]
            && t.median in Prices(rows)
  {
    var prices := Prices(rows);
    var s := Sort(prices);
    SortSorts(prices);
    lo, hi := InsideIsABlock(s);
    KeptOfBlock(rows, s, lo, hi);
    hide *;
    StatsOfBlock(s, lo, hi);
    assert s[lo + (hi - lo) / 2] in multiset(prices);
  }

  lemma KeptOfBlock(rows: seq<Row>, s: seq<int>, lo: nat, hi: nat)
    requires |rows| >= MIN_ROWS && forall i :: 0 <= i < |rows| ==> !rows[i].isOutlier
    requires s == Sort(Prices(rows)) && lo <= hi < |s|
    requires forall i :: 0 <= i < |s| ==> (lo <= i <= hi <==> !FenceOf(Prices(rows)).Outside(s[i]))
    ensures Statistics(Flagged(rows)) == StatsOf(s[lo..hi + 1])
    ensures OutsideCount(FenceOf(Prices(rows)), Prices(rows)) == |rows| - (hi + 1 - lo)
  {
    var prices := Prices(rows);
    var f := FenceOf(prices);
    SortSorts(prices);
    InsideOfBlock(f, s, lo, hi);
    SortInside(f, prices, s);
    KeptIsInside(f, rows);
    InsideMultiset(f, prices, 0);
    SortSorts(Inside(f, prices));
  }

  lemma StatsOfBlock(s: seq<int>, lo: nat, hi: nat)
    requires |s| >= MIN_ROWS && IsSorted(s) && lo <= |s| / 4 && 3 * |s| / 4 <= hi < |s|
    ensures var n, mid := |s|, lo + (hi - lo) / 2;
            && StatsOf(s[lo..hi + 1]) == Stats(s[lo], s[mid], s[hi], hi + 1 - lo)
            && n / 4 <= mid <= 3 * n / 4 && s[n / 4] <= s[mid] <= s[3 * n / 4]
            && 2 * (n - (hi + 1 - lo)) < n
  {}

  /** How many prices are below x, and how many at most x. */
  function Below(q: seq<int>, x: int): nat { if q == [] then 0 else (if q[0] < x then 1 else 0) + Below(q[1..], x) }

  function AtMost(q: seq<int>, x: int): nat { if q == [] then 0 else (if q[0] <= x then 1 else 0) + AtMost(q[1..], x) }

  lemma {:induction false} RankInSorted(s: seq<int>, k: nat)
    requires IsSorted(s) && k < |s|
    ensures Below(s, s[k]) <= k < AtMost(s, s[k])
  {
    if k > 0 {
      RankInSorted(s[1..], k - 1);
      assert s[1..][k - 1] == s[k];
    } else {
      NoneBelow(s, s[0]);
    }
  }

  lemma {:induction false} NoneBelow(s: seq<int>, x: int)
    requires forall i :: 0 <= i < |s| ==> x <= s[i]
    ensures Below(s, x) == 0
  {
    if s != [] { NoneBelow(s[1..], x); }
  }

  lemma CountsConcat(p: seq<int>, q: seq<int>, x: int)
    ensures Below(p + q, x) == Below(p, x) + Below(q, x) && AtMost(p + q, x) == AtMost(p, x) + AtMost(q, x)
    decreases |p|
  {
    if p == [] {
      assert p + q == q;
    } else {
      assert (p + q)[1..] == p[1..] + q;
      CountsConcat(p[1..], q, x);
    }
  }

  lemma {:induction false} CountsPermuted(a: seq<int>, b: seq<int>, x: int)
    requires multiset(a) == multiset(b)
    ensures Below(a, x) == Below(b, x) && AtMost(a, x) == AtMost(b, x)
    decreases |a|
  {
    SameLength(a, b);
    if a == [] {
      assert b == [];
    } else {
      var k := MatchFirst(a, b);
      CountsPermuted(a[1..], Drop(b, k), x);
      CountsConcat(b[..k], [a[0]] + b[k + 1..], x);
      CountsConcat([a[0]], b[k + 1..], x);
      CountsConcat(b[..k], b[k + 1..], x);
      CountsConcat([a[0]], a[1..], x);
      assert a == [a[0]] + a[1..] && b == b[..k] + ([a[0]] + b[k + 1..]);
    }
  }

  /** The statistics of any rows: the count, the least and the greatest price that is not flagged, and as the median
      the one of which fewer than half of them are smaller and at least half are not greater. */
  lemma StatisticsExactly(rows: seq<Row>)
    ensures var q, t := Kept(rows), Statistics(rows);
            && (t.Empty? <==> q == [])
            && (q != [] ==>
                  && t.count == |q| && t.low in q && t.high in q && t.median in q
                  && (forall p :: p in q ==> t.low <= p <= t.high)
                  && 2 * Below(q, t.median) < |q| <= 2 * AtMost(q, t.median))
  {
    hide *;
    var q := Kept(rows);
    var s := Sort(q);
    SortSorts(q);
    StatisticsAre(rows);
    SameMembers(s, q);
    if q != [] {
      SortedStats(s);
      CountsPermuted(s, q, StatsOf(s).median);
    }
  }

  lemma StatisticsAre(rows: seq<Row>)
    ensures Statistics(rows) == StatsOf(Sort(Kept(rows))) && (StatsOf([]) == Empty)
    ensures Sort(Kept(rows)) != [] ==> Statistics(rows).Stats?
  {}

  lemma SameMembers(a: seq<int>, b: seq<int>)
    requires multiset(a) == multiset(b)
    ensures |a| == |b| && forall p :: p in a <==> p in b
  {
    SameLength(a, b);
    forall p ensures p in a <==> p in b { assert p in multiset(a) <==> p in multiset(b); }
  }

  lemma SortedStats(s: seq<int>)
    requires s != [] && IsSorted(s)
    ensures var t := StatsOf(s);
            && t.Stats? && t.count == |s| && t.low in s && t.high in s && t.median in s
            && (forall p :: p in s ==> t.low <= p <= t.high)
            && 2 * Below(s, t.median) < |s| <= 2 * AtMost(s, t.median)
  {
    var k := (|s| - 1) / 2;
    assert StatsOf(s).median == s[k];
    RankInSorted(s, k);
    hide Below, AtMost;
  }

  // ---------------------------------------------------------------------------
  // Order and scale
  // ---------------------------------------------------------------------------

  lemma PricesParts(p: seq<Row>, r: Row, q: seq<Row>)
    ensures Prices(p + [r] + q) == Prices(p) + [r.price] + Prices(q) && Prices(p + q) == Prices(p) + Prices(q)
    ensures Prices([r] + p) == [r.price] + Prices(p) && Prices([]) == []
  {}

  lemma {:induction false} PricesMultiset(a: seq<Row>, b: seq<Row>)
    requires multiset(a) == multiset(b)
    ensures multiset(Prices(a)) == multiset(Prices(b))
  {
    hide *;
    SameLength(a, b);
    if a == [] {
      assert a == b;
    } else {
      var k := MatchFirst(a, b);
      PricesMultiset(a[1..], Drop(b, k));
      PricesSplice(a[0], a[1..], b[..k], b[k + 1..]);
      assert a == [a[0]] + a[1..];
    }
  }

  lemma PricesSplice(r: Row, a: seq<Row>, p: seq<Row>, q: seq<Row>)
    requires multiset(Prices(a)) == multiset(Prices(p + q))
    ensures multiset(Prices([r] + a)) == multiset(Prices(p + [r] + q))
  {
    hide *;
    PricesParts(p, r, q);
    PricesParts(a, r, []);
  }

  lemma {:induction false} KeptMultiset(a: seq<Row>, b: seq<Row>)
    requires multiset(a) == multiset(b)
    ensures multiset(Kept(a)) == multiset(Kept(b))
  {
    SameLength(a, b);
    if a != [] {
      var k := MatchFirst(a, b);
      KeptMultiset(a[1..], Drop(b, k));
      var one := if a[0].isOutlier then [] else [a[0].price];
      assert Kept([a[0]]) == one;
      var p, q := Kept(b[..k]), Kept(b[k + 1..]);
      KeptConcat(b[..k], b[k + 1..]);
      KeptConcat(b[..k], [a[0]]);
      KeptConcat(b[..k] + [a[0]], b[k + 1..]);
      assert Kept(b) == p + one + q && Kept(Drop(b, k)) == p + q;
    }
  }

  lemma {:induction false} KeptConcat(p: seq<Row>, q: seq<Row>)
    ensures Kept(p + q) == Kept(p) + Kept(q)
  {
    if p == [] {
      assert p + q == q;
    } else {
      assert (p + q)[1..] == p[1..] + q;
      KeptConcat(p[1..], q);
    }
  }

  lemma FlagParts(f: Fence, p: seq<Row>, r: Row, q: seq<Row>)
    ensures FlagAll(f, p + [r] + q) == FlagAll(f, p) + [Flag(f, r)] + FlagAll(f, q)
    ensures FlagAll(f, p + q) == FlagAll(f, p) + FlagAll(f, q) && FlagAll(f, []) == []
  {}

  lemma {:induction false} FlagMultiset(f: Fence, a: seq<Row>, b: seq<Row>)
    requires multiset(a) == multiset(b)
    ensures multiset(FlagAll(f, a)) == multiset(FlagAll(f, b))
  {
    hide *;
    SameLength(a, b);
    if a == [] {
      assert a == b;
    } else {
      var k := MatchFirst(a, b);
      FlagMultiset(f, a[1..], Drop(b, k));
      FlagSplice(f, a[0], a[1..], b[..k], b[k + 1..]);
      assert a == [a[0]] + a[1..] && b == b[..k] + [a[0]] + b[k + 1..];
    }
  }

  lemma FlagSplice(f: Fence, r: Row, a: seq<Row>, p: seq<Row>, q: seq<Row>)
    requires multiset(FlagAll(f, a)) == multiset(FlagAll(f, p + q))
    ensures multiset(FlagAll(f, [r] + a)) == multiset(FlagAll(f, p + [r] + q))
  {
    hide *;
    FlagParts(f, p, r, q);
    FlagParts(f, [], r, a);
    assert [] + [r] + a == [r] + a;
    assert [] + [Flag(f, r)] + FlagAll(f, a) == [Flag(f, r)] + FlagAll(f, a);
  }

  /** The order of the rows changes neither the fence, nor which rows are flagged, nor the statistics. */
  lemma OrderFree(a: seq<Row>, b: seq<Row>)
    requires multiset(a) == multiset(b)
    ensures a != [] ==> b != [] && FenceOf(Prices(a)) == FenceOf(Prices(b))
    ensures multiset(Flagged(a)) == multiset(Flagged(b))
    ensures Statistics(Flagged(a)) == Statistics(Flagged(b))
  {
    assert |multiset(a)| == |multiset(b)|;
    PricesMultiset(a, b);
    SortSorts(Prices(b));
    SortIs(Prices(a), Sort(Prices(b)));
    if |a| >= MIN_ROWS { FlagMultiset(FenceOf(Prices(a)), a, b); }
    KeptMultiset(Flagged(a), Flagged(b));
    SortSorts(Kept(Flagged(b)));
    SortIs(Kept(Flagged(a)), Sort(Kept(Flagged(b))));
  }

  function ScaleRow(r: Row, k: int): Row { r.(price := r.price * k) }

  function ScaleRows(rows: seq<Row>, k: int): (out: seq<Row>)
    ensures |out| == |rows| && forall i :: 0 <= i < |out| ==> out[i] == ScaleRow(rows[i], k)
  {
    seq(|rows|, i requires 0 <= i < |rows| => ScaleRow(rows[i], k))
  }

  function ScaleStats(t: Stats, k: int): Stats {
    if t.Empty? then Empty else Stats(t.low * k, t.median * k, t.high * k, t.count)
  }

  lemma ScaleOutside(f: Fence, price: int, k: int)
    requires k > 0
    ensures Fence(f.q1 * k, f.q3 * k).Outside(price * k) <==> f.Outside(price)
  {
    var g := Fence(f.q1 * k, f.q3 * k);
    assert g.Lower() == f.Lower() * k && g.Upper() == f.Upper() * k;
    ProductOrder(f.Lower(), price, k);
    ProductOrder(price, f.Upper(), k);
  }

  lemma {:induction false} ScaleKept(rows: seq<Row>, k: int)
    ensures Kept(ScaleRows(rows, k)) == Scaled(Kept(rows), k)
  {
    if rows != [] {
      ScaleKept(rows[1..], k);
      assert ScaleRows(rows, k)[1..] == ScaleRows(rows[1..], k);
      assert Scaled(Kept(rows), k)
        == (if rows[0].isOutlier then [] else [rows[0].price * k]) + Scaled(Kept(rows[1..]), k);
    }
  }

  /** Multiplying all prices by a whole k > 0 keeps the flags and multiplies low, median and high by k. */
  lemma ScaleByWhole(rows: seq<Row>, k: int)
    requires k > 0
    ensures Flagged(ScaleRows(rows, k)) == ScaleRows(Flagged(rows), k)
    ensures Statistics(Flagged(ScaleRows(rows, k))) == ScaleStats(Statistics(Flagged(rows)), k)
  {
    ScaleFlagged(rows, k);
    ScaleKept(Flagged(rows), k);
    ScaleSort(Kept(Flagged(rows)), k);
    ScaleStatsOf(Sort(Kept(Flagged(rows))), k);
  }

  /** Multiplying all prices by any fraction a / b > 0 (prices are whole ten-thousandths before and after, so
      b times the new ones are a times the old ones) keeps the flags and multiplies low, median and high by it. */
  lemma ScaleEquivariant(rows: seq<Row>, scaled: seq<Row>, a: int, b: int)
    requires a > 0 && b > 0 && ScaleRows(scaled, b) == ScaleRows(rows, a)
    ensures ScaleRows(Flagged(scaled), b) == ScaleRows(Flagged(rows), a)
    ensures forall i :: 0 <= i < |rows| ==> Flagged(scaled)[i].isOutlier == Flagged(rows)[i].isOutlier
    ensures ScaleStats(Statistics(Flagged(scaled)), b) == ScaleStats(Statistics(Flagged(rows)), a)
  {
    hide FenceOf, Statistics, Fence.Outside;
    ScaleByWhole(rows, a);
    ScaleByWhole(scaled, b);
    forall i | 0 <= i < |rows| ensures Flagged(scaled)[i].isOutlier == Flagged(rows)[i].isOutlier {
      assert ScaleRow(Flagged(scaled)[i], b) == ScaleRows(Flagged(scaled), b)[i];
      assert ScaleRow(Flagged(rows)[i], a) == ScaleRows(Flagged(rows), a)[i];
    }
  }

  lemma ScaleStatsOf(s: seq<int>, k: int)
    ensures StatsOf(Scaled(s, k)) == ScaleStats(StatsOf(s), k)
  {}

  lemma ScaleFlagged(rows: seq<Row>, k: int)
    requires k > 0
    ensures Flagged(ScaleRows(rows, k)) == ScaleRows(Flagged(rows), k)
  {
    var scaled := ScaleRows(rows, k);
    if |rows| >= MIN_ROWS {
      var f := FenceOf(Prices(rows));
      ScaleFence(rows, k);
      forall i | 0 <= i < |rows| ensures Flagged(scaled)[i] == ScaleRows(Flagged(rows), k)[i] {
        ScaleOutside(f, rows[i].price, k);
      }
    }
  }

  lemma ScaleFence(rows: seq<Row>, k: int)
    requires k > 0 && rows != []
    ensures FenceOf(Prices(ScaleRows(rows, k))) == var f := FenceOf(Prices(rows)); Fence(f.q1 * k, f.q3 * k)
  {
    assert Prices(ScaleRows(rows, k)) == Scaled(Prices(rows), k);
    ScaleSort(Prices(rows), k);
    SortSorts(Prices(rows));
  }
}
