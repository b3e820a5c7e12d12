/** The byte-bounded cache of uploaded background files. */
module MediaCache {
  import opened Wrappers
  import opened Bytes

  /** A cached file; the least recently used one comes first in the dictionary order. */
  datatype Entry = Entry(name: string, data: seq<byte>)

  const CACHE_BYTES := 150 * 1024 * 1024

  function Total(q: seq<Entry>): nat {
    if q == [] then 0 else |q[0].data| + Total(q[1..])
  }

  predicate Has(q: seq<Entry>, name: string) { q != [] && (q[0].name == name || Has(q[1..], name)) }

  /** The entry with this name, if any. */
  function Lookup(q: seq<Entry>, name: string): (r: Option<Entry>)
    ensures r.Some? ==> r.value in q && r.value.name == name
    ensures r.None? <==> !Has(q, name)
  {
    if q == [] then None else if q[0].name == name then Some(q[0]) else Lookup(q[1..], name)
  }

  function Without(q: seq<Entry>, name: string): seq<Entry> {
    if q == [] then [] else if q[0].name == name then q[1..] else [q[0]] + Without(q[1..], name)
  }

  /** Dictionary assignment: an existing key keeps its place, a new one goes to the end. */
  function Assign(q: seq<Entry>, x: Entry): seq<Entry> {
    if q == [] then [x] else if q[0].name == x.name then [x] + q[1..] else [q[0]] + Assign(q[1..], x)
  }

  /** Drop the oldest entries while the bytes exceed `cap` and more than one entry is left. */
  function Evict(cap: nat, q: seq<Entry>): seq<Entry> {
    if Total(q) > cap && |q| > 1 then Evict(cap, q[1..]) else q
  }

  class Cache {
    const cap: nat
    var entries: seq<Entry>
    ghost var history: seq<Entry>

    /** The cache is what the uses so far have made of it.  A store that finds the file already there (two
        requests missed it at once) counts as no use. */
    ghost predicate Valid()
      reads this
    {
      entries == Contents(cap, history)
    }

    constructor (cap: nat)
      ensures Valid() && this.cap == cap && entries == history == []
    {
      this.cap, entries, history := cap, [], [];
    }

    method Put(x: Entry)
      requires Valid()
      modifies this
      ensures entries == Evict(cap, Assign(old(entries), x))
      ensures !Has(old(entries), x.name) ==> Valid() && history == old(history) + [x]
      ensures Has(old(entries), x.name) && Consistent(old(history) + [x]) ==>
                Valid() && history == old(history) && entries == old(entries)
    {
      hide Contents, Consistent, Lookup, Assign, Without, Has, Total;
      if Consistent(history + [x]) { LateStoreExactly(cap, history, x); }
      ContentsSnoc(cap, history, x);
      LookupOrNot(cap, entries, x);
      if !Has(entries, x.name) { history := history + [x]; }
      entries := Assign(entries, x);
      while Total(entries) > cap && |entries| > 1
        invariant Evict(cap, entries) == Evict(cap, Assign(old(entries), x))
        modifies `entries
        decreases |entries|
      {
        entries := entries[1..];
      }
    }

    /** `serve_background` up to the response: `stored` is what the object store returns on a miss. */
    method Serve(name: string, stored: Option<seq<byte>>) returns (data: Option<seq<byte>>)
      requires Valid()
      modifies this
      ensures Valid()
      ensures history == if data.Some? then old(history) + [Entry(name, data.value)] else old(history)
      ensures match Lookup(old(entries), name)
              case Some(x) => data == Some(x.data) && entries == Without(old(entries), name) + [x]
              case None =>
                && data == stored
                && entries == if stored.Some? then Evict(cap, Assign(old(entries), Entry(name, stored.value)))
                              else old(entries)
    {
      var hit := Lookup(entries, name);
      if hit.Some? {
        entries := Without(entries, name) + [hit.value];
        ContentsSnoc(cap, history, hit.value);
        history := history + [hit.value];
        return Some(hit.value.data);
      }
      if stored.None? { return None; }
      Put(Entry(name, stored.value));
      data := stored;
    }

    /** The cache after any sequence of served requests: all files served, by last use, cut to what fits. */
    lemma IsLeastRecentlyUsed()
      requires Valid() && Consistent(history)
      ensures entries == Evict(cap, Recency(history))
    {
      CacheIsLeastRecentlyUsed(cap, history);
    }
  }

  lemma LookupOrNot(cap: nat, q: seq<Entry>, x: Entry)
    ensures !Has(q, x.name) ==> Access(cap, q, x) == Evict(cap, Assign(q, x))
  {}

  lemma ContentsSnoc(cap: nat, history: seq<Entry>, x: Entry)
    ensures Contents(cap, history + [x]) == Access(cap, Contents(cap, history), x)
  {
    assert (history + [x])[..|history|] == history;
  }

  // ---------------------------------------------------------------------------
  // Byte bound
  // ---------------------------------------------------------------------------

  lemma {:induction false} TotalConcat(p: seq<Entry>, q: seq<Entry>)
    ensures Total(p + q) == Total(p) + Total(q)
  {
    if p == [] {
      assert p + q == q;
    } else {
      assert (p + q)[1..] == p[1..] + q;
      TotalConcat(p[1..], q);
    }
  }

  lemma {:induction false} WithoutTotal(q: seq<Entry>, name: string)
    ensures Lookup(q, name).Some? ==> Total(Without(q, name)) + |Lookup(q, name).value.data| == Total(q)
    ensures Lookup(q, name).None? ==> Without(q, name) == q
  {
    if q != [] && q[0].name != name {
      WithoutTotal(q[1..], name);
      assert ([q[0]] + Without(q[1..], name))[1..] == Without(q[1..], name);
    }
  }

  /** `Evict(q)` is the longest suffix of `q` that fits into `cap` bytes, but never empty: every longer
      suffix is too big, and the result fits or is a single entry. */
  lemma {:induction false} EvictKeepsLongestSuffix(cap: nat, q: seq<Entry>) returns (dropped: seq<Entry>)
    requires q != []
    ensures var e := Evict(cap, q);
            && q == dropped + e && e != []
            && (Total(e) <= cap || |e| == 1)
            && (dropped != [] ==> |dropped[|dropped| - 1].data| + Total(e) > cap)
    decreases |q|
  {
    if Total(q) > cap && |q| > 1 {
      var d := EvictKeepsLongestSuffix(cap, q[1..]);
      dropped := [q[0]] + d;
      if d != [] {
        assert dropped[|dropped| - 1] == d[|d| - 1];
      } else {
        assert q[1..] == Evict(cap, q[1..]);
      }
    } else {
      dropped := [];
    }
  }

  /** Whatever is stored, the cache holds at most `cap` bytes or a single file. */
  lemma CacheIsBounded(cap: nat, q: seq<Entry>, x: Entry)
    ensures var e := Evict(cap, Assign(q, x)); e != [] && (Total(e) <= cap || |e| == 1)
  {
    var _ := EvictKeepsLongestSuffix(cap, Assign(q, x));
  }

  // ---------------------------------------------------------------------------
  // The cache is the recency list, cut to fit
  // ---------------------------------------------------------------------------

  /** All files ever served, each once, by last use. */
  function Recency(history: seq<Entry>): seq<Entry> {
    if history == [] then []
    else
      var x := history[|history| - 1];
      Without(Recency(history[..|history| - 1]), x.name) + [x]
  }

  /** What one served request does to the cache. */
  function Access(cap: nat, q: seq<Entry>, x: Entry): seq<Entry> {
    if Lookup(q, x.name).Some? then Without(q, x.name) + [x] else Evict(cap, Assign(q, x))
  }

  function Contents(cap: nat, history: seq<Entry>): seq<Entry> {
    if history == [] then []
    else Access(cap, Contents(cap, history[..|history| - 1]), history[|history| - 1])
  }

  /** A file never changes under its name (names are content hashes). */
  predicate Consistent(history: seq<Entry>) {
    forall i, j :: 0 <= i < |history| && 0 <= j < |history| && history[i].name == history[j].name
                   ==> history[i] == history[j]
  }

  predicate DistinctNames(q: seq<Entry>) {
    forall i, j :: 0 <= i < j < |q| ==> q[i].name != q[j].name
  }

  lemma {:induction false} WithoutMembers(q: seq<Entry>, name: string, x: Entry)
    requires x in Without(q, name)
    ensures x in q
  {
    if q[0].name != name && x != q[0] { WithoutMembers(q[1..], name, x); }
  }

  lemma {:induction false} WithoutIsDistinct(q: seq<Entry>, name: string)
    requires DistinctNames(q)
    ensures DistinctNames(Without(q, name))
    ensures forall y :: y in Without(q, name) ==> y.name != name
  {
    if q != [] {
      if q[0].name != name {
        WithoutIsDistinct(q[1..], name);
        var w := Without(q[1..], name);
        forall i | 0 <= i < |w| ensures w[i].name != q[0].name { WithoutMembers(q[1..], name, w[i]); }
      }
    }
  }

  lemma {:induction false} RecencyIsDistinct(history: seq<Entry>)
    ensures DistinctNames(Recency(history))
    ensures forall x :: x in Recency(history) ==> x in history
  {
    if history != [] {
      var n := |history| - 1;
      var x := history[n];
      RecencyIsDistinct(history[..n]);
      var w := Without(Recency(history[..n]), x.name);
      WithoutIsDistinct(Recency(history[..n]), x.name);
      forall y | y in w ensures y in history { WithoutMembers(Recency(history[..n]), x.name, y); }
    }
  }

  lemma {:induction false} AssignNew(q: seq<Entry>, x: Entry)
    requires !Has(q, x.name)
    ensures Assign(q, x) == q + [x] && Without(q, x.name) == q
  {
    if q != [] {
      AssignNew(q[1..], x);
    }
  }

  lemma {:induction false} WithoutConcat(p: seq<Entry>, q: seq<Entry>, name: string)
    ensures Without(p + q, name) == if Has(p, name) then Without(p, name) + q else p + Without(q, name)
  {
    if p == [] {
      assert p + q == q;
    } else {
      var w := p[1..];
      assert (p + q)[0] == p[0] && (p + q)[1..] == w + q;
      WithoutConcat(w, q, name);
      if p[0].name != name {
        if Has(w, name) {
          assert [p[0]] + (Without(w, name) + q) == [p[0]] + Without(w, name) + q;
        } else {
          assert [p[0]] + (w + Without(q, name)) == p + Without(q, name);
        }
      }
    }
  }

  lemma {:induction false} EvictSkips(cap: nat, p: seq<Entry>, s: seq<Entry>)
    requires s != [] && (p != [] ==> |p[|p| - 1].data| + Total(s) > cap)
    ensures Evict(cap, p + s) == Evict(cap, s)
  {
    if p == [] {
      assert p + s == s;
    } else {
      assert p == p[..|p| - 1] + [p[|p| - 1]];
      TotalConcat(p[..|p| - 1], [p[|p| - 1]]);
      TotalConcat(p, s);
      assert (p + s)[1..] == p[1..] + s;
      EvictSkips(cap, p[1..], s);
    }
  }

  lemma {:induction false} WithoutLast(p: seq<Entry>, name: string)
    requires p != [] && DistinctNames(p) && p[|p| - 1].name != name
    ensures var w := Without(p, name); w != [] && w[|w| - 1] == p[|p| - 1]
  {
    if p[0].name == name {
    } else if |p| > 1 {
      WithoutLast(p[1..], name);
    }
  }

  lemma HitCommutes(cap: nat, p: seq<Entry>, e: seq<Entry>, x: Entry)
    requires DistinctNames(p + e) && Lookup(e, x.name) == Some(x)
    requires (Total(e) <= cap || |e| == 1) && (p != [] ==> |p[|p| - 1].data| + Total(e) > cap)
    ensures Without(e, x.name) + [x] == Evict(cap, Without(p + e, x.name) + [x])
  {
    var s := Without(e, x.name) + [x];
    NotInBoth(p, e, x.name);
    WithoutConcat(p, e, x.name);
    WithoutTotal(e, x.name);
    WithoutShortens(e, x.name);
    TotalConcat(Without(e, x.name), [x]);
    assert (p + Without(e, x.name)) + [x] == p + s;
    EvictSkips(cap, p, s);
  }

  lemma MissCommutes(cap: nat, p: seq<Entry>, e: seq<Entry>, x: Entry)
    requires DistinctNames(p + e) && !Has(e, x.name) && (p != [] ==> |p[|p| - 1].data| + Total(e) > cap)
    requires p != [] && p[|p| - 1].name == x.name ==> p[|p| - 1] == x
    ensures Evict(cap, e + [x]) == Evict(cap, Without(p + e, x.name) + [x])
  {
    hide Evict, Without, Has, Total;
    var s := e + [x];
    WithoutConcat(p, e, x.name);
    AssignNew(e, x);
    TotalConcat(e, [x]);
    Smallest(x, p, x.name);
    if Has(p, x.name) {
      assert (Without(p, x.name) + e) + [x] == Without(p, x.name) + s;
      assert DistinctNames(p) by { assert p == (p + e)[..|p|]; }
      if p[|p| - 1].name == x.name {
        EvictSkipsAll(cap, Without(p, x.name), s);
      } else {
        WithoutLast(p, x.name);
        EvictSkips(cap, Without(p, x.name), s);
      }
    } else {
      assert (p + e) + [x] == p + s;
      EvictSkips(cap, p, s);
    }
  }

  lemma Smallest(x: Entry, q: seq<Entry>, name: string)
    ensures Total([x]) == |x.data| && Total([]) == 0 && Evict(CACHE_BYTES, []) == [] && (Has(q, name) ==> q != [])
  {}

  /** One access to the cut list is the cut of one access to the full list. */
  lemma AccessCommutes(cap: nat, r: seq<Entry>, x: Entry)
    requires r != [] && DistinctNames(r) && (forall y :: y in r && y.name == x.name ==> y == x)
    ensures Access(cap, Evict(cap, r), x) == Evict(cap, Without(r, x.name) + [x])
  {
    var p := EvictKeepsLongestSuffix(cap, r);
    var e := Evict(cap, r);
    if Lookup(e, x.name).Some? {
      assert Lookup(e, x.name).value in r;
      HitCommutes(cap, p, e, x);
    } else {
      if p != [] { assert p[|p| - 1] in r; }
      AssignNew(e, x);
      MissCommutes(cap, p, e, x);
    }
  }

  lemma EvictSkipsAll(cap: nat, p: seq<Entry>, s: seq<Entry>)
    requires s != [] && Total(s) > cap
    ensures Evict(cap, p + s) == Evict(cap, s)
  {
    EvictSkips(cap, p, s);
  }

  lemma {:induction false} IndexOf(q: seq<Entry>, name: string) returns (i: nat)
    requires Has(q, name)
    ensures i < |q| && q[i].name == name
  {
    if q[0].name == name { i := 0; } else { i := IndexOf(q[1..], name); i := i + 1; }
  }

  lemma {:induction false} NotInBoth(p: seq<Entry>, e: seq<Entry>, name: string)
    requires DistinctNames(p + e) && Has(e, name)
    ensures !Has(p, name)
  {
    if p != [] {
      var j := IndexOf(e, name);
      assert (p + e)[0] == p[0] && (p + e)[|p| + j] == e[j];
      assert (p + e)[1..] == p[1..] + e;
      NotInBoth(p[1..], e, name);
    }
  }

  lemma {:induction false} WithoutShortens(q: seq<Entry>, name: string)
    requires Has(q, name)
    ensures |Without(q, name)| == |q| - 1
  {
    if q[0].name != name { WithoutShortens(q[1..], name); }
  }

  /** After every sequence of served requests the cache is the list of all files ever served, by last
      use, cut to its longest suffix that fits: a least-recently-used cache, exactly. */
  lemma {:induction false} CacheIsLeastRecentlyUsed(cap: nat, history: seq<Entry>)
    requires Consistent(history)
    ensures Contents(cap, history) == Evict(cap, Recency(history))
  {
    if history != [] {
      var n := |history| - 1;
      var x := history[n];
      var before := history[..n];
      CacheIsLeastRecentlyUsed(cap, before);
      RecencyIsDistinct(before);
      if before == [] {
        assert Recency(history) == [x];
      } else {
        assert forall y :: y in Recency(before) && y.name == x.name ==> y == x;
        AccessCommutes(cap, Recency(before), x);
      }
    }
  }

  lemma {:induction false} AssignPresent(q: seq<Entry>, x: Entry)
    requires Lookup(q, x.name) == Some(x)
    ensures Assign(q, x) == q
  {
    if q[0].name != x.name { AssignPresent(q[1..], x); }
  }

  lemma {:induction false} WithoutFinal(q: seq<Entry>)
    requires q != [] && DistinctNames(q)
    ensures Without(q, q[|q| - 1].name) == q[..|q| - 1]
  {
    if |q| > 1 {
      assert q[0].name != q[|q| - 1].name;
      WithoutFinal(q[1..]);
    }
  }

  lemma ContentsFit(cap: nat, history: seq<Entry>)
    requires Consistent(history)
    ensures var q := Contents(cap, history);
            DistinctNames(q) && Evict(cap, q) == q && forall y :: y in q ==> y in history
  {
    hide Contents, Recency, Consistent, Total;
    var r := Recency(history);
    CacheIsLeastRecentlyUsed(cap, history);
    RecencyIsDistinct(history);
    Smallest(Entry("", []), r, "");
    if r != [] { EvictedFits(cap, r); }
  }

  lemma EvictedFits(cap: nat, q: seq<Entry>)
    requires q != [] && DistinctNames(q)
    ensures var e := Evict(cap, q); DistinctNames(e) && Evict(cap, e) == e && forall y :: y in e ==> y in q
  {
    var dropped := EvictKeepsLongestSuffix(cap, q);
    var e := Evict(cap, q);
    assert Evict(cap, e) == e;
    hide Evict;
    assert forall i :: 0 <= i < |e| ==> e[i] == q[|dropped| + i];
  }

  lemma LateStore(cap: nat, q: seq<Entry>, x: Entry)
    requires DistinctNames(q) && Lookup(q, x.name) == Some(x) && Evict(cap, q) == q
    ensures q != [] && Evict(cap, Assign(q, x)) == q && (Access(cap, q, x) == q <==> q[|q| - 1] == x)
  {
    hide Evict, Without, DistinctNames;
    AssignPresent(q, x);
    if q[|q| - 1] == x { WithoutFinal(q); }
  }

  /** Two requests that missed the same file at once: the second store leaves the cache as it is, and so keeps it
      least-recently-used if and only if that file is still the last one used. */
  lemma LateStoreExactly(cap: nat, history: seq<Entry>, x: Entry)
    requires Consistent(history + [x])
    ensures var q := Contents(cap, history); var after := Evict(cap, Assign(q, x));
            && (Has(q, x.name) ==> q != [] && after == q)
            && (after == Contents(cap, history + [x]) <==> !Has(q, x.name) || q[|q| - 1] == x)
  {
    var q := Contents(cap, history);
    assert Consistent(history) by { assert history == (history + [x])[..|history|]; }
    ContentsFit(cap, history);
    ContentsSnoc(cap, history, x);
    if Has(q, x.name) {
      var y := Lookup(q, x.name).value;
      SameName(history, x, y);
      hide Contents, Consistent, Without, DistinctNames, Evict, Assign;
      LateStore(cap, q, x);
    }
  }

  /** A run in which it fails: two files in the cache, and a late store of the older one. */
  lemma LateStoreOfOlder(cap: nat, a: Entry, b: Entry)
    requires a.name != b.name && |a.data| + |b.data| <= cap
    ensures Contents(cap, [a, b]) == [a, b] == Evict(cap, Assign([a, b], a))
    ensures Contents(cap, [a, b] + [a]) == [b, a]
  {
    assert [a][..0] == [] && [a, b][..1] == [a];
    assert Total([a]) == |a.data| && Total([b]) == |b.data| && [a, b][1..] == [b];
    assert Total([a, b]) == |a.data| + |b.data|;
    assert Contents(cap, []) == [] && Contents(cap, [a]) == [a];
    assert [a][1..] == [] && Assign([a], b) == [a] + Assign([], b) == [a, b];
    ContentsSnoc(cap, [a, b], a);
  }

  lemma SameName(history: seq<Entry>, x: Entry, y: Entry)
    requires Consistent(history + [x]) && y in history && y.name == x.name
    ensures y == x
  {
    var i :| 0 <= i < |history| && history[i] == y;
    assert (history + [x])[i] == y && (history + [x])[|history|] == x;
  }

  /** With the real limits every state of the cache is within 150 MiB, when no file has more than 50 MiB. */
  lemma BudgetIsKept(history: seq<Entry>)
    requires Consistent(history) && forall x :: x in history ==> |x.data| <= 52_428_800
    ensures Total(Contents(CACHE_BYTES, history)) <= 157_286_400
  {
    CacheIsLeastRecentlyUsed(CACHE_BYTES, history);
    RecencyIsDistinct(history);
    hide Contents, Recency, Consistent, DistinctNames, Evict, Total;
    var q := Recency(history);
    Smallest(Entry("", []), q, "");
    if q != [] {
      var d := EvictKeepsLongestSuffix(CACHE_BYTES, q);
      var e := Evict(CACHE_BYTES, q);
      assert e[0] in q;
      if |e| == 1 {
        Smallest(e[0], q, "");
        assert e == [e[0]];
      }
    }
  }

  /** And three files of that size fit at once. */
  lemma ThreeLargestFit(a: Entry, b: Entry, c: Entry)
    requires a.name != b.name && b.name != c.name && a.name != c.name
    requires |a.data| <= 52_428_800 && |b.data| <= 52_428_800 && |c.data| <= 52_428_800
    ensures Contents(CACHE_BYTES, [a, b, c]) == [a, b, c]
  {
    hide Contents, Evict;
    assert Total([c]) == |c.data| && [b, c][1..] == [c] && [a, b, c][1..] == [b, c];
    assert Total([b, c]) == |b.data| + |c.data| && Total([a, b, c]) == |a.data| + |b.data| + |c.data|;
    ThreeRecent(a, b, c);
    CacheIsLeastRecentlyUsed(CACHE_BYTES, [a, b, c]);
    EvictNothing(CACHE_BYTES, [a, b, c]);
  }

  lemma EvictNothing(cap: nat, q: seq<Entry>)
    requires Total(q) <= cap
    ensures Evict(cap, q) == q
  {}

  lemma ThreeRecent(a: Entry, b: Entry, c: Entry)
    requires a.name != b.name && b.name != c.name && a.name != c.name
    ensures Consistent([a, b, c]) && Recency([a, b, c]) == [a, b, c]
  {
    assert [a, b, c][..2] == [a, b] && [a, b][..1] == [a] && [a][..0] == [];
    assert Recency([a]) == [a];
    assert [a, b][1..] == [b] && [a][1..] == [];
    OthersStay([a], b.name);
    assert Recency([a, b]) == [a, b];
    OthersStay([a, b], c.name);
  }

  lemma {:induction false} OthersStay(q: seq<Entry>, name: string)
    requires forall i :: 0 <= i < |q| ==> q[i].name != name
    ensures Without(q, name) == q
  {
    if q != [] { OthersStay(q[1..], name); }
  }
}
