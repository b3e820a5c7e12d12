/** Byte strings and big-endian integers. */
module Bytes {
  type byte = x: int | 0 <= x < 256

  function Pow256(n: nat): (p: nat)
    ensures p >= 1
  {
    if n == 0 then 1 else 256 * Pow256(n - 1)
  }

  /** int.from_bytes(s, "big"). */
  function FromBE(s: seq<byte>): nat {
    if s == [] then 0 else FromBE(s[..|s| - 1]) * 256 + s[|s| - 1]
  }

  /** The `n` bytes of `v`, most significant first. */
  function ToBE(v: nat, n: nat): (s: seq<byte>)
    ensures |s| == n
  {
    if n == 0 then [] else ToBE(v / 256, n - 1) + [v % 256]
  }

  lemma {:induction false} FromToBE(v: nat, n: nat)
    requires v < Pow256(n)
    ensures FromBE(ToBE(v, n)) == v
  {
    if n > 0 {
      var s := ToBE(v, n);
      assert s[..n - 1] == ToBE(v / 256, n - 1) && s[n - 1] == v % 256;
      FromToBE(v / 256, n - 1);
    }
  }

  /** The leading byte counts the multiples of 256^(n-1). */
  lemma {:induction false} LeadingByte(v: nat, n: nat)
    requires n >= 1 && v < Pow256(n)
    ensures ToBE(v, n)[0] * Pow256(n - 1) <= v < (ToBE(v, n)[0] + 1) * Pow256(n - 1)
  {
    if n == 1 {
      assert Pow256(0) == 1 && ToBE(v, 1) == [v % 256];
    } else {
      hide ToBE;
      LeadingStep(v, n);
      LeadingByte(v / 256, n - 1);
      TimesByte(v, ToBE(v, n)[0], Pow256(n - 2));
    }
  }

  lemma LeadingStep(v: nat, n: nat)
    requires n >= 2 && v < Pow256(n)
    ensures ToBE(v, n)[0] == ToBE(v / 256, n - 1)[0] && v / 256 < Pow256(n - 1)
  {}

  lemma TimesByte(v: nat, b: int, p: nat)
    requires b * p <= v / 256 < (b + 1) * p
    ensures b * (256 * p) <= v < (b + 1) * (256 * p)
  {
    assert b * (256 * p) == 256 * (b * p) && (b + 1) * (256 * p) == 256 * ((b + 1) * p);
  }

  lemma Cancel(a: nat, b: nat, p: nat)
    requires a * p < b * p
    ensures a < b
  {
    assert (a - b) * p == a * p - b * p;
  }

  /** A slice of a slice is a slice. */
  lemma SubSlice<T>(s: seq<T>, lo: nat, hi: nat, i: nat, j: nat)
    requires lo <= hi <= |s| && i <= j <= hi - lo
    ensures s[lo..hi][i..j] == s[lo + i..lo + j]
  {
    var w := s[lo..hi];
    assert |w[i..j]| == |s[lo + i..lo + j]|;
    assert forall k :: 0 <= k < j - i ==> w[i..j][k] == s[lo + i..lo + j][k];
  }

  /** A stretch of data that is four pieces, piece by piece. */
  lemma Parts<T>(data: seq<T>, at: nat, end: nat, a: seq<T>, b: seq<T>, c: seq<T>, rest: seq<T>)
    requires at <= end <= |data| && data[at..end] == a + b + c + rest
    ensures end == at + |a| + |b| + |c| + |rest|
    ensures data[at..at + |a|] == a && data[at + |a|..at + |a| + |b|] == b
    ensures data[at + |a| + |b|..at + |a| + |b| + |c|] == c && data[at + |a| + |b| + |c|..end] == rest
  {
    var w := a + b + c + rest;
    assert |data[at..end]| == |w|;
    var i, j, k := |a|, |a| + |b|, |a| + |b| + |c|;
    SubSlice(data, at, end, 0, i);
    SubSlice(data, at, end, i, j);
    SubSlice(data, at, end, j, k);
    SubSlice(data, at, end, k, |w|);
    assert w[0..i] == a && w[i..j] == b && w[j..k] == c && w[k..|w|] == rest;
  }
}
