/** How many acquisitions the token bucket grants: the exact ledger, the bounds, and the run that reaches them. */
module RateBounds {
  import opened RateLimiter

  // ---------------------------------------------------------------------------
  // Exact ledger of a run
  // ---------------------------------------------------------------------------

  function Final(l: Limits, b: Bucket, cs: seq<Call>): Bucket
    requires l.Valid()
    decreases |cs|
  {
    if cs == [] then b else Final(l, After(l, b, cs[0].now), cs[1..])
  }

  /** When the last of the calls returned. */
  function Returned(from: real, cs: seq<Call>): real { if cs == [] then from else cs[|cs| - 1].Granted() }

  /** Total sleep requested. */
  function Waited(l: Limits, b: Bucket, cs: seq<Call>): real
    requires l.Valid()
    decreases |cs|
  {
    if cs == [] then 0.0 else Wait(l, b, cs[0].now) + Waited(l, After(l, b, cs[0].now), cs[1..])
  }

  /** Refill cut off by one call because the bucket was full. */
  function Spill(l: Limits, b: Bucket, now: real): real
    requires l.Valid()
  {
    b.tokens + Earned(l, now - b.lastRefill) - Refilled(l, b, now)
  }

  function Spilled(l: Limits, b: Bucket, cs: seq<Call>): real
    requires l.Valid()
    decreases |cs|
  {
    if cs == [] then 0.0 else Spill(l, b, cs[0].now) + Spilled(l, After(l, b, cs[0].now), cs[1..])
  }

  /** Grants, tokens left and spilled tokens equal the initial tokens, the nominal refill, and once more
      the nominal refill of all the waiting time. */
  lemma {:induction false} TokenLedger(l: Limits, b: Bucket, from: real, cs: seq<Call>)
    requires l.Valid() && InRange(l, b) && b.lastRefill <= from && LegalRun(l, b, from, cs)
    ensures var f := Final(l, b, cs);
            |cs| as real + f.tokens + Spilled(l, b, cs)
            == b.tokens + Earned(l, f.lastRefill - b.lastRefill) + Earned(l, Waited(l, b, cs))
    ensures InRange(l, Final(l, b, cs)) && Spilled(l, b, cs) >= 0.0
    decreases |cs|
  {
    hide Earned;
    EarnedMonotone(l, 0.0, 0.0);
    if cs != [] {
      var c, rest := cs[0], cs[1..];
      var a := After(l, b, c.now);
      OneCall(l, b, from, c);
      TokenLedger(l, a, c.Granted(), rest);
      EarnedAdds(l, Final(l, b, cs).lastRefill - c.now, c.now - b.lastRefill);
      EarnedAdds(l, Wait(l, b, c.now), Waited(l, a, rest));
    }
  }

  // ---------------------------------------------------------------------------
  // Spans of a run: exact counts
  // ---------------------------------------------------------------------------

  /** Waiting that was credited a second time, less the last sleep (nothing has been refilled since), the
      tokens left over and the refill that a full bucket cut off. */
  function Excess(l: Limits, b: Bucket, cs: seq<Call>): real
    requires l.Valid() && cs != []
  {
    Earned(l, Waited(l, b, cs)) - Earned(l, cs[|cs| - 1].slept) - Final(l, b, cs).tokens - Spilled(l, b, cs)
  }

  lemma {:induction false} LastStamp(l: Limits, b: Bucket, cs: seq<Call>)
    requires l.Valid() && cs != []
    ensures Final(l, b, cs).lastRefill == cs[|cs| - 1].now
    decreases |cs|
  {
    if |cs| > 1 { LastStamp(l, After(l, b, cs[0].now), cs[1..]); }
  }

  /** The number of grants of a run is what the bucket held, the nominal refill up to the last grant and the
      excess, exactly. */
  lemma GrantsExactly(l: Limits, b: Bucket, from: real, cs: seq<Call>)
    requires l.Valid() && InRange(l, b) && b.lastRefill <= from && LegalRun(l, b, from, cs) && cs != []
    ensures |cs| as real == b.tokens + Earned(l, cs[|cs| - 1].Granted() - b.lastRefill) + Excess(l, b, cs)
  {
    hide Earned, Final, Waited, Spilled, LegalRun;
    var last := cs[|cs| - 1];
    TokenLedger(l, b, from, cs);
    LastStamp(l, b, cs);
    EarnedAdds(l, last.now - b.lastRefill, last.slept);
  }

  lemma {:induction false} LegalPrefix(l: Limits, b: Bucket, from: real, cs: seq<Call>, k: nat)
    requires l.Valid() && LegalRun(l, b, from, cs) && k <= |cs|
    ensures LegalRun(l, b, from, cs[..k])
    decreases |cs|
  {
    hide After, Legal;
    if k > 0 {
      LegalPrefix(l, After(l, b, cs[0].now), cs[0].Granted(), cs[1..], k - 1);
      assert cs[..k][1..] == cs[1..][..k - 1];
    }
  }

  /** The calls from i on are a legal run of the bucket that the first i calls leave behind. */
  lemma {:induction false} LegalSuffix(l: Limits, b: Bucket, from: real, cs: seq<Call>, i: nat)
    requires l.Valid() && InRange(l, b) && b.lastRefill <= from && LegalRun(l, b, from, cs) && i <= |cs|
    ensures var a, at := Final(l, b, cs[..i]), Returned(from, cs[..i]);
            InRange(l, a) && a.lastRefill <= at && LegalRun(l, a, at, cs[i..])
    decreases |cs|
  {
    hide Earned, Refilled;
    if i == 0 {
      assert cs[..0] == [] && cs[0..] == cs;
    } else {
      var a, at := After(l, b, cs[0].now), cs[0].Granted();
      OneCall(l, b, from, cs[0]);
      LegalSuffix(l, a, at, cs[1..], i - 1);
      assert cs[..i][1..] == cs[1..][..i - 1] && cs[1..][i - 1..] == cs[i..];
      assert Returned(from, cs[..i]) == Returned(at, cs[1..][..i - 1]);
    }
  }

  /** What the bucket held when call i was made, and what was refilled nominally from then on until the grant
      of call k - 1. */
  function Nominal(l: Limits, b: Bucket, cs: seq<Call>, i: nat, k: nat): real
    requires l.Valid() && i < k <= |cs|
  {
    var a := Final(l, b, cs[..i]);
    a.tokens + Earned(l, cs[k - 1].Granted() - a.lastRefill)
  }

  function SpanExcess(l: Limits, b: Bucket, cs: seq<Call>, i: nat, k: nat): real
    requires l.Valid() && i < k <= |cs|
  {
    Excess(l, Final(l, b, cs[..i]), cs[i..k])
  }

  /** The calls i to k - 1 of any run are exactly the nominal credit of that span plus its excess. */
  lemma SpanExactly(l: Limits, b: Bucket, from: real, cs: seq<Call>, i: nat, k: nat)
    requires l.Valid() && InRange(l, b) && b.lastRefill <= from && LegalRun(l, b, from, cs) && i < k <= |cs|
    ensures (k - i) as real == Nominal(l, b, cs, i, k) + SpanExcess(l, b, cs, i, k)
  {
    hide Earned, Final, LegalRun, Excess;
    var a, at := Final(l, b, cs[..i]), Returned(from, cs[..i]);
    LegalSuffix(l, b, from, cs, i);
    LegalPrefix(l, a, at, cs[i..], k - i);
    assert cs[i..][..k - i] == cs[i..k];
    GrantsExactly(l, a, at, cs[i..k]);
  }

  // ---------------------------------------------------------------------------
  // When a run keeps the nominal rate
  // ---------------------------------------------------------------------------

  /** Calls i to k - 1 are no more than the bucket held and the nominal rate earned meanwhile. */
  predicate NominalSpan(l: Limits, b: Bucket, cs: seq<Call>, i: nat, k: nat)
    requires l.Valid() && i < k <= |cs|
  {
    (k - i) as real <= Nominal(l, b, cs, i, k)
  }

  /** A run keeps the nominal rate between any two of its grants if and only if in no span the waiting credited
      twice exceeds the tokens left over and cut off. */
  lemma NominalExactly(l: Limits, b: Bucket, from: real, cs: seq<Call>)
    requires l.Valid() && InRange(l, b) && b.lastRefill <= from && LegalRun(l, b, from, cs)
    ensures (forall i, k :: 0 <= i < k <= |cs| ==> NominalSpan(l, b, cs, i, k))
            <==> forall i, k :: 0 <= i < k <= |cs| ==> SpanExcess(l, b, cs, i, k) <= 0.0
  {
    hide Nominal, SpanExcess, LegalRun;
    forall i, k | 0 <= i < k <= |cs| ensures NominalSpan(l, b, cs, i, k) <==> SpanExcess(l, b, cs, i, k) <= 0.0 {
      SpanExactly(l, b, from, cs, i, k);
    }
  }

  lemma {:induction false} WaitsOnlyLast(l: Limits, b: Bucket, from: real, cs: seq<Call>)
    requires l.Valid() && InRange(l, b) && b.lastRefill <= from && LegalRun(l, b, from, cs) && cs != []
    requires forall i :: 0 <= i < |cs| - 1 ==> cs[i].slept == 0.0
    ensures Earned(l, Waited(l, b, cs)) <= Earned(l, cs[|cs| - 1].slept)
    decreases |cs|
  {
    hide Earned, After;
    var c := cs[0];
    OneCall(l, b, from, c);
    NoWait(l, b, from, c);
    if |cs| > 1 {
      WaitsOnlyLast(l, After(l, b, c.now), c.Granted(), cs[1..]);
    } else {
      EarnedMonotone(l, Wait(l, b, c.now), c.slept);
    }
  }

  lemma NoWait(l: Limits, b: Bucket, from: real, c: Call)
    requires l.Valid() && Legal(l, b, from, c)
    ensures Wait(l, b, c.now) <= c.slept && (c.slept == 0.0 ==> Wait(l, b, c.now) == 0.0)
  {
    hide Earned;
    if Refilled(l, b, c.now) < 1.0 { WaitIsPositive(l, b, c.now); }
  }

  lemma NoExcessWithoutEarlierWaits(l: Limits, b: Bucket, from: real, cs: seq<Call>)
    requires l.Valid() && InRange(l, b) && b.lastRefill <= from && LegalRun(l, b, from, cs) && cs != []
    requires forall i :: 0 <= i < |cs| - 1 ==> cs[i].slept == 0.0
    ensures Excess(l, b, cs) <= 0.0
  {
    hide Earned, LegalRun, Waited, Final, Spilled;
    WaitsOnlyLast(l, b, from, cs);
    TokenLedger(l, b, from, cs);
  }

  /** A span in which no call but the last one has to wait keeps the nominal rate, wherever it lies in a run: it
      takes a wait with calls after it to exceed it. */
  lemma NominalWithoutEarlierWaits(l: Limits, b: Bucket, from: real, cs: seq<Call>, i: nat, k: nat)
    requires l.Valid() && InRange(l, b) && b.lastRefill <= from && LegalRun(l, b, from, cs) && i < k <= |cs|
    requires forall j :: i <= j < k - 1 ==> cs[j].slept == 0.0
    ensures NominalSpan(l, b, cs, i, k)
  {
    hide Earned, Final, LegalRun, Excess, Nominal;
    var a, at := Final(l, b, cs[..i]), Returned(from, cs[..i]);
    LegalSuffix(l, b, from, cs, i);
    LegalPrefix(l, a, at, cs[i..], k - i);
    assert cs[i..][..k - i] == cs[i..k];
    NoExcessWithoutEarlierWaits(l, a, at, cs[i..k]);
    SpanExactly(l, b, from, cs, i, k);
  }

  // ---------------------------------------------------------------------------
  // When a run keeps a maximum per window
  // ---------------------------------------------------------------------------

  lemma {:induction false} GrantedBetween(l: Limits, b: Bucket, from: real, cs: seq<Call>)
    requires l.Valid() && InRange(l, b) && b.lastRefill <= from && LegalRun(l, b, from, cs)
    ensures from <= Returned(from, cs)
    ensures forall c :: c in cs ==> from <= c.Granted() <= Returned(from, cs)
    decreases |cs|
  {
    hide Earned;
    if cs != [] {
      OneCall(l, b, from, cs[0]);
      GrantedBetween(l, After(l, b, cs[0].now), cs[0].Granted(), cs[1..]);
      forall c | c in cs ensures from <= c.Granted() <= Returned(from, cs) {
        assert c == cs[0] || c in cs[1..];
      }
    }
  }

  /** What is granted by `hi` is a prefix of the run. */
  lemma {:induction false} GrantedPrefix(l: Limits, b: Bucket, from: real, cs: seq<Call>, lo: real, hi: real)
    returns (n: nat)
    requires l.Valid() && InRange(l, b) && b.lastRefill <= from && lo <= from && LegalRun(l, b, from, cs)
    ensures n <= |cs| && Grants(cs, lo, hi) == n
    ensures forall i :: 0 <= i < |cs| ==> (cs[i].Granted() <= hi <==> i < n)
    decreases |cs|
  {
    hide Earned;
    n := 0;
    if cs != [] {
      var a, after := After(l, b, cs[0].now), cs[0].Granted();
      OneCall(l, b, from, cs[0]);
      if after <= hi {
        n := GrantedPrefix(l, a, after, cs[1..], lo, hi);
        n := n + 1;
      } else {
        GrantedBetween(l, a, after, cs[1..]);
        NoneAfter(l, a, after, cs[1..], lo, hi);
      }
    }
  }

  lemma FirstCall(l: Limits, b: Bucket, from: real, cs: seq<Call>)
    requires l.Valid() && InRange(l, b) && b.lastRefill <= from && LegalRun(l, b, from, cs) && cs != []
    ensures var a, after := After(l, b, cs[0].now), cs[0].Granted();
            InRange(l, a) && a.lastRefill <= after && LegalRun(l, a, after, cs[1..])
    ensures forall lo, hi :: Grants(cs, lo, hi) ==
                             (if lo <= cs[0].Granted() <= hi then 1 else 0) + Grants(cs[1..], lo, hi)
  {
    hide Earned;
    OneCall(l, b, from, cs[0]);
  }

  /** The calls granted in a window are consecutive. */
  lemma {:induction false} WindowIsSpan(l: Limits, b: Bucket, from: real, cs: seq<Call>, lo: real, hi: real)
    returns (i: nat, k: nat)
    requires l.Valid() && InRange(l, b) && b.lastRefill <= from && LegalRun(l, b, from, cs)
    ensures i <= k <= |cs| && Grants(cs, lo, hi) == k - i
    ensures forall j :: 0 <= j < |cs| ==> (lo <= cs[j].Granted() <= hi <==> i <= j < k)
    decreases |cs|
  {
    i, k := 0, 0;
    if cs != [] {
      FirstCall(l, b, from, cs);
      var a, after := After(l, b, cs[0].now), cs[0].Granted();
      hide LegalRun, After, InRange, Grants;
      var m, n := 0, 0;
      if after < lo {
        m, n := WindowIsSpan(l, a, after, cs[1..], lo, hi);
        i, k := m + 1, n + 1;
      } else if after <= hi {
        n := GrantedPrefix(l, a, after, cs[1..], lo, hi);
        k := n + 1;
        GrantedBetween(l, a, after, cs[1..]);
      } else {
        GrantedBetween(l, a, after, cs[1..]);
        NoneAfter(l, a, after, cs[1..], lo, hi);
      }
      forall j | 0 <= j < |cs| ensures lo <= cs[j].Granted() <= hi <==> i <= j < k {
        if j > 0 { assert cs[j] == cs[1..][j - 1] && cs[1..][j - 1] in cs[1..]; }
      }
    }
  }

  lemma OrderedGrants(l: Limits, b: Bucket, from: real, cs: seq<Call>, i: nat, j: nat)
    requires l.Valid() && InRange(l, b) && b.lastRefill <= from && LegalRun(l, b, from, cs) && i <= j < |cs|
    ensures cs[i].Granted() <= cs[j].Granted()
  {
    if i < j {
      LegalSuffix(l, b, from, cs, i + 1);
      assert cs[..i + 1][i] == cs[i] && cs[j] == cs[i + 1..][j - i - 1];
      GrantedBetween(l, Final(l, b, cs[..i + 1]), Returned(from, cs[..i + 1]), cs[i + 1..]);
    }
  }

  /** Nominal credit and excess of the span together stay within `max`. */
  predicate SpanFits(l: Limits, b: Bucket, cs: seq<Call>, i: nat, k: nat, max: nat)
    requires l.Valid() && i < k <= |cs|
  {
    Nominal(l, b, cs, i, k) + SpanExcess(l, b, cs, i, k) <= max as real
  }

  predicate InWindow(cs: seq<Call>, i: nat, k: nat, lo: real, hi: real)
    requires i < k <= |cs|
  {
    lo <= cs[i].Granted() && cs[k - 1].Granted() <= hi
  }

  /** For any window of any run: at most `max` acquisitions are granted in it if and only if the tokens at hand,
      the nominal refill and the excess of every span of grants in it come to at most `max`. */
  lemma WindowExactly(l: Limits, b: Bucket, from: real, cs: seq<Call>, lo: real, hi: real, max: nat)
    requires l.Valid() && InRange(l, b) && b.lastRefill <= from && LegalRun(l, b, from, cs)
    ensures Grants(cs, lo, hi) <= max
            <==> forall i, k :: 0 <= i < k <= |cs| && InWindow(cs, i, k, lo, hi) ==> SpanFits(l, b, cs, i, k, max)
  {
    hide SpanFits, LegalRun, Grants;
    var m, n := WindowIsSpan(l, b, from, cs, lo, hi);
    forall i, k | 0 <= i < k <= |cs| ensures SpanFits(l, b, cs, i, k, max) <==> k - i <= max {
      SpanFitsExactly(l, b, from, cs, i, k, max);
    }
    forall i, k | 0 <= i < k <= |cs| && InWindow(cs, i, k, lo, hi) ensures k - i <= n - m {
      OrderedGrants(l, b, from, cs, i, k - 1);
    }
    if m < n { assert InWindow(cs, m, n, lo, hi); }
  }

  lemma SpanFitsExactly(l: Limits, b: Bucket, from: real, cs: seq<Call>, i: nat, k: nat, max: nat)
    requires l.Valid() && InRange(l, b) && b.lastRefill <= from && LegalRun(l, b, from, cs) && i < k <= |cs|
    ensures SpanFits(l, b, cs, i, k, max) <==> k - i <= max
  {
    hide Nominal, SpanExcess, LegalRun;
    SpanExactly(l, b, from, cs, i, k);
  }

  /** The documented maximum for the period that starts at `lo`. */
  predicate MaximumKept(l: Limits, cs: seq<Call>, lo: real) { Grants(cs, lo, lo + l.period) <= l.rate }

  /** The documented maximum, for every period wherever it lies in a run: it is kept if and only if for every
      span of grants within one period the tokens at hand, the nominal refill and the excess come to at most
      `rate`. */
  lemma DocumentedMaximumExactly(l: Limits, b: Bucket, from: real, cs: seq<Call>)
    requires l.Valid() && InRange(l, b) && b.lastRefill <= from && LegalRun(l, b, from, cs)
    ensures (forall lo :: MaximumKept(l, cs, lo))
            <==> forall i, k :: 0 <= i < k <= |cs| && cs[k - 1].Granted() - cs[i].Granted() <= l.period
                                ==> SpanFits(l, b, cs, i, k, l.rate)
  {
    hide SpanFits, LegalRun, Grants;
    forall lo ensures MaximumKept(l, cs, lo)
                      <==> forall i, k :: 0 <= i < k <= |cs| && InWindow(cs, i, k, lo, lo + l.period)
                                          ==> SpanFits(l, b, cs, i, k, l.rate)
    {
      WindowExactly(l, b, from, cs, lo, lo + l.period, l.rate);
    }
    if forall lo :: MaximumKept(l, cs, lo) {
      forall i, k | 0 <= i < k <= |cs| && cs[k - 1].Granted() - cs[i].Granted() <= l.period
        ensures SpanFits(l, b, cs, i, k, l.rate)
      {
        assert MaximumKept(l, cs, cs[i].Granted());
        assert InWindow(cs, i, k, cs[i].Granted(), cs[i].Granted() + l.period);
      }
    }
  }

  lemma CloseCalls(l: Limits, b: Bucket, from: real, cs: seq<Call>, lo: real) returns (i: nat)
    requires l.Valid() && InRange(l, b) && b.lastRefill <= from && LegalRun(l, b, from, cs)
    requires !MaximumKept(l, cs, lo)
    ensures i + l.rate < |cs| && cs[i + l.rate].Granted() - cs[i].Granted() <= l.period
  {
    hide LegalRun, Grants, InRange;
    var n;
    i, n := WindowIsSpan(l, b, from, cs, lo, lo + l.period);
  }

  /** The same on the times of the calls and their sleeps alone: every period has at most `rate` grants if and only
      if any `rate` + 1 calls in a row are granted more than a period apart. */
  lemma MaximumByTimes(l: Limits, b: Bucket, from: real, cs: seq<Call>)
    requires l.Valid() && InRange(l, b) && b.lastRefill <= from && LegalRun(l, b, from, cs)
    ensures (forall lo :: MaximumKept(l, cs, lo))
            <==> forall i :: 0 <= i < |cs| - l.rate ==> cs[i + l.rate].Granted() - cs[i].Granted() > l.period
  {
    hide LegalRun, Grants, InRange;
    if lo :| !MaximumKept(l, cs, lo) {
      var i := CloseCalls(l, b, from, cs, lo);
    } else {
      forall i | 0 <= i < |cs| - l.rate ensures cs[i + l.rate].Granted() - cs[i].Granted() > l.period {
        var lo := cs[i].Granted();
        assert MaximumKept(l, cs, lo);
        var m, n := WindowIsSpan(l, b, from, cs, lo, lo + l.period);
        assert m <= i < n;
        OrderedGrants(l, b, from, cs, i, i + l.rate);
      }
    }
  }

  lemma CallStamps(l: Limits, b: Bucket, from: real, cs: seq<Call>, i: nat)
    requires l.Valid() && InRange(l, b) && b.lastRefill <= from && LegalRun(l, b, from, cs) && i < |cs|
    ensures var a := Final(l, b, cs[..i + 1]); a.tokens <= l.rate as real - 1.0 && a.lastRefill == cs[i].now
  {
    LegalSuffix(l, b, from, cs, i);
    assert cs[i..][0] == cs[i];
    hide LegalRun;
    FinalConcat(l, b, cs[..i], [cs[i]]);
    assert cs[..i + 1] == cs[..i] + [cs[i]] && [cs[i]][1..] == [];
    var a := Final(l, b, cs[..i]);
    assert Final(l, a, [cs[i]]) == After(l, a, cs[i].now);
    RefillInRange(l, a, cs[i].now);
  }

  /** While nobody waits, a period holds at most twice the documented maximum: a full bucket and what is refilled. */
  lemma PeriodWithoutWaits(l: Limits, b: Bucket, from: real, cs: seq<Call>, i: nat, k: nat)
    requires l.Valid() && InRange(l, b) && b.lastRefill <= from && LegalRun(l, b, from, cs) && i < k <= |cs|
    requires cs[k - 1].Granted() - cs[i].Granted() <= l.period && forall j :: i <= j < k - 1 ==> cs[j].slept == 0.0
    ensures k - i <= 2 * l.rate
  {
    hide LegalRun, Final, Earned;
    if i + 1 < k {
      NominalWithoutEarlierWaits(l, b, from, cs, i + 1, k);
      CallStamps(l, b, from, cs, i);
      PeriodEarnsRate(l);
      EarnedMonotone(l, cs[k - 1].Granted() - cs[i].now, l.period);
    }
  }

  lemma PeriodEarnsRate(l: Limits)
    requires l.Valid()
    ensures Earned(l, l.period) == l.rate as real && l.rate as real * l.Interval() == l.period
  {}

  // ---------------------------------------------------------------------------
  // Bounds on the number of grants
  // ---------------------------------------------------------------------------

  /** Acquisitions granted at a time in [lo, hi]. */
  function Grants(cs: seq<Call>, lo: real, hi: real): nat {
    if cs == [] then 0 else (if lo <= cs[0].Granted() <= hi then 1 else 0) + Grants(cs[1..], lo, hi)
  }

  lemma {:induction false} NoneAfter(l: Limits, b: Bucket, from: real, cs: seq<Call>, lo: real, hi: real)
    requires l.Valid() && InRange(l, b) && b.lastRefill <= from && LegalRun(l, b, from, cs) && hi < from
    ensures Grants(cs, lo, hi) == 0
    decreases |cs|
  {
    hide Earned;
    if cs != [] {
      OneCall(l, b, from, cs[0]);
      NoneAfter(l, After(l, b, cs[0].now), cs[0].Granted(), cs[1..], lo, hi);
    }
  }

  /** One call and what a bound of the given form leaves for the calls after it. */
  lemma StepCredit(l: Limits, b: Bucket, from: real, c: Call, hi: real)
    requires l.Valid() && InRange(l, b) && b.lastRefill <= from && Legal(l, b, from, c) && c.Granted() <= hi
    ensures var a := After(l, b, c.now);
            1.0 + a.tokens + Earned(l, hi - c.now) + Earned(l, hi - c.Granted())
            <= Refilled(l, b, c.now) + Earned(l, hi - c.now) + Earned(l, hi - from)
    ensures Earned(l, hi - c.now) <= Earned(l, hi - from)
  {
    hide Earned;
    OneCall(l, b, from, c);
    EarnedMonotone(l, hi - c.Granted(), hi - c.now - Wait(l, b, c.now));
    EarnedMonotone(l, hi - c.now, hi - from);
    EarnedAdds(l, hi - c.now - Wait(l, b, c.now), Wait(l, b, c.now));
  }

  lemma {:induction false} GrantsFrom(l: Limits, b: Bucket, from: real, cs: seq<Call>, lo: real, hi: real)
    requires l.Valid() && InRange(l, b) && b.lastRefill <= from <= hi && LegalRun(l, b, from, cs)
    ensures Grants(cs, lo, hi) as real <= b.tokens + Earned(l, hi - b.lastRefill) + Earned(l, hi - from)
    decreases |cs|
  {
    hide Earned;
    EarnedMonotone(l, 0.0, hi - b.lastRefill);
    EarnedMonotone(l, 0.0, hi - from);
    if cs != [] {
      var c := cs[0];
      var a := After(l, b, c.now);
      OneCall(l, b, from, c);
      if c.Granted() <= hi {
        GrantsFrom(l, a, c.Granted(), cs[1..], lo, hi);
        StepCredit(l, b, from, c, hi);
        EarnedAdds(l, hi - c.now, c.now - b.lastRefill);
      } else {
        NoneAfter(l, a, c.Granted(), cs[1..], lo, hi);
      }
    }
  }

  /** Over every legal run of a new limiter, at most 1 + 2 rate/period T acquisitions are granted in the
      first T seconds: twice the nominal rate. */
  lemma RateBound(l: Limits, start: real, cs: seq<Call>, seconds: real)
    requires l.Valid() && seconds >= 0.0 && LegalRun(l, Bucket(1.0, start), start, cs)
    ensures Grants(cs, start, start + seconds) as real <= 1.0 + 2.0 * Earned(l, seconds)
  {
    hide Earned;
    GrantsFrom(l, Bucket(1.0, start), start, cs, start, start + seconds);
  }

  /** The same with the bucket capped at `rate`, whatever was saved up before. */
  lemma CappedGrants(l: Limits, b: Bucket, from: real, cs: seq<Call>, lo: real, hi: real)
    requires l.Valid() && InRange(l, b) && b.lastRefill <= from <= hi && LegalRun(l, b, from, cs)
    ensures Grants(cs, lo, hi) as real <= l.rate as real + 2.0 * Earned(l, hi - from)
  {
    hide Earned;
    EarnedMonotone(l, 0.0, hi - from);
    if cs != [] {
      var c := cs[0];
      var a := After(l, b, c.now);
      OneCall(l, b, from, c);
      if c.Granted() <= hi {
        GrantsFrom(l, a, c.Granted(), cs[1..], lo, hi);
        StepCredit(l, b, from, c, hi);
        RefillInRange(l, b, c.now);
      } else {
        NoneAfter(l, a, c.Granted(), cs[1..], lo, hi);
      }
    }
  }

  /** In any window of T seconds, wherever it lies in a run, at most rate + 1 + 2 rate/period T
      acquisitions are granted. */
  lemma {:induction false} WindowBound(l: Limits, b: Bucket, from: real, cs: seq<Call>, lo: real, seconds: real)
    requires l.Valid() && InRange(l, b) && b.lastRefill <= from && seconds >= 0.0 && LegalRun(l, b, from, cs)
    ensures Grants(cs, lo, lo + seconds) as real <= l.rate as real + 1.0 + 2.0 * Earned(l, seconds)
    decreases |cs|
  {
    hide Earned;
    EarnedMonotone(l, 0.0, seconds);
    if cs != [] {
      var c := cs[0];
      var a := After(l, b, c.now);
      OneCall(l, b, from, c);
      if c.Granted() < lo {
        WindowBound(l, a, c.Granted(), cs[1..], lo, seconds);
      } else if c.Granted() <= lo + seconds {
        CappedGrants(l, a, c.Granted(), cs[1..], lo, lo + seconds);
        EarnedMonotone(l, lo + seconds - c.Granted(), seconds);
      } else {
        NoneAfter(l, a, c.Granted(), cs[1..], lo, lo + seconds);
      }
    }
  }

  // ---------------------------------------------------------------------------
  // The bound is reached
  // ---------------------------------------------------------------------------

  /** `n` pairs of calls from time `at`: one that waits a full interval, one that finds the token its
      predecessor's wait earned a second time. */
  function Pairs(l: Limits, at: real, n: nat): (cs: seq<Call>)
    requires l.Valid()
    ensures |cs| == 2 * n
    decreases n
  {
    if n == 0 then []
    else [Call(at, l.Interval()), Call(at + l.Interval(), 0.0)] + Pairs(l, at + l.Interval(), n - 1)
  }

  /** The time at which the pairs are over. */
  function PairsEnd(l: Limits, at: real, n: nat): real
    requires l.Valid()
    decreases n
  {
    if n == 0 then at else PairsEnd(l, at + l.Interval(), n - 1)
  }

  lemma {:induction false} PairsEndIs(l: Limits, at: real, n: nat)
    requires l.Valid()
    ensures PairsEnd(l, at, n) == at + n as real * l.Interval()
    decreases n
  {
    if n > 0 {
      PairsEndIs(l, at + l.Interval(), n - 1);
      assert n as real * l.Interval() == (n - 1) as real * l.Interval() + l.Interval();
    }
  }

  lemma PairIsLegal(l: Limits, at: real)
    requires l.Valid()
    ensures var b := Bucket(0.0, at);
            var c := Call(at, l.Interval());
            && Legal(l, b, at, c) && After(l, b, at) == b
            && Legal(l, b, c.Granted(), Call(c.Granted(), 0.0))
            && After(l, b, c.Granted()) == Bucket(0.0, c.Granted())
  {
    IntervalInverts(l, 1.0);
    IntervalInverts(l, 0.0);
    assert 1.0 * l.Interval() == l.Interval();
    var b := Bucket(0.0, at);
    assert Earned(l, at - b.lastRefill) == 0.0;
    assert Earned(l, at + l.Interval() - b.lastRefill) == 1.0;
    hide Earned;
  }

  /** One more pair in front of a legal run. */
  lemma PairInFront(l: Limits, at: real, rest: seq<Call>)
    requires l.Valid() && LegalRun(l, Bucket(0.0, at + l.Interval()), at + l.Interval(), rest)
    ensures LegalRun(l, Bucket(0.0, at), at, [Call(at, l.Interval()), Call(at + l.Interval(), 0.0)] + rest)
  {
    hide Earned, Limits.Interval, Refilled, Wait;
    PairIsLegal(l, at);
    var cs := [Call(at, l.Interval()), Call(at + l.Interval(), 0.0)] + rest;
    hide After, Legal;
    assert cs[0] == Call(at, l.Interval()) && cs[1..][0] == Call(at + l.Interval(), 0.0) && cs[1..][1..] == rest;
  }

  lemma IntervalIsPositive(l: Limits)
    requires l.Valid()
    ensures l.Interval() > 0.0
  {
    IntervalInverts(l, 1.0);
  }

  lemma {:induction false} PairsAreLegal(l: Limits, at: real, n: nat)
    requires l.Valid()
    ensures LegalRun(l, Bucket(0.0, at), at, Pairs(l, at, n))
    decreases n
  {
    if n > 0 {
      hide LegalRun, Limits.Interval;
      PairsAreLegal(l, at + l.Interval(), n - 1);
      PairInFront(l, at, Pairs(l, at + l.Interval(), n - 1));
    }
  }

  lemma {:induction false} PairsInside(l: Limits, at: real, n: nat)
    requires l.Valid()
    ensures at <= PairsEnd(l, at, n)
    ensures forall c :: c in Pairs(l, at, n) ==> at <= c.Granted() <= PairsEnd(l, at, n)
    decreases n
  {
    IntervalIsPositive(l);
    if n > 0 {
      hide Limits.Interval;
      var i, rest := l.Interval(), Pairs(l, at + l.Interval(), n - 1);
      PairsInside(l, at + i, n - 1);
      forall c | c in Pairs(l, at, n) ensures at <= c.Granted() <= PairsEnd(l, at, n) {
        assert c == Call(at, i) || c == Call(at + i, 0.0) || c in rest;
      }
    }
  }

  lemma {:induction false} AllInside(cs: seq<Call>, lo: real, hi: real)
    requires forall c :: c in cs ==> lo <= c.Granted() <= hi
    ensures Grants(cs, lo, hi) == |cs|
  {
    if cs != [] { AllInside(cs[1..], lo, hi); }
  }

  function Saturating(l: Limits, start: real, n: nat): seq<Call>
    requires l.Valid()
  {
    [Call(start, 0.0)] + Pairs(l, start, n)
  }

  /** For every limiter and every n there is a legal run that is granted exactly 1 + 2n acquisitions by
      the time n nominal tokens have been earned, so `RateBound` cannot be improved and the documented
      maximum of `rate` requests per period is exceeded. */
  lemma RateBoundIsReached(l: Limits, start: real, n: nat)
    requires l.Valid()
    ensures LegalRun(l, Bucket(1.0, start), start, Saturating(l, start, n))
    ensures Grants(Saturating(l, start, n), start, start + n as real * l.Interval()) == 1 + 2 * n
    ensures Earned(l, n as real * l.Interval()) == n as real
  {
    var cs := Saturating(l, start, n);
    IntervalInverts(l, n as real);
    EarnedMonotone(l, 0.0, 0.0);
    PairsEndIs(l, start, n);
    PairsAreLegal(l, start, n);
    PairsInside(l, start, n);
    hide Earned;
    assert cs[0] == Call(start, 0.0) && cs[1..] == Pairs(l, start, n);
    assert Refilled(l, Bucket(1.0, start), start) == 1.0;
    assert After(l, Bucket(1.0, start), start) == Bucket(0.0, start);
    assert LegalRun(l, Bucket(1.0, start), start, cs);
    forall c | c in cs ensures start <= c.Granted() <= PairsEnd(l, start, n) {
      assert c == cs[0] || c in cs[1..];
    }
    AllInside(cs, start, PairsEnd(l, start, n));
  }

  /** The documented maximum of `rate` acquisitions per period fails for every limiter: this run is granted
      1 + 2 rate of them in the first period. */
  lemma DocumentedMaximumFails(l: Limits, start: real)
    requires l.Valid()
    ensures LegalRun(l, Bucket(1.0, start), start, Saturating(l, start, l.rate))
    ensures Grants(Saturating(l, start, l.rate), start, start + l.period) == 1 + 2 * l.rate > l.rate
  {
    hide *;
    RateBoundIsReached(l, start, l.rate);
    PeriodEarnsRate(l);
  }

  // ---------------------------------------------------------------------------
  // Runs after one another
  // ---------------------------------------------------------------------------

  lemma {:induction false} FinalConcat(l: Limits, b: Bucket, cs: seq<Call>, ds: seq<Call>)
    requires l.Valid()
    ensures Final(l, b, cs + ds) == Final(l, Final(l, b, cs), ds)
    decreases |cs|
  {
    hide After;
    if cs == [] {
      assert cs + ds == ds;
    } else {
      assert (cs + ds)[1..] == cs[1..] + ds;
      FinalConcat(l, After(l, b, cs[0].now), cs[1..], ds);
    }
  }

  lemma {:induction false} RunThenRun(l: Limits, b: Bucket, from: real, cs: seq<Call>, ds: seq<Call>)
    requires l.Valid() && LegalRun(l, b, from, cs) && LegalRun(l, Final(l, b, cs), Returned(from, cs), ds)
    ensures LegalRun(l, b, from, cs + ds) && Final(l, b, cs + ds) == Final(l, Final(l, b, cs), ds)
    ensures Returned(from, cs + ds) == Returned(Returned(from, cs), ds)
    decreases |cs|
  {
    hide After, Legal;
    if cs == [] {
      assert cs + ds == ds;
    } else {
      assert (cs + ds)[1..] == cs[1..] + ds;
      RunThenRun(l, After(l, b, cs[0].now), cs[0].Granted(), cs[1..], ds);
    }
  }

  lemma {:induction false} GrantsThenGrants(cs: seq<Call>, ds: seq<Call>, lo: real, hi: real)
    ensures Grants(cs + ds, lo, hi) == Grants(cs, lo, hi) + Grants(ds, lo, hi)
  {
    if cs == [] {
      assert cs + ds == ds;
    } else {
      assert (cs + ds)[1..] == cs[1..] + ds;
      GrantsThenGrants(cs[1..], ds, lo, hi);
    }
  }

  // ---------------------------------------------------------------------------
  // The window bound is reached
  // ---------------------------------------------------------------------------

  /** `n` calls at once. */
  function Burst(at: real, n: nat): (cs: seq<Call>)
    ensures |cs| == n && forall i :: 0 <= i < n ==> cs[i] == Call(at, 0.0)
  {
    if n == 0 then [] else [Call(at, 0.0)] + Burst(at, n - 1)
  }

  lemma TakesOne(l: Limits, at: real, b: Bucket)
    requires l.Valid() && 1.0 <= Refilled(l, b, at)
    ensures Legal(l, b, at, Call(at, 0.0)) && After(l, b, at) == Bucket(Refilled(l, b, at) - 1.0, at)
  {}

  lemma {:induction false} BurstIsLegal(l: Limits, at: real, b: Bucket, n: nat)
    requires l.Valid() && n >= 1 && Refilled(l, b, at) == n as real
    ensures LegalRun(l, b, at, Burst(at, n)) && Final(l, b, Burst(at, n)) == Bucket(0.0, at)
    decreases n
  {
    TakesOne(l, at, b);
    hide After, Legal, Earned;
    if n > 1 {
      StillThere(l, b, at, n);
      BurstIsLegal(l, at, Bucket((n - 1) as real, at), n - 1);
    }
  }

  lemma StillThere(l: Limits, b: Bucket, at: real, n: nat)
    requires l.Valid() && n >= 1 && Refilled(l, b, at) == n as real
    ensures Refilled(l, Bucket((n - 1) as real, at), at) == (n - 1) as real
  {
    assert Earned(l, at - at) == 0.0;
  }

  /** One call takes the first token, the next oversleeps a whole period, and then the full bucket is emptied
      at once. */
  function Oversleeping(l: Limits, start: real): seq<Call>
    requires l.Valid()
  {
    [Call(start, 0.0), Call(start, l.period)] + Burst(start + l.period, l.rate)
  }

  lemma FirstTwo(l: Limits, start: real)
    requires l.Valid()
    ensures LegalRun(l, Bucket(1.0, start), start, [Call(start, 0.0), Call(start, l.period)])
    ensures Final(l, Bucket(1.0, start), [Call(start, 0.0), Call(start, l.period)]) == Bucket(0.0, start)
    ensures Refilled(l, Bucket(0.0, start), start + l.period) == l.rate as real
  {
    PeriodEarnsRate(l);
    IntervalIsPositive(l);
    OneIntervalIsShorter(l);
    assert Earned(l, start - start) == 0.0;
    hide Earned, Limits.Interval;
    var b := Bucket(0.0, start);
    assert After(l, Bucket(1.0, start), start) == b == After(l, b, start);
    OneLegal(l, Bucket(1.0, start), start, Call(start, 0.0));
    OneLegal(l, b, start, Call(start, l.period));
    RunThenRun(l, Bucket(1.0, start), start, [Call(start, 0.0)], [Call(start, l.period)]);
    assert [Call(start, 0.0)] + [Call(start, l.period)] == [Call(start, 0.0), Call(start, l.period)];
  }

  lemma OneLegal(l: Limits, b: Bucket, from: real, c: Call)
    requires l.Valid() && Legal(l, b, from, c)
    ensures LegalRun(l, b, from, [c]) && Final(l, b, [c]) == After(l, b, c.now)
  {
    hide Legal, After;
    assert [c][1..] == [];
  }

  lemma OneIntervalIsShorter(l: Limits)
    requires l.Valid()
    ensures (1.0 - 0.0) * l.Interval() <= l.period
  {
    PeriodEarnsRate(l);
    IntervalIsPositive(l);
    assert l.rate >= 1;
    WholeTimes(l.rate, l.Interval(), l.period);
  }

  lemma WholeTimes(n: int, x: real, total: real)
    requires n >= 1 && x >= 0.0 && n as real * x == total
    ensures (1.0 - 0.0) * x <= total
  {
    var more := n as real - 1.0;
    assert n as real * x == x + more * x;
    assert more * x >= 0.0;
  }

  lemma OversleepingIsLegal(l: Limits, start: real)
    requires l.Valid()
    ensures LegalRun(l, Bucket(1.0, start), start, Oversleeping(l, start))
    ensures Final(l, Bucket(1.0, start), Oversleeping(l, start)) == Bucket(0.0, start + l.period)
    ensures Returned(start, Oversleeping(l, start)) == start + l.period
  {
    hide Refilled, After, LegalRun, Final;
    FirstTwo(l, start);
    BurstIsLegal(l, start + l.period, Bucket(0.0, start), l.rate);
    RunThenRun(l, Bucket(1.0, start), start, [Call(start, 0.0), Call(start, l.period)],
               Burst(start + l.period, l.rate));
  }

  /** For every limiter and every n there is a legal run with exactly rate + 1 + 2n grants in a window in which
      n nominal tokens are earned, so `WindowBound` cannot be improved either. */
  lemma WindowBoundIsReached(l: Limits, start: real, n: nat)
    requires l.Valid()
    ensures var cs, lo := Oversleeping(l, start) + Pairs(l, start + l.period, n), start + l.period;
            && LegalRun(l, Bucket(1.0, start), start, cs)
            && Grants(cs, lo, lo + n as real * l.Interval()) == l.rate + 1 + 2 * n
            && Earned(l, n as real * l.Interval()) == n as real
  {
    hide *;
    var lo, first := start + l.period, Oversleeping(l, start);
    OversleepingIsLegal(l, start);
    PairsAreLegal(l, lo, n);
    RunThenRun(l, Bucket(1.0, start), start, first, Pairs(l, lo, n));
    PairsInside(l, lo, n);
    PairsEndIs(l, lo, n);
    AllInside(Pairs(l, lo, n), lo, PairsEnd(l, lo, n));
    OversleepingGrants(l, start, PairsEnd(l, lo, n));
    GrantsThenGrants(first, Pairs(l, lo, n), lo, PairsEnd(l, lo, n));
    IntervalInverts(l, n as real);
  }

  lemma OversleepingGrants(l: Limits, start: real, hi: real)
    requires l.Valid() && start + l.period <= hi
    ensures Grants(Oversleeping(l, start), start + l.period, hi) == l.rate + 1
  {
    var lo := start + l.period;
    var one, two := Call(start, 0.0), Call(start, l.period);
    assert [one, two] == [one] + [two];
    GrantsThenGrants([one], [two], lo, hi);
    AllInside([two], lo, hi);
    assert Grants([one], lo, hi) == 0;
    AllInside(Burst(lo, l.rate), lo, hi);
    GrantsThenGrants([one, two], Burst(lo, l.rate), lo, hi);
  }
}
