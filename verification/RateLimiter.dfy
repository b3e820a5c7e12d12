/** The token-bucket rate limiter of the connectors, over real time.

    The code stamps `lastRefill` before it sleeps and empties the bucket after, so a wait is credited
    twice: to the caller that waited and again to the next refill.  The model keeps that. */
module RateLimiter {

  datatype Limits = Limits(rate: nat, period: real) {
    predicate Valid() { rate >= 1 && period > 0.0 }

    /** Nominal tokens per second. */
    function PerSecond(): real
      requires Valid()
    {
      rate as real / period
    }

    /** Nominal seconds per token. */
    function Interval(): real
      requires Valid()
    {
      period / rate as real
    }
  }

  datatype Bucket = Bucket(tokens: real, lastRefill: real)

  /** One `acquire`: the clock reading inside the lock and how long the sleep (if any) lasted. */
  datatype Call = Call(now: real, slept: real) {
    function Granted(): real { now + slept }
  }

  /** Tokens that the nominal rate earns in `seconds`. */
  function Earned(l: Limits, seconds: real): real
    requires l.Valid()
  {
    seconds * l.PerSecond()
  }

  function Min(x: real, y: real): real { if x <= y then x else y }

  function Refilled(l: Limits, b: Bucket, now: real): real
    requires l.Valid()
  {
    Min(l.rate as real, b.tokens + Earned(l, now - b.lastRefill))
  }

  /** Requested sleep: zero unless less than one token is there. */
  function Wait(l: Limits, b: Bucket, now: real): real
    requires l.Valid()
  {
    var u := Refilled(l, b, now);
    if u < 1.0 then (1.0 - u) * l.Interval() else 0.0
  }

  function After(l: Limits, b: Bucket, now: real): Bucket
    requires l.Valid()
  {
    var u := Refilled(l, b, now);
    Bucket(if u < 1.0 then 0.0 else u - 1.0, now)
  }

  predicate InRange(l: Limits, b: Bucket) { 0.0 <= b.tokens <= l.rate as real }

  /** The clock does not run backwards, the lock serialises the calls (`from` is when the previous one
      returned), and a sleep lasts at least as long as requested. */
  predicate Legal(l: Limits, b: Bucket, from: real, c: Call)
    requires l.Valid()
  {
    && from <= c.now
    && if Refilled(l, b, c.now) < 1.0 then Wait(l, b, c.now) <= c.slept else c.slept == 0.0
  }

  predicate LegalRun(l: Limits, b: Bucket, from: real, cs: seq<Call>)
    requires l.Valid()
    decreases |cs|
  {
    cs == [] || (Legal(l, b, from, cs[0]) && LegalRun(l, After(l, b, cs[0].now), cs[0].Granted(), cs[1..]))
  }

  class TokenBucket {
    const limits: Limits
    var tokens: real
    var lastRefill: real

    predicate Valid()
      reads this
    {
      limits.Valid() && InRange(limits, State())
    }

    function State(): Bucket
      reads this
    {
      Bucket(tokens, lastRefill)
    }

    constructor (limits: Limits, now: real)
      requires limits.Valid()
      ensures Valid() && this.limits == limits && State() == Bucket(1.0, now)
    {
      this.limits := limits;
      tokens := 1.0;
      lastRefill := now;
    }

    /** `now` is the clock reading, `slept` the duration of the sleep; returns the grant time. */
    method Acquire(now: real, slept: real, ghost from: real) returns (granted: real)
      requires Valid() && lastRefill <= from && Legal(limits, State(), from, Call(now, slept))
      modifies this
      ensures Valid() && State() == After(limits, old(State()), now)
      ensures granted == now + slept && lastRefill <= granted
    {
      RefillInRange(limits, State(), now);
      var elapsed := now - lastRefill;
      tokens := Min(limits.rate as real, tokens + elapsed * (limits.rate as real / limits.period));
      assert tokens == Refilled(limits, old(State()), now);
      hide Refilled, Min, Earned;
      lastRefill := now;
      if tokens < 1.0 {
        WaitIsPositive(limits, old(State()), now);
        granted := now + slept;
        tokens := 0.0;
      } else {
        granted := now + slept;
        tokens := tokens - 1.0;
      }
    }
  }

  // ---------------------------------------------------------------------------
  // Arithmetic of one call
  // ---------------------------------------------------------------------------

  lemma IntervalInverts(l: Limits, x: real)
    requires l.Valid()
    ensures l.PerSecond() > 0.0 && l.Interval() > 0.0
    ensures Earned(l, x * l.Interval()) == x
  {
    assert l.Interval() * l.PerSecond() == 1.0;
    assert (x * l.Interval()) * l.PerSecond() == x * (l.Interval() * l.PerSecond());
  }

  lemma EarnedAdds(l: Limits, x: real, y: real)
    requires l.Valid()
    ensures Earned(l, x + y) == Earned(l, x) + Earned(l, y)
  {}

  lemma EarnedMonotone(l: Limits, x: real, y: real)
    requires l.Valid() && x <= y
    ensures Earned(l, x) <= Earned(l, y) && Earned(l, 0.0) == 0.0
  {
    IntervalInverts(l, 1.0);
    assert (y - x) * l.PerSecond() >= 0.0;
  }

  lemma RefillInRange(l: Limits, b: Bucket, now: real)
    requires l.Valid() && InRange(l, b) && b.lastRefill <= now
    ensures 0.0 <= Refilled(l, b, now) <= l.rate as real
  {
    hide Earned;
    EarnedMonotone(l, 0.0, now - b.lastRefill);
  }

  lemma WaitIsPositive(l: Limits, b: Bucket, now: real)
    requires l.Valid() && Refilled(l, b, now) < 1.0
    ensures Wait(l, b, now) > 0.0
    ensures Earned(l, Wait(l, b, now)) == 1.0 - Refilled(l, b, now)
  {
    var missing := 1.0 - Refilled(l, b, now);
    IntervalInverts(l, missing);
    assert missing * l.Interval() > 0.0;
  }

  /** What one call does: range, order of times, and the token it takes against the credit it uses. */
  lemma OneCall(l: Limits, b: Bucket, from: real, c: Call)
    requires l.Valid() && InRange(l, b) && b.lastRefill <= from && Legal(l, b, from, c)
    ensures var a := After(l, b, c.now);
            && InRange(l, a) && a.lastRefill == c.now && from <= c.now && c.now + Wait(l, b, c.now) <= c.Granted()
            && 1.0 + a.tokens == Refilled(l, b, c.now) + Earned(l, Wait(l, b, c.now))
            && Wait(l, b, c.now) >= 0.0
  {
    hide Earned;
    RefillInRange(l, b, c.now);
    EarnedMonotone(l, 0.0, 0.0);
    if Refilled(l, b, c.now) < 1.0 { WaitIsPositive(l, b, c.now); }
  }
}
