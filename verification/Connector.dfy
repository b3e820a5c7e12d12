/** Circuit breaker and the retrying request of the connectors. */
module Connector {
  import opened Wrappers
  import opened RateBounds
  import opened RateLimiter

  // ---------------------------------------------------------------------------
  // Circuit breaker
  // ---------------------------------------------------------------------------

  datatype Breaker = Breaker(failures: nat, openedAt: Option<real>)

  const CLOSED := Breaker(0, None)

  function Failure(threshold: int, b: Breaker, now: real): Breaker {
    Breaker(b.failures + 1, if b.failures + 1 >= threshold then Some(now) else b.openedAt)
  }

  predicate IsOpen(recovery: real, b: Breaker, now: real) {
    b.openedAt.Some? && !(now - b.openedAt.value >= recovery)
  }

  class CircuitBreaker {
    const threshold: int
    const recovery: real
    var failures: nat
    var openedAt: Option<real>

    function State(): Breaker
      reads this
    {
      Breaker(failures, openedAt)
    }

    constructor (threshold: int, recovery: real)
      ensures this.threshold == threshold && this.recovery == recovery && State() == CLOSED
    {
      this.threshold, this.recovery := threshold, recovery;
      failures, openedAt := 0, None;
    }

    method Open(now: real) returns (open: bool)
      ensures open == IsOpen(recovery, State(), now)
    {
      if openedAt.None? { return false; }
      open := !(now - openedAt.value >= recovery);
    }

    method RecordSuccess()
      modifies this
      ensures State() == CLOSED
    {
      failures, openedAt := 0, None;
    }

    method RecordFailure(now: real)
      modifies this
      ensures State() == Failure(threshold, old(State()), now)
    {
      failures := failures + 1;
      if failures >= threshold { openedAt := Some(now); }
    }
  }

  /** What was reported to a breaker, oldest first. */
  datatype Mark = Succeeded | Failed(at: real)

  function Record(threshold: int, b: Breaker, m: Mark): Breaker {
    match m case Succeeded => CLOSED case Failed(at) => Failure(threshold, b, at)
  }

  function Replay(threshold: int, marks: seq<Mark>): Breaker {
    if marks == [] then CLOSED
    else Record(threshold, Replay(threshold, marks[..|marks| - 1]), marks[|marks| - 1])
  }

  /** Failures reported since the last success. */
  function FailuresSince(marks: seq<Mark>): nat {
    if marks == [] || marks[|marks| - 1].Succeeded? then 0 else 1 + FailuresSince(marks[..|marks| - 1])
  }

  /** Over every history: the failure counter is the number of failures since the last success, and the
      breaker is stamped exactly when that number has reached the threshold, with the last failure. */
  lemma {:induction false} BreakerFollowsHistory(threshold: int, marks: seq<Mark>)
    ensures var b := Replay(threshold, marks);
            var n := FailuresSince(marks);
            && b.failures == n
            && (b.openedAt.Some? <==> n >= 1 && n >= threshold)
            && (b.openedAt.Some? ==> marks[|marks| - 1] == Failed(b.openedAt.value))
  {
    if marks != [] && marks[|marks| - 1].Failed? { BreakerFollowsHistory(threshold, marks[..|marks| - 1]); }
  }

  /** Open means: the threshold was reached and the last failure is less than `recovery` ago. */
  lemma OpenExactlyWhen(threshold: int, recovery: real, marks: seq<Mark>, now: real)
    ensures IsOpen(recovery, Replay(threshold, marks), now)
            <==> FailuresSince(marks) >= 1 && FailuresSince(marks) >= threshold
                 && now - marks[|marks| - 1].at < recovery
  {
    BreakerFollowsHistory(threshold, marks);
  }

  // ---------------------------------------------------------------------------
  // One request with retries
  // ---------------------------------------------------------------------------

  /** How one HTTP attempt ends.  `Reply`: success with a JSON (or empty) body.  `BadBody`: success whose
      body is not JSON.  `TooMany`: 429 with its Retry-After seconds.  `Broken`: an HTTP status or
      transport error.  `Escapes`: any other exception, such as an unreadable Retry-After header. */
  datatype Outcome =
    | Reply(body: string)
    | BadBody
    | TooMany(retryAfter: real)
    | Broken(error: string)
    | Escapes(error: string)

  /** Environment of one attempt: the limiter call before it, its outcome, and the clock when a failure
      is recorded. */
  datatype Attempt = Attempt(acquire: Call, outcome: Outcome, recordedAt: real)

  datatype Config = Config(limits: Limits, maxRetries: nat, baseDelay: real, maxDelay: real, threshold: int,
                           recovery: real)

  datatype Verdict =
    | Returned(body: string)
    | CircuitOpen
    | ClientNotOpen
    | Unreadable
    | Escaped(error: string)
    | LastError(error: string)
    | RateLimited(attempts: nat)
    | Exhausted

  /** Result of a request: verdict, HTTP requests sent, seconds slept for back-off, state afterwards. */
  datatype Trace = Trace(verdict: Verdict, sent: nat, slept: real, breaker: Breaker, bucket: Bucket)

  function Pow2(n: nat): nat { if n == 0 then 1 else 2 * Pow2(n - 1) }

  /** asyncio.sleep returns at once for a non-positive delay. */
  function Sleep(seconds: real): real { if seconds > 0.0 then seconds else 0.0 }

  function Backoff(c: Config, failedAttempt: nat): real {
    Sleep(Min(c.baseDelay * Pow2(failedAttempt) as real, c.maxDelay))
  }

  function GivenUp(last: Option<string>, limited: nat): Verdict {
    if last.Some? then LastError(last.value) else if limited > 0 then RateLimited(limited) else Exhausted
  }

  function Sent(slept: real, rest: Trace): Trace {
    rest.(sent := rest.sent + 1, slept := slept + rest.slept)
  }

  /** The retry loop from attempt `i` on (counted from 0). */
  function Retry(c: Config, script: seq<Attempt>, i: nat, b: Breaker, k: Bucket, last: Option<string>,
                 limited: nat): Trace
    requires c.limits.Valid() && i <= c.maxRetries <= |script|
    decreases c.maxRetries - i
  {
    if i == c.maxRetries then Trace(GivenUp(last, limited), 0, 0.0, b, k)
    else
      var a := script[i];
      var k' := After(c.limits, k, a.acquire.now);
      match a.outcome
      case Reply(body) => Trace(Returned(body), 1, 0.0, CLOSED, k')
      case BadBody => Trace(Unreadable, 1, 0.0, CLOSED, k')
      case Escapes(e) => Trace(Escaped(e), 1, 0.0, b, k')
      case TooMany(seconds) =>
        Sent(Sleep(Min(seconds, c.maxDelay)), Retry(c, script, i + 1, b, k', last, limited + 1))
      case Broken(e) =>
        Sent(if i + 1 < c.maxRetries then Backoff(c, i) else 0.0,
             Retry(c, script, i + 1, Failure(c.threshold, b, a.recordedAt), k', Some(e), limited))
  }

  function Request(c: Config, script: seq<Attempt>, now: real, clientOpen: bool, b: Breaker, k: Bucket): Trace
    requires c.limits.Valid() && c.maxRetries <= |script|
  {
    if IsOpen(c.recovery, b, now) then Trace(CircuitOpen, 0, 0.0, b, k)
    else if !clientOpen then Trace(ClientNotOpen, 0, 0.0, b, k)
    else Retry(c, script, 0, b, k, None, 0)
  }

  function Acquires(script: seq<Attempt>): (cs: seq<Call>)
    ensures |cs| == |script| && forall i :: 0 <= i < |cs| ==> cs[i] == script[i].acquire
  {
    seq(|script|, i requires 0 <= i < |script| => script[i].acquire)
  }

  /** What an attempt makes a request tell the breaker. */
  function Told(a: Attempt): seq<Mark> {
    if a.outcome.Broken? then [Failed(a.recordedAt)]
    else if a.outcome.Reply? || a.outcome.BadBody? then [Succeeded] else []
  }

  /** Breaker reports of the first `n` attempts. */
  function Marks(script: seq<Attempt>, n: nat): seq<Mark>
    requires n <= |script|
  {
    if n == 0 then [] else Marks(script, n - 1) + Told(script[n - 1])
  }

  /** Enough failures in a row, the last of them recent. */
  predicate Refuses(c: Config, marks: seq<Mark>, now: real) {
    FailuresSince(marks) >= 1 && FailuresSince(marks) >= c.threshold && now - marks[|marks| - 1].at < c.recovery
  }

  class BaseConnector {
    const config: Config
    const limiter: TokenBucket
    const breaker: CircuitBreaker
    var clientOpen: bool
    ghost const start: real
    ghost var sentCalls: seq<Call>
    ghost var marks: seq<Mark>

    /** `sentCalls` are the limiter acquisitions of all requests so far, one per HTTP request sent; together
        they are one legal run of the limiter.  `marks` is all that the breaker was told. */
    ghost predicate Valid()
      reads this, limiter, breaker
    {
      && limiter.Valid() && limiter.limits == config.limits
      && breaker.threshold == config.threshold && breaker.recovery == config.recovery
      && LegalRun(config.limits, Bucket(1.0, start), start, sentCalls)
      && limiter.State() == Final(config.limits, Bucket(1.0, start), sentCalls)
      && breaker.State() == Replay(config.threshold, marks)
    }

    /** When the last acquisition returned. */
    ghost function LastReturn(): real
      reads this
    {
      RateBounds.Returned(start, sentCalls)
    }

    constructor (config: Config, now: real)
      requires config.limits.Valid()
      ensures Valid() && this.config == config && !clientOpen && fresh(limiter) && fresh(breaker)
      ensures breaker.State() == CLOSED && limiter.State() == Bucket(1.0, now) && start == now
      ensures sentCalls == [] && marks == []
    {
      var l := new TokenBucket(config.limits, now);
      var b := new CircuitBreaker(config.threshold, config.recovery);
      this.config, limiter, breaker, clientOpen := config, l, b, false;
      start, sentCalls, marks := now, [], [];
    }

    /** Taking a token for one attempt. */
    method AcquireFor(c: Call, ghost rest: seq<Call>) returns (granted: real)
      requires Valid() && LegalRun(config.limits, limiter.State(), LastReturn(), [c] + rest)
      modifies limiter, `sentCalls
      ensures Valid() && sentCalls == old(sentCalls) + [c] && granted == c.Granted()
      ensures limiter.State() == After(config.limits, old(limiter.State()), c.now)
      ensures LegalRun(config.limits, limiter.State(), LastReturn(), rest)
    {
      assert ([c] + rest)[1..] == rest;
      StampBefore(config.limits, Bucket(1.0, start), start, sentCalls);
      hide Final, After;
      OneLegal(config.limits, limiter.State(), LastReturn(), c);
      RunThenRun(config.limits, Bucket(1.0, start), start, sentCalls, [c]);
      granted := limiter.Acquire(c.now, c.slept, LastReturn());
      sentCalls := sentCalls + [c];
    }

    /** Telling the breaker how an attempt ended. */
    method Report(m: Mark)
      requires Valid()
      modifies breaker, `marks
      ensures Valid() && marks == old(marks) + [m]
      ensures breaker.State() == Record(config.threshold, old(breaker.State()), m)
    {
      hide LegalRun, Final;
      ReplaySnoc(config.threshold, marks, m);
      match m {
        case Succeeded => breaker.RecordSuccess();
        case Failed(at) => breaker.RecordFailure(at);
      }
      marks := marks + [m];
    }

    /** One attempt: a token, the HTTP request, and the report to the breaker. */
    method TryOnce(a: Attempt, ghost rest: seq<Call>)
      requires Valid() && LegalRun(config.limits, limiter.State(), LastReturn(), [a.acquire] + rest)
      modifies limiter, breaker, `sentCalls, `marks
      ensures Valid() && sentCalls == old(sentCalls) + [a.acquire] && marks == old(marks) + Told(a)
      ensures limiter.State() == After(config.limits, old(limiter.State()), a.acquire.now)
      ensures breaker.State() == if a.outcome.Broken? then Failure(config.threshold, old(breaker.State()), a.recordedAt)
                                 else if a.outcome.Reply? || a.outcome.BadBody? then CLOSED else old(breaker.State())
      ensures LegalRun(config.limits, limiter.State(), LastReturn(), rest)
    {
      hide LegalRun, Final, After, InRange, Replay, Failure;
      var _ := AcquireFor(a.acquire, rest);
      if a.outcome.Broken? {
        Report(Failed(a.recordedAt));
      } else if a.outcome.Reply? || a.outcome.BadBody? {
        Report(Succeeded);
      }
    }

    /** The retry loop of `_request`. */
    method Retries(script: seq<Attempt>) returns (verdict: Verdict, sent: nat, slept: real)
      requires Valid() && config.maxRetries <= |script|
      requires LegalRun(config.limits, limiter.State(), LastReturn(), Acquires(script[..config.maxRetries]))
      modifies limiter, breaker, `sentCalls, `marks
      ensures Valid() && sent <= |script| && sentCalls == old(sentCalls) + Acquires(script[..sent])
      ensures marks == old(marks) + Marks(script, sent) && !verdict.CircuitOpen?
      ensures Trace(verdict, sent, slept, breaker.State(), limiter.State())
              == Retry(config, script, 0, old(breaker.State()), old(limiter.State()), None, 0)
    {
      hide LegalRun, Final, Acquires, After, Backoff, Sleep, InRange, Replay, Marks, Failure, Told;
      sent, slept := 0, 0.0;
      NoAcquires(script);
      NextMark(script, 0);
      var last: Option<string>, limited := None, 0;
      for i := 0 to config.maxRetries
        invariant Valid() && sent == i && sentCalls == old(sentCalls) + Acquires(script[..i])
        invariant marks == old(marks) + Marks(script, i)
        invariant LegalRun(config.limits, limiter.State(), LastReturn(), Acquires(script[i..config.maxRetries]))
        invariant var rest := Retry(config, script, i, breaker.State(), limiter.State(), last, limited);
                  rest.(sent := sent + rest.sent, slept := slept + rest.slept)
                  == Retry(config, script, 0, old(breaker.State()), old(limiter.State()), None, 0)
      {
        var a := script[i];
        NextAcquire(script, i, config.maxRetries);
        NextMark(script, i);
        TryOnce(a, Acquires(script[i + 1..config.maxRetries]));
        sent := sent + 1;
        match a.outcome {
          case TooMany(seconds) =>
            limited := limited + 1;
            slept := slept + Sleep(Min(seconds, config.maxDelay));
          case Reply(body) =>
            return Returned(body), sent, slept;
          case BadBody =>
            return Unreadable, sent, slept;
          case Escapes(e) =>
            return Escaped(e), sent, slept;
          case Broken(e) =>
            last := Some(e);
            if i + 1 < config.maxRetries { slept := slept + Backoff(config, i); }
        }
      }
      verdict := GivenUp(last, limited);
    }

    /** `_request`: refused if and only if the failures since the last success in the connector's whole life reach
        the threshold and the last of them is recent.  Returns the verdict, the number of HTTP requests sent and the
        back-off sleep. */
    method DoRequest(now: real, script: seq<Attempt>) returns (verdict: Verdict, sent: nat, slept: real)
      requires Valid() && config.maxRetries <= |script|
      requires LegalRun(config.limits, limiter.State(), LastReturn(), Acquires(script[..config.maxRetries]))
      modifies limiter, breaker, `sentCalls, `marks
      ensures Valid() && sent <= |script| && sentCalls == old(sentCalls) + Acquires(script[..sent])
      ensures marks == old(marks) + Marks(script, sent)
      ensures verdict == CircuitOpen <==> Refuses(config, old(marks), now)
      ensures Trace(verdict, sent, slept, breaker.State(), limiter.State())
              == Request(config, script, now, clientOpen, old(breaker.State()), old(limiter.State()))
    {
      hide LegalRun, Final, Acquires, Retry, Replay, Marks, FailuresSince, IsOpen;
      NoAcquires(script);
      NextMark(script, 0);
      OpenExactlyWhen(config.threshold, config.recovery, marks, now);
      var open := breaker.Open(now);
      if open { return CircuitOpen, 0, 0.0; }
      if !clientOpen { return ClientNotOpen, 0, 0.0; }
      verdict, sent, slept := Retries(script);
    }

    /** Over the whole life of a connector, whatever the server answered and however often requests were made
        and retried: no more than 1 + 2 rate/period T of the HTTP requests sent went out in its first T seconds. */
    lemma SentBound(seconds: real)
      requires Valid() && seconds >= 0.0
      ensures Grants(sentCalls, start, start + seconds) as real <= 1.0 + 2.0 * Earned(config.limits, seconds)
    {
      RateBound(config.limits, start, sentCalls, seconds);
    }
  }

  lemma NextAcquire(script: seq<Attempt>, i: nat, n: nat)
    requires i < n <= |script|
    ensures Acquires(script[i..n]) == [script[i].acquire] + Acquires(script[i + 1..n])
    ensures Acquires(script[..i + 1]) == Acquires(script[..i]) + [script[i].acquire]
  {}

  lemma NextMark(script: seq<Attempt>, i: nat)
    requires i <= |script|
    ensures i < |script| ==> Marks(script, i + 1) == Marks(script, i) + Told(script[i])
    ensures Marks(script, 0) == []
  {}

  lemma ReplaySnoc(threshold: int, marks: seq<Mark>, m: Mark)
    ensures Replay(threshold, marks + [m]) == Record(threshold, Replay(threshold, marks), m)
  {
    assert (marks + [m])[..|marks|] == marks;
  }

  lemma NoAcquires(script: seq<Attempt>)
    ensures Acquires(script[..0]) == []
  {}

  /** The bucket was stamped before the last acquisition returned. */
  lemma {:induction false} StampBefore(l: Limits, b: Bucket, from: real, cs: seq<Call>)
    requires l.Valid() && InRange(l, b) && b.lastRefill <= from && LegalRun(l, b, from, cs)
    ensures Final(l, b, cs).lastRefill <= RateBounds.Returned(from, cs) && InRange(l, Final(l, b, cs))
    decreases |cs|
  {
    hide Earned;
    if cs != [] {
      OneCall(l, b, from, cs[0]);
      StampBefore(l, After(l, b, cs[0].now), cs[0].Granted(), cs[1..]);
    }
  }

  // ---------------------------------------------------------------------------
  // What a request does
  // ---------------------------------------------------------------------------

  /** Outcomes that end the loop. */
  predicate Decisive(o: Outcome) { o.Reply? || o.BadBody? || o.Escapes? }

  /** Index of the first decisive attempt at or after `i`, or `n`. */
  function FirstDecisive(script: seq<Attempt>, i: nat, n: nat): (d: nat)
    requires i <= n <= |script|
    ensures i <= d <= n && (d < n ==> Decisive(script[d].outcome))
    ensures forall j :: i <= j < d ==> !Decisive(script[j].outcome)
    decreases n - i
  {
    if i == n || Decisive(script[i].outcome) then i else FirstDecisive(script, i + 1, n)
  }

  function LastBroken(script: seq<Attempt>, n: nat): Option<string>
    requires n <= |script|
  {
    if n == 0 then None
    else if script[n - 1].outcome.Broken? then Some(script[n - 1].outcome.error) else LastBroken(script, n - 1)
  }

  function LimitedCount(script: seq<Attempt>, n: nat): nat
    requires n <= |script|
  {
    if n == 0 then 0 else LimitedCount(script, n - 1) + if script[n - 1].outcome.TooMany? then 1 else 0
  }

  function ReplayFrom(threshold: int, b: Breaker, marks: seq<Mark>): Breaker {
    if marks == [] then b
    else Record(threshold, ReplayFrom(threshold, b, marks[..|marks| - 1]), marks[|marks| - 1])
  }

  /** Telling a breaker of further marks continues its history. */
  lemma {:induction false} ReplayContinues(threshold: int, history: seq<Mark>, marks: seq<Mark>)
    ensures ReplayFrom(threshold, Replay(threshold, history), marks) == Replay(threshold, history + marks)
  {
    if marks == [] {
      assert history + marks == history;
    } else {
      var n := |marks| - 1;
      ReplayContinues(threshold, history, marks[..n]);
      assert (history + marks)[..|history + marks| - 1] == history + marks[..n];
    }
  }

  function VerdictAt(c: Config, script: seq<Attempt>, d: nat): Verdict
    requires d <= c.maxRetries <= |script| && (d < c.maxRetries ==> Decisive(script[d].outcome))
  {
    if d == c.maxRetries then GivenUp(LastBroken(script, d), LimitedCount(script, d))
    else match script[d].outcome
      case Reply(body) => Returned(body)
      case BadBody => Unreadable
      case Escapes(e) => Escaped(e)
  }

  /** One round of the loop, but for the sleep. */
  lemma RetryStep(c: Config, script: seq<Attempt>, i: nat, b: Breaker, k: Bucket, last: Option<string>, limited: nat)
    requires c.limits.Valid() && i < c.maxRetries <= |script|
    ensures var a, t := script[i], Retry(c, script, i, b, k, last, limited);
            var k' := After(c.limits, k, a.acquire.now);
            match a.outcome
            case Reply(body) => t.verdict == Returned(body) && t.sent == 1 && t.breaker == CLOSED && t.bucket == k'
            case BadBody => t.verdict == Unreadable && t.sent == 1 && t.breaker == CLOSED && t.bucket == k'
            case Escapes(e) => t.verdict == Escaped(e) && t.sent == 1 && t.breaker == b && t.bucket == k'
            case TooMany(_) => Follows(t, Retry(c, script, i + 1, b, k', last, limited + 1))
            case Broken(e) =>
              Follows(t, Retry(c, script, i + 1, Failure(c.threshold, b, a.recordedAt), k', Some(e), limited))
  {
    hide After, Failure, Backoff, Sleep, Min;
  }

  /** One HTTP request more, and the same end. */
  predicate Follows(t: Trace, rest: Trace) {
    t.verdict == rest.verdict && t.sent == rest.sent + 1 && t.breaker == rest.breaker && t.bucket == rest.bucket
  }

  lemma CountsStep(script: seq<Attempt>, i: nat, n: nat)
    requires i < n <= |script|
    ensures var o := script[i].outcome;
            && LastBroken(script, i + 1) == (if o.Broken? then Some(o.error) else LastBroken(script, i))
            && LimitedCount(script, i + 1) == LimitedCount(script, i) + (if o.TooMany? then 1 else 0)
            && FirstDecisive(script, i, n) == (if Decisive(o) then i else FirstDecisive(script, i + 1, n))
  {}

  lemma {:induction false} RetryOutcome(c: Config, script: seq<Attempt>, i: nat, b0: Breaker, k0: Bucket, k: Bucket)
    requires c.limits.Valid() && i <= c.maxRetries <= |script|
    requires k == Final(c.limits, k0, Acquires(script[..i]))
    ensures var d := FirstDecisive(script, i, c.maxRetries);
            var used := if d < c.maxRetries then d + 1 else d;
            var b := ReplayFrom(c.threshold, b0, Marks(script, i));
            var t := Retry(c, script, i, b, k, LastBroken(script, i), LimitedCount(script, i));
            && t.verdict == VerdictAt(c, script, d)
            && i + t.sent == used
            && t.breaker == ReplayFrom(c.threshold, b0, Marks(script, used))
            && t.bucket == Final(c.limits, k0, Acquires(script[..used]))
    decreases c.maxRetries - i
  {
    hide After, Final, Backoff, Sleep, ReplayFrom, Marks, Failure, Min, Acquires, GivenUp;
    if i < c.maxRetries {
      var a := script[i];
      var k' := After(c.limits, k, a.acquire.now);
      FinalAppend(c.limits, k0, Acquires(script[..i]), a.acquire);
      NextAcquire(script, i, c.maxRetries);
      MarksStep(c.threshold, b0, script, i);
      CountsStep(script, i, c.maxRetries);
      var b := ReplayFrom(c.threshold, b0, Marks(script, i));
      RetryStep(c, script, i, b, k, LastBroken(script, i), LimitedCount(script, i));
      hide Retry, FirstDecisive, LastBroken, LimitedCount;
      if !Decisive(a.outcome) { RetryOutcome(c, script, i + 1, b0, k0, k'); }
    }
  }

  lemma MarksStep(threshold: int, b0: Breaker, script: seq<Attempt>, i: nat)
    requires i < |script|
    ensures var b := ReplayFrom(threshold, b0, Marks(script, i));
            var a := script[i];
            ReplayFrom(threshold, b0, Marks(script, i + 1))
            == if a.outcome.Broken? then Failure(threshold, b, a.recordedAt)
               else if a.outcome.Reply? || a.outcome.BadBody? then CLOSED else b
  {
    var marks := Marks(script, i);
    var more := Marks(script, i + 1);
    if more != marks {
      assert more[..|more| - 1] == marks;
    } else {
      assert marks + [] == marks;
    }
  }

  lemma {:induction false} FinalAppend(l: Limits, b: Bucket, cs: seq<Call>, c: Call)
    requires l.Valid()
    ensures Final(l, b, cs + [c]) == After(l, Final(l, b, cs), c.now)
    decreases |cs|
  {
    hide After;
    if cs == [] {
      assert (cs + [c])[1..] == [];
    } else {
      assert (cs + [c])[1..] == cs[1..] + [c];
      FinalAppend(l, After(l, b, cs[0].now), cs[1..], c);
    }
  }

  /** A request on an open breaker sends nothing and changes nothing.  Otherwise it sends one HTTP
      request per attempt up to the first decisive one, at most `maxRetries`, each behind one limiter
      acquisition; it returns exactly when that attempt is a reply; and the breaker has been told of
      exactly these attempts. */
  lemma RequestOutcome(c: Config, script: seq<Attempt>, now: real, clientOpen: bool, b: Breaker, k: Bucket)
    requires c.limits.Valid() && c.maxRetries <= |script|
    ensures var t := Request(c, script, now, clientOpen, b, k);
            var d := FirstDecisive(script, 0, c.maxRetries);
            && (IsOpen(c.recovery, b, now) ==> t == Trace(CircuitOpen, 0, 0.0, b, k))
            && (!IsOpen(c.recovery, b, now) && !clientOpen ==> t == Trace(ClientNotOpen, 0, 0.0, b, k))
            && (!IsOpen(c.recovery, b, now) && clientOpen ==>
                  && t.verdict == VerdictAt(c, script, d)
                  && t.sent == (if d < c.maxRetries then d + 1 else d) <= c.maxRetries
                  && t.breaker == ReplayFrom(c.threshold, b, Marks(script, t.sent)))
            && t.sent <= |script| && t.bucket == Final(c.limits, k, Acquires(script[..t.sent]))
            && (t.verdict.Returned?
                <==> !IsOpen(c.recovery, b, now) && clientOpen && d < c.maxRetries && script[d].outcome.Reply?)
  {
    RetryOutcome(c, script, 0, b, k, k);
  }

  /** A request whose attempts are used up raises the last failure that was not a 429; when all were 429s it says how
      many there were. */
  lemma UsedUp(c: Config, script: seq<Attempt>, now: real, b: Breaker, k: Bucket, j: nat)
    requires c.limits.Valid() && c.maxRetries <= |script| && !IsOpen(c.recovery, b, now)
    requires forall i :: 0 <= i < c.maxRetries ==> script[i].outcome.Broken? || script[i].outcome.TooMany?
    requires j <= c.maxRetries && forall i :: j <= i < c.maxRetries ==> script[i].outcome.TooMany?
    ensures var t := Request(c, script, now, true, b, k);
            && t.sent == c.maxRetries
            && (j > 0 && script[j - 1].outcome.Broken? ==> t.verdict == LastError(script[j - 1].outcome.error))
            && (j == 0 && c.maxRetries > 0 ==> t.verdict == RateLimited(c.maxRetries))
            && (c.maxRetries == 0 ==> t.verdict == Exhausted)
  {
    RequestOutcome(c, script, now, true, b, k);
    FirstDecisiveIs(script, 0, c.maxRetries, c.maxRetries);
    LimitedOnly(script, j, c.maxRetries);
    hide Request, FirstDecisive, IsOpen;
  }

  lemma {:induction false} LimitedOnly(script: seq<Attempt>, j: nat, n: nat)
    requires j <= n <= |script| && forall i :: j <= i < n ==> script[i].outcome.TooMany?
    ensures LastBroken(script, n) == LastBroken(script, j) && LimitedCount(script, n) == LimitedCount(script, j) + n - j
  {
    if n > j { LimitedOnly(script, j, n - 1); }
  }

  /** At any point of a connector's life, with everything the breaker was ever told in `history`: the request is
      refused exactly when the failures since the last success reach the threshold and the last one is younger than
      the recovery time, and afterwards the breaker has been told of its attempts as well. */
  lemma RequestKeepsHistory(c: Config, script: seq<Attempt>, now: real, clientOpen: bool, history: seq<Mark>, k: Bucket)
    requires c.limits.Valid() && c.maxRetries <= |script|
    ensures var t := Request(c, script, now, clientOpen, Replay(c.threshold, history), k);
            && (t.verdict == CircuitOpen <==> Refuses(c, history, now))
            && t.sent <= |script| && t.breaker == Replay(c.threshold, history + Marks(script, t.sent))
  {
    hide Replay, Marks, FailuresSince, FirstDecisive, Retry, IsOpen;
    var b := Replay(c.threshold, history);
    var t := Request(c, script, now, clientOpen, b, k);
    OpenExactlyWhen(c.threshold, c.recovery, history, now);
    RequestOutcome(c, script, now, clientOpen, b, k);
    ReplayContinues(c.threshold, history, Marks(script, t.sent));
    NextMark(script, 0);
    assert history + [] == history;
  }

  // ---------------------------------------------------------------------------
  // Back-off time
  // ---------------------------------------------------------------------------

  function Times(n: nat, x: real): real { if n == 0 then 0.0 else x + Times(n - 1, x) }

  lemma {:induction false} TimesIsProduct(n: nat, x: real)
    ensures Times(n, x) == n as real * x
  {
    if n > 0 {
      TimesIsProduct(n - 1, x);
      assert n as real * x == (n - 1) as real * x + x;
    }
  }

  /** Back-off after the failed attempts i, i + 1, .. up to the last but one. */
  function BackoffSum(base: real, i: nat, n: nat): real
    decreases n - i
  {
    if i + 1 >= n then 0.0 else base * Pow2(i) as real + BackoffSum(base, i + 1, n)
  }

  lemma {:induction false} BackoffSumIsGeometric(base: real, i: nat, n: nat)
    requires i < n
    ensures BackoffSum(base, i, n) == base * (Pow2(n - 1) - Pow2(i)) as real
    decreases n - i
  {
    if i + 1 < n {
      BackoffSumIsGeometric(base, i + 1, n);
      var x, y := Pow2(i) as real, Pow2(n - 1) as real;
      assert base * x + base * (y - 2.0 * x) == base * (y - x);
    }
  }

  lemma BackoffIsBounded(c: Config, i: nat)
    ensures 0.0 <= Backoff(c, i) <= Sleep(c.maxDelay)
    ensures c.baseDelay >= 0.0 ==>
              Backoff(c, i) <= c.baseDelay * Pow2(i) as real && 0.0 <= c.baseDelay * Pow2(i) as real
  {}

  lemma {:induction false} SleepPerAttempt(c: Config, script: seq<Attempt>, i: nat, b: Breaker, k: Bucket,
                                           last: Option<string>, limited: nat)
    requires c.limits.Valid() && i <= c.maxRetries <= |script|
    ensures 0.0 <= Retry(c, script, i, b, k, last, limited).slept <= Times(c.maxRetries - i, Sleep(c.maxDelay))
    decreases c.maxRetries - i
  {
    hide After;
    hide Backoff;
    if i < c.maxRetries {
      var a := script[i];
      var k' := After(c.limits, k, a.acquire.now);
      TimesAtLeastZero(c.maxRetries - i - 1, Sleep(c.maxDelay));
      if a.outcome.TooMany? {
        SleepPerAttempt(c, script, i + 1, b, k', last, limited + 1);
      } else if a.outcome.Broken? {
        BackoffIsBounded(c, i);
        SleepPerAttempt(c, script, i + 1, Failure(c.threshold, b, a.recordedAt), k', Some(a.outcome.error), limited);
      }
    }
  }

  lemma {:induction false} TimesAtLeastZero(n: nat, x: real)
    requires x >= 0.0
    ensures Times(n, x) >= 0.0
  {
    if n > 0 { TimesAtLeastZero(n - 1, x); }
  }

  lemma {:induction false} BackoffSumAtLeastZero(base: real, i: nat, n: nat)
    requires base >= 0.0
    ensures BackoffSum(base, i, n) >= 0.0
    decreases n - i
  {
    if i + 1 < n {
      BackoffSumAtLeastZero(base, i + 1, n);
      assert base * Pow2(i) as real >= 0.0;
    }
  }

  lemma {:induction false} SleepWithoutLimits(c: Config, script: seq<Attempt>, i: nat, b: Breaker, k: Bucket,
                                              last: Option<string>, limited: nat)
    requires c.limits.Valid() && i < c.maxRetries <= |script| && c.baseDelay >= 0.0
    requires forall j :: 0 <= j < c.maxRetries ==> !script[j].outcome.TooMany?
    ensures Retry(c, script, i, b, k, last, limited).slept <= BackoffSum(c.baseDelay, i, c.maxRetries)
    decreases c.maxRetries - i
  {
    hide After, Backoff, Failure, Pow2, Sleep, Min;
    var a := script[i];
    var k' := After(c.limits, k, a.acquire.now);
    BackoffSumAtLeastZero(c.baseDelay, i, c.maxRetries);
    BackoffIsBounded(c, i);
    if a.outcome.Broken? {
      var b', last' := Failure(c.threshold, b, a.recordedAt), Some(a.outcome.error);
      if i + 1 < c.maxRetries {
        SleepWithoutLimits(c, script, i + 1, b', k', last', limited);
      } else {
        assert Retry(c, script, i + 1, b', k', last', limited).slept == 0.0;
      }
    }
  }

  /** The back-off of one request never exceeds `maxRetries` times `maxDelay`; without a 429 it is at
      most `baseDelay` times 2^(maxRetries - 1) - 1. */
  lemma BackoffBound(c: Config, script: seq<Attempt>, now: real, clientOpen: bool, b: Breaker, k: Bucket)
    requires c.limits.Valid() && c.maxRetries <= |script|
    ensures Request(c, script, now, clientOpen, b, k).slept <= c.maxRetries as real * Sleep(c.maxDelay)
    ensures c.maxRetries >= 1 && c.baseDelay >= 0.0
            && (forall j :: 0 <= j < c.maxRetries ==> !script[j].outcome.TooMany?)
            ==> Request(c, script, now, clientOpen, b, k).slept <= c.baseDelay * (Pow2(c.maxRetries - 1) - 1) as real
  {
    hide Retry;
    SleepPerAttempt(c, script, 0, b, k, None, 0);
    TimesAtLeastZero(c.maxRetries, Sleep(c.maxDelay));
    TimesIsProduct(c.maxRetries, Sleep(c.maxDelay));
    if c.maxRetries >= 1 && c.baseDelay >= 0.0 && (forall j :: 0 <= j < c.maxRetries ==> !script[j].outcome.TooMany?) {
      SleepWithoutLimits(c, script, 0, b, k, None, 0);
      BackoffSumAtLeastZero(c.baseDelay, 0, c.maxRetries);
      BackoffSumIsGeometric(c.baseDelay, 0, c.maxRetries);
    }
  }

  /** Seconds slept after attempt i, counted from 0: a failure doubles the delay each time, up to the maximum, and is
      followed by none when it was the last attempt; a 429 asks for a number of seconds, up to the maximum; a negative
      delay is none. */
  function Delay(c: Config, script: seq<Attempt>, i: nat): (d: real)
    requires i < c.maxRetries <= |script|
    ensures d >= 0.0
    ensures script[i].outcome.Broken? && i + 1 == c.maxRetries ==> d == 0.0
    ensures script[i].outcome.Broken? && i + 1 < c.maxRetries && 0.0 <= c.baseDelay * Pow2(i) as real <= c.maxDelay
            ==> d == c.baseDelay * Pow2(i) as real
    ensures script[i].outcome.Broken? && i + 1 < c.maxRetries && 0.0 <= c.maxDelay <= c.baseDelay * Pow2(i) as real
            ==> d == c.maxDelay
    ensures script[i].outcome.TooMany? && 0.0 <= script[i].outcome.retryAfter <= c.maxDelay
            ==> d == script[i].outcome.retryAfter
    ensures script[i].outcome.TooMany? && 0.0 <= c.maxDelay <= script[i].outcome.retryAfter ==> d == c.maxDelay
    ensures script[i].outcome.TooMany? && (script[i].outcome.retryAfter <= 0.0 || c.maxDelay <= 0.0) ==> d == 0.0
    ensures Decisive(script[i].outcome) ==> d == 0.0
  {
    var wanted := match script[i].outcome
      case Broken(_) => if i + 1 < c.maxRetries then c.baseDelay * Pow2(i) as real else 0.0
      case TooMany(seconds) => seconds
      case _ => 0.0;
    var capped := if wanted > c.maxDelay then c.maxDelay else wanted;
    if capped > 0.0 then capped else 0.0
  }

  /** Sum of the delays after the attempts i to n - 1. */
  function Delays(c: Config, script: seq<Attempt>, i: nat, n: nat): real
    requires i <= n <= c.maxRetries <= |script|
    decreases n - i
  {
    if i == n then 0.0 else Delay(c, script, i) + Delays(c, script, i + 1, n)
  }

  lemma {:induction false} SleptFrom(c: Config, script: seq<Attempt>, i: nat, b: Breaker, k: Bucket,
                                     last: Option<string>, limited: nat)
    requires c.limits.Valid() && i <= c.maxRetries <= |script|
    ensures Retry(c, script, i, b, k, last, limited).slept
            == Delays(c, script, i, FirstDecisive(script, i, c.maxRetries))
    decreases c.maxRetries - i
  {
    hide After, Failure, Pow2;
    if i < c.maxRetries {
      var a := script[i];
      var k' := After(c.limits, k, a.acquire.now);
      if a.outcome.TooMany? {
        SleptFrom(c, script, i + 1, b, k', last, limited + 1);
      } else if a.outcome.Broken? {
        SleptFrom(c, script, i + 1, Failure(c.threshold, b, a.recordedAt), k', Some(a.outcome.error), limited);
      }
    }
  }

  /** A request that is let in sleeps exactly the delays after the attempts before the first decisive one. */
  lemma SleptExactly(c: Config, script: seq<Attempt>, now: real, b: Breaker, k: Bucket)
    requires c.limits.Valid() && c.maxRetries <= |script| && !IsOpen(c.recovery, b, now)
    ensures Request(c, script, now, true, b, k).slept == Delays(c, script, 0, FirstDecisive(script, 0, c.maxRetries))
  {
    SleptFrom(c, script, 0, b, k, None, 0);
  }

  lemma {:induction false} FirstDecisiveIs(script: seq<Attempt>, i: nat, d: nat, n: nat)
    requires i <= d <= n <= |script| && (forall j :: i <= j < d ==> !Decisive(script[j].outcome))
    requires d < n ==> Decisive(script[d].outcome)
    ensures FirstDecisive(script, i, n) == d
    decreases d - i
  {
    if i < d { FirstDecisiveIs(script, i + 1, d, n); }
  }

  lemma {:induction false} DelaysDouble(c: Config, script: seq<Attempt>, i: nat, n: nat)
    requires i <= n <= c.maxRetries <= |script| && n < c.maxRetries && c.baseDelay >= 0.0
    requires forall j :: i <= j < n ==> script[j].outcome.Broken?
    requires i < n ==> c.baseDelay * Pow2(n - 1) as real <= c.maxDelay
    ensures Delays(c, script, i, n) == c.baseDelay * (Pow2(n) - Pow2(i)) as real
    decreases n - i
  {
    hide *;
    DelaysStep(c, script, i, n);
    if i < n {
      PowersGrow(i, n - 1);
      DoubledDelay(c, script, i, n);
      FirstPower(i);
      DelaysDouble(c, script, i + 1, n);
      Telescope(c.baseDelay, Pow2(i), Pow2(i + 1), Pow2(n));
    } else {
      Telescope(c.baseDelay, Pow2(i), 2 * Pow2(i), 0);
    }
  }

  lemma DelaysStep(c: Config, script: seq<Attempt>, i: nat, n: nat)
    requires i <= n <= c.maxRetries <= |script|
    ensures Delays(c, script, i, n) == if i == n then 0.0 else Delay(c, script, i) + Delays(c, script, i + 1, n)
  {}

  lemma DoubledDelay(c: Config, script: seq<Attempt>, i: nat, n: nat)
    requires i < n < c.maxRetries <= |script| && script[i].outcome.Broken? && c.baseDelay >= 0.0
    requires Pow2(i) <= Pow2(n - 1) && c.baseDelay * Pow2(n - 1) as real <= c.maxDelay
    ensures Delay(c, script, i) == c.baseDelay * Pow2(i) as real
  {
    hide Delay, Pow2;
    Scaled(c.baseDelay, Pow2(i), Pow2(n - 1));
  }

  lemma Telescope(base: real, x: nat, twice: nat, y: nat)
    requires twice == 2 * x
    ensures base * x as real + base * (y - twice) as real == base * (y - x) as real
    ensures base * (x - x) as real == 0.0
  {}

  lemma {:induction false} PowersGrow(i: nat, n: nat)
    requires i <= n
    ensures 1 <= Pow2(i) <= Pow2(n)
    decreases n
  {
    if n > 0 { PowersGrow(if i < n then i else i - 1, n - 1); }
  }

  lemma Scaled(base: real, x: nat, y: nat)
    requires base >= 0.0 && x <= y
    ensures 0.0 <= base * x as real <= base * y as real
  {
    assert base * (y - x) as real >= 0.0;
    assert base * y as real == base * x as real + base * (y - x) as real;
  }

  lemma NoneDecisive(script: seq<Attempt>, n: nat)
    requires n <= |script| && forall j :: 0 <= j < n ==> script[j].outcome.Broken?
    ensures forall j :: 0 <= j < n ==> !Decisive(script[j].outcome)
  {}

  lemma FailuresThenEnd(c: Config, script: seq<Attempt>, d: nat, now: real, b: Breaker, k: Bucket)
    requires c.limits.Valid() && d < c.maxRetries <= |script| && !IsOpen(c.recovery, b, now) && c.baseDelay >= 0.0
    requires (forall j :: 0 <= j < d ==> script[j].outcome.Broken?) && Decisive(script[d].outcome)
    requires 0 < d ==> c.baseDelay * Pow2(d - 1) as real <= c.maxDelay
    ensures Request(c, script, now, true, b, k).slept == c.baseDelay * (Pow2(d) - 1) as real
  {
    hide *;
    NoneDecisive(script, d);
    SleptExactly(c, script, now, b, k);
    FirstDecisiveIs(script, 0, d, c.maxRetries);
    DelaysFromStart(c, script, d);
  }

  lemma AllFail(c: Config, script: seq<Attempt>, now: real, b: Breaker, k: Bucket)
    requires c.limits.Valid() && 1 <= c.maxRetries <= |script| && !IsOpen(c.recovery, b, now) && c.baseDelay >= 0.0
    requires forall j :: 0 <= j < c.maxRetries ==> script[j].outcome.Broken?
    requires c.maxRetries >= 2 ==> c.baseDelay * Pow2(c.maxRetries - 2) as real <= c.maxDelay
    ensures Request(c, script, now, true, b, k).slept == c.baseDelay * (Pow2(c.maxRetries - 1) - 1) as real
  {
    hide *;
    NoneDecisive(script, c.maxRetries);
    SleptExactly(c, script, now, b, k);
    FirstDecisiveIs(script, 0, c.maxRetries, c.maxRetries);
    DelaysFromStart(c, script, c.maxRetries - 1);
    LastDelay(c, script, 0);
  }

  /** `d` failures below the maximum delay and then a decisive attempt sleep base, 2 base, 4 base, ..: together
      base (2^d - 1); when every attempt fails nothing is slept after the last, and it is base (2^(n - 1) - 1). */
  lemma FailuresDouble(c: Config, script: seq<Attempt>, d: nat, now: real, b: Breaker, k: Bucket)
    requires c.limits.Valid() && 1 <= d <= c.maxRetries <= |script| && !IsOpen(c.recovery, b, now) && c.baseDelay >= 0.0
    requires forall j :: 0 <= j < d ==> script[j].outcome.Broken?
    requires d < c.maxRetries ==> Decisive(script[d].outcome)
    requires c.baseDelay * Pow2(d - 1) as real <= c.maxDelay
    ensures d < c.maxRetries ==> Request(c, script, now, true, b, k).slept == c.baseDelay * (Pow2(d) - 1) as real
    ensures d == c.maxRetries ==> Request(c, script, now, true, b, k).slept == c.baseDelay * (Pow2(d - 1) - 1) as real
  {
    hide *;
    if d < c.maxRetries {
      FailuresThenEnd(c, script, d, now, b, k);
    } else {
      if d > 1 { LowerPower(c.baseDelay, c.maxDelay, d - 2, d - 1); }
      AllFail(c, script, now, b, k);
    }
  }

  lemma DelaysFromStart(c: Config, script: seq<Attempt>, n: nat)
    requires n < c.maxRetries <= |script| && c.baseDelay >= 0.0
    requires forall j :: 0 <= j < n ==> script[j].outcome.Broken?
    requires 0 < n ==> c.baseDelay * Pow2(n - 1) as real <= c.maxDelay
    ensures Delays(c, script, 0, n) == c.baseDelay * (Pow2(n) - 1) as real
  {
    hide *;
    DelaysDouble(c, script, 0, n);
    FirstPower(0);
    assert Pow2(n) - Pow2(0) == Pow2(n) - 1;
  }

  lemma LowerPower(base: real, max: real, i: nat, n: nat)
    requires i <= n && base >= 0.0 && base * Pow2(n) as real <= max
    ensures base * Pow2(i) as real <= max
  {
    hide Pow2;
    PowersGrow(i, n);
    Scaled(base, Pow2(i), Pow2(n));
  }

  lemma FirstPower(i: nat)
    ensures Pow2(0) == 1 && Pow2(i + 1) == 2 * Pow2(i)
  {}

  lemma {:induction false} LastDelay(c: Config, script: seq<Attempt>, i: nat)
    requires i < c.maxRetries <= |script| && script[c.maxRetries - 1].outcome.Broken?
    ensures Delays(c, script, i, c.maxRetries) == Delays(c, script, i, c.maxRetries - 1)
    decreases c.maxRetries - i
  {
    hide Delay;
    if i + 1 < c.maxRetries { LastDelay(c, script, i + 1); }
  }

  /** Three failures with a base delay of one second: 1 + 2 + 4. */
  lemma SevenSeconds(c: Config, script: seq<Attempt>, now: real, b: Breaker, k: Bucket)
    requires c.limits.Valid() && 4 <= c.maxRetries <= |script| && !IsOpen(c.recovery, b, now)
    requires c.baseDelay == 1.0 && c.maxDelay >= 4.0
    requires script[0].outcome.Broken? && script[1].outcome.Broken? && script[2].outcome.Broken?
    requires script[3].outcome.Reply?
    ensures Request(c, script, now, true, b, k).slept == 7.0
  {
    assert Pow2(1) == 2 * Pow2(0) && Pow2(2) == 2 * Pow2(1) && Pow2(3) == 2 * Pow2(2);
    FailuresDouble(c, script, 3, now, b, k);
  }

  // ---------------------------------------------------------------------------
  // Many requests through one connector
  // ---------------------------------------------------------------------------

  datatype Demand = Demand(now: real, clientOpen: bool, script: seq<Attempt>)

  predicate Scripted(c: Config, ds: seq<Demand>) {
    c.limits.Valid() && forall d :: d in ds ==> c.maxRetries <= |d.script|
  }

  function Run(c: Config, d: Demand, b: Breaker, k: Bucket): (t: Trace)
    requires Scripted(c, [d])
    ensures t.sent <= |d.script|
  {
    assert d in [d];
    RequestOutcome(c, d.script, d.now, d.clientOpen, b, k);
    Request(c, d.script, d.now, d.clientOpen, b, k)
  }

  /** The limiter acquisitions of a sequence of requests. */
  function AllSent(c: Config, ds: seq<Demand>, b: Breaker, k: Bucket): seq<Call>
    requires Scripted(c, ds)
    decreases |ds|
  {
    if ds == [] then []
    else
      var t := Run(c, ds[0], b, k);
      Acquires(ds[0].script[..t.sent]) + AllSent(c, ds[1..], t.breaker, t.bucket)
  }

  /** Number of HTTP requests sent, and the limiter afterwards. */
  function TotalSent(c: Config, ds: seq<Demand>, b: Breaker, k: Bucket): (nat, Bucket)
    requires Scripted(c, ds)
    decreases |ds|
  {
    if ds == [] then (0, k)
    else
      var t := Run(c, ds[0], b, k);
      var (n, after) := TotalSent(c, ds[1..], t.breaker, t.bucket);
      (t.sent + n, after)
  }

  /** Every request finds a legal environment: its own acquisitions come after those of the requests before. */
  predicate LegalDemands(c: Config, ds: seq<Demand>, b: Breaker, k: Bucket, from: real)
    requires Scripted(c, ds)
    decreases |ds|
  {
    ds == [] ||
    var t := Run(c, ds[0], b, k);
    var calls := Acquires(ds[0].script[..t.sent]);
    LegalRun(c.limits, k, from, calls)
      && LegalDemands(c, ds[1..], t.breaker, t.bucket, RateBounds.Returned(from, calls))
  }

  /** The requests of a connector, each legal when it is made, are together one legal run of its limiter with
      exactly one acquisition per HTTP request sent. */
  lemma {:induction false} RequestsAreOneRun(c: Config, ds: seq<Demand>, b: Breaker, k: Bucket, from: real)
    requires Scripted(c, ds)
    ensures |AllSent(c, ds, b, k)| == TotalSent(c, ds, b, k).0
    ensures Final(c.limits, k, AllSent(c, ds, b, k)) == TotalSent(c, ds, b, k).1
    ensures LegalDemands(c, ds, b, k, from) ==> LegalRun(c.limits, k, from, AllSent(c, ds, b, k))
    decreases |ds|
  {
    if ds != [] {
      hide LegalRun, Final, Request;
      var t := Run(c, ds[0], b, k);
      var calls := Acquires(ds[0].script[..t.sent]);
      RunBucket(c, ds[0], b, k);
      RequestsAreOneRun(c, ds[1..], t.breaker, t.bucket, RateBounds.Returned(from, calls));
      FinalConcat(c.limits, k, calls, AllSent(c, ds[1..], t.breaker, t.bucket));
      if LegalDemands(c, ds, b, k, from) {
        RunThenRun(c.limits, k, from, calls, AllSent(c, ds[1..], t.breaker, t.bucket));
      }
    } else {
      assert Final(c.limits, k, []) == k;
    }
  }

  lemma RunBucket(c: Config, d: Demand, b: Breaker, k: Bucket)
    requires Scripted(c, [d])
    ensures var t := Run(c, d, b, k); t.bucket == Final(c.limits, k, Acquires(d.script[..t.sent]))
  {
    assert d in [d];
    hide Request, Final;
    RequestOutcome(c, d.script, d.now, d.clientOpen, b, k);
  }

  /** Whatever the server answers and however often requests are made and retried: when all their HTTP requests
      went out within the first T seconds, they are at most 1 + 2 rate/period T. */
  lemma ConnectorRateBound(c: Config, ds: seq<Demand>, start: real, seconds: real)
    requires Scripted(c, ds) && seconds >= 0.0 && LegalDemands(c, ds, CLOSED, Bucket(1.0, start), start)
    ensures var calls := AllSent(c, ds, CLOSED, Bucket(1.0, start));
            && Grants(calls, start, start + seconds) as real <= 1.0 + 2.0 * Earned(c.limits, seconds)
            && (RateBounds.Returned(start, calls) <= start + seconds ==>
                  TotalSent(c, ds, CLOSED, Bucket(1.0, start)).0 as real <= 1.0 + 2.0 * Earned(c.limits, seconds))
  {
    hide LegalRun, LegalDemands, AllSent, TotalSent, Earned;
    var b := Bucket(1.0, start);
    var calls := AllSent(c, ds, CLOSED, b);
    RequestsAreOneRun(c, ds, CLOSED, b, start);
    RateBound(c.limits, start, calls, seconds);
    GrantedBetween(c.limits, b, start, calls);
    if RateBounds.Returned(start, calls) <= start + seconds { AllInside(calls, start, start + seconds); }
  }
}
