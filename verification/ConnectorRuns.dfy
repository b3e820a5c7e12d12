/** Many requests through one connector at once: their limiter acquisitions and breaker reports interleave. */
module ConnectorRuns {
  import opened Wrappers
  import opened RateBounds
  import opened RateLimiter
  import opened Connector

  /** A request under way.  `held` is the acquisition of the attempt that is on the wire; `seen` is history: the
      attempts that have ended. */
  datatype Progress = Progress(seen: seq<Attempt>, held: Option<Call>, last: Option<string>, limited: nat,
                               verdict: Option<Verdict>)

  /** `calls` and `marks` are history: all acquisitions, in the order of the limiter's lock, and all that the breaker
      was told, in order. */
  datatype Sys = Sys(bucket: Bucket, breaker: Breaker, requests: seq<Progress>, calls: seq<Call>, marks: seq<Mark>)

  datatype Event =
    | Enter(now: real, clientOpen: bool)
    | Acquire(w: nat, call: Call)
    | Answer(w: nat, outcome: Outcome, at: real)

  function Init(start: real): Sys { Sys(Bucket(1.0, start), CLOSED, [], [], []) }

  predicate UnderWay(s: Sys, w: nat) { w < |s.requests| && s.requests[w].verdict.None? }

  predicate Enabled(c: Config, start: real, s: Sys, e: Event)
    requires c.limits.Valid()
  {
    match e
    case Enter(_, _) => true
    case Acquire(w, call) =>
      UnderWay(s, w) && s.requests[w].held.None? && Legal(c.limits, s.bucket, RateBounds.Returned(start, s.calls), call)
    case Answer(w, _, _) => UnderWay(s, w) && s.requests[w].held.Some?
  }

  function Entered(c: Config, b: Breaker, now: real, clientOpen: bool): Progress {
    var verdict := if IsOpen(c.recovery, b, now) then Some(CircuitOpen)
                   else if !clientOpen then Some(ClientNotOpen)
                   else if c.maxRetries == 0 then Some(Exhausted) else None;
    Progress([], None, None, 0, verdict)
  }

  /** The request after the attempt in flight has ended like this. */
  function Answered(c: Config, p: Progress, a: Attempt): Progress {
    var seen := p.seen + [a];
    var over := |seen| >= c.maxRetries;
    match a.outcome
    case Reply(body) => Progress(seen, None, p.last, p.limited, Some(Returned(body)))
    case BadBody => Progress(seen, None, p.last, p.limited, Some(Unreadable))
    case Escapes(e) => Progress(seen, None, p.last, p.limited, Some(Escaped(e)))
    case TooMany(_) =>
      Progress(seen, None, p.last, p.limited + 1, if over then Some(GivenUp(p.last, p.limited + 1)) else None)
    case Broken(e) => Progress(seen, None, Some(e), p.limited, if over then Some(GivenUp(Some(e), p.limited)) else None)
  }

  function Apply(c: Config, start: real, s: Sys, e: Event): Sys
    requires c.limits.Valid() && Enabled(c, start, s, e)
  {
    match e
    case Enter(now, clientOpen) => s.(requests := s.requests + [Entered(c, s.breaker, now, clientOpen)])
    case Acquire(w, call) =>
      s.(bucket := After(c.limits, s.bucket, call.now), calls := s.calls + [call],
         requests := s.requests[w := s.requests[w].(held := Some(call))])
    case Answer(w, outcome, at) =>
      var a := Attempt(s.requests[w].held.value, outcome, at);
      s.(breaker := ReplayFrom(c.threshold, s.breaker, Told(a)), marks := s.marks + Told(a),
         requests := s.requests[w := Answered(c, s.requests[w], a)])
  }

  predicate Reaches(c: Config, start: real, s: Sys, es: seq<Event>, t: Sys)
    requires c.limits.Valid()
    decreases |es|
  {
    if es == [] then s == t
    else Enabled(c, start, s, es[0]) && Reaches(c, start, Apply(c, start, s, es[0]), es[1..], t)
  }

  // ---------------------------------------------------------------------------
  // What every interleaving keeps
  // ---------------------------------------------------------------------------

  function SentBy(p: Progress): nat { |p.seen| + if p.held.Some? then 1 else 0 }

  /** HTTP requests sent by all requests together. */
  function TotalSentBy(ps: seq<Progress>): nat {
    if ps == [] then 0 else SentBy(ps[0]) + TotalSentBy(ps[1..])
  }

  lemma {:induction false} SentUpdate(ps: seq<Progress>, w: nat, p: Progress)
    requires w < |ps|
    ensures TotalSentBy(ps[w := p]) + SentBy(ps[w]) == TotalSentBy(ps) + SentBy(p)
  {
    if w == 0 {
      assert ps[w := p][1..] == ps[1..];
    } else {
      SentUpdate(ps[1..], w - 1, p);
      assert ps[w := p][1..] == ps[1..][w - 1 := p];
    }
  }

  lemma {:induction false} SentAppend(ps: seq<Progress>, p: Progress)
    ensures TotalSentBy(ps + [p]) == TotalSentBy(ps) + SentBy(p)
  {
    if ps != [] {
      SentAppend(ps[1..], p);
      assert (ps + [p])[1..] == ps[1..] + [p];
    }
  }

  /** The limiter and the breaker are what the whole interleaving has made of them, with one acquisition for every
      HTTP request sent. */
  predicate Shared(c: Config, start: real, s: Sys)
    requires c.limits.Valid()
  {
    && LegalRun(c.limits, Bucket(1.0, start), start, s.calls)
    && s.bucket == Final(c.limits, Bucket(1.0, start), s.calls)
    && |s.calls| == TotalSentBy(s.requests)
    && s.breaker == Replay(c.threshold, s.marks)
  }

  /** A request's locals are those of the sequential loop after its own attempts. */
  predicate OwnLoop(c: Config, p: Progress) {
    var n := |p.seen|;
    && (forall i :: 0 <= i < n - 1 ==> !Decisive(p.seen[i].outcome))
    && p.last == LastBroken(p.seen, n) && p.limited == LimitedCount(p.seen, n)
    && (p.verdict.None? ==> n < c.maxRetries && (n > 0 ==> !Decisive(p.seen[n - 1].outcome)))
    && (p.verdict.Some? ==>
          p.held.None? && (p.verdict.value.CircuitOpen? || p.verdict.value.ClientNotOpen? || Ended(c, p)))
  }

  predicate Ended(c: Config, p: Progress)
    requires p.verdict.Some?
  {
    var n := |p.seen|;
    n <= c.maxRetries &&
    if n > 0 && Decisive(p.seen[n - 1].outcome) then p.verdict.value == EndOf(p.seen[n - 1].outcome)
    else n == c.maxRetries && p.verdict.value == GivenUp(p.last, p.limited)
  }

  function EndOf(o: Outcome): Verdict
    requires Decisive(o)
  {
    match o case Reply(body) => Returned(body) case BadBody => Unreadable case Escapes(e) => Escaped(e)
  }

  predicate Kept(c: Config, start: real, s: Sys)
    requires c.limits.Valid()
  {
    Shared(c, start, s) && forall w :: 0 <= w < |s.requests| ==> OwnLoop(c, s.requests[w])
  }

  lemma {:induction false} PrefixCounts(seen: seq<Attempt>, script: seq<Attempt>, n: nat)
    requires n <= |seen| <= |script| && script[..|seen|] == seen
    ensures LastBroken(script, n) == LastBroken(seen, n) && LimitedCount(script, n) == LimitedCount(seen, n)
  {
    if n > 0 {
      assert script[n - 1] == script[..|seen|][n - 1];
      PrefixCounts(seen, script, n - 1);
    }
  }

  lemma AnsweredKeepsLoop(c: Config, p: Progress, a: Attempt)
    requires OwnLoop(c, p) && p.verdict.None?
    ensures OwnLoop(c, Answered(c, p, a))
  {
    var n := |p.seen|;
    var seen := p.seen + [a];
    assert seen[..n] == p.seen;
    PrefixCounts(p.seen, seen, n);
    NextCounts(seen, n);
    assert forall i :: 0 <= i < n ==> seen[i] == p.seen[i];
    hide LastBroken, LimitedCount, GivenUp;
  }

  lemma NextCounts(seen: seq<Attempt>, n: nat)
    requires n < |seen|
    ensures var o := seen[n].outcome;
            && LastBroken(seen, n + 1) == (if o.Broken? then Some(o.error) else LastBroken(seen, n))
            && LimitedCount(seen, n + 1) == LimitedCount(seen, n) + if o.TooMany? then 1 else 0
  {}

  lemma SharedStep(c: Config, start: real, s: Sys, e: Event)
    requires c.limits.Valid() && Shared(c, start, s) && Enabled(c, start, s, e)
    ensures Shared(c, start, Apply(c, start, s, e))
  {
    hide LegalRun, Final, Replay, After, Legal, ReplayFrom;
    match e {
      case Enter(now, clientOpen) => SentAppend(s.requests, Entered(c, s.breaker, now, clientOpen));
      case Acquire(w, call) =>
        SentUpdate(s.requests, w, s.requests[w].(held := Some(call)));
        OneLegal(c.limits, s.bucket, RateBounds.Returned(start, s.calls), call);
        RunThenRun(c.limits, Bucket(1.0, start), start, s.calls, [call]);
        FinalConcat(c.limits, Bucket(1.0, start), s.calls, [call]);
      case Answer(w, outcome, at) =>
        var a := Attempt(s.requests[w].held.value, outcome, at);
        SentUpdate(s.requests, w, Answered(c, s.requests[w], a));
        ReplayContinues(c.threshold, s.marks, Told(a));
    }
  }

  lemma LoopsStep(c: Config, start: real, s: Sys, e: Event, w: nat)
    requires c.limits.Valid() && Enabled(c, start, s, e) && w < |Apply(c, start, s, e).requests|
    requires w < |s.requests| ==> OwnLoop(c, s.requests[w])
    ensures OwnLoop(c, Apply(c, start, s, e).requests[w])
  {
    hide After, Legal, ReplayFrom;
    if e.Answer? && e.w == w {
      hide OwnLoop;
      AnsweredKeepsLoop(c, s.requests[w], Attempt(s.requests[w].held.value, e.outcome, e.at));
    }
  }

  lemma {:induction false} KeptOverRuns(c: Config, start: real, s: Sys, es: seq<Event>, t: Sys)
    requires c.limits.Valid() && Kept(c, start, s) && Reaches(c, start, s, es, t)
    ensures Kept(c, start, t)
    decreases |es|
  {
    if es != [] {
      hide Shared, OwnLoop;
      var u := Apply(c, start, s, es[0]);
      SharedStep(c, start, s, es[0]);
      forall w | 0 <= w < |u.requests| ensures OwnLoop(c, u.requests[w]) { LoopsStep(c, start, s, es[0], w); }
      KeptOverRuns(c, start, u, es[1..], t);
    }
  }

  lemma InitIsKept(c: Config, start: real)
    requires c.limits.Valid()
    ensures Kept(c, start, Init(start))
  {}

  // ---------------------------------------------------------------------------
  // Results
  // ---------------------------------------------------------------------------

  /** However many requests run at once and however they interleave: there is one acquisition for every HTTP request
      sent, and no more than 1 + 2 rate/period T of them are granted in the first T seconds. */
  lemma InterleavedRateBound(c: Config, start: real, es: seq<Event>, s: Sys, seconds: real)
    requires c.limits.Valid() && Reaches(c, start, Init(start), es, s) && seconds >= 0.0
    ensures |s.calls| == TotalSentBy(s.requests)
    ensures Grants(s.calls, start, start + seconds) as real <= 1.0 + 2.0 * Earned(c.limits, seconds)
  {
    hide LegalRun, Final, Grants, Earned, Reaches, OwnLoop;
    InitIsKept(c, start);
    KeptOverRuns(c, start, Init(start), es, s);
    RateBound(c.limits, start, s.calls, seconds);
  }

  /** In every interleaving a request is refused if and only if the failures that all requests together reported since
      the last success reach the threshold and the last of them is recent. */
  lemma InterleavedRefusal(c: Config, start: real, es: seq<Event>, s: Sys, now: real, clientOpen: bool)
    requires c.limits.Valid() && Reaches(c, start, Init(start), es, s)
    ensures Entered(c, s.breaker, now, clientOpen).verdict == Some(CircuitOpen) <==> Refuses(c, s.marks, now)
  {
    hide LegalRun, Final, Reaches, OwnLoop, Replay, FailuresSince, IsOpen;
    InitIsKept(c, start);
    KeptOverRuns(c, start, Init(start), es, s);
    OpenExactlyWhen(c.threshold, c.recovery, s.marks, now);
  }

  /** Interleaving changes nothing for the request itself: once it was let in and has ended, it has sent as many HTTP
      requests and ended with the same verdict as alone, on its own attempts. */
  lemma InterleavedLikeAlone(c: Config, start: real, es: seq<Event>, s: Sys, w: nat, script: seq<Attempt>, b: Breaker,
                             k: Bucket, now: real)
    requires c.limits.Valid() && Reaches(c, start, Init(start), es, s) && w < |s.requests|
    requires var p := s.requests[w];
             p.verdict.Some? && !p.verdict.value.CircuitOpen? && !p.verdict.value.ClientNotOpen?
    requires c.maxRetries <= |script| && s.requests[w].seen <= script
    requires !IsOpen(c.recovery, b, now)
    ensures var t := Request(c, script, now, true, b, k);
            Some(t.verdict) == s.requests[w].verdict && t.sent == |s.requests[w].seen|
  {
    hide LegalRun, Final, Reaches, Replay, Retry, FailuresSince, IsOpen, Marks, ReplayFrom;
    InitIsKept(c, start);
    KeptOverRuns(c, start, Init(start), es, s);
    var p := s.requests[w];
    RequestOutcome(c, script, now, true, b, k);
    PrefixCounts(p.seen, script, |p.seen|);
    assert forall i :: 0 <= i < |p.seen| ==> script[i] == p.seen[i];
    var d := FirstDecisive(script, 0, c.maxRetries);
  }

  // ---------------------------------------------------------------------------
  // A single request is a run
  // ---------------------------------------------------------------------------

  lemma {:induction false} ReachesStep(c: Config, start: real, s: Sys, es: seq<Event>, t: Sys, e: Event)
    requires c.limits.Valid() && Reaches(c, start, s, es, t) && Enabled(c, start, t, e)
    ensures Reaches(c, start, s, es + [e], Apply(c, start, t, e))
    decreases |es|
  {
    if es == [] {
      assert (es + [e])[1..] == [];
    } else {
      ReachesStep(c, start, Apply(c, start, s, es[0]), es[1..], t, e);
      assert (es + [e])[1..] == es[1..] + [e];
    }
  }

  lemma {:induction false} ReachesThen(c: Config, start: real, s: Sys, es: seq<Event>, t: Sys, fs: seq<Event>, u: Sys)
    requires c.limits.Valid() && Reaches(c, start, s, es, t) && Reaches(c, start, t, fs, u)
    ensures Reaches(c, start, s, es + fs, u)
    decreases |es|
  {
    if es == [] {
      assert es + fs == fs;
    } else {
      ReachesThen(c, start, Apply(c, start, s, es[0]), es[1..], t, fs, u);
      assert (es + fs)[1..] == es[1..] + fs;
    }
  }

  /** Request `w` has made the first i attempts of the script and is about to make the next. */
  predicate AboutTo(c: Config, s: Sys, w: nat, script: seq<Attempt>, i: nat, last: Option<string>, limited: nat) {
    && i < c.maxRetries <= |script| && w < |s.requests|
    && s.requests[w] == Progress(script[..i], None, last, limited, None)
  }

  /** One attempt of the script. */
  lemma AttemptIsARun(c: Config, start: real, s: Sys, w: nat, script: seq<Attempt>, i: nat, last: Option<string>,
                      limited: nat) returns (es: seq<Event>, t: Sys)
    requires c.limits.Valid() && AboutTo(c, s, w, script, i, last, limited)
    requires Legal(c.limits, s.bucket, RateBounds.Returned(start, s.calls), script[i].acquire)
    ensures var a := script[i];
            && Reaches(c, start, s, es, t)
            && t == s.(bucket := After(c.limits, s.bucket, a.acquire.now), calls := s.calls + [a.acquire],
                       breaker := ReplayFrom(c.threshold, s.breaker, Told(a)), marks := s.marks + Told(a),
                       requests := s.requests[w := Answered(c, s.requests[w], a)])
  {
    var a := script[i];
    var s1 := Apply(c, start, s, Acquire(w, a.acquire));
    t := Apply(c, start, s1, Answer(w, a.outcome, a.recordedAt));
    hide After, Legal, ReplayFrom, Told, Answered;
    AnsweredIgnoresHeld(c, s1.requests[w], a);
    ReachesStep(c, start, s, [], s, Acquire(w, a.acquire));
    ReachesStep(c, start, s, [] + [Acquire(w, a.acquire)], s1, Answer(w, a.outcome, a.recordedAt));
    es := [] + [Acquire(w, a.acquire)] + [Answer(w, a.outcome, a.recordedAt)];
    assert s1.requests[w].(held := None) == s.requests[w];
    assert t.requests == s.requests[w := Answered(c, s.requests[w], a)];
  }

  lemma AnsweredIgnoresHeld(c: Config, p: Progress, a: Attempt)
    ensures Answered(c, p.(held := None), a) == Answered(c, p, a)
  {}

  lemma {:induction false} LoopIsARun(c: Config, start: real, s: Sys, w: nat, script: seq<Attempt>, i: nat,
                                      last: Option<string>, limited: nat) returns (es: seq<Event>, t: Sys)
    requires c.limits.Valid() && AboutTo(c, s, w, script, i, last, limited)
    requires LegalRun(c.limits, s.bucket, RateBounds.Returned(start, s.calls), Acquires(script[i..c.maxRetries]))
    ensures Reaches(c, start, s, es, t) && |t.requests| == |s.requests|
    ensures var r := Retry(c, script, i, s.breaker, s.bucket, last, limited);
            && t.requests[w].verdict == Some(r.verdict) && |t.requests[w].seen| == i + r.sent
            && t.breaker == r.breaker && t.bucket == r.bucket
    decreases c.maxRetries - i
  {
    var a := script[i];
    NextAcquire(script, i, c.maxRetries);
    var rest := Acquires(script[i + 1..c.maxRetries]);
    assert ([a.acquire] + rest)[1..] == rest;
    var u;
    es, u := AttemptIsARun(c, start, s, w, script, i, last, limited);
    ToldIs(c.threshold, s.breaker, a);
    RetryStep(c, script, i, s.breaker, s.bucket, last, limited);
    assert script[..i] + [a] == script[..i + 1];
    t := u;
    if !Decisive(a.outcome) && i + 1 < c.maxRetries {
      hide Reaches, Retry, After, Legal, ReplayFrom, Told;
      var p := u.requests[w];
      var more;
      more, t := LoopIsARun(c, start, u, w, script, i + 1, p.last, p.limited);
      ReachesThen(c, start, s, es, u, more, t);
      es := es + more;
    }
  }

  lemma ToldIs(threshold: int, b: Breaker, a: Attempt)
    ensures ReplayFrom(threshold, b, Told(a)) == if a.outcome.Broken? then Failure(threshold, b, a.recordedAt)
                                                 else if a.outcome.Reply? || a.outcome.BadBody? then CLOSED else b
  {
    assert Told(a) != [] ==> Told(a)[..0] == [];
  }

  /** A request that is made while nobody else moves is a run of the interleaving, from any state, with the same end,
      limiter and breaker: one request at a time is a special case. */
  lemma RequestIsARun(c: Config, start: real, s: Sys, now: real, clientOpen: bool, script: seq<Attempt>)
    returns (es: seq<Event>, t: Sys)
    requires c.limits.Valid() && c.maxRetries <= |script|
    requires LegalRun(c.limits, s.bucket, RateBounds.Returned(start, s.calls), Acquires(script[..c.maxRetries]))
    ensures Reaches(c, start, s, es, t) && |t.requests| == |s.requests| + 1
    ensures var r := Request(c, script, now, clientOpen, s.breaker, s.bucket);
            && t.requests[|s.requests|].verdict == Some(r.verdict) && |t.requests[|s.requests|].seen| == r.sent
            && t.breaker == r.breaker && t.bucket == r.bucket
  {
    var w := |s.requests|;
    t := Apply(c, start, s, Enter(now, clientOpen));
    ReachesStep(c, start, s, [], s, Enter(now, clientOpen));
    es := [] + [Enter(now, clientOpen)];
    if !IsOpen(c.recovery, s.breaker, now) && clientOpen && c.maxRetries > 0 {
      assert script[0..c.maxRetries] == script[..c.maxRetries] && script[..0] == [];
      hide Reaches, LegalRun, Retry;
      var more, u := LoopIsARun(c, start, t, w, script, 0, None, 0);
      ReachesThen(c, start, s, es, t, more, u);
      es, t := es + more, u;
    }
  }
}
