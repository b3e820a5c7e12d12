/** In which order jobs are dequeued, where failed ones go, and after what age running ones are reaped: over every run
    of the queue protocol, told by its events. */
module JobOrder {
  import opened Wrappers
  import opened JobStore
  import opened JobProtocol
  import opened JobSafety
  import opened JobRetries

  // ---------------------------------------------------------------------------
  // First in, first out
  // ---------------------------------------------------------------------------

  function Reversed(q: seq<Job>): (r: seq<Job>) { if q == [] then [] else Reversed(q[1..]) + [q[0]] }

  lemma ReversedPush(v: Job, q: seq<Job>)
    ensures Reversed([v] + q) == Reversed(q) + [v]
  {
    assert ([v] + q)[1..] == q;
  }

  lemma {:induction false} ReversedPop(q: seq<Job>)
    requires q != []
    ensures Reversed(q) == [q[|q| - 1]] + Reversed(q[..|q| - 1])
  {
    if |q| > 1 {
      ReversedPop(q[1..]);
      assert q[1..][..|q| - 2] == q[..|q| - 1][1..];
    }
  }

  /** The job of a process that pushes a retry, and whether the caller asked for one. */
  function Pusher(s: Sys, e: Event): Option<(Job, bool)>
    requires Enabled(s, e)
  {
    if e.FailPush? then Some((s.workers[e.w].job, s.workers[e.w].stage.requeue))
    else if e.ReapPush? then Some((s.reapers[e.r].job, true)) else None
  }

  /** Records that the event adds to the pending list: an enqueued job, or a retried one while attempts remain. */
  function Arrives(s: Sys, e: Event): seq<Job>
    requires Enabled(s, e)
  {
    if e.Enqueue? then [e.job]
    else match Pusher(s, e)
      case None => []
      case Some((j, requeue)) =>
        if requeue && j.attempt + 1 < j.maxAttempts then [j.(attempt := j.attempt + 1)] else []
  }

  /** Records that the event adds to the dead list: without attempts left, or when no retry was asked for. */
  function Dies(s: Sys, e: Event): seq<Job>
    requires Enabled(s, e)
  {
    match Pusher(s, e)
    case None => []
    case Some((j, requeue)) =>
      if requeue && j.attempt + 1 < j.maxAttempts then [] else [j.(attempt := j.attempt + 1)]
  }

  function Arrivals(s: Sys, es: seq<Event>): seq<Job>
    decreases |es|
  {
    if es == [] || !Enabled(s, es[0]) then [] else Arrives(s, es[0]) + Arrivals(Apply(s, es[0]), es[1..])
  }

  function Deaths(s: Sys, es: seq<Event>): seq<Job>
    decreases |es|
  {
    if es == [] || !Enabled(s, es[0]) then [] else Dies(s, es[0]) + Deaths(Apply(s, es[0]), es[1..])
  }

  /** The jobs dequeued so far, in order. */
  function Taken(ws: seq<Worker>): (js: seq<Job>)
    ensures |js| == |ws| && forall i :: 0 <= i < |js| ==> js[i] == ws[i].job
  {
    seq(|ws|, i requires 0 <= i < |ws| => ws[i].job)
  }

  /** What one event does to the two ends of the queue. */
  lemma QueueStep(s: Sys, e: Event)
    requires Enabled(s, e)
    ensures var t := Apply(s, e);
            && (e.Dequeue? ==>
                  var n := |s.store.pending| - 1;
                  && n >= 0 && t.store.pending == s.store.pending[..n] && Arrives(s, e) == []
                  && Taken(t.workers) == Taken(s.workers) + [s.store.pending[n]])
            && (!e.Dequeue? ==>
                  && Taken(t.workers) == Taken(s.workers)
                  && t.store.pending == (if Arrives(s, e) == [] then [] else [Arrives(s, e)[0]]) + s.store.pending
                  && |Arrives(s, e)| <= 1)
            && t.store.dead == Dies(s, e) + s.store.dead && |Dies(s, e)| <= 1
  {
    if !e.Dequeue? { JobsStay(s, e); }
    if e.FailPush? || e.ReapPush? {
      RetryPushed(s.store, Pusher(s, e).value.0, Pusher(s, e).value.1);
      hide LRem, Stale, Taken, PushRetry;
    } else {
      hide LRem, Stale, PushRetry;
    }
  }

  lemma JobsStay(s: Sys, e: Event)
    requires Enabled(s, e) && !e.Dequeue?
    ensures Taken(Apply(s, e).workers) == Taken(s.workers)
  {
    hide LRem, Stale, PushRetry;
    SameTaken(s.workers, Apply(s, e).workers);
  }

  lemma RetryPushed(s: Store, j: Job, requeue: bool)
    ensures var t, r := PushRetry(s, j, requeue), j.(attempt := j.attempt + 1);
            if requeue && j.attempt + 1 < j.maxAttempts then t.pending == [r] + s.pending && t.dead == s.dead
            else t.pending == s.pending && t.dead == [r] + s.dead
  {}

  lemma SameTaken(a: seq<Worker>, b: seq<Worker>)
    requires |a| == |b| && forall i :: 0 <= i < |a| ==> a[i].job == b[i].job
    ensures Taken(a) == Taken(b)
  {}

  lemma PushOrder(p: seq<Job>, more: seq<Job>)
    requires |more| <= 1
    ensures Reversed((if more == [] then [] else [more[0]]) + p) == Reversed(p) + more
    ensures Reversed(more + p) == Reversed(p) + more
  {
    if more == [] {
      assert more + p == p && [] + p == p;
    } else {
      ReversedPush(more[0], p);
      assert more == [more[0]];
    }
  }

  lemma OrderStep(s: Sys, e: Event)
    requires Enabled(s, e)
    ensures var t := Apply(s, e);
            && Taken(t.workers) + Reversed(t.store.pending)
               == Taken(s.workers) + Reversed(s.store.pending) + Arrives(s, e)
            && Reversed(t.store.dead) == Reversed(s.store.dead) + Dies(s, e)
  {
    QueueStep(s, e);
    if e.Dequeue? { ReversedPop(s.store.pending); } else { PushOrder(s.store.pending, Arrives(s, e)); }
    PushOrder(s.store.dead, Dies(s, e));
    hide *;
    Regroup(Taken(s.workers), Reversed(s.store.pending), Arrives(s, e));
  }

  /** Over every run: what was dequeued, in order, followed by what is still pending, oldest first, is what was there
      before followed by everything that was enqueued or retried since, in order; and the dead list holds, newest
      first, exactly the jobs that failed without attempts left or without being requeued. */
  lemma {:induction false} FirstInFirstOut(s: Sys, es: seq<Event>, t: Sys)
    requires Reaches(s, es, t)
    ensures Taken(t.workers) + Reversed(t.store.pending)
            == Taken(s.workers) + Reversed(s.store.pending) + Arrivals(s, es)
    ensures Reversed(t.store.dead) == Reversed(s.store.dead) + Deaths(s, es)
    decreases |es|
  {
    if es != [] {
      OrderStep(s, es[0]);
      EventsCons(s, es);
      hide *;
      var u := Apply(s, es[0]);
      FirstInFirstOut(u, es[1..], t);
      Regroup(Taken(s.workers) + Reversed(s.store.pending), Arrives(s, es[0]), Arrivals(u, es[1..]));
      Regroup(Reversed(s.store.dead), Dies(s, es[0]), Deaths(u, es[1..]));
    } else {
      NoEvents(s);
    }
  }

  lemma Regroup(a: seq<Job>, b: seq<Job>, c: seq<Job>)
    ensures a + b + c == a + (b + c) && a + [] == a
  {}

  lemma NoEvents(s: Sys)
    ensures Arrivals(s, []) == [] && Deaths(s, []) == []
  {}

  lemma EventsCons(s: Sys, es: seq<Event>)
    requires es != [] && Enabled(s, es[0])
    ensures Arrivals(s, es) == Arrives(s, es[0]) + Arrivals(Apply(s, es[0]), es[1..])
    ensures Deaths(s, es) == Dies(s, es[0]) + Deaths(Apply(s, es[0]), es[1..])
  {
    hide Apply, Enabled, Arrives, Dies;
  }

  // ---------------------------------------------------------------------------
  // Ages
  // ---------------------------------------------------------------------------

  /** The start time of job `id` as the events tell it: set by a worker's stamp, gone with the command that forgets
      it. */
  function StartAfter(s: Sys, e: Event, id: string, known: Option<int>): Option<int>
    requires Enabled(s, e)
  {
    match e
    case Stamp(w) => if s.workers[w].job.id == id then Some(s.clock) else known
    case CompleteForget(w) => if s.workers[w].job.id == id then None else known
    case FailForget(w) => if s.workers[w].job.id == id then None else known
    case ReapForget(r) => if s.reapers[r].job.id == id then None else known
    case _ => known
  }

  function LastStart(s: Sys, es: seq<Event>, id: string, known: Option<int>): Option<int>
    decreases |es|
  {
    if es == [] || !Enabled(s, es[0]) then known
    else LastStart(Apply(s, es[0]), es[1..], id, StartAfter(s, es[0], id, known))
  }

  function Recorded(times: map<string, int>, id: string): Option<int> { if id in times then Some(times[id]) else None }

  lemma StartStep(s: Sys, e: Event, id: string)
    requires Enabled(s, e)
    ensures Recorded(Apply(s, e).store.times, id) == StartAfter(s, e, id, Recorded(s.store.times, id))
  {}

  lemma {:induction false} TimesAreStarts(s: Sys, es: seq<Event>, t: Sys, id: string)
    requires Reaches(s, es, t)
    ensures Recorded(t.store.times, id) == LastStart(s, es, id, Recorded(s.store.times, id))
    decreases |es|
  {
    if es != [] {
      hide Apply, Enabled, StartAfter;
      StartStep(s, es[0], id);
      TimesAreStarts(Apply(s, es[0]), es[1..], t, id);
    }
  }

  predicate Scans(p: Reaper) { p.Scanning? || p.Forgetting? || p.Pushing? }

  /** What a scanning reaper goes by are the start times and the clock when it last asked for them. */
  lemma {:induction false} ScanIsFrom(s: Sys, es: seq<Event>, t: Sys, r: nat) returns (k: nat, u: Sys)
    requires Reaches(s, es, t) && r < |s.reapers| && r < |t.reapers| && s.reapers[r].Resting? && Scans(t.reapers[r])
    ensures k < |es| && es[k] == ReapTimes(r) && Reaches(s, es[..k], u)
    ensures forall j :: k < j < |es| ==> es[j] != ReapTimes(r)
    ensures t.reapers[r].times == u.store.times && t.reapers[r].now == u.clock
    decreases |es|
  {
    hide Apply, Enabled;
    var n := |es| - 1;
    var before := LastStep(s, es, t);
    ScanStep(before, es[n], r);
    if es[n] == ReapTimes(r) {
      k, u := n, before;
    } else {
      k, u := ScanIsFrom(s, es[..n], before, r);
      assert es[..n][..k] == es[..k];
    }
  }

  lemma {:induction false} LastStep(s: Sys, es: seq<Event>, t: Sys) returns (u: Sys)
    requires es != [] && Reaches(s, es, t)
    ensures Reaches(s, es[..|es| - 1], u) && Enabled(u, es[|es| - 1]) && t == Apply(u, es[|es| - 1])
    decreases |es|
  {
    hide Enabled, Apply;
    if |es| == 1 {
      u := s;
      assert es[..0] == [] && es[1..] == [];
    } else {
      u := LastStep(Apply(s, es[0]), es[1..], t);
      assert es[..|es| - 1][1..] == es[1..][..|es| - 2];
    }
  }

  lemma ScanStep(s: Sys, e: Event, r: nat)
    requires Enabled(s, e) && r < |Apply(s, e).reapers|
    ensures var t := Apply(s, e);
            && r < |s.reapers|
            && (Scans(t.reapers[r]) ==>
                  if e == ReapTimes(r) then t.reapers[r].times == s.store.times && t.reapers[r].now == s.clock
                  else Scans(s.reapers[r]) && t.reapers[r].times == s.reapers[r].times
                       && t.reapers[r].now == s.reapers[r].now)
  {
    hide Stale, PushRetry, LRem;
  }

  /** Over every run: a reaper takes an entry away if and only if, at the moment it asked for the start times, the last
      stamp of that job that no command had forgotten, or its creation when there was none, was more than `maxAge`
      ago. */
  lemma ReapedByAge(reapers: nat, es: seq<Event>, t: Sys, r: nat) returns (k: nat, u: Sys)
    requires Reaches(Init(reapers), es, t) && IsScanning(t, r) && r < reapers
    ensures k < |es| && es[k] == ReapTimes(r) && Reaches(Init(reapers), es[..k], u)
    ensures forall j :: k < j < |es| ==> es[j] != ReapTimes(r)
    ensures var v := t.reapers[r].items[0];
            var last := LastStart(Init(reapers), es[..k], v.id, None);
            var start := if last.Some? then last.value else v.createdAt;
            && (Enabled(t, ReapRemove(r)) <==> u.clock - start > t.reapers[r].maxAge)
            && (Enabled(t, ReapSkip(r)) <==> u.clock - start <= t.reapers[r].maxAge)
  {
    k, u := ScanIsFrom(Init(reapers), es, t, r);
    hide Reaches, LastStart;
    TimesAreStarts(Init(reapers), es[..k], u, t.reapers[r].items[0].id);
  }

  // ---------------------------------------------------------------------------
  // A reaper that loses a job
  // ---------------------------------------------------------------------------

  /** An abandoned job, and a reaper that has seen it and found no start time. */
  lemma AbandonedAndSeen(j: Job, maxAge: int) returns (es: seq<Event>, t: Sys)
    ensures Reaches(Init(1), es, t) && j.id in t.enqueued && j.id !in t.completed && t.reapers == [Scan(t, j, maxAge)]
    ensures t.workers == [Worker(j, Stamping, false)] && t.store == Store([], [j], [], map[])
    ensures t.clock - j.createdAt > maxAge
  {
    var wait: nat := if j.createdAt + maxAge + 1 > 0 then j.createdAt + maxAge + 1 else 0;
    var s0 := Init(1);
    var s1 := Apply(s0, Enqueue(j));
    var s2 := Apply(s1, Tick(wait));
    assert s2.store.pending == [j];
    ReachesStep(s0, [], s0, Enqueue(j));
    ReachesStep(s0, [] + [Enqueue(j)], s1, Tick(wait));
    var e1 := [] + [Enqueue(j)] + [Tick(wait)];
    hide Reaches;
    var e2, s3 := Takes(s2, j);
    ReachesThen(s0, e1, s2, e2, s3);
    var s4 := Apply(s3, WorkerDies(0));
    ReachesStep(s0, e1 + e2, s3, WorkerDies(0));
    assert s4.workers == [Worker(j, Stamping, false)] && s4.reapers == [Resting];
    var e3;
    e3, t := TakesSnapshot(s4, j, maxAge, 0);
    ReachesThen(s0, e1 + e2 + [WorkerDies(0)], s4, e3, t);
    es := e1 + e2 + [WorkerDies(0)] + e3;
    assert t.reapers == [Scan(t, j, maxAge)];
  }

  /** A reaper that dies, or gets a Redis error, between its LREM and its LPUSH loses the job as well. */
  lemma ReaperInTheWindowLosesTheJob(j: Job, maxAge: int, dies: bool) returns (es: seq<Event>, t: Sys)
    ensures Reaches(Init(1), es, t) && j.id in t.enqueued && j.id !in t.completed && Located(t, j.id) == 0
  {
    var first, s := AbandonedAndSeen(j, maxAge);
    hide Reaches;
    assert [j][0] == j && [j][1..] == [];
    var s1 := Apply(s, ReapRemove(0));
    assert s1.store.processing == [] && s1.reapers == [Forgetting(j, [], maxAge, map[], s.clock)];
    ReachesStep(Init(1), first, s, ReapRemove(0));
    var last := if dies then ReaperDies(0) else ReapError(0);
    t := Apply(s1, last);
    ReachesStep(Init(1), first + [ReapRemove(0)], s1, last);
    es := first + [ReapRemove(0)] + [last];
    assert t.store == Store([], [], [], map[]) && t.workers == s.workers;
    TotalZero(Gauges(Windows(Copies(j.id)), t.workers));
    TotalZero(ReaperWindows(Copies(j.id), t.reapers));
  }
}
