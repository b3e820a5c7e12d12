/** The ingestion queue as a distributed protocol: one event per Redis command.

    Any number of workers and a fixed number of reapers interleave freely.  `dequeue`, `complete`,
    `fail` and `reap_stale` are sequences of commands; between two commands everybody else may run,
    and the process that issued the first one may die or see the second one fail. */
module JobProtocol {
  import opened JobStore

  /** Where a worker is with the entry it dequeued.
      `Stamping`: moved, start time not yet recorded.  `Working`: holds the job.
      `Completing`: `complete` has removed the entry, the start time is still there.
      `Failing` / `Requeueing`: `fail` has removed the entry / also the start time, not yet pushed. */
  datatype Stage = Stamping | Working | Completing | Failing(requeue: bool) | Requeueing(requeue: bool) | Finished

  datatype Worker = Worker(job: Job, stage: Stage, alive: bool)

  /** Where a reaper is in its pass over the snapshot `items` (the entries still to be looked at). */
  datatype Reaper =
    | Resting
    | Listed(items: seq<Job>, maxAge: int)
    | Scanning(items: seq<Job>, maxAge: int, times: map<string, int>, now: int)
    | Forgetting(job: Job, items: seq<Job>, maxAge: int, times: map<string, int>, now: int)
    | Pushing(job: Job, items: seq<Job>, maxAge: int, times: map<string, int>, now: int)

  /** `workers` has one element per successful dequeue, in order.  `enqueued`, `completed` and `lost`
      are history: the jobs handed to `enqueue`, the ids passed to `complete`, and the ids that were
      in the memory of a process that died (or got a Redis error) between its LREM and its LPUSH. */
  datatype Sys = Sys(store: Store, workers: seq<Worker>, reapers: seq<Reaper>, clock: int,
                     enqueued: map<string, Job>, completed: set<string>, lost: set<string>)

  datatype Event =
    | Tick(dt: nat)
    | Enqueue(job: Job)
    | Dequeue
    | Stamp(w: nat)
    | CompleteRemove(w: nat)
    | CompleteForget(w: nat)
    | FailRemove(w: nat, requeue: bool)
    | FailForget(w: nat)
    | FailPush(w: nat)
    | WorkerDies(w: nat)
    | ReapList(r: nat, maxAge: int)
    | ReapTimes(r: nat)
    | ReapSkip(r: nat)
    | ReapRemove(r: nat)
    | ReapForget(r: nat)
    | ReapPush(r: nat)
    | ReapFinish(r: nat)
    | ReapError(r: nat)
    | ReaperDies(r: nat)

  function Init(reapers: nat): Sys {
    Sys(EMPTY_STORE, [], seq(reapers, _ => Resting), 0, map[], {}, {})
  }

  predicate InWindow(w: Worker) { w.alive && (w.stage.Failing? || w.stage.Requeueing?) }

  predicate Holds(w: Worker) { w.alive && (w.stage.Stamping? || w.stage.Working?) }

  predicate ReaperInWindow(r: Reaper) { r.Forgetting? || r.Pushing? }

  predicate AtStage(s: Sys, w: nat, stage: Stage) {
    w < |s.workers| && s.workers[w].alive && s.workers[w].stage == stage
  }

  predicate IsScanning(s: Sys, r: nat) {
    r < |s.reapers| && s.reapers[r].Scanning? && s.reapers[r].items != []
  }

  predicate ScansStale(s: Sys, r: nat) {
    IsScanning(s, r) && var p := s.reapers[r]; Stale(p.items[0], p.times, p.now, p.maxAge)
  }

  predicate Enabled(s: Sys, e: Event) {
    match e
    case Tick(_) => true
    case Enqueue(job) => job.id !in s.enqueued
    case Dequeue => s.store.pending != []
    case Stamp(w) => AtStage(s, w, Stamping)
    case CompleteRemove(w) => AtStage(s, w, Working)
    case CompleteForget(w) => AtStage(s, w, Completing)
    case FailRemove(w, _) => AtStage(s, w, Working)
    case FailForget(w) => w < |s.workers| && s.workers[w].alive && s.workers[w].stage.Failing?
    case FailPush(w) => w < |s.workers| && s.workers[w].alive && s.workers[w].stage.Requeueing?
    case WorkerDies(w) => w < |s.workers| && s.workers[w].alive
    case ReapList(r, _) => r < |s.reapers| && s.reapers[r].Resting?
    case ReapTimes(r) => r < |s.reapers| && s.reapers[r].Listed?
    case ReapSkip(r) => IsScanning(s, r) && !ScansStale(s, r)
    case ReapRemove(r) => ScansStale(s, r)
    case ReapForget(r) => r < |s.reapers| && s.reapers[r].Forgetting?
    case ReapPush(r) => r < |s.reapers| && s.reapers[r].Pushing?
    case ReapFinish(r) => r < |s.reapers| && s.reapers[r].Scanning? && s.reapers[r].items == []
    case ReapError(r) => r < |s.reapers| && (IsScanning(s, r) || ReaperInWindow(s.reapers[r]))
    case ReaperDies(r) => r < |s.reapers| && !s.reapers[r].Resting?
  }

  predicate IsWorkerStep(e: Event) {
    e.Stamp? || e.CompleteRemove? || e.CompleteForget? || e.FailRemove? || e.FailForget? || e.FailPush? || e.WorkerDies?
  }

  predicate IsReaperStep(e: Event) {
    e.ReapList? || e.ReapTimes? || e.ReapSkip? || e.ReapRemove? || e.ReapForget? || e.ReapPush?
    || e.ReapFinish? || e.ReapError? || e.ReaperDies?
  }

  lemma EveryStep(e: Event)
    ensures e.Tick? || e.Enqueue? || e.Dequeue? || IsWorkerStep(e) || IsReaperStep(e)
  {}

  function AtWorker(s: Sys, w: nat, stage: Stage): Sys
    requires w < |s.workers|
  {
    s.(workers := s.workers[w := s.workers[w].(stage := stage)])
  }

  function AtReaper(s: Sys, r: nat, p: Reaper): Sys
    requires r < |s.reapers|
  {
    s.(reapers := s.reapers[r := p])
  }

  /** The state after the process named in `e` has taken its step. */
  function Apply(s: Sys, e: Event): Sys
    requires Enabled(s, e)
  {
    match e
    case Tick(dt) => s.(clock := s.clock + dt)
    case Enqueue(job) =>
      s.(store := LPushPending(s.store, job), enqueued := s.enqueued[job.id := job])
    case Dequeue =>
      s.(store := BLMove(s.store),
         workers := s.workers + [Worker(s.store.pending[|s.store.pending| - 1], Stamping, true)])
    case Stamp(w) =>
      AtWorker(s, w, Working).(store := HSetTime(s.store, s.workers[w].job.id, s.clock))
    case CompleteRemove(w) =>
      AtWorker(s, w, Completing).(store := LRemProcessing(s.store, s.workers[w].job),
                                  completed := s.completed + {s.workers[w].job.id})
    case CompleteForget(w) =>
      AtWorker(s, w, Finished).(store := HDelTime(s.store, s.workers[w].job.id))
    case FailRemove(w, requeue) =>
      AtWorker(s, w, Failing(requeue)).(store := LRemProcessing(s.store, s.workers[w].job))
    case FailForget(w) =>
      AtWorker(s, w, Requeueing(s.workers[w].stage.requeue)).(store := HDelTime(s.store, s.workers[w].job.id))
    case FailPush(w) =>
      AtWorker(s, w, Finished).(store := PushRetry(s.store, s.workers[w].job, s.workers[w].stage.requeue))
    case WorkerDies(w) =>
      s.(workers := s.workers[w := s.workers[w].(alive := false)],
         lost := if InWindow(s.workers[w]) then s.lost + {s.workers[w].job.id} else s.lost)
    case ReapList(r, maxAge) => AtReaper(s, r, Listed(s.store.processing, maxAge))
    case ReapTimes(r) =>
      AtReaper(s, r, Scanning(s.reapers[r].items, s.reapers[r].maxAge, s.store.times, s.clock))
    case ReapSkip(r) =>
      var p := s.reapers[r];
      AtReaper(s, r, Scanning(p.items[1..], p.maxAge, p.times, p.now))
    case ReapRemove(r) =>
      var p := s.reapers[r];
      AtReaper(s, r, Forgetting(p.items[0], p.items[1..], p.maxAge, p.times, p.now))
        .(store := LRemProcessing(s.store, p.items[0]))
    case ReapForget(r) =>
      var p := s.reapers[r];
      AtReaper(s, r, Pushing(p.job, p.items, p.maxAge, p.times, p.now))
        .(store := HDelTime(s.store, p.job.id))
    case ReapPush(r) =>
      var p := s.reapers[r];
      AtReaper(s, r, Scanning(p.items, p.maxAge, p.times, p.now)).(store := PushRetry(s.store, p.job, true))
    case ReapFinish(r) => AtReaper(s, r, Resting)
    case ReapError(r) =>
      var p := s.reapers[r];
      if p.Scanning? then AtReaper(s, r, Scanning(p.items[1..], p.maxAge, p.times, p.now))
      else AtReaper(s, r, Scanning(p.items, p.maxAge, p.times, p.now)).(lost := s.lost + {p.job.id})
    case ReaperDies(r) =>
      AtReaper(s, r, Resting)
        .(lost := if ReaperInWindow(s.reapers[r]) then s.lost + {s.reapers[r].job.id} else s.lost)
  }

  /** `t` is reached from `s` by the events `es`, each enabled when it happens. */
  predicate Reaches(s: Sys, es: seq<Event>, t: Sys)
    decreases |es|
  {
    if es == [] then s == t else Enabled(s, es[0]) && Reaches(Apply(s, es[0]), es[1..], t)
  }

  lemma {:induction false} ReachesThen(s: Sys, es: seq<Event>, t: Sys, fs: seq<Event>, u: Sys)
    requires Reaches(s, es, t) && Reaches(t, fs, u)
    ensures Reaches(s, es + fs, u)
    decreases |es|
  {
    if es == [] {
      assert es + fs == fs;
    } else {
      ReachesThen(Apply(s, es[0]), es[1..], t, fs, u);
      assert (es + fs)[1..] == es[1..] + fs;
    }
  }

  lemma ReachesStep(s: Sys, es: seq<Event>, t: Sys, e: Event)
    requires Reaches(s, es, t) && Enabled(t, e)
    ensures Reaches(s, es + [e], Apply(t, e))
  {
    assert [e][1..] == [];
    ReachesThen(s, es, t, [e], Apply(t, e));
  }

  // ---------------------------------------------------------------------------
  // Totals over the processes
  // ---------------------------------------------------------------------------

  function Total(f: seq<nat>): nat {
    if f == [] then 0 else f[0] + Total(f[1..])
  }

  lemma {:induction false} TotalUpdate(f: seq<nat>, i: nat, x: nat)
    requires i < |f|
    ensures Total(f[i := x]) + f[i] == Total(f) + x
  {
    if i == 0 {
      assert f[i := x][1..] == f[1..];
    } else {
      TotalUpdate(f[1..], i - 1, x);
      assert f[i := x][1..] == f[1..][i - 1 := x];
    }
  }

  lemma {:induction false} TotalAppend(f: seq<nat>, x: nat)
    ensures Total(f + [x]) == Total(f) + x
  {
    if f != [] {
      TotalAppend(f[1..], x);
      assert (f + [x])[1..] == f[1..] + [x];
    }
  }

  lemma {:induction false} TotalBounded(f: seq<nat>, g: seq<nat>, c: nat)
    requires |f| == |g| && forall i :: 0 <= i < |f| ==> f[i] <= g[i] + c
    ensures Total(f) <= Total(g) + |f| * c
  {
    if f != [] {
      TotalBounded(f[1..], g[1..], c);
      assert |f| * c == (|f| - 1) * c + c;
    }
  }

  lemma {:induction false} TotalAtLeast(f: seq<nat>, i: nat)
    requires i < |f|
    ensures Total(f) >= f[i]
  {
    if i > 0 { TotalAtLeast(f[1..], i - 1); }
  }

  lemma {:induction false} TotalAtLeastTwo(f: seq<nat>, i: nat, j: nat)
    requires i < j < |f|
    ensures Total(f) >= f[i] + f[j]
  {
    if i > 0 { TotalAtLeastTwo(f[1..], i - 1, j - 1); } else { TotalAtLeast(f[1..], j - 1); }
  }

  lemma {:induction false} TotalZero(f: seq<nat>)
    requires forall i :: 0 <= i < |f| ==> f[i] == 0
    ensures Total(f) == 0
  {
    if f != [] { TotalZero(f[1..]); }
  }

  datatype Meter =
    | Dequeues(id: string)
    | Holders(id: string)
    | Windows(weight: Weight)
    | Resolutions(weight: Weight)

  function Gauge(m: Meter, w: Worker): nat {
    match m
    case Dequeues(id) => if w.job.id == id then 1 else 0
    case Holders(id) => if w.job.id == id && Holds(w) then 1 else 0
    case Windows(weight) => if InWindow(w) then Cost(weight, w.job) else 0
    case Resolutions(weight) => if Holds(w) || InWindow(w) then Cost(weight, w.job) else 0
  }

  function Gauges(m: Meter, ws: seq<Worker>): (f: seq<nat>)
    ensures |f| == |ws| && forall i :: 0 <= i < |f| ==> f[i] == Gauge(m, ws[i])
  {
    seq(|ws|, i requires 0 <= i < |ws| => Gauge(m, ws[i]))
  }

  function Count(m: Meter, ws: seq<Worker>): nat { Total(Gauges(m, ws)) }

  lemma CountUpdate(m: Meter, ws: seq<Worker>, i: nat, w: Worker)
    requires i < |ws|
    ensures Count(m, ws[i := w]) + Gauge(m, ws[i]) == Count(m, ws) + Gauge(m, w)
  {
    TotalUpdate(Gauges(m, ws), i, Gauge(m, w));
    assert Gauges(m, ws[i := w]) == Gauges(m, ws)[i := Gauge(m, w)];
  }

  lemma CountAppend(m: Meter, ws: seq<Worker>, w: Worker)
    ensures Count(m, ws + [w]) == Count(m, ws) + Gauge(m, w)
  {
    TotalAppend(Gauges(m, ws), Gauge(m, w));
    assert Gauges(m, ws + [w]) == Gauges(m, ws) + [Gauge(m, w)];
  }

  function ReaperWindow(weight: Weight, r: Reaper): nat {
    if ReaperInWindow(r) then Cost(weight, r.job) else 0
  }

  function ReaperWindows(weight: Weight, rs: seq<Reaper>): (f: seq<nat>)
    ensures |f| == |rs| && forall i :: 0 <= i < |f| ==> f[i] == ReaperWindow(weight, rs[i])
  {
    seq(|rs|, i requires 0 <= i < |rs| => ReaperWindow(weight, rs[i]))
  }

  function ReaperCount(weight: Weight, rs: seq<Reaper>): nat { Total(ReaperWindows(weight, rs)) }

  lemma ReaperCountUpdate(weight: Weight, rs: seq<Reaper>, i: nat, r: Reaper)
    requires i < |rs|
    ensures ReaperCount(weight, rs[i := r]) + ReaperWindow(weight, rs[i])
            == ReaperCount(weight, rs) + ReaperWindow(weight, r)
  {
    TotalUpdate(ReaperWindows(weight, rs), i, ReaperWindow(weight, r));
    assert ReaperWindows(weight, rs[i := r]) == ReaperWindows(weight, rs)[i := ReaperWindow(weight, r)];
  }
}
