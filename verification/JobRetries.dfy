/** Retries terminate: how often one job can be dequeued. */
module JobRetries {
  import opened JobStore
  import opened JobProtocol

  // ---------------------------------------------------------------------------
  // What the processing list and one reaper's snapshot can still cause together
  // ---------------------------------------------------------------------------

  /** Weight of the entries that a reaper with the snapshot `items` can push back, now or in a later
      pass: each snapshot item, and each processing entry that the snapshot does not account for. */
  function Over(w: Weight, p: seq<Job>, items: seq<Job>): nat
    decreases |items|
  {
    if items == [] then Sum(w, p) else Cost(w, items[0]) + Over(w, LRem(p, items[0]), items[1..])
  }

  lemma {:induction false} OverDropEntry(w: Weight, p: seq<Job>, items: seq<Job>, v: Job)
    ensures Over(w, LRem(p, v), items) <= Over(w, p, items) <= Over(w, LRem(p, v), items) + Cost(w, v)
    decreases |items|
  {
    if items == [] {
      SumLRem(w, p, v);
    } else {
      LRemCommutes(p, v, items[0]);
      OverDropEntry(w, LRem(p, items[0]), items[1..], v);
    }
  }

  lemma {:induction false} OverAddEntry(w: Weight, p: seq<Job>, items: seq<Job>, v: Job)
    ensures Over(w, [v] + p, items) <= Over(w, p, items) + Cost(w, v)
    decreases |items|
  {
    if items == [] {
      SumPush(w, v, p);
    } else if items[0] == v {
      assert LRem([v] + p, v) == p;
      OverDropEntry(w, p, items[1..], v);
    } else {
      assert ([v] + p)[1..] == p;
      assert LRem([v] + p, items[0]) == [v] + LRem(p, items[0]);
      OverAddEntry(w, LRem(p, items[0]), items[1..], v);
    }
  }

  lemma {:induction false} OverSnapshot(w: Weight, p: seq<Job>)
    ensures Over(w, p, p) == Sum(w, p)
  {
    if p != [] { OverSnapshot(w, p[1..]); }
  }

  function Items(r: Reaper): seq<Job> { if r.Resting? then [] else r.items }

  function ReaperCost(w: Weight, p: seq<Job>, r: Reaper): nat {
    Over(w, p, Items(r)) + if ReaperInWindow(r) then Cost(w, r.job) else 0
  }

  function ReaperCosts(w: Weight, p: seq<Job>, rs: seq<Reaper>): (f: seq<nat>)
    ensures |f| == |rs| && forall i :: 0 <= i < |f| ==> f[i] == ReaperCost(w, p, rs[i])
  {
    seq(|rs|, i requires 0 <= i < |rs| => ReaperCost(w, p, rs[i]))
  }

  // ---------------------------------------------------------------------------
  // The potential
  // ---------------------------------------------------------------------------

  function DequeuesOf(s: Sys, id: string): nat { Count(Dequeues(id), s.workers) }

  /** Dequeues of job `id` so far plus all that can still follow. */
  function Potential(s: Sys, id: string): nat {
    var k := |s.reapers|;
    DequeuesOf(s, id)
    + Sum(PendingTries(id, k), s.store.pending)
    + Count(Resolutions(RetryOnly(id, k)), s.workers)
    + Total(ReaperCosts(RetryOnly(id, k), s.store.processing, s.reapers))
  }

  /** The budget of job `id`, fixed when it is enqueued. */
  function Budget(s: Sys, id: string): nat {
    if id in s.enqueued then Tries(|s.reapers|, s.enqueued[id].attempt, s.enqueued[id].maxAttempts) else 0
  }

  lemma PushCosts(s: Store, j: Job, requeue: bool, id: string, k: nat)
    ensures var t := PushRetry(s, j, requeue);
            t.processing == s.processing
            && Sum(PendingTries(id, k), t.pending) <= Sum(PendingTries(id, k), s.pending) + Cost(RetryOnly(id, k), j)
  {
    SumPush(PendingTries(id, k), Retried(j), s.pending);
  }

  lemma FewerEntries(w: Weight, p: seq<Job>, v: Job, rs: seq<Reaper>)
    ensures Total(ReaperCosts(w, LRem(p, v), rs)) <= Total(ReaperCosts(w, p, rs))
  {
    forall i | 0 <= i < |rs| ensures ReaperCost(w, LRem(p, v), rs[i]) <= ReaperCost(w, p, rs[i]) + 0 {
      OverDropEntry(w, p, Items(rs[i]), v);
    }
    TotalBounded(ReaperCosts(w, LRem(p, v), rs), ReaperCosts(w, p, rs), 0);
  }

  lemma MoreEntries(w: Weight, p: seq<Job>, v: Job, rs: seq<Reaper>)
    ensures Total(ReaperCosts(w, [v] + p, rs)) <= Total(ReaperCosts(w, p, rs)) + |rs| * Cost(w, v)
  {
    forall i | 0 <= i < |rs| ensures ReaperCost(w, [v] + p, rs[i]) <= ReaperCost(w, p, rs[i]) + Cost(w, v) {
      OverAddEntry(w, p, Items(rs[i]), v);
    }
    TotalBounded(ReaperCosts(w, [v] + p, rs), ReaperCosts(w, p, rs), Cost(w, v));
  }

  lemma ReaperChanges(w: Weight, p: seq<Job>, rs: seq<Reaper>, i: nat, r: Reaper)
    requires i < |rs|
    ensures Total(ReaperCosts(w, p, rs[i := r])) + ReaperCost(w, p, rs[i])
            == Total(ReaperCosts(w, p, rs)) + ReaperCost(w, p, r)
  {
    TotalUpdate(ReaperCosts(w, p, rs), i, ReaperCost(w, p, r));
    assert ReaperCosts(w, p, rs[i := r]) == ReaperCosts(w, p, rs)[i := ReaperCost(w, p, r)];
  }

  lemma DequeueKeepsPotential(s: Sys, id: string)
    requires Enabled(s, Dequeue)
    ensures Potential(Apply(s, Dequeue), id) <= Potential(s, id)
  {
    var t := Apply(s, Dequeue);
    var k := |s.reapers|;
    var j := s.store.pending[|s.store.pending| - 1];
    SumPop(PendingTries(id, k), s.store.pending);
    MoreEntries(RetryOnly(id, k), s.store.processing, j, s.reapers);
    CountAppend(Dequeues(id), s.workers, t.workers[|s.workers|]);
    CountAppend(Resolutions(RetryOnly(id, k)), s.workers, t.workers[|s.workers|]);
  }

  lemma WorkerKeepsPotential(s: Sys, e: Event, id: string)
    requires Enabled(s, e)
    requires IsWorkerStep(e)
    ensures Potential(Apply(s, e), id) <= Potential(s, id)
  {
    var t := Apply(s, e);
    var k := |s.reapers|;
    var w := s.workers[e.w];
    assert t.workers == s.workers[e.w := t.workers[e.w]];
    CountUpdate(Dequeues(id), s.workers, e.w, t.workers[e.w]);
    CountUpdate(Resolutions(RetryOnly(id, k)), s.workers, e.w, t.workers[e.w]);
    hide Cost, LRem, PushRetry, Sum, Total, Over, ReaperCosts, Count;
    if e.CompleteRemove? || e.FailRemove? { FewerEntries(RetryOnly(id, k), s.store.processing, w.job, s.reapers); }
    if e.FailPush? { PushCosts(s.store, w.job, w.stage.requeue, id, k); }
  }

  /** A removed item leaves the snapshot and the list together; for everybody else the list only shrinks. */
  lemma RemovedOnce(w: Weight, q: seq<Job>, rs: seq<Reaper>, i: nat, r: Reaper)
    requires i < |rs| && rs[i].Scanning? && rs[i].items != []
    requires r == Forgetting(rs[i].items[0], rs[i].items[1..], rs[i].maxAge, rs[i].times, rs[i].now)
    ensures Total(ReaperCosts(w, LRem(q, rs[i].items[0]), rs[i := r])) <= Total(ReaperCosts(w, q, rs))
  {
    hide Cost, LRem;
    var v, rest := rs[i].items[0], rs[i := r];
    assert ReaperCost(w, LRem(q, v), r) == ReaperCost(w, q, rs[i]);
    forall k | 0 <= k < |rest| ensures ReaperCost(w, LRem(q, v), rest[k]) <= ReaperCost(w, q, rs[k]) + 0 {
      if k != i { OverDropEntry(w, q, Items(rest[k]), v); }
    }
    TotalBounded(ReaperCosts(w, LRem(q, v), rest), ReaperCosts(w, q, rs), 0);
  }

  /** A reaper causes no more than before if it starts over, has given up, or has nothing new in its snapshot. */
  lemma ShorterSnapshot(w: Weight, q: seq<Job>, p: Reaper, r: Reaper)
    requires ReaperInWindow(r) ==> ReaperInWindow(p) && r.job == p.job
    requires (Items(p) == [] && Items(r) == q) || Items(r) == Items(p) || Items(r) == []
             || (Items(p) != [] && Items(r) == Items(p)[1..])
    ensures ReaperCost(w, q, r) + (if ReaperInWindow(p) && !ReaperInWindow(r) then Cost(w, p.job) else 0)
            <= ReaperCost(w, q, p)
  {
    hide Cost, LRem, Sum, Items, ReaperInWindow;
    OverSnapshot(w, q);
    OverAtLeastList(w, q, Items(p));
    if Items(p) != [] { OverDropEntry(w, q, Items(p)[1..], Items(p)[0]); }
  }

  /** The other steps of a reaper, on what its snapshot can still cause. */
  lemma OneReaperChanges(s: Sys, e: Event, id: string)
    requires Enabled(s, e) && IsReaperStep(e) && !e.ReapRemove?
    ensures var t, w, q := Apply(s, e), RetryOnly(id, |s.reapers|), s.store.processing;
            ReaperCost(w, q, t.reapers[e.r]) + (if e.ReapPush? then Cost(w, s.reapers[e.r].job) else 0)
            <= ReaperCost(w, q, s.reapers[e.r])
  {
    hide ReaperCost, Cost, Stale, PushRetry;
    ShorterSnapshot(RetryOnly(id, |s.reapers|), s.store.processing, s.reapers[e.r], Apply(s, e).reapers[e.r]);
  }

  lemma ReaperKeepsPotential(s: Sys, e: Event, id: string)
    requires Enabled(s, e) && IsReaperStep(e)
    ensures Potential(Apply(s, e), id) <= Potential(s, id)
  {
    var t := Apply(s, e);
    var w := RetryOnly(id, |s.reapers|);
    var q, p := s.store.processing, s.reapers[e.r];
    assert t.reapers == s.reapers[e.r := t.reapers[e.r]];
    hide Cost, LRem, Over, ReaperCost, Total, Sum;
    if e.ReapRemove? {
      RemovedOnce(w, q, s.reapers, e.r, t.reapers[e.r]);
    } else {
      OneReaperChanges(s, e, id);
      ReaperChanges(w, q, s.reapers, e.r, t.reapers[e.r]);
      if e.ReapPush? { PushCosts(s.store, p.job, true, id, |s.reapers|); }
    }
  }

  lemma {:induction false} OverAtLeastList(w: Weight, p: seq<Job>, items: seq<Job>)
    ensures Sum(w, p) <= Over(w, p, items)
    decreases |items|
  {
    if items != [] {
      SumLRem(w, p, items[0]);
      OverAtLeastList(w, LRem(p, items[0]), items[1..]);
    }
  }

  lemma EnqueueKeepsPotential(s: Sys, e: Event, id: string)
    requires Enabled(s, e) && e.Enqueue? && Potential(s, id) <= Budget(s, id)
    ensures Potential(Apply(s, e), id) <= Budget(Apply(s, e), id)
  {
    hide Tries, Count, Total;
    SumPush(PendingTries(id, |s.reapers|), e.job, s.store.pending);
  }

  lemma BudgetStays(s: Sys, e: Event, id: string)
    requires Enabled(s, e) && !e.Enqueue?
    ensures Budget(Apply(s, e), id) == Budget(s, id)
    ensures e.Tick? ==> Potential(Apply(s, e), id) == Potential(s, id)
  {
    hide Tries;
  }

  /** No command of anybody raises the potential, except `enqueue`, which raises it by the budget. */
  lemma PotentialNeverGrows(s: Sys, e: Event, id: string)
    requires Enabled(s, e) && Potential(s, id) <= Budget(s, id)
    ensures Potential(Apply(s, e), id) <= Budget(Apply(s, e), id)
  {
    hide *;
    EveryStep(e);
    if e.Enqueue? {
      EnqueueKeepsPotential(s, e, id);
    } else {
      BudgetStays(s, e, id);
      if e.Dequeue? {
        DequeueKeepsPotential(s, id);
      } else if IsWorkerStep(e) {
        WorkerKeepsPotential(s, e, id);
      } else if !e.Tick? {
        ReaperKeepsPotential(s, e, id);
      }
    }
  }

  lemma {:induction false} PotentialOverRuns(s: Sys, es: seq<Event>, t: Sys, id: string)
    requires Reaches(s, es, t) && Potential(s, id) <= Budget(s, id)
    ensures Potential(t, id) <= Budget(t, id) && |t.reapers| == |s.reapers|
    decreases |es|
  {
    if es != [] {
      PotentialNeverGrows(s, es[0], id);
      PotentialOverRuns(Apply(s, es[0]), es[1..], t, id);
    }
  }

  lemma PotentialOfInit(reapers: nat, id: string)
    ensures Potential(Init(reapers), id) == 0
  {
    TotalZero(ReaperCosts(RetryOnly(id, reapers), [], Init(reapers).reapers));
  }

  /** With `reapers` reapers that may overtake live workers at any command, a job enqueued with
      `attempt` of `maxAttempts` is dequeued at most `Tries` times, over every run. */
  lemma RetriesTerminate(reapers: nat, es: seq<Event>, t: Sys, id: string)
    requires Reaches(Init(reapers), es, t) && id in t.enqueued
    ensures DequeuesOf(t, id) <= Tries(reapers, t.enqueued[id].attempt, t.enqueued[id].maxAttempts)
  {
    PotentialOfInit(reapers, id);
    PotentialOverRuns(Init(reapers), es, t, id);
  }

  // ---------------------------------------------------------------------------
  // Closed forms
  // ---------------------------------------------------------------------------

  function Pow(b: nat, n: nat): nat {
    if n == 0 then 1 else b * Pow(b, n - 1)
  }

  /** 1 + b + b^2 + .., n terms. */
  function Geometric(b: nat, n: nat): nat {
    if n == 0 then 0 else 1 + b * Geometric(b, n - 1)
  }

  lemma TriesStep(reapers: nat, attempt: int, maxAttempts: int)
    requires attempt < maxAttempts
    ensures var n := if attempt + 1 < maxAttempts then Tries(reapers, attempt + 1, maxAttempts) else 0;
            Tries(reapers, attempt, maxAttempts) == 1 + n + reapers * n == 1 + (reapers + 1) * n
    ensures var b, i := reapers + 1, maxAttempts - attempt - 1;
            && Pow(b, i + 1) == b * Pow(b, i) && Geometric(b, i + 1) == 1 + b * Geometric(b, i)
            && Pow(b, 0) == 1 && Geometric(b, 0) == 0
  {
    var n := if attempt + 1 < maxAttempts then Tries(reapers, attempt + 1, maxAttempts) else 0;
    assert n + reapers * n == (reapers + 1) * n;
  }

  lemma GeometricStep(k: nat, n: nat, p: nat)
    requires k * n + 1 == p
    ensures k * (1 + (k + 1) * n) + 1 == (k + 1) * p
  {
    assert k * (1 + (k + 1) * n) == k + (k + 1) * (k * n);
  }

  /** The bound is the geometric sum of (reapers + 1)^i over the attempts left; in closed form it is
      ((reapers + 1)^left - 1) / reapers when there is a reaper. */
  lemma {:induction false} TriesIsGeometric(reapers: nat, attempt: int, maxAttempts: int)
    requires attempt < maxAttempts
    ensures Tries(reapers, attempt, maxAttempts) == Geometric(reapers + 1, maxAttempts - attempt)
    ensures reapers * Tries(reapers, attempt, maxAttempts) + 1 == Pow(reapers + 1, maxAttempts - attempt)
    decreases maxAttempts - attempt
  {
    hide *;
    TriesStep(reapers, attempt, maxAttempts);
    if attempt + 1 < maxAttempts {
      TriesIsGeometric(reapers, attempt + 1, maxAttempts);
      GeometricStep(reapers, Tries(reapers, attempt + 1, maxAttempts), Pow(reapers + 1, maxAttempts - attempt - 1));
    } else {
      GeometricStep(reapers, 0, 1);
    }
  }

  lemma {:induction false} TriesWithoutReaper(attempt: int, maxAttempts: int)
    requires attempt < maxAttempts
    ensures Tries(0, attempt, maxAttempts) == maxAttempts - attempt
    decreases maxAttempts - attempt
  {
    if attempt + 1 < maxAttempts { TriesWithoutReaper(attempt + 1, maxAttempts); }
  }

  /** With the single periodic reaper, a fresh job is dequeued at most 2^m - 1 times. */
  lemma FreshJobOneReaper(es: seq<Event>, t: Sys, id: string)
    requires Reaches(Init(1), es, t) && id in t.enqueued
    requires t.enqueued[id].attempt == 0 && t.enqueued[id].maxAttempts >= 1
    ensures DequeuesOf(t, id) <= Pow(2, t.enqueued[id].maxAttempts) - 1
  {
    RetriesTerminate(1, es, t, id);
    TriesIsGeometric(1, 0, t.enqueued[id].maxAttempts);
  }

  // ---------------------------------------------------------------------------
  // The bound is reached: every entry comes back through each reaper, all of which overtake its worker,
  // and once more through the late `fail` of that worker
  // ---------------------------------------------------------------------------

  /** Only copies of job `id` are waiting, all old enough to be reaped, and nobody is busy. */
  predicate Quiet(s: Sys, id: string, maxAge: int) {
    && s.store.processing == [] && s.store.times == map[] && (forall r :: r in s.reapers ==> r == Resting)
    && forall j :: j in s.store.pending ==> j.id == id && s.clock - j.createdAt > maxAge
  }

  /** The snapshot of a reaper that came while `v` was the only entry and had no start time yet. */
  function Scan(s: Sys, v: Job, maxAge: int): Reaper { Scanning([v], maxAge, map[], s.clock) }

  function Phase(n: nat, r: nat, done: Reaper, todo: Reaper): (rs: seq<Reaper>)
    ensures |rs| == n && forall i :: 0 <= i < n ==> rs[i] == if i < r then done else todo
  {
    seq(n, i => if i < r then done else todo)
  }

  /** Reaper r takes its snapshot. */
  lemma TakesSnapshot(s: Sys, v: Job, maxAge: int, r: nat) returns (es: seq<Event>, t: Sys)
    requires s.store.processing == [v] && s.store.times == map[] && r < |s.reapers| && s.reapers[r] == Resting
    ensures Reaches(s, es, t) && t == s.(reapers := s.reapers[r := Scan(s, v, maxAge)])
  {
    var s1 := Apply(s, ReapList(r, maxAge));
    t := Apply(s1, ReapTimes(r));
    ReachesStep(s, [], s, ReapList(r, maxAge));
    ReachesStep(s, [] + [ReapList(r, maxAge)], s1, ReapTimes(r));
    es := [] + [ReapList(r, maxAge)] + [ReapTimes(r)];
  }

  /** All reapers from r on take their snapshots. */
  lemma {:induction false} AllTakeSnapshots(s: Sys, v: Job, maxAge: int, r: nat) returns (es: seq<Event>, t: Sys)
    requires s.store.processing == [v] && s.store.times == map[] && r <= |s.reapers|
    requires s.reapers == Phase(|s.reapers|, r, Scan(s, v, maxAge), Resting)
    ensures Reaches(s, es, t) && t == s.(reapers := Phase(|s.reapers|, |s.reapers|, Scan(s, v, maxAge), Resting))
    decreases |s.reapers| - r
  {
    if r == |s.reapers| {
      es, t := [], s;
    } else {
      hide Reaches;
      var first, u := TakesSnapshot(s, v, maxAge, r);
      assert u.reapers == Phase(|s.reapers|, r + 1, Scan(s, v, maxAge), Resting);
      var rest;
      rest, t := AllTakeSnapshots(u, v, maxAge, r + 1);
      ReachesThen(s, first, u, rest, t);
      es := first + rest;
    }
  }

  /** Reaper r removes the entry if it is still there, and is about to push the job back. */
  lemma Overtakes(s: Sys, v: Job, maxAge: int, r: nat) returns (es: seq<Event>, t: Sys)
    requires s.store.times == map[] && s.clock - v.createdAt > maxAge && r < |s.reapers|
    requires s.reapers[r] == Scan(s, v, maxAge)
    ensures Reaches(s, es, t)
    ensures t == s.(store := LRemProcessing(s.store, v),
                    reapers := s.reapers[r := Pushing(v, [], maxAge, map[], s.clock)])
  {
    hide LRem;
    assert [v][0] == v && [v][1..] == [];
    var s1 := Apply(s, ReapRemove(r));
    t := Apply(s1, ReapForget(r));
    assert t.store.times == map[];
    ReachesStep(s, [], s, ReapRemove(r));
    ReachesStep(s, [] + [ReapRemove(r)], s1, ReapForget(r));
    es := [] + [ReapRemove(r)] + [ReapForget(r)];
  }

  lemma PushesBack(s: Sys, v: Job, maxAge: int, r: nat) returns (es: seq<Event>, t: Sys)
    requires r < |s.reapers| && s.reapers[r] == Pushing(v, [], maxAge, map[], s.clock)
    ensures Reaches(s, es, t) && t == s.(store := PushRetry(s.store, v, true), reapers := s.reapers[r := Resting])
  {
    hide PushRetry;
    var s1 := Apply(s, ReapPush(r));
    t := Apply(s1, ReapFinish(r));
    ReachesStep(s, [], s, ReapPush(r));
    ReachesStep(s, [] + [ReapPush(r)], s1, ReapFinish(r));
    es := [] + [ReapPush(r)] + [ReapFinish(r)];
  }

  /** The store after `n` copies of `v` were pushed back. */
  function PushedBack(s: Store, v: Job, n: nat): Store
    decreases n
  {
    if n == 0 then s else PushedBack(PushRetry(s, v, true), v, n - 1)
  }

  lemma {:induction false} PushedBackKeeps(s: Store, v: Job, n: nat)
    ensures var t := PushedBack(s, v, n); t.processing == s.processing && t.times == s.times
    ensures forall j :: j in PushedBack(s, v, n).pending ==> j in s.pending || j == Retried(v)
    ensures PushedBack(s, v, n + 1) == PushRetry(PushedBack(s, v, n), v, true)
    decreases n
  {
    if n > 0 { PushedBackKeeps(PushRetry(s, v, true), v, n - 1); }
  }

  /** Reaper r takes the entry over: out of the list if it is still there, and back on pending. */
  lemma OneOvertakes(s: Sys, v: Job, maxAge: int, r: nat) returns (es: seq<Event>, t: Sys)
    requires s.store.times == map[] && s.clock - v.createdAt > maxAge && r < |s.reapers|
    requires s.reapers == Phase(|s.reapers|, r, Resting, Scan(s, v, maxAge))
    requires LRem(s.store.processing, v) == []
    ensures Reaches(s, es, t)
    ensures t == s.(store := PushRetry(LRemProcessing(s.store, v), v, true),
                    reapers := Phase(|s.reapers|, r + 1, Resting, Scan(s, v, maxAge)))
  {
    hide Reaches, LRem, PushRetry;
    var e1, s1 := Overtakes(s, v, maxAge, r);
    var e2;
    e2, t := PushesBack(s1, v, maxAge, r);
    assert t.reapers == Phase(|s.reapers|, r + 1, Resting, Scan(s, v, maxAge));
    ReachesThen(s, e1, s1, e2, t);
    es := e1 + e2;
  }

  lemma PushKeepsLists(s: Store, v: Job)
    ensures var t := PushRetry(s, v, true); t.processing == s.processing && t.times == s.times
  {
  }

  /** All reapers from r on take the entry over, the first one out of the list and the others in vain. */
  lemma {:induction false} AllOvertake(s: Sys, v: Job, maxAge: int, r: nat) returns (es: seq<Event>, t: Sys)
    requires s.store.times == map[] && s.clock - v.createdAt > maxAge && r <= |s.reapers|
    requires LRem(s.store.processing, v) == []
    requires s.reapers == Phase(|s.reapers|, r, Resting, Scan(s, v, maxAge))
    ensures Reaches(s, es, t) && t.workers == s.workers && t.enqueued == s.enqueued && t.clock == s.clock
    ensures t.reapers == Phase(|s.reapers|, |s.reapers|, Resting, Resting)
    ensures LRemProcessing(t.store, v) == PushedBack(LRemProcessing(s.store, v), v, |s.reapers| - r)
    ensures t.store.times == map[]
    decreases |s.reapers| - r
  {
    if r == |s.reapers| {
      es, t := [], s;
    } else {
      hide Reaches, LRem, PushRetry;
      var e1, u := OneOvertakes(s, v, maxAge, r);
      PushKeepsLists(LRemProcessing(s.store, v), v);
      NothingToRemove(v);
      var rest;
      rest, t := AllOvertake(u, v, maxAge, r + 1);
      ReachesThen(s, e1, u, rest, t);
      es := e1 + rest;
    }
  }

  lemma NothingToRemove(v: Job)
    ensures LRem([], v) == [] && LRem([v], v) == []
  {
    assert [v][1..] == [];
  }

  /** The overtaken worker `w` fails late and pushes its own copy back. */
  lemma FailsLate(s: Sys, w: nat) returns (es: seq<Event>, t: Sys)
    requires AtStage(s, w, Stamping) && s.store.times == map[]
    ensures Reaches(s, es, t)
    ensures var v := s.workers[w].job;
            t == s.(store := PushRetry(LRemProcessing(s.store, v), v, true),
                    workers := s.workers[w := Worker(v, Finished, true)])
  {
    hide LRem;
    var v := s.workers[w].job;
    var s1 := Apply(s, Stamp(w));
    var s2 := Apply(s1, FailRemove(w, true));
    var s3 := Apply(s2, FailForget(w));
    assert s3.store == LRemProcessing(s.store, v);
    hide PushRetry;
    t := Apply(s3, FailPush(w));
    assert t.workers == s.workers[w := Worker(v, Finished, true)];
    ReachesStep(s, [], s, Stamp(w));
    ReachesStep(s, [] + [Stamp(w)], s1, FailRemove(w, true));
    ReachesStep(s, [] + [Stamp(w)] + [FailRemove(w, true)], s2, FailForget(w));
    ReachesStep(s, [] + [Stamp(w)] + [FailRemove(w, true)] + [FailForget(w)], s3, FailPush(w));
    es := [] + [Stamp(w)] + [FailRemove(w, true)] + [FailForget(w)] + [FailPush(w)];
  }

  lemma Takes(s: Sys, v: Job) returns (es: seq<Event>, t: Sys)
    requires s.store.pending != [] && v == s.store.pending[|s.store.pending| - 1]
    requires s.store.processing == [] && s.store.times == map[]
    ensures Reaches(s, es, t)
    ensures t == s.(store := Store(s.store.pending[..|s.store.pending| - 1], [v], s.store.dead, map[]),
                    workers := s.workers + [Worker(v, Stamping, true)])
  {
    t := Apply(s, Dequeue);
    assert t.store.processing == [v];
    ReachesStep(s, [], s, Dequeue);
    es := [] + [Dequeue];
  }

  /** The events of one round, and the state they lead to. */
  lemma RoundRuns(s: Sys, id: string, maxAge: int) returns (es: seq<Event>, t: Sys)
    requires Quiet(s, id, maxAge) && s.store.pending != []
    ensures Reaches(s, es, t) && t.enqueued == s.enqueued && t.clock == s.clock
    ensures |t.reapers| == |s.reapers| && forall r :: r in t.reapers ==> r == Resting
    ensures var n := |s.store.pending| - 1; var v := s.store.pending[n];
            && t.store == PushedBack(Store(s.store.pending[..n], [], s.store.dead, map[]), v, |s.reapers| + 1)
            && t.workers == (s.workers + [Worker(v, Stamping, true)])[|s.workers| := Worker(v, Finished, true)]
  {
    var k, w, v := |s.reapers|, |s.workers|, s.store.pending[|s.store.pending| - 1];
    assert v in s.store.pending && v.id == id;
    hide Reaches, PushedBack, PushRetry;
    var e1, s1 := Takes(s, v);
    assert forall r :: 0 <= r < k ==> s1.reapers[r] in s.reapers;
    assert s1.reapers == Phase(k, 0, Scan(s1, v, maxAge), Resting);
    var e2, s2 := AllTakeSnapshots(s1, v, maxAge, 0);
    assert s2.reapers == Phase(k, 0, Resting, Scan(s2, v, maxAge));
    NothingToRemove(v);
    var e3, s3 := AllOvertake(s2, v, maxAge, 0);
    var e4;
    e4, t := FailsLate(s3, w);
    assert LRemProcessing(s2.store, v) == Store(s.store.pending[..|s.store.pending| - 1], [], s.store.dead, map[]);
    PushedBackKeeps(LRemProcessing(s2.store, v), v, k);
    ReachesThen(s, e1, s1, e2, s2);
    ReachesThen(s, e1 + e2, s2, e3, s3);
    ReachesThen(s, e1 + e2 + e3, s3, e4, t);
    es := e1 + e2 + e3 + e4;
  }

  /** What comes back weighs, per copy, what the attempt after this one can cause. */
  lemma {:induction false} PushedBackCosts(s: Store, v: Job, k: nat, n: nat)
    ensures Sum(PendingTries(v.id, k), PushedBack(s, v, n).pending)
            == Sum(PendingTries(v.id, k), s.pending) + n * RetryTries(k, v.attempt, v.maxAttempts)
    decreases n
  {
    var a := RetryTries(k, v.attempt, v.maxAttempts);
    if n > 0 {
      var r := Retried(v);
      if r.attempt < r.maxAttempts { SumPush(PendingTries(v.id, k), r, s.pending); }
      assert Sum(PendingTries(v.id, k), PushRetry(s, v, true).pending) == Sum(PendingTries(v.id, k), s.pending) + a;
      PushedBackCosts(PushRetry(s, v, true), v, k, n - 1);
      assert n * a == (n - 1) * a + a;
    }
  }

  lemma TakenCosts(v: Job, k: nat)
    ensures Cost(PendingTries(v.id, k), v) == 1 + (k + 1) * RetryTries(k, v.attempt, v.maxAttempts)
  {
    var a := RetryTries(k, v.attempt, v.maxAttempts);
    assert (k + 1) * a == a + k * a;
  }

  /** One dequeue whose copies come back, one through each reaper and one through the worker (none, when the
      attempts are used up). */
  lemma Round(s: Sys, id: string, maxAge: int) returns (es: seq<Event>, t: Sys)
    requires Quiet(s, id, maxAge) && s.store.pending != []
    ensures Reaches(s, es, t) && Quiet(t, id, maxAge) && t.enqueued == s.enqueued && |t.reapers| == |s.reapers|
    ensures DequeuesOf(t, id) == DequeuesOf(s, id) + 1
    ensures var w := PendingTries(id, |s.reapers|); Sum(w, t.store.pending) + 1 == Sum(w, s.store.pending)
  {
    var k, n := |s.reapers|, |s.store.pending| - 1;
    var v := s.store.pending[n];
    assert v in s.store.pending && v.id == id;
    hide Sum, Count, Tries, RetryTries, Cost, Reaches, PushedBack;
    es, t := RoundRuns(s, id, maxAge);
    var base := Store(s.store.pending[..n], [], s.store.dead, map[]);
    RoundDequeues(s, Worker(v, Stamping, true), Worker(v, Finished, true), t, id);
    PushedBackKeeps(base, v, k + 1);
    SumPop(PendingTries(id, k), s.store.pending);
    PushedBackCosts(base, v, k, k + 1);
    TakenCosts(v, k);
  }

  lemma RoundDequeues(s: Sys, before: Worker, after: Worker, t: Sys, id: string)
    requires t.workers == (s.workers + [before])[|s.workers| := after] && before.job == after.job && before.job.id == id
    ensures DequeuesOf(t, id) == DequeuesOf(s, id) + 1
  {
    hide Count;
    CountAppend(Dequeues(id), s.workers, before);
    CountUpdate(Dequeues(id), s.workers + [before], |s.workers|, after);
  }

  /** Playing rounds until nothing is pending uses up the whole potential. */
  lemma {:induction false} PlayOut(s: Sys, id: string, maxAge: int) returns (es: seq<Event>, t: Sys)
    requires Quiet(s, id, maxAge)
    ensures Reaches(s, es, t) && t.enqueued == s.enqueued
    ensures DequeuesOf(t, id) == DequeuesOf(s, id) + Sum(PendingTries(id, |s.reapers|), s.store.pending)
    decreases Sum(PendingTries(id, |s.reapers|), s.store.pending)
  {
    if s.store.pending == [] {
      es, t := [], s;
    } else {
      hide Quiet;
      var first, u := Round(s, id, maxAge);
      var rest;
      rest, t := PlayOut(u, id, maxAge);
      ReachesThen(s, first, u, rest, t);
      es := first + rest;
    }
  }

  /** For any number of reapers and any job there is a run in which it is dequeued exactly as often as
      `RetriesTerminate` allows, so that bound cannot be improved. */
  lemma BoundIsReached(reapers: nat, job: Job, maxAge: int) returns (es: seq<Event>, t: Sys)
    ensures Reaches(Init(reapers), es, t) && job.id in t.enqueued && t.enqueued[job.id] == job
    ensures DequeuesOf(t, job.id) == Tries(reapers, job.attempt, job.maxAttempts)
  {
    var s0 := Init(reapers);
    var wait: nat := if job.createdAt + maxAge + 1 > 0 then job.createdAt + maxAge + 1 else 0;
    var s1 := Apply(s0, Enqueue(job));
    var s2 := Apply(s1, Tick(wait));
    assert s2.store.pending == [job] && |s2.reapers| == reapers;
    hide Tries;
    ReachesStep(s0, [], s0, Enqueue(job));
    ReachesStep(s0, [] + [Enqueue(job)], s1, Tick(wait));
    var rest;
    rest, t := PlayOut(s2, job.id, maxAge);
    ReachesThen(s0, [] + [Enqueue(job)] + [Tick(wait)], s2, rest, t);
    es := [] + [Enqueue(job)] + [Tick(wait)] + rest;
    SumPush(PendingTries(job.id, reapers), job, []);
    assert [job] + [] == [job];
  }
}
