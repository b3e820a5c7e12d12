/** No job is lost: over every interleaving of workers, stale workers and reapers. */
module JobSafety {
  import opened JobStore
  import opened JobProtocol

  /** Copies of job `id` in the three lists. */
  function Listed(s: Sys, id: string): nat {
    Sum(Copies(id), s.store.pending) + Sum(Copies(id), s.store.processing) + Sum(Copies(id), s.store.dead)
  }

  /** Copies that exist only in the memory of a live `fail` or `reap_stale`, between LREM and LPUSH. */
  function InMemory(s: Sys, id: string): nat {
    Count(Windows(Copies(id)), s.workers) + ReaperCount(Copies(id), s.reapers)
  }

  function Located(s: Sys, id: string): nat { Listed(s, id) + InMemory(s, id) }

  /** A process dies, or gets a Redis error, between its LREM and its LPUSH. */
  predicate DiesInWindow(s: Sys, e: Event)
    requires Enabled(s, e)
  {
    match e
    case WorkerDies(w) => InWindow(s.workers[w])
    case ReaperDies(r) => ReaperInWindow(s.reapers[r])
    case ReapError(r) => ReaperInWindow(s.reapers[r])
    case _ => false
  }

  predicate DropsCopy(s: Sys, e: Event, id: string)
    requires Enabled(s, e)
  {
    DiesInWindow(s, e) && (if e.WorkerDies? then s.workers[e.w].job.id else s.reapers[e.r].job.id) == id
  }

  /** `complete` finds the entry of job `id` in the processing list. */
  predicate CompletesCopy(s: Sys, e: Event, id: string)
    requires Enabled(s, e)
  {
    e.CompleteRemove? && s.workers[e.w].job in s.store.processing && s.workers[e.w].job.id == id
  }

  /** The LREM of `fail` or `reap_stale` finds nothing, and the job is pushed back all the same. */
  predicate DuplicatesCopy(s: Sys, e: Event, id: string)
    requires Enabled(s, e)
  {
    match e
    case FailRemove(w, _) => s.workers[w].job !in s.store.processing && s.workers[w].job.id == id
    case ReapRemove(r) => s.reapers[r].items[0] !in s.store.processing && s.reapers[r].items[0].id == id
    case _ => false
  }

  function One(b: bool): nat { if b then 1 else 0 }

  lemma PushedIsListed(s: Store, j: Job, requeue: bool, id: string)
    ensures var t := PushRetry(s, j, requeue);
            Sum(Copies(id), t.pending) + Sum(Copies(id), t.dead)
            == Sum(Copies(id), s.pending) + Sum(Copies(id), s.dead) + One(j.id == id)
            && t.processing == s.processing && t.times == s.times
  {
    SumPush(Copies(id), Retried(j), s.pending);
    SumPush(Copies(id), Retried(j), s.dead);
  }

  lemma MovedIsListed(s: Store, id: string)
    requires s.pending != []
    ensures var t := BLMove(s);
            Sum(Copies(id), t.pending) + Sum(Copies(id), t.processing)
            == Sum(Copies(id), s.pending) + Sum(Copies(id), s.processing) && t.dead == s.dead
  {
    SumPop(Copies(id), s.pending);
    SumPush(Copies(id), s.pending[|s.pending| - 1], s.processing);
  }

  lemma WorkerLedger(s: Sys, e: Event, id: string)
    requires Enabled(s, e) && IsWorkerStep(e)
    ensures Located(Apply(s, e), id) + One(DropsCopy(s, e, id)) + One(CompletesCopy(s, e, id))
            == Located(s, id) + One(DuplicatesCopy(s, e, id))
  {
    var t := Apply(s, e);
    var w := s.workers[e.w];
    CountUpdate(Windows(Copies(id)), s.workers, e.w, t.workers[e.w]);
    assert t.workers == s.workers[e.w := t.workers[e.w]];
    if e.CompleteRemove? || e.FailRemove? { SumLRem(Copies(id), s.store.processing, w.job); }
    if e.FailPush? { PushedIsListed(s.store, w.job, w.stage.requeue, id); }
  }

  lemma ReaperLedger(s: Sys, e: Event, id: string)
    requires Enabled(s, e) && IsReaperStep(e)
    ensures Located(Apply(s, e), id) + One(DropsCopy(s, e, id)) == Located(s, id) + One(DuplicatesCopy(s, e, id))
  {
    var t := Apply(s, e);
    var p := s.reapers[e.r];
    ReaperCountUpdate(Copies(id), s.reapers, e.r, t.reapers[e.r]);
    assert t.reapers == s.reapers[e.r := t.reapers[e.r]];
    if e.ReapRemove? { SumLRem(Copies(id), s.store.processing, p.items[0]); }
    if e.ReapPush? { PushedIsListed(s.store, p.job, true, id); }
  }

  /** Exact ledger of every command: copies of a job appear by `enqueue` and by an LREM that found
      nothing, and disappear by `complete` and by a death between LREM and LPUSH, and in no other way. */
  lemma Ledger(s: Sys, e: Event, id: string)
    requires Enabled(s, e)
    ensures Located(Apply(s, e), id) + One(DropsCopy(s, e, id)) + One(CompletesCopy(s, e, id))
            == Located(s, id) + One(DuplicatesCopy(s, e, id)) + One(e.Enqueue? && e.job.id == id)
  {
    var t := Apply(s, e);
    if e.Tick? {
    } else if e.Enqueue? {
      SumPush(Copies(id), e.job, s.store.pending);
    } else if e.Dequeue? {
      MovedIsListed(s.store, id);
      CountAppend(Windows(Copies(id)), s.workers, t.workers[|s.workers|]);
    } else if IsWorkerStep(e) {
      WorkerLedger(s, e, id);
    } else {
      ReaperLedger(s, e, id);
    }
  }

  /** A command makes a job disappear exactly when it removes the job's only copy, and then either the
      job is being completed or its holder dies between LREM and LPUSH. */
  lemma VanishesExactlyWhen(s: Sys, e: Event, id: string)
    requires Enabled(s, e) && Located(s, id) >= 1
    ensures Located(Apply(s, e), id) == 0
            <==> Located(s, id) == 1 && (CompletesCopy(s, e, id) || DropsCopy(s, e, id))
  {
    Ledger(s, e, id);
  }

  ghost predicate NothingLost(s: Sys) {
    forall id :: id in s.enqueued && id !in s.completed && id !in s.lost ==> Located(s, id) >= 1
  }

  /** After every Redis command of every run, a job that was enqueued and not completed is in one of
      the three lists or in the hands of a live `fail` / `reap_stale` between its LREM and its LPUSH,
      unless such a process died there. */
  lemma {:induction false} NoJobLost(s: Sys, es: seq<Event>, t: Sys)
    requires NothingLost(s) && Reaches(s, es, t)
    ensures NothingLost(t)
    decreases |es|
  {
    if es != [] {
      var u := Apply(s, es[0]);
      forall id | id in u.enqueued && id !in u.completed && id !in u.lost ensures Located(u, id) >= 1 {
        Ledger(s, es[0], id);
      }
      NoJobLost(u, es[1..], t);
    }
  }

  /** No event of the run is a death (or Redis error) inside a window. */
  predicate WindowsSurvive(s: Sys, es: seq<Event>)
    decreases |es|
  {
    es == [] || (Enabled(s, es[0]) && !DiesInWindow(s, es[0]) && WindowsSurvive(Apply(s, es[0]), es[1..]))
  }

  lemma {:induction false} LostUnchanged(s: Sys, es: seq<Event>, t: Sys)
    requires Reaches(s, es, t) && WindowsSurvive(s, es)
    ensures t.lost == s.lost
    decreases |es|
  {
    if es != [] { LostUnchanged(Apply(s, es[0]), es[1..], t); }
  }

  /** From an empty queue, while no process dies inside that window, every enqueued job that was not
      completed is in a list or held by a live process, whatever else dies. */
  lemma NoJobLostWhileWindowsSurvive(reapers: nat, es: seq<Event>, t: Sys, id: string)
    requires Reaches(Init(reapers), es, t) && WindowsSurvive(Init(reapers), es)
    requires id in t.enqueued && id !in t.completed
    ensures Located(t, id) >= 1
  {
    NoJobLost(Init(reapers), es, t);
    LostUnchanged(Init(reapers), es, t);
  }

  /** Without the hypothesis the claim is false: a worker that dies between the LREM and the LPUSH of
      `fail` leaves the job in no list and in nobody's hands, although it was never completed. */
  lemma DyingInTheWindowLosesTheJob(j: Job) returns (es: seq<Event>, t: Sys)
    ensures Reaches(Init(0), es, t) && j.id in t.enqueued && j.id !in t.completed && Located(t, j.id) == 0
  {
    var s1 := Apply(Init(0), Enqueue(j));
    var s2 := Apply(s1, Dequeue);
    var s3 := Apply(s2, Stamp(0));
    ReachesStep(Init(0), [], Init(0), Enqueue(j));
    ReachesStep(Init(0), [] + [Enqueue(j)], s1, Dequeue);
    ReachesStep(Init(0), [] + [Enqueue(j)] + [Dequeue], s2, Stamp(0));
    assert s3.store == Store([], [j], [], map[j.id := 0]) && s3.workers == [Worker(j, Working, true)];
    var fs;
    fs, t := FailsAndDies(s3, j);
    ReachesThen(Init(0), [] + [Enqueue(j)] + [Dequeue] + [Stamp(0)], s3, fs, t);
    es := [] + [Enqueue(j)] + [Dequeue] + [Stamp(0)] + fs;
  }

  lemma FailsAndDies(s: Sys, j: Job) returns (es: seq<Event>, t: Sys)
    requires s.workers == [Worker(j, Working, true)] && s.reapers == []
    requires s.store.pending == s.store.dead == [] && s.store.processing == [j]
    ensures Reaches(s, es, t) && t.enqueued == s.enqueued && t.completed == s.completed && Located(t, j.id) == 0
  {
    var s1 := Apply(s, FailRemove(0, true));
    assert s1.store.processing == [];
    t := Apply(s1, WorkerDies(0));
    ReachesStep(s, [], s, FailRemove(0, true));
    ReachesStep(s, [] + [FailRemove(0, true)], s1, WorkerDies(0));
    es := [] + [FailRemove(0, true)] + [WorkerDies(0)];
    TotalZero(Gauges(Windows(Copies(j.id)), t.workers));
    TotalZero(ReaperWindows(Copies(j.id), t.reapers));
  }
}
