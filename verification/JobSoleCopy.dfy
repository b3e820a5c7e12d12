/** Patient reaping: when reapers only take entries whose worker is gone, a job has one copy. */
module JobSoleCopy {
  import opened JobStore
  import opened JobProtocol
  import opened JobSafety
  import opened JobRetries

  /** The reaper about to LREM an entry finds it, and no live worker still holds it. */
  predicate TakesAbandoned(s: Sys, e: Event)
    requires Enabled(s, e)
  {
    e.ReapRemove? ==>
      var v := s.reapers[e.r].items[0];
      v in s.store.processing && forall i :: 0 <= i < |s.workers| && s.workers[i].job == v ==> !Holds(s.workers[i])
  }

  predicate Patient(s: Sys, es: seq<Event>)
    decreases |es|
  {
    es == [] || (Enabled(s, es[0]) && TakesAbandoned(s, es[0]) && Patient(Apply(s, es[0]), es[1..]))
  }

  ghost predicate OneCopyEach(s: Sys) {
    forall id :: OneCopy(s, id)
  }

  ghost predicate HoldersBacked(s: Sys) {
    && (forall id :: Count(Holders(id), s.workers) <= Sum(Copies(id), s.store.processing))
    && (forall i :: 0 <= i < |s.workers| && Holds(s.workers[i]) ==> s.workers[i].job in s.store.processing)
  }

  ghost predicate HistoryKnown(s: Sys) {
    s.completed <= s.enqueued.Keys && s.lost <= s.enqueued.Keys
  }

  ghost predicate Sole(s: Sys) { OneCopyEach(s) && HoldersBacked(s) && HistoryKnown(s) }

  lemma WindowIsLocated(s: Sys, i: nat)
    requires i < |s.workers| && InWindow(s.workers[i])
    ensures Located(s, s.workers[i].job.id) >= 1
  {
    TotalAtLeast(Gauges(Windows(Copies(s.workers[i].job.id)), s.workers), i);
  }

  lemma ReaperWindowIsLocated(s: Sys, i: nat)
    requires i < |s.reapers| && ReaperInWindow(s.reapers[i])
    ensures Located(s, s.reapers[i].job.id) >= 1
  {
    TotalAtLeast(ReaperWindows(Copies(s.reapers[i].job.id), s.reapers), i);
  }

  lemma SoleHolder(s: Sys, i: nat, j: nat)
    requires Sole(s) && i < |s.workers| && j < |s.workers| && i != j
    requires Holds(s.workers[i]) && Holds(s.workers[j])
    ensures s.workers[i].job.id != s.workers[j].job.id
  {
    var id := s.workers[i].job.id;
    assert OneCopy(s, id);
    TotalAtLeastTwo(Gauges(Holders(id), s.workers), if i < j then i else j, if i < j then j else i);
  }

  /** LREM of an entry that is in the list leaves the entries of all other holders in place. */
  lemma OthersStay(s: Sys, v: Job, i: nat)
    requires Sole(s) && v in s.store.processing && i < |s.workers| && Holds(s.workers[i]) && s.workers[i].job != v
    ensures s.workers[i].job in LRem(s.store.processing, v)
  {
    LRemKeepsOthers(s.store.processing, v, s.workers[i].job);
  }

  predicate OneCopy(s: Sys, id: string) {
    Located(s, id) == One(id in s.enqueued && id !in s.completed && id !in s.lost)
  }

  lemma NothingDuplicated(s: Sys, e: Event, id: string)
    requires HoldersBacked(s) && Enabled(s, e) && TakesAbandoned(s, e)
    ensures !DuplicatesCopy(s, e, id)
    ensures e.CompleteRemove? ==> CompletesCopy(s, e, s.workers[e.w].job.id)
  {}

  lemma DroppedIsLocated(s: Sys, e: Event, id: string)
    requires Enabled(s, e) && DropsCopy(s, e, id)
    ensures Located(s, id) >= 1
  {
    if e.WorkerDies? { WindowIsLocated(s, e.w); } else { ReaperWindowIsLocated(s, e.r); }
  }

  lemma CompletedIsLocated(s: Sys, e: Event, id: string)
    requires Enabled(s, e) && CompletesCopy(s, e, id)
    ensures Located(s, id) >= 1
  {
    CopyIsCounted(s.store.processing, s.workers[e.w].job);
  }

  /** How one command changes the history of job `id`. */
  lemma HistoryOf(s: Sys, e: Event, id: string)
    requires Enabled(s, e)
    ensures id in Apply(s, e).enqueued <==> id in s.enqueued || (e.Enqueue? && e.job.id == id)
    ensures id in Apply(s, e).completed <==> id in s.completed || (e.CompleteRemove? && s.workers[e.w].job.id == id)
    ensures id in Apply(s, e).lost <==> id in s.lost || DropsCopy(s, e, id)
  {}

  lemma KeepsOneCopy(s: Sys, e: Event, id: string)
    requires OneCopy(s, id) && HoldersBacked(s) && HistoryKnown(s) && Enabled(s, e) && TakesAbandoned(s, e)
    ensures OneCopy(Apply(s, e), id)
  {
    NothingDuplicated(s, e, id);
    HistoryOf(s, e, id);
    Ledger(s, e, id);
    if DropsCopy(s, e, id) { DroppedIsLocated(s, e, id); }
    if CompletesCopy(s, e, id) { CompletedIsLocated(s, e, id); }
  }

  lemma KeepsHistoryKnown(s: Sys, e: Event)
    requires Sole(s) && Enabled(s, e) && TakesAbandoned(s, e)
    ensures HistoryKnown(Apply(s, e))
  {
    var t := Apply(s, e);
    forall id | id in t.completed || id in t.lost ensures id in t.enqueued {
      HistoryOf(s, e, id);
      NothingDuplicated(s, e, id);
      if DropsCopy(s, e, id) { DroppedIsLocated(s, e, id); }
      if CompletesCopy(s, e, id) { CompletedIsLocated(s, e, id); }
      assert OneCopy(s, id);
    }
  }

  lemma WorkerKeepsBacking(s: Sys, e: Event)
    requires Sole(s) && Enabled(s, e) && IsWorkerStep(e)
    ensures HoldersBacked(Apply(s, e))
  {
    var t := Apply(s, e);
    var v := s.workers[e.w].job;
    assert t.workers == s.workers[e.w := t.workers[e.w]];
    forall id ensures Count(Holders(id), t.workers) <= Sum(Copies(id), t.store.processing) {
      CountUpdate(Holders(id), s.workers, e.w, t.workers[e.w]);
      SumLRem(Copies(id), s.store.processing, v);
    }
    forall i | 0 <= i < |t.workers| && Holds(t.workers[i]) ensures t.workers[i].job in t.store.processing {
      if i != e.w && (e.CompleteRemove? || e.FailRemove?) {
        SoleHolder(s, i, e.w);
        OthersStay(s, v, i);
      }
    }
  }

  lemma ReapKeepsBacking(s: Sys, e: Event)
    requires Sole(s) && Enabled(s, e) && e.ReapRemove? && TakesAbandoned(s, e)
    ensures HoldersBacked(Apply(s, e))
  {
    var t := Apply(s, e);
    var v := s.reapers[e.r].items[0];
    forall id ensures Count(Holders(id), t.workers) <= Sum(Copies(id), t.store.processing) {
      SumLRem(Copies(id), s.store.processing, v);
      if id == v.id { NobodyHolds(s, v); }
    }
    forall i | 0 <= i < |t.workers| && Holds(t.workers[i]) ensures t.workers[i].job in t.store.processing {
      OthersStay(s, v, i);
    }
  }

  lemma NobodyHolds(s: Sys, v: Job)
    requires Sole(s) && v in s.store.processing
    requires forall i :: 0 <= i < |s.workers| && s.workers[i].job == v ==> !Holds(s.workers[i])
    ensures Count(Holders(v.id), s.workers) == 0
  {
    forall i | 0 <= i < |s.workers| ensures Gauge(Holders(v.id), s.workers[i]) == 0 {
      if Holds(s.workers[i]) && s.workers[i].job.id == v.id {
        assert OneCopy(s, v.id);
        SoleCopy(s.store.processing, s.workers[i].job, v);
      }
    }
    TotalZero(Gauges(Holders(v.id), s.workers));
  }

  lemma DequeueKeepsBacking(s: Sys)
    requires Sole(s) && Enabled(s, Dequeue)
    ensures HoldersBacked(Apply(s, Dequeue))
  {
    var t := Apply(s, Dequeue);
    var j := s.store.pending[|s.store.pending| - 1];
    forall id ensures Count(Holders(id), t.workers) <= Sum(Copies(id), t.store.processing) {
      CountAppend(Holders(id), s.workers, t.workers[|s.workers|]);
      SumPush(Copies(id), j, s.store.processing);
    }
  }

  lemma SoleStep(s: Sys, e: Event)
    requires Sole(s) && Enabled(s, e) && TakesAbandoned(s, e)
    ensures Sole(Apply(s, e))
  {
    forall id ensures OneCopy(Apply(s, e), id) {
      assert OneCopy(s, id);
      KeepsOneCopy(s, e, id);
    }
    KeepsHistoryKnown(s, e);
    if e.Dequeue? { DequeueKeepsBacking(s); }
    else if IsWorkerStep(e) { WorkerKeepsBacking(s, e); }
    else if e.ReapRemove? { ReapKeepsBacking(s, e); }
  }

  lemma InitIsSole(reapers: nat)
    ensures Sole(Init(reapers))
  {
    forall id ensures OneCopy(Init(reapers), id) {
      TotalZero(ReaperWindows(Copies(id), Init(reapers).reapers));
    }
  }

  // ---------------------------------------------------------------------------
  // At most max_attempts dequeues
  // ---------------------------------------------------------------------------

  /** Dequeues so far plus those the one copy can still cause when nothing is duplicated. */
  function Remaining(s: Sys, id: string): nat {
    DequeuesOf(s, id)
    + Sum(PendingTries(id, 0), s.store.pending)
    + Sum(RetryOnly(id, 0), s.store.processing)
    + Count(Windows(RetryOnly(id, 0)), s.workers)
    + ReaperCount(RetryOnly(id, 0), s.reapers)
  }

  function Allowance(s: Sys, id: string): nat {
    if id in s.enqueued then Tries(0, s.enqueued[id].attempt, s.enqueued[id].maxAttempts) else 0
  }

  lemma DequeueKeepsRemaining(s: Sys, id: string)
    requires Enabled(s, Dequeue)
    ensures Remaining(Apply(s, Dequeue), id) <= Remaining(s, id)
  {
    var t := Apply(s, Dequeue);
    var j := s.store.pending[|s.store.pending| - 1];
    SumPop(PendingTries(id, 0), s.store.pending);
    SumPush(RetryOnly(id, 0), j, s.store.processing);
    CountAppend(Dequeues(id), s.workers, t.workers[|s.workers|]);
    CountAppend(Windows(RetryOnly(id, 0)), s.workers, t.workers[|s.workers|]);
  }

  lemma WorkerKeepsRemaining(s: Sys, e: Event, id: string)
    requires Enabled(s, e) && IsWorkerStep(e)
    requires e.FailRemove? ==> s.workers[e.w].job in s.store.processing
    ensures Remaining(Apply(s, e), id) <= Remaining(s, id)
  {
    var t := Apply(s, e);
    var w := s.workers[e.w];
    assert t.workers == s.workers[e.w := t.workers[e.w]];
    CountUpdate(Dequeues(id), s.workers, e.w, t.workers[e.w]);
    CountUpdate(Windows(RetryOnly(id, 0)), s.workers, e.w, t.workers[e.w]);
    if e.CompleteRemove? || e.FailRemove? { SumLRem(RetryOnly(id, 0), s.store.processing, w.job); }
    if e.FailPush? { PushCosts(s.store, w.job, w.stage.requeue, id, 0); }
  }

  lemma ReaperKeepsRemaining(s: Sys, e: Event, id: string)
    requires Enabled(s, e) && IsReaperStep(e) && TakesAbandoned(s, e)
    ensures Remaining(Apply(s, e), id) <= Remaining(s, id)
  {
    var t := Apply(s, e);
    var p := s.reapers[e.r];
    assert t.reapers == s.reapers[e.r := t.reapers[e.r]];
    ReaperCountUpdate(RetryOnly(id, 0), s.reapers, e.r, t.reapers[e.r]);
    if e.ReapRemove? { SumLRem(RetryOnly(id, 0), s.store.processing, p.items[0]); }
    if e.ReapPush? { PushCosts(s.store, p.job, true, id, 0); }
  }

  lemma RemainingNeverGrows(s: Sys, e: Event, id: string)
    requires HoldersBacked(s) && Enabled(s, e) && TakesAbandoned(s, e) && Remaining(s, id) <= Allowance(s, id)
    ensures Remaining(Apply(s, e), id) <= Allowance(Apply(s, e), id)
  {
    if e.Tick? {
    } else if e.Enqueue? {
      SumPush(PendingTries(id, 0), e.job, s.store.pending);
    } else if e.Dequeue? {
      DequeueKeepsRemaining(s, id);
    } else if IsWorkerStep(e) {
      WorkerKeepsRemaining(s, e, id);
    } else {
      ReaperKeepsRemaining(s, e, id);
    }
  }

  lemma {:induction false} SoleOverRuns(s: Sys, es: seq<Event>, t: Sys, id: string)
    requires Sole(s) && Reaches(s, es, t) && Patient(s, es) && Remaining(s, id) <= Allowance(s, id)
    ensures Sole(t) && Remaining(t, id) <= Allowance(t, id)
    decreases |es|
  {
    if es != [] {
      SoleStep(s, es[0]);
      RemainingNeverGrows(s, es[0], id);
      SoleOverRuns(Apply(s, es[0]), es[1..], t, id);
    }
  }

  /** When reapers only take abandoned entries, every enqueued job that is neither completed nor lost
      has exactly one copy, all others have none, and a job enqueued with `attempt` below
      `maxAttempts` is dequeued at most `maxAttempts - attempt` times; any number of reapers. */
  lemma ExactlyOneCopy(reapers: nat, es: seq<Event>, t: Sys, id: string)
    requires Reaches(Init(reapers), es, t) && Patient(Init(reapers), es)
    ensures OneCopy(t, id)
    ensures id in t.enqueued && t.enqueued[id].attempt < t.enqueued[id].maxAttempts
            ==> DequeuesOf(t, id) <= t.enqueued[id].maxAttempts - t.enqueued[id].attempt
  {
    InitIsSole(reapers);
    TotalZero(ReaperWindows(RetryOnly(id, 0), Init(reapers).reapers));
    SoleOverRuns(Init(reapers), es, t, id);
    if id in t.enqueued && t.enqueued[id].attempt < t.enqueued[id].maxAttempts {
      TriesWithoutReaper(t.enqueued[id].attempt, t.enqueued[id].maxAttempts);
    }
  }

  /** In every such run two live workers never hold the same job. */
  lemma HolderIsUnique(reapers: nat, es: seq<Event>, t: Sys, i: nat, j: nat)
    requires Reaches(Init(reapers), es, t) && Patient(Init(reapers), es)
    requires i < |t.workers| && j < |t.workers| && i != j && Holds(t.workers[i]) && Holds(t.workers[j])
    ensures t.workers[i].job.id != t.workers[j].job.id
  {
    InitIsSole(reapers);
    TotalZero(ReaperWindows(RetryOnly("", 0), Init(reapers).reapers));
    SoleOverRuns(Init(reapers), es, t, "");
    SoleHolder(t, i, j);
  }

  // ---------------------------------------------------------------------------
  // Pending copies are retryable
  // ---------------------------------------------------------------------------

  predicate PendingRetryable(s: Sys) {
    forall j :: j in s.store.pending ==> j.attempt < j.maxAttempts || (j.id in s.enqueued && s.enqueued[j.id] == j)
  }

  /** In every run, patient or not, a pending copy is either as it was enqueued or has attempts left. */
  lemma {:induction false} PendingCopiesHaveAttemptsLeft(s: Sys, es: seq<Event>, t: Sys)
    requires PendingRetryable(s) && Reaches(s, es, t)
    ensures PendingRetryable(t)
    decreases |es|
  {
    if es != [] { PendingCopiesHaveAttemptsLeft(Apply(s, es[0]), es[1..], t); }
  }
}
