/** The queue as its caller sees it: the methods that issue the commands one after the other.

    Here nobody else runs between two commands.  Each method is specified by a function on the store. */
module JobQueue {
  import opened Wrappers
  import opened JobStore

  function Removed(s: Store, raw: Job, id: string): Store { HDelTime(LRemProcessing(s, raw), id) }

  /** `fail`: remove the entry that was dequeued, forget its start time, push the retried record. */
  function Failed(s: Store, raw: Job, job: Job, requeue: bool): Store {
    PushRetry(Removed(s, raw, job.id), job, requeue)
  }

  /** One pass of `reap_stale` over the snapshot `items`. */
  function ReapPass(s: Store, items: seq<Job>, times: map<string, int>, now: int, maxAge: int): Store
    decreases |items|
  {
    if items == [] then s
    else if Stale(items[0], times, now, maxAge) then
      ReapPass(Failed(s, items[0], items[0], true), items[1..], times, now, maxAge)
    else ReapPass(s, items[1..], times, now, maxAge)
  }

  function StaleCount(items: seq<Job>, times: map<string, int>, now: int, maxAge: int): nat {
    if items == [] then 0
    else (if Stale(items[0], times, now, maxAge) then 1 else 0) + StaleCount(items[1..], times, now, maxAge)
  }

  lemma {:induction false} StaleCountAppend(items: seq<Job>, v: Job, times: map<string, int>, now: int, maxAge: int)
    ensures StaleCount(items + [v], times, now, maxAge)
            == StaleCount(items, times, now, maxAge) + if Stale(v, times, now, maxAge) then 1 else 0
  {
    if items != [] {
      StaleCountAppend(items[1..], v, times, now, maxAge);
      assert (items + [v])[1..] == items[1..] + [v];
    }
  }

  /** The entries that are left alone, in order. */
  function Fresh(items: seq<Job>, times: map<string, int>, now: int, maxAge: int): seq<Job> {
    if items == [] then []
    else (if Stale(items[0], times, now, maxAge) then [] else [items[0]]) + Fresh(items[1..], times, now, maxAge)
  }

  lemma {:induction false} LRemSkips(kept: seq<Job>, v: Job, rest: seq<Job>)
    requires v !in kept
    ensures LRem(kept + [v] + rest, v) == kept + rest
  {
    if kept == [] {
      assert kept + [v] + rest == [v] + rest;
    } else {
      LRemSkips(kept[1..], v, rest);
      assert (kept + [v] + rest)[1..] == kept[1..] + [v] + rest;
    }
  }

  lemma {:induction false} ReapPassSweeps(s: Store, kept: seq<Job>, items: seq<Job>, times: map<string, int>, now: int,
                                          maxAge: int)
    requires s.processing == kept + items && forall j :: j in kept ==> !Stale(j, times, now, maxAge)
    ensures ReapPass(s, items, times, now, maxAge).processing == kept + Fresh(items, times, now, maxAge)
    decreases |items|
  {
    if items != [] {
      var v := items[0];
      assert kept + items == kept + [v] + items[1..];
      var tail := Fresh(items[1..], times, now, maxAge);
      if Stale(v, times, now, maxAge) {
        LRemSkips(kept, v, items[1..]);
        ReapPassSweeps(Failed(s, v, v, true), kept, items[1..], times, now, maxAge);
        assert Fresh(items, times, now, maxAge) == tail;
      } else {
        ReapPassSweeps(s, kept + [v], items[1..], times, now, maxAge);
        assert kept + [v] + tail == kept + ([v] + tail);
      }
    }
  }

  lemma {:induction false} FreshIs(items: seq<Job>, times: map<string, int>, now: int, maxAge: int, v: Job)
    ensures v in Fresh(items, times, now, maxAge)
            <==> v in items && now - (if v.id in times then times[v.id] else v.createdAt) <= maxAge
    ensures |Fresh(items, times, now, maxAge)| + StaleCount(items, times, now, maxAge) == |items|
  {
    if items != [] {
      FreshIs(items[1..], times, now, maxAge, v);
      assert v in items <==> v == items[0] || v in items[1..];
    }
  }

  /** An entry stays if and only if its recorded start, or its creation when none is recorded, is at most `maxAge` ago;
      and the number that is returned is the number of entries that left. */
  lemma KeptByAge(s: Store, now: int, maxAge: int, v: Job)
    ensures v in ReapPass(s, s.processing, s.times, now, maxAge).processing
            <==> v in s.processing && now - (if v.id in s.times then s.times[v.id] else v.createdAt) <= maxAge
    ensures |ReapPass(s, s.processing, s.times, now, maxAge).processing|
            + StaleCount(s.processing, s.times, now, maxAge) == |s.processing|
  {
    hide *;
    NothingKept(s, now, maxAge);
    ReapPassSweeps(s, [], s.processing, s.times, now, maxAge);
    FreshIs(s.processing, s.times, now, maxAge, v);
    assert [] + Fresh(s.processing, s.times, now, maxAge) == Fresh(s.processing, s.times, now, maxAge);
  }

  lemma NothingKept(s: Store, now: int, maxAge: int)
    ensures s.processing == [] + s.processing && forall j :: j in [] ==> !Stale(j, s.times, now, maxAge)
  {}

  /** A job that was taken at t0 stays in processing if and only if it was taken at most `maxAge` ago, whenever it was
      created; one whose start time was not recorded, if and only if it was created at most `maxAge` ago. */
  lemma TakenThenReaped(s: Store, t0: int, t1: int, maxAge: int)
    requires s.pending != []
    ensures var v := s.pending[|s.pending| - 1];
            var taken := HSetTime(BLMove(s), v.id, t0);
            && (v in ReapPass(taken, taken.processing, taken.times, t1, maxAge).processing <==> t1 - t0 <= maxAge)
            && var unstamped := BLMove(s);
            (v.id !in s.times ==>
               (v in ReapPass(unstamped, unstamped.processing, s.times, t1, maxAge).processing
                <==> t1 - v.createdAt <= maxAge))
  {
    var v := s.pending[|s.pending| - 1];
    var taken := HSetTime(BLMove(s), v.id, t0);
    assert taken.processing[0] == v && BLMove(s).processing[0] == v && BLMove(s).times == s.times;
    hide ReapPass, Fresh;
    KeptByAge(taken, t1, maxAge, v);
    KeptByAge(BLMove(s), t1, maxAge, v);
  }

  /** A job object in a worker's memory: the mutable record and the bytes it was dequeued as. */
  class JobHandle {
    var job: Job
    const raw: Option<Job>

    constructor (job: Job, raw: Option<Job>)
      ensures this.job == job && this.raw == raw
    {
      this.job := job;
      this.raw := raw;
    }

    /** The bytes given to LREM. */
    function Raw(): Job
      reads this
    {
      match raw case Some(j) => j case None => job
    }
  }

  class Queue {
    var pending: seq<Job>
    var processing: seq<Job>
    var dead: seq<Job>
    var times: map<string, int>

    function State(): Store
      reads this
    {
      Store(pending, processing, dead, times)
    }

    constructor ()
      ensures State() == EMPTY_STORE
    {
      pending, processing, dead, times := [], [], [], map[];
    }

    method Enqueue(h: JobHandle) returns (id: string)
      modifies this
      ensures State() == LPushPending(old(State()), h.job) && id == h.job.id
    {
      pending := [h.job] + pending;
      id := h.job.id;
    }

    method Dequeue(now: int) returns (h: JobHandle?)
      modifies this
      ensures old(pending) == [] ==> h == null && State() == old(State())
      ensures old(pending) != [] ==>
                && h != null && fresh(h) && h.job == old(pending)[|old(pending)| - 1] && h.raw == Some(h.job)
                && State() == HSetTime(BLMove(old(State())), h.job.id, now)
    {
      if pending == [] { return null; }
      var n := |pending| - 1;
      var entry := pending[n];
      pending, processing := pending[..n], [entry] + processing;
      h := new JobHandle(entry, Some(entry));
      times := times[entry.id := now];
    }

    method Complete(h: JobHandle)
      modifies this
      ensures State() == Removed(old(State()), h.Raw(), h.job.id)
    {
      processing := LRem(processing, h.Raw());
      times := times - {h.job.id};
    }

    method Fail(h: JobHandle, requeue: bool)
      modifies this, h
      ensures State() == Failed(old(State()), old(h.Raw()), old(h.job), requeue)
      ensures h.job == Retried(old(h.job))
    {
      processing := LRem(processing, h.Raw());
      times := times - {h.job.id};
      h.job := Retried(h.job);
      if requeue && h.job.attempt < h.job.maxAttempts {
        pending := [h.job] + pending;
      } else {
        dead := [h.job] + dead;
      }
    }

    method ReapStale(now: int, maxAge: int) returns (reaped: nat)
      modifies this
      ensures State() == ReapPass(old(State()), old(processing), old(times), now, maxAge)
      ensures reaped == |old(processing)| - |processing|
      ensures forall v :: v in processing <==>
                (v in old(processing) && now - (if v.id in old(times) then old(times)[v.id] else v.createdAt) <= maxAge)
    {
      var rawItems := processing;
      var processingTimes := times;
      reaped := 0;
      for i := 0 to |rawItems|
        invariant ReapPass(State(), rawItems[i..], processingTimes, now, maxAge)
                  == ReapPass(old(State()), rawItems, processingTimes, now, maxAge)
        invariant reaped == StaleCount(rawItems[..i], processingTimes, now, maxAge)
      {
        var raw := rawItems[i];
        assert rawItems[i..][1..] == rawItems[i + 1..] && rawItems[..i + 1] == rawItems[..i] + [raw];
        StaleCountAppend(rawItems[..i], raw, processingTimes, now, maxAge);
        if Stale(raw, processingTimes, now, maxAge) {
          processing := LRem(processing, raw);
          times := times - {raw.id};
          var job := Retried(raw);
          if job.attempt < job.maxAttempts {
            pending := [job] + pending;
          } else {
            dead := [job] + dead;
          }
          reaped := reaped + 1;
        }
      }
      assert rawItems[..|rawItems|] == rawItems;
      hide ReapPass, StaleCount, Stale;
      forall v ensures v in processing <==>
        (v in rawItems && now - (if v.id in processingTimes then processingTimes[v.id] else v.createdAt) <= maxAge)
      {
        KeptByAge(old(State()), now, maxAge, v);
      }
      KeptByAge(old(State()), now, maxAge, Job("", "", 0, 0, 0));
    }
  }
}
