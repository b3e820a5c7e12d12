/** The uninterrupted methods of the queue: what they achieve, and that they are runs of the protocol. */
module JobQueueRuns {
  import opened JobStore
  import opened JobProtocol
  import opened JobQueue

  // ---------------------------------------------------------------------------
  // What the uninterrupted methods achieve
  // ---------------------------------------------------------------------------

  function AllCopies(s: Store, id: string): nat {
    Sum(Copies(id), s.pending) + Sum(Copies(id), s.processing) + Sum(Copies(id), s.dead)
  }

  lemma FailConserves(s: Store, v: Job, requeue: bool, id: string)
    requires v in s.processing
    ensures AllCopies(Failed(s, v, v, requeue), id) == AllCopies(s, id)
  {
    SumLRem(Copies(id), s.processing, v);
    SumPush(Copies(id), Retried(v), s.pending);
    SumPush(Copies(id), Retried(v), s.dead);
  }

  lemma {:induction false} ReapPassConserves(s: Store, kept: seq<Job>, items: seq<Job>, times: map<string, int>,
                                             now: int, maxAge: int, id: string)
    requires s.processing == kept + items && forall j :: j in kept ==> !Stale(j, times, now, maxAge)
    ensures AllCopies(ReapPass(s, items, times, now, maxAge), id) == AllCopies(s, id)
    decreases |items|
  {
    if items != [] {
      var v := items[0];
      assert kept + items == kept + [v] + items[1..];
      if Stale(v, times, now, maxAge) {
        LRemSkips(kept, v, items[1..]);
        FailConserves(s, v, true, id);
        ReapPassConserves(Failed(s, v, v, true), kept, items[1..], times, now, maxAge, id);
      } else {
        ReapPassConserves(s, kept + [v], items[1..], times, now, maxAge, id);
      }
    }
  }

  /** An undisturbed `reap_stale` removes exactly the stale entries, keeps the others in order, and
      neither loses nor duplicates a copy of any job. */
  lemma ReapStaleIsExact(s: Store, now: int, maxAge: int, id: string)
    ensures var t := ReapPass(s, s.processing, s.times, now, maxAge);
            t.processing == Fresh(s.processing, s.times, now, maxAge) && AllCopies(t, id) == AllCopies(s, id)
  {
    ReapPassSweeps(s, [], s.processing, s.times, now, maxAge);
    ReapPassConserves(s, [], s.processing, s.times, now, maxAge, id);
  }

  // ---------------------------------------------------------------------------
  // The methods are runs of the protocol
  // ---------------------------------------------------------------------------

  lemma FailIsARun(s: Sys, w: nat, requeue: bool)
    requires AtStage(s, w, Working)
    ensures var v := s.workers[w].job;
            Reaches(s, [FailRemove(w, requeue)] + [FailForget(w)] + [FailPush(w)],
                    AtWorker(s, w, Finished).(store := Failed(s.store, v, v, requeue)))
  {
    var s1 := Apply(s, FailRemove(w, requeue));
    var s2 := Apply(s1, FailForget(w));
    var s3 := Apply(s2, FailPush(w));
    ReachesStep(s, [], s, FailRemove(w, requeue));
    assert [] + [FailRemove(w, requeue)] == [FailRemove(w, requeue)];
    ReachesStep(s, [FailRemove(w, requeue)], s1, FailForget(w));
    ReachesStep(s, [FailRemove(w, requeue)] + [FailForget(w)], s2, FailPush(w));
    assert s3.workers == AtWorker(s, w, Finished).workers;
  }

  lemma ReapItemIsARun(s: Sys, r: nat) returns (es: seq<Event>)
    requires ScansStale(s, r)
    ensures var p := s.reapers[r];
            Reaches(s, es, AtReaper(s, r, Scanning(p.items[1..], p.maxAge, p.times, p.now))
                             .(store := Failed(s.store, p.items[0], p.items[0], true)))
  {
    var p := s.reapers[r];
    var s1 := Apply(s, ReapRemove(r));
    var s2 := Apply(s1, ReapForget(r));
    var s3 := Apply(s2, ReapPush(r));
    ReachesStep(s, [], s, ReapRemove(r));
    ReachesStep(s, [] + [ReapRemove(r)], s1, ReapForget(r));
    ReachesStep(s, [] + [ReapRemove(r)] + [ReapForget(r)], s2, ReapPush(r));
    assert s3.reapers == s.reapers[r := Scanning(p.items[1..], p.maxAge, p.times, p.now)];
    es := [] + [ReapRemove(r)] + [ReapForget(r)] + [ReapPush(r)];
  }

  /** The loop of `reap_stale` is a run of one reaper of the protocol. */
  lemma {:induction false} ReapPassIsARun(s: Sys, r: nat) returns (es: seq<Event>)
    requires r < |s.reapers| && s.reapers[r].Scanning?
    ensures var p := s.reapers[r];
            Reaches(s, es, AtReaper(s, r, Scanning([], p.maxAge, p.times, p.now))
                             .(store := ReapPass(s.store, p.items, p.times, p.now, p.maxAge)))
    decreases |s.reapers[r].items|
  {
    var p := s.reapers[r];
    if p.items == [] {
      es := [];
      assert s.reapers[r := p] == s.reapers;
    } else {
      var first, u;
      if ScansStale(s, r) {
        first := ReapItemIsARun(s, r);
        u := AtReaper(s, r, Scanning(p.items[1..], p.maxAge, p.times, p.now))
               .(store := Failed(s.store, p.items[0], p.items[0], true));
      } else {
        ReachesStep(s, [], s, ReapSkip(r));
        first, u := [] + [ReapSkip(r)], Apply(s, ReapSkip(r));
      }
      var rest := ReapPassIsARun(u, r);
      var end := Scanning([], p.maxAge, p.times, p.now);
      assert u.reapers[r := end] == s.reapers[r := end];
      ReachesThen(s, first, u, rest,
                  AtReaper(u, r, end).(store := ReapPass(u.store, p.items[1..], p.times, p.now, p.maxAge)));
      es := first + rest;
    }
  }
}
