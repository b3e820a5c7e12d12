/** Sliding-window limiters of failed logins: in memory, and as Redis sorted sets.
    Times are integers on one clock that never goes back. */
module LoginLimiter {
  import opened Wrappers

  /** `Forgotten`: a record of which nothing was left, as `Straddles` describes. */
  datatype Event = Failed(key: string, at: int) | Cleared(key: string) | Forgotten(key: string, at: int)

  /** Times of the failures of a key since it was last cleared (or forgotten). */
  ghost function SinceClear(log: seq<Event>, key: string): seq<int> {
    if log == [] then []
    else
      var e := log[|log| - 1];
      var before := SinceClear(log[..|log| - 1], key);
      if e.key != key then before else if e.Failed? then before + [e.at] else []
  }

  lemma SinceClearSnoc(log: seq<Event>, e: Event, key: string)
    ensures SinceClear(log + [e], key) ==
            if e.key != key then SinceClear(log, key) else if e.Failed? then SinceClear(log, key) + [e.at] else []
  {
    assert (log + [e])[..|log|] == log;
  }

  function After(times: seq<int>, cutoff: int): seq<int> {
    if times == [] then []
    else
      var t := times[|times| - 1];
      After(times[..|times| - 1], cutoff) + if t > cutoff then [t] else []
  }

  /** The times at or after the cutoff. */
  function From(times: seq<int>, cutoff: int): seq<int> { After(times, cutoff - 1) }

  lemma AfterSnoc(times: seq<int>, t: int, cutoff: int)
    ensures After(times + [t], cutoff) == After(times, cutoff) + if t > cutoff then [t] else []
  {
    assert (times + [t])[..|times|] == times;
  }

  lemma MaxFacts(a: int, b: int)
    ensures Max(a, b) == if a > b then a else b
  {}

  /** Filtering twice is filtering by the later cutoff. */
  lemma {:induction false} AfterAfter(times: seq<int>, a: int, b: int)
    ensures After(After(times, a), b) == After(times, Max(a, b))
  {
    if times != [] {
      var n := |times| - 1;
      AfterAfter(times[..n], a, b);
      assert times[n] <= a ==> After(times, a) == After(times[..n], a);
      assert times[n] <= b ==> After(times, b) == After(times[..n], b);
      if times[n] > a { AfterSnoc(After(times[..n], a), times[n], b); }
    }
  }

  lemma {:induction false} AfterShrinks(times: seq<int>, a: int, b: int)
    requires a <= b
    ensures |After(times, b)| <= |After(times, a)|
  {
    if times != [] { AfterShrinks(times[..|times| - 1], a, b); }
  }

  lemma {:induction false} NoneAfter(times: seq<int>, cutoff: int)
    requires forall i :: 0 <= i < |times| ==> times[i] <= cutoff
    ensures After(times, cutoff) == []
  {
    if times != [] { NoneAfter(times[..|times| - 1], cutoff); }
  }

  predicate UpTo(times: seq<int>, clock: int) { forall i :: 0 <= i < |times| ==> 0 <= times[i] <= clock }

  // ---------------------------------------------------------------------------
  // In memory
  // ---------------------------------------------------------------------------

  /** For every window that opens at `start` or later, the pruned list is as good as the full history. */
  ghost predicate Agree(pruned: seq<int>, times: seq<int>, start: int) {
    forall cutoff :: cutoff >= start ==> After(pruned, cutoff) == After(times, cutoff)
  }

  lemma AgreeRecord(pruned: seq<int>, times: seq<int>, start: int, now: int, later: int)
    requires Agree(pruned, times, start) && start <= later
    ensures Agree(After(pruned + [now], later), times + [now], later)
  {
    forall cutoff | cutoff >= later
      ensures After(After(pruned + [now], later), cutoff) == After(times + [now], cutoff)
    {
      AfterAfter(pruned + [now], later, cutoff);
      AfterSnoc(pruned, now, cutoff);
      AfterSnoc(times, now, cutoff);
    }
  }

  class LoginRateLimiter {
    const max: int
    const window: int
    var attempts: map<string, seq<int>>
    ghost var log: seq<Event>
    ghost var clock: int

    function Attempts(key: string): seq<int>
      reads this
    {
      if key in attempts then attempts[key] else []
    }

    ghost predicate Valid()
      reads this
    {
      forall key :: Agree(Attempts(key), SinceClear(log, key), clock - window)
    }

    constructor (max: int, window: int)
      ensures Valid() && log == [] && this.max == max && this.window == window
    {
      this.max, this.window, attempts, log, clock := max, window, map[], [], 0;
    }

    method RecordFailure(key: string, now: int)
      requires Valid() && clock <= now
      modifies this
      ensures Valid() && log == old(log) + [Failed(key, now)] && clock == now
    {
      hide Agree, After, SinceClear;
      attempts := attempts[key := After(Attempts(key) + [now], now - window)];
      log := log + [Failed(key, now)];
      clock := now;
      forall k ensures Agree(Attempts(k), SinceClear(log, k), clock - window) {
        assert Agree(old(Attempts(k)), SinceClear(old(log), k), old(clock) - window);
        SinceClearSnoc(old(log), Failed(key, now), k);
        if k == key {
          AgreeRecord(old(Attempts(k)), SinceClear(old(log), k), old(clock) - window, now, now - window);
        } else {
          AgreeLater(old(Attempts(k)), SinceClear(old(log), k), old(clock) - window, now - window);
        }
      }
    }

    /** Locked exactly when at least `max` failures since the last clear lie strictly inside the window. */
    method IsLocked(key: string, now: int) returns (locked: bool)
      requires Valid() && clock <= now
      ensures locked <==> |After(SinceClear(log, key), now - window)| >= max
    {
      assert Agree(Attempts(key), SinceClear(log, key), clock - window);
      var recent := After(Attempts(key), now - window);
      locked := |recent| >= max;
    }

    method Clear(key: string)
      requires Valid()
      modifies this
      ensures Valid() && log == old(log) + [Cleared(key)] && clock == old(clock)
    {
      attempts := attempts - {key};
      log := log + [Cleared(key)];
      hide Agree, After, SinceClear;
      forall k ensures Agree(Attempts(k), SinceClear(log, k), clock - window) {
        assert Agree(old(Attempts(k)), SinceClear(old(log), k), clock - window);
        SinceClearSnoc(old(log), Cleared(key), k);
        AgreeLater([], [], clock - window, clock - window);
      }
    }
  }

  lemma AgreeLater(pruned: seq<int>, times: seq<int>, start: int, later: int)
    requires (pruned == times || Agree(pruned, times, start)) && start <= later
    ensures Agree(pruned, times, later)
  {}

  // ---------------------------------------------------------------------------
  // Redis
  // ---------------------------------------------------------------------------

  /** One sorted set: the scores of its members, and when the key expires. */
  datatype ZSet = ZSet(scores: seq<int>, expireAt: Option<int>) {
    /** What a command that arrives at this time finds. */
    function Found(now: int): ZSet {
      if expireAt.Some? && now >= expireAt.value then ZSet([], None) else this
    }

    function ZAdd(now: int, score: int): ZSet { Key(Found(now).scores + [score], Found(now).expireAt) }

    /** Removes the scores from 0 to `high`, both included. */
    function ZRemRangeByScore(now: int, high: int): ZSet {
      Key(Outside(Found(now).scores, 0, high), Found(now).expireAt)
    }

    function Expire(now: int, seconds: int): ZSet { Key(Found(now).scores, Some(now + seconds)) }

    function ZCount(now: int, low: int): nat { |From(Found(now).scores, low)| }
  }

  /** An empty sorted set is no key at all. */
  function Key(scores: seq<int>, expireAt: Option<int>): ZSet {
    ZSet(scores, if scores == [] then None else expireAt)
  }

  function Outside(scores: seq<int>, low: int, high: int): seq<int> {
    if scores == [] then []
    else
      var s := scores[|scores| - 1];
      Outside(scores[..|scores| - 1], low, high) + if low <= s <= high then [] else [s]
  }

  lemma {:induction false} OutsideIsAfter(scores: seq<int>, clock: int, high: int)
    requires UpTo(scores, clock)
    ensures Outside(scores, 0, high) == After(scores, high)
  {
    if scores != [] { OutsideIsAfter(scores[..|scores| - 1], clock, high); }
  }

  lemma {:induction false} AfterUpTo(times: seq<int>, clock: int, cutoff: int)
    requires UpTo(times, clock)
    ensures UpTo(After(times, cutoff), clock)
  {
    if times != [] { AfterUpTo(times[..|times| - 1], clock, cutoff); }
  }

  const GRACE := 60

  /** The history as the last record pruned it. */
  function Pruned(times: seq<int>, window: int): seq<int> {
    if times == [] then [] else After(times, times[|times| - 1] - window)
  }

  /** From `clock` on, what commands find answers every question about a window as the pruned history does;
      and the key expires only when no window reaches back to its last failure any more. */
  ghost predicate Stores(z: ZSet, times: seq<int>, window: int, clock: int) {
    && UpTo(times, clock) && UpTo(z.scores, clock)
    && (times == [] ==> z == ZSet([], None))
    && (times != [] ==> UpTo(times, times[|times| - 1]))
    && (times != [] && z.expireAt.Some? ==> z.expireAt.value >= times[|times| - 1] + window + GRACE)
    && forall q, cutoff :: q >= clock && cutoff >= q - window - 1 ==>
         After(z.Found(q).scores, cutoff) == After(Pruned(times, window), cutoff)
  }

  /** The three commands of the pipeline of `record_failure`, which arrive at t1, t2 and t3; `now` is the
      caller's clock. */
  function Pipeline(z: ZSet, now: int, window: int, t1: int, t2: int, t3: int): ZSet {
    z.ZAdd(t1, now).ZRemRangeByScore(t2, now - window).Expire(t3, window + GRACE)
  }

  /** The key of the records before expires after the ZADD and no later than the EXPIRE arrives. */
  predicate Straddles(z: ZSet, t1: int, t3: int) { z.expireAt.Some? && t1 < z.expireAt.value <= t3 }

  lemma PrunedAfter(times: seq<int>, window: int, cutoff: int)
    ensures After(Pruned(times, window), cutoff) ==
            if times == [] then [] else After(times, Max(cutoff, times[|times| - 1] - window))
  {
    hide After;
    if times == [] { NoneAfter([], cutoff); } else { AfterAfter(times, times[|times| - 1] - window, cutoff); }
  }

  lemma PipelineIs(z: ZSet, now: int, window: int, t1: int, t2: int, t3: int)
    requires t1 <= t2 <= t3 && 0 <= window
    ensures Straddles(z, t1, t3) ==> Pipeline(z, now, window, t1, t2, t3) == ZSet([], None)
    ensures !Straddles(z, t1, t3) ==>
              Pipeline(z, now, window, t1, t2, t3)
              == Key(Outside(z.Found(t1).scores + [now], 0, now - window), Some(t3 + window + GRACE))
  {}

  lemma UpToFacts(times: seq<int>, clock: int, now: int)
    requires UpTo(times, clock) && clock <= now
    ensures UpTo(times, now) && (0 <= now ==> UpTo(times + [now], now))
    ensures times != [] ==> times[|times| - 1] <= clock
  {}

  /** What the pipeline leaves when it does not straddle: the new failure among those not pruned. */
  lemma KeptScores(z: ZSet, times: seq<int>, window: int, clock: int, now: int, t1: int, t2: int, t3: int)
    requires Stores(z, times, window, clock) && clock <= now <= t1 <= t2 <= t3 && 0 <= now && 0 <= window
    requires !Straddles(z, t1, t3)
    ensures var found := z.Found(t1).scores;
            && UpTo(found, clock)
            && Pipeline(z, now, window, t1, t2, t3)
               == Key(After(found, now - window) + if window > 0 then [now] else [], Some(t3 + window + GRACE))
  {
    var found := z.Found(t1).scores;
    hide After, Outside, Pipeline, Key, Stores;
    PipelineIs(z, now, window, t1, t2, t3);
    FoundUpTo(z, times, window, clock, t1);
    UpToFacts(found, clock, now);
    OutsideIsAfter(found + [now], now, now - window);
    AfterSnoc(found, now, now - window);
  }

  lemma FoundUpTo(z: ZSet, times: seq<int>, window: int, clock: int, q: int)
    requires Stores(z, times, window, clock)
    ensures UpTo(z.Found(q).scores, clock) && UpTo(times, clock)
  {}

  /** A pipeline keeps the failure it records if and only if the window is not empty and the key of the records
      before does not expire between its ZADD and its EXPIRE. */
  lemma RecordKeptExactly(z: ZSet, times: seq<int>, window: int, clock: int, now: int, t1: int, t2: int, t3: int)
    requires Stores(z, times, window, clock) && clock <= now <= t1 <= t2 <= t3 && 0 <= now && 0 <= window
    ensures now in Pipeline(z, now, window, t1, t2, t3).scores <==> window > 0 && !Straddles(z, t1, t3)
  {
    hide After, Outside, Pipeline, Stores, ZSet.Found;
    PipelineIs(z, now, window, t1, t2, t3);
    if !Straddles(z, t1, t3) {
      KeptScores(z, times, window, clock, now, t1, t2, t3);
      if window == 0 { NoneAfter(z.Found(t1).scores, now); }
    }
  }

  /** For a window that is looked at once the pipeline is through, a kept record extends the history by one. */
  lemma KeptAnswers(z: ZSet, times: seq<int>, window: int, clock: int, now: int, t1: int, t2: int, t3: int,
                    q: int, cutoff: int)
    requires Stores(z, times, window, clock) && clock <= now <= t1 <= t2 <= t3 && 0 <= now && 0 <= window
    requires !Straddles(z, t1, t3) && q >= t3 && cutoff >= q - window - 1
    ensures After(Pipeline(z, now, window, t1, t2, t3).Found(q).scores, cutoff)
            == After(Pruned(times + [now], window), cutoff)
  {
    hide *;
    var found, high := z.Found(t1).scores, now - window;
    var m := Max(high, cutoff);
    MaxFacts(high, cutoff);
    MaxFacts(cutoff, high);
    KeptScores(z, times, window, clock, now, t1, t2, t3);
    KeyFound(After(found, high) + if window > 0 then [now] else [], t3 + window + GRACE, q);
    StoredAnswer(z, times, window, clock, t1, m);
    FoundUpTo(z, times, window, clock, t1);
    LastOf(times, now, clock, window);
    PrunedAfter(times, window, m);
    PrunedAfter(times + [now], window, cutoff);
    AfterSnoc(found, now, high);
    AfterAfter(found + [now], high, cutoff);
    AfterSnoc(found, now, m);
    AfterSnoc(times, now, m);
    if times == [] { NoneAfter([], m); } else { MaxFacts(m, times[|times| - 1] - window); }
    if q >= t3 + window + GRACE {
      LateWindow(times + [now], now, cutoff);
      NoneAfter([], cutoff);
    }
  }

  lemma KeyFound(scores: seq<int>, expiry: int, q: int)
    ensures var found := Key(scores, Some(expiry)).Found(q).scores;
            GRACE == 60 && (found == scores || (q >= expiry && found == []))
  {}

  lemma StoredAnswer(z: ZSet, times: seq<int>, window: int, clock: int, q: int, cutoff: int)
    requires Stores(z, times, window, clock) && q >= clock && cutoff >= q - window - 1
    ensures After(z.Found(q).scores, cutoff) == After(Pruned(times, window), cutoff)
  {}

  lemma LastOf(times: seq<int>, now: int, clock: int, window: int)
    requires UpTo(times, clock) && clock <= now && 0 <= now
    ensures (times + [now])[|times|] == now && UpTo(times + [now], now)
    ensures times != [] ==> times[|times| - 1] - window <= now - window
  {}

  lemma LateWindow(times: seq<int>, last: int, cutoff: int)
    requires UpTo(times, last) && cutoff >= last
    ensures After(times, cutoff) == []
  {
    NoneAfter(times, cutoff);
  }

  /** Key expiry hides nothing: once the key has expired, no window reaches a recorded failure. */
  lemma ExpiryHidesNothing(z: ZSet, times: seq<int>, window: int, clock: int, q: int, cutoff: int)
    requires Stores(z, times, window, clock) && z.expireAt.Some? && q >= z.expireAt.value && cutoff >= q - window - 1
    ensures After(times, cutoff) == []
  {
    if times == [] { NoneAfter([], cutoff); } else { LateWindow(times, times[|times| - 1], cutoff); }
  }

  lemma KeptStores(z: ZSet, times: seq<int>, window: int, clock: int, now: int, t1: int, t2: int, t3: int)
    requires Stores(z, times, window, clock) && clock <= now <= t1 <= t2 <= t3 && 0 <= now && 0 <= window
    requires !Straddles(z, t1, t3)
    ensures Stores(Pipeline(z, now, window, t1, t2, t3), times + [now], window, t3)
  {
    var after := Pipeline(z, now, window, t1, t2, t3);
    hide Pipeline, ZSet.Found, After, Pruned, Straddles;
    KeptScores(z, times, window, clock, now, t1, t2, t3);
    FoundUpTo(z, times, window, clock, t1);
    LastOf(times, now, clock, window);
    KeptUpTo(z.Found(t1).scores, clock, now, window);
    UpToLater(times + [now], now, t3);
    forall q, cutoff | q >= t3 && cutoff >= q - window - 1
      ensures After(after.Found(q).scores, cutoff) == After(Pruned(times + [now], window), cutoff)
    {
      hide *;
      KeptAnswers(z, times, window, clock, now, t1, t2, t3, q, cutoff);
    }
  }

  /** The pipeline keeps what is stored tied to the history.  A record that straddles leaves nothing, and what
      is lost with it is the new failure alone: no later window reaches the others. */
  lemma RecordedStores(z: ZSet, times: seq<int>, window: int, clock: int, now: int, t1: int, t2: int, t3: int)
    requires Stores(z, times, window, clock) && clock <= now <= t1 <= t2 <= t3 && 0 <= now && 0 <= window
    ensures var after := Pipeline(z, now, window, t1, t2, t3);
            && (!Straddles(z, t1, t3) ==> Stores(after, times + [now], window, t3))
            && (Straddles(z, t1, t3) ==>
                  && Stores(after, [], window, t3)
                  && forall cutoff :: cutoff >= t3 - window - 1 ==> After(times, cutoff) == [])
  {
    hide Stores, After, Pipeline, ZSet.Found;
    if Straddles(z, t1, t3) {
      PipelineIs(z, now, window, t1, t2, t3);
      NothingStored(window, t3);
      forall cutoff | cutoff >= t3 - window - 1 ensures After(times, cutoff) == [] {
        ExpiryHidesNothing(z, times, window, clock, t3, cutoff);
      }
    } else {
      KeptStores(z, times, window, clock, now, t1, t2, t3);
    }
  }

  lemma KeptUpTo(found: seq<int>, clock: int, now: int, window: int)
    requires UpTo(found, clock) && clock <= now && 0 <= now
    ensures UpTo(After(found, now - window) + if window > 0 then [now] else [], now)
  {
    AfterUpTo(found, clock, now - window);
  }

  lemma UpToLater(times: seq<int>, clock: int, now: int)
    requires UpTo(times, clock) && clock <= now
    ensures UpTo(times, now)
  {}

  lemma NothingStored(window: int, clock: int)
    ensures Stores(ZSet([], None), [], window, clock)
  {}

  /** What is stored goes on answering as time passes. */
  lemma StoresLater(z: ZSet, times: seq<int>, window: int, clock: int, now: int)
    requires Stores(z, times, window, clock) && clock <= now
    ensures Stores(z, times, window, now)
  {}

  class RedisLoginRateLimiter {
    const max: int
    const window: int
    var sets: map<string, ZSet>
    ghost var log: seq<Event>
    ghost var clock: int

    function SetOf(key: string): ZSet
      reads this
    {
      if key in sets then sets[key] else ZSet([], None)
    }

    ghost predicate Valid()
      reads this
    {
      0 <= clock && 0 <= window && forall key :: Stores(SetOf(key), SinceClear(log, key), window, clock)
    }

    constructor (max: int, window: int)
      requires 0 <= window
      ensures Valid() && log == [] && this.max == max && this.window == window
    {
      this.max, this.window, sets, log, clock := max, window, map[], [], 0;
      new;
      NothingStored(window, 0);
    }

    /** `now` is the clock of the caller; the commands arrive at t1, t2 and t3. */
    method RecordFailure(key: string, now: int, t1: int, t2: int, t3: int)
      requires Valid() && clock <= now <= t1 <= t2 <= t3
      modifies this
      ensures Valid() && clock == t3
      ensures log == old(log) + [if Straddles(old(SetOf(key)), t1, t3) then Forgotten(key, now) else Failed(key, now)]
      ensures SetOf(key) == Pipeline(old(SetOf(key)), now, window, t1, t2, t3)
    {
      hide Stores, SinceClear;
      ghost var z := SetOf(key);
      sets := sets[key := SetOf(key).ZAdd(t1, now)];
      sets := sets[key := SetOf(key).ZRemRangeByScore(t2, now - window)];
      sets := sets[key := SetOf(key).Expire(t3, window + GRACE)];
      ghost var e := if Straddles(z, t1, t3) then Forgotten(key, now) else Failed(key, now);
      log := log + [e];
      clock := t3;
      assert SetOf(key) == Pipeline(z, now, window, t1, t2, t3);
      hide Pipeline, Straddles;
      forall k ensures Stores(SetOf(k), SinceClear(log, k), window, clock) {
        assert Stores(old(SetOf(k)), SinceClear(old(log), k), window, old(clock));
        SinceClearSnoc(old(log), e, k);
        if k == key {
          RecordedStores(z, SinceClear(old(log), k), window, old(clock), now, t1, t2, t3);
        } else {
          StoresLater(old(SetOf(k)), SinceClear(old(log), k), window, old(clock), t3);
        }
      }
    }

    /** The count lies between the strictly open and the closed window of the full history: it is the closed
        window without what the last record pruned, which differs only in the instant of that record. */
    method IsLocked(key: string, now: int) returns (locked: bool, count: nat)
      requires Valid() && clock <= now
      ensures locked <==> count >= max
      ensures |After(SinceClear(log, key), now - window)| <= count <= |From(SinceClear(log, key), now - window)|
      ensures var times := SinceClear(log, key);
              count == if times == [] then 0
                       else |After(times, Max(now - window - 1, times[|times| - 1] - window))|
    {
      hide Stores, After, ZSet.ZCount;
      count := SetOf(key).ZCount(now, now - window);
      locked := count >= max;
      ghost var times := SinceClear(log, key);
      assert Stores(SetOf(key), times, window, clock);
      CountIs(SetOf(key), times, window, clock, now);
    }

    method Clear(key: string)
      requires Valid()
      modifies this
      ensures Valid() && log == old(log) + [Cleared(key)] && clock == old(clock)
    {
      hide SinceClear, Stores;
      sets := sets - {key};
      log := log + [Cleared(key)];
      NothingStored(window, clock);
      forall k ensures Stores(SetOf(k), SinceClear(log, k), window, clock) {
        assert Stores(old(SetOf(k)), SinceClear(old(log), k), window, clock);
        SinceClearSnoc(old(log), Cleared(key), k);
      }
    }
  }

  lemma CountIs(z: ZSet, times: seq<int>, window: int, clock: int, now: int)
    requires Stores(z, times, window, clock) && clock <= now
    ensures |After(times, now - window)| <= z.ZCount(now, now - window) <= |From(times, now - window)|
    ensures z.ZCount(now, now - window) == if times == [] then 0
            else |After(times, Max(now - window - 1, times[|times| - 1] - window))|
  {
    hide *;
    var low := now - window;
    StoredAnswer(z, times, window, clock, now, low - 1);
    FoundUpTo(z, times, window, clock, now);
    CountOf(z, now, low);
    CountOf(ZSet(times, None), now, low);
    PrunedAfter(times, window, low - 1);
    NoneAfter([], low);
    NoneAfter([], low - 1);
    if times != [] {
      var last := times[|times| - 1];
      UpToFacts(times, clock, now);
      MaxFacts(low - 1, last - window);
      AfterShrinks(times, low - 1, Max(low - 1, last - window));
      AfterShrinks(times, Max(low - 1, last - window), low);
    }
  }

  lemma CountOf(z: ZSet, now: int, low: int)
    ensures z.ZCount(now, low) == |After(z.Found(now).scores, low - 1)|
    ensures From(z.scores, low) == After(z.scores, low - 1)
  {}

  lemma FirstRecord()
    ensures var first := Pipeline(ZSet([], None), 0, 900, 0, 0, 0);
            first == ZSet([0], Some(960)) && Stores(first, [0], 900, 0)
  {
    NothingStored(900, 0);
    RecordedStores(ZSet([], None), [], 900, 0, 0, 0, 0, 0);
    PipelineIs(ZSet([], None), 0, 900, 0, 0, 0);
    hide Stores, Pipeline;
    assert Outside([0], 0, -900) == Outside([], 0, -900) + [0];
    assert [] + [0] == [0];
  }

  lemma OpenWindow()
    ensures From([0, 959], 61) == [959]
  {
    AfterSnoc([0], 959, 60);
    AfterSnoc([], 0, 60);
    assert [0] + [959] == [0, 959] && [] + [0] == [0];
  }

  /** A run that forgets: the first failure at 0, the second at 959 with its ZADD at once and the other two
      commands at 960, when the key of the first expires; at 961 the second is not counted. */
  lemma StraddlingExpiryForgets()
    ensures var first := Pipeline(ZSet([], None), 0, 900, 0, 0, 0);
            var second := Pipeline(first, 959, 900, 959, 960, 960);
            && Stores(first, [0], 900, 0) && Straddles(first, 959, 960)
            && From([0, 959], 961 - 900) == [959] && second.ZCount(961, 961 - 900) == 0
  {
    hide Stores, Pipeline, Outside;
    FirstRecord();
    OpenWindow();
    PipelineIs(ZSet([0], Some(960)), 959, 900, 959, 960, 960);
  }
}
