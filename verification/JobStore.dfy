/** The Redis side of the ingestion queue: job records, the three lists, the start-time hash and
    the commands that act on them.

    A list entry is the JSON encoding of a job record.  That encoding is injective, so an entry is
    represented by the record itself and byte equality by equality of records.  Index 0 is the LEFT
    end of a Redis list. */
module JobStore {

  datatype Job = Job(id: string, body: string, createdAt: int, attempt: int, maxAttempts: int)

  datatype Store = Store(pending: seq<Job>, processing: seq<Job>, dead: seq<Job>, times: map<string, int>)

  const EMPTY_STORE := Store([], [], [], map[])

  /** LREM key 1 value: drop the first entry equal to `v`, if there is one. */
  function LRem(q: seq<Job>, v: Job): seq<Job> {
    if q == [] then []
    else if q[0] == v then q[1..]
    else [q[0]] + LRem(q[1..], v)
  }

  function LPushPending(s: Store, v: Job): Store { s.(pending := [v] + s.pending) }

  function LPushDead(s: Store, v: Job): Store { s.(dead := [v] + s.dead) }

  /** BLMOVE pending processing RIGHT LEFT on a non-empty list. */
  function BLMove(s: Store): Store
    requires s.pending != []
  {
    var n := |s.pending| - 1;
    s.(pending := s.pending[..n], processing := [s.pending[n]] + s.processing)
  }

  function LRemProcessing(s: Store, v: Job): Store { s.(processing := LRem(s.processing, v)) }

  function HSetTime(s: Store, id: string, at: int): Store { s.(times := s.times[id := at]) }

  function HDelTime(s: Store, id: string): Store { s.(times := s.times - {id}) }

  /** The record that a failed or reaped job is pushed back with. */
  function Retried(j: Job): Job { j.(attempt := j.attempt + 1) }

  /** LPUSH of the retried record, to `pending` while attempts remain and to `dead` otherwise. */
  function PushRetry(s: Store, j: Job, requeue: bool): Store {
    var r := Retried(j);
    if requeue && r.attempt < r.maxAttempts then LPushPending(s, r) else LPushDead(s, r)
  }

  /** Processing-start time of an entry, falling back to its creation time. */
  function StartedAt(j: Job, times: map<string, int>): int {
    if j.id in times then times[j.id] else j.createdAt
  }

  predicate Stale(j: Job, times: map<string, int>, now: int, maxAge: int) {
    now - StartedAt(j, times) > maxAge
  }

  // ---------------------------------------------------------------------------
  // Weights: the quantities that are summed over lists of entries
  // ---------------------------------------------------------------------------

  /** How many dequeues a pending copy with `attempt` of `maxAttempts` can cause when every entry
      may come back once through its worker and once through each of `reapers` reapers. */
  function Tries(reapers: nat, attempt: int, maxAttempts: int): (n: nat)
    ensures n >= 1
    decreases maxAttempts - attempt
  {
    1 + RetryTries(reapers, attempt, maxAttempts) + reapers * RetryTries(reapers, attempt, maxAttempts)
  }

  /** `Tries` of the copy pushed back after this attempt (nothing once it goes to the dead list). */
  function RetryTries(reapers: nat, attempt: int, maxAttempts: int): nat
    decreases maxAttempts - attempt, 0
  {
    if attempt + 1 < maxAttempts then Tries(reapers, attempt + 1, maxAttempts) else 0
  }

  datatype Weight =
    | Copies(id: string)
    | PendingTries(id: string, reapers: nat)
    | RetryOnly(id: string, reapers: nat)

  function Cost(w: Weight, j: Job): nat {
    if j.id != w.id then 0
    else match w
      case Copies(_) => 1
      case PendingTries(_, k) => Tries(k, j.attempt, j.maxAttempts)
      case RetryOnly(_, k) => RetryTries(k, j.attempt, j.maxAttempts)
  }

  function Sum(w: Weight, q: seq<Job>): nat {
    if q == [] then 0 else Cost(w, q[0]) + Sum(w, q[1..])
  }

  lemma SumPush(w: Weight, v: Job, q: seq<Job>)
    ensures Sum(w, [v] + q) == Cost(w, v) + Sum(w, q)
  {
    assert ([v] + q)[1..] == q;
  }

  lemma {:induction false} SumPop(w: Weight, q: seq<Job>)
    requires q != []
    ensures Sum(w, q) == Sum(w, q[..|q| - 1]) + Cost(w, q[|q| - 1])
  {
    if |q| > 1 {
      SumPop(w, q[1..]);
      assert q[1..][..|q| - 2] == q[..|q| - 1][1..];
    }
  }

  lemma {:induction false} SumLRem(w: Weight, q: seq<Job>, v: Job)
    ensures Sum(w, q) == Sum(w, LRem(q, v)) + if v in q then Cost(w, v) else 0
  {
    if q != [] && q[0] != v {
      SumLRem(w, q[1..], v);
      SumPush(w, q[0], LRem(q[1..], v));
    }
  }

  lemma {:induction false} LRemKeepsOthers(q: seq<Job>, v: Job, u: Job)
    requires u in q && u != v
    ensures u in LRem(q, v)
  {
    if q[0] != v && q[0] != u { LRemKeepsOthers(q[1..], v, u); }
  }

  lemma {:induction false} LRemCommutes(q: seq<Job>, u: Job, v: Job)
    ensures LRem(LRem(q, u), v) == LRem(LRem(q, v), u)
  {
    if q != [] && q[0] != u && q[0] != v {
      LRemCommutes(q[1..], u, v);
      assert LRem(LRem(q, u), v) == [q[0]] + LRem(LRem(q[1..], u), v);
      assert LRem(LRem(q, v), u) == [q[0]] + LRem(LRem(q[1..], v), u);
    }
  }

  lemma {:induction false} CopyIsCounted(q: seq<Job>, j: Job)
    requires j in q
    ensures Sum(Copies(j.id), q) >= 1
  {
    if q[0] != j { CopyIsCounted(q[1..], j); }
  }

  lemma {:induction false} SoleCopy(q: seq<Job>, j: Job, v: Job)
    requires j in q && v in q && j.id == v.id && Sum(Copies(j.id), q) <= 1
    ensures j == v
  {
    if q[0] == j || q[0] == v {
      if j != v { CopyIsCounted(q[1..], if q[0] == j then v else j); }
    } else {
      SoleCopy(q[1..], j, v);
    }
  }
}
