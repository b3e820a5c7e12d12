/** What every run of the collection import keeps: coverage of the listing, unique tokens, exact counts. */
module ImportSafety {
  import opened Wrappers
  import opened ImportProtocol

  // ---------------------------------------------------------------------------
  // Coverage
  // ---------------------------------------------------------------------------

  predicate PageVisited(s: Sys, page: int) {
    HasPage(s, page) ==> forall i :: 0 <= i < |Page(s, page)| ==> (page, i) in s.visited
  }

  predicate VisitedBefore(s: Sys, page: int) {
    forall p :: 1 <= p < page ==> PageVisited(s, p)
  }

  predicate VisitedPart(s: Sys, page: int, n: nat) {
    forall i :: 0 <= i < n ==> (page, i) in s.visited
  }

  predicate CursorCovered(s: Sys, c: Cursor) {
    c.page >= 1 && VisitedBefore(s, c.page) && (c.pagesTotal.Some? ==> c.pagesTotal.value == |s.listing|)
  }

  predicate TaskCovered(s: Sys) {
    match s.task
    case Idle => true
    case Starting => true
    case AtPage(c) => CursorCovered(s, c)
    case Fetching(c) => CursorCovered(s, c)
    case Finishing(c) => CursorCovered(s, c) && c.page >= |s.listing| && PageVisited(s, c.page)
    case _ => CursorCovered(s, s.task.c) && HasPage(s, s.task.c.page) && s.task.c.pagesTotal.Some?
              && s.task.i <= |Page(s, s.task.c.page)| && VisitedPart(s, s.task.c.page, s.task.i)
  }

  /** The saved page never passes over unvisited work, and a completed job has visited everything. */
  predicate Covered(s: Sys) {
    && s.row.lastPage >= 1 && VisitedBefore(s, s.row.lastPage)
    && (s.row.status == COMPLETED ==> VisitedBefore(s, |s.listing| + 1))
    && TaskCovered(s)
  }

  lemma CoverageGrows(s: Sys, e: Event)
    requires Enabled(s, e)
    ensures s.visited <= Apply(s, e).visited && Apply(s, e).listing == s.listing
    ensures forall p :: VisitedBefore(s, p) ==> VisitedBefore(Apply(s, e), p)
    ensures forall p :: PageVisited(s, p) ==> PageVisited(Apply(s, e), p)
  {
    var t := Apply(s, e);
    assert forall p :: PageVisited(s, p) ==> PageVisited(t, p);
    forall p, q | VisitedBefore(s, p) && 1 <= q < p ensures PageVisited(t, q) {
      assert PageVisited(s, q);
    }
  }

  lemma CoverageStep(s: Sys, e: Event)
    requires Covered(s) && Enabled(s, e)
    ensures Covered(Apply(s, e))
  {
    CoverageGrows(s, e);
    if s.task.Finishing? { WholeListing(s, s.task.c.page, |s.listing| + 1); }
    CoveredRow(s, e);
    CoveredTask(s, e);
  }

  lemma WholeListing(s: Sys, page: int, more: int)
    requires VisitedBefore(s, page) && PageVisited(s, page) && more <= page + 1
    ensures VisitedBefore(s, more)
  {
    forall p | 1 <= p < more ensures PageVisited(s, p) {
      if p < page { assert PageVisited(s, p); }
    }
  }

  lemma CoveredRow(s: Sys, e: Event)
    requires Covered(s) && Enabled(s, e) && (forall p :: VisitedBefore(s, p) ==> VisitedBefore(Apply(s, e), p))
    requires s.task.Finishing? ==> VisitedBefore(s, |s.listing| + 1)
    ensures var t := Apply(s, e);
            && t.row.lastPage >= 1 && VisitedBefore(t, t.row.lastPage)
            && (t.row.status == COMPLETED ==> VisitedBefore(t, |t.listing| + 1))
  {
    hide PageVisited, VisitedBefore, VisitedPart;
  }

  lemma CoveredTask(s: Sys, e: Event)
    requires Covered(s) && Enabled(s, e)
    requires var t := Apply(s, e); forall p :: VisitedBefore(s, p) ==> VisitedBefore(t, p)
    ensures TaskCovered(Apply(s, e))
  {
    var t := Apply(s, e);
    assert s.visited <= t.visited;
    if e.EndPage? { WholeListing(s, s.task.c.page, s.task.c.page + 1); }
    hide VisitedBefore;
  }

  /** For every listing and every sequence of pauses, page failures, aborts, crashes and resumes: every
      release on a page before the stored `last_page` has been visited by some run, and once the job is
      marked COMPLETED every listed release has been visited. */
  lemma {:induction false} ImportCoverage(s: Sys, es: seq<Event>, t: Sys)
    requires Covered(s) && Reaches(s, es, t)
    ensures Covered(t) && t.listing == s.listing
    decreases |es|
  {
    if es != [] {
      CoverageStep(s, es[0]);
      CoverageGrows(s, es[0]);
      ImportCoverage(Apply(s, es[0]), es[1..], t);
    }
  }

  lemma ImportCoverageFromScratch(listing: seq<seq<Entry>>, tokens: seq<int>, es: seq<Event>, t: Sys, page: int, i: nat)
    requires Reaches(Init(listing, tokens), es, t)
    requires 1 <= page <= |listing| && i < |listing[page - 1]|
    ensures page < t.row.lastPage || t.row.status == COMPLETED ==> (page, i) in t.visited
  {
    ImportCoverage(Init(listing, tokens), es, t);
    if page < t.row.lastPage || t.row.status == COMPLETED {
      assert PageVisited(t, page);
    }
  }

  // ---------------------------------------------------------------------------
  // No duplicates, exact counts
  // ---------------------------------------------------------------------------

  predicate Distinct(q: seq<int>) {
    forall i, j :: 0 <= i < j < |q| ==> q[i] != q[j]
  }

  /** No two live tokens share a release id; and what the existence check found still holds. */
  predicate Unduplicated(s: Sys) {
    && Distinct(s.tokens)
    && (s.task.Checked? && OnRelease(s) ==> (s.task.known <==> Current(s).id in s.tokens))
  }

  lemma UnduplicatedStep(s: Sys, e: Event)
    requires Unduplicated(s) && Enabled(s, e)
    ensures Unduplicated(Apply(s, e)) && s.tokens <= Apply(s, e).tokens
  {
    hide Save, SetStatus;
  }

  lemma {:induction false} NeverDuplicates(s: Sys, es: seq<Event>, t: Sys)
    requires Unduplicated(s) && Reaches(s, es, t)
    ensures Unduplicated(t)
    ensures s.tokens <= t.tokens
    decreases |es|
  {
    if es != [] {
      hide Unduplicated, Apply, Enabled;
      UnduplicatedStep(s, es[0]);
      NeverDuplicates(Apply(s, es[0]), es[1..], t);
    }
  }

  function PageLength(listing: seq<seq<Entry>>, page: int): nat {
    if 1 <= page <= |listing| then |listing[page - 1]| else 0
  }

  /** Number of releases on the pages from `start` up to, not including, `page`. */
  function ReleasesBefore(listing: seq<seq<Entry>>, start: int, page: int): nat
    decreases page - start
  {
    if page <= start then 0 else ReleasesBefore(listing, start, page - 1) + PageLength(listing, page - 1)
  }

  /** Releases that lie between where the run started and where the task stands. */
  function Passed(s: Sys): nat {
    match s.task
    case Idle => 0
    case Starting => 0
    case AtPage(c) => ReleasesBefore(s.listing, s.startPage, c.page)
    case Fetching(c) => ReleasesBefore(s.listing, s.startPage, c.page)
    case InPage(c, i, _) => ReleasesBefore(s.listing, s.startPage, c.page) + i
    case Checking(c, i, _) => ReleasesBefore(s.listing, s.startPage, c.page) + i
    case Checked(c, i, _, _) => ReleasesBefore(s.listing, s.startPage, c.page) + i
    case Stored(c, i, _) => ReleasesBefore(s.listing, s.startPage, c.page) + i
    case Finishing(c) => ReleasesBefore(s.listing, s.startPage, c.page) + PageLength(s.listing, c.page)
  }

  /** The counters in the task's memory have grown by exactly the number of listed releases between the page
      that the run started from and the release it stands at, and as many releases were handled. */
  predicate Counted(s: Sys) {
    s.task.Idle? || s.task.Starting?
    || (s.startPage <= s.task.c.page && Total(s.task.c) == s.startTotal + Passed(s)
        && s.visits == s.startVisits + Passed(s))
  }

  lemma OnePageMore(listing: seq<seq<Entry>>, start: int, page: int)
    requires start <= page
    ensures ReleasesBefore(listing, start, page + 1) == ReleasesBefore(listing, start, page) + PageLength(listing, page)
    ensures ReleasesBefore(listing, start, start) == 0
    ensures 1 <= page <= |listing| ==> PageLength(listing, page) == |listing[page - 1]|
  {}

  lemma CountStep(s: Sys, e: Event)
    requires Counted(s) && Enabled(s, e)
    ensures Counted(Apply(s, e))
  {
    if e.EndPage? { OnePageMore(s.listing, s.startPage, s.task.c.page); }
    if e.Begin? { OnePageMore(s.listing, s.row.lastPage, s.row.lastPage); }
    hide Save, ReleasesBefore, PageLength;
  }

  lemma {:induction false} CountsEveryVisit(s: Sys, es: seq<Event>, t: Sys)
    requires Counted(s) && Reaches(s, es, t)
    ensures Counted(t)
    decreases |es|
  {
    if es != [] {
      CountStep(s, es[0]);
      CountsEveryVisit(Apply(s, es[0]), es[1..], t);
    }
  }

  predicate Handles(e: Event) {
    e.CountMissing? || e.CheckRaises? || e.CheckFindsToken? || e.CountImported? || e.ImportFails?
  }

  function Handlings(es: seq<Event>): nat
    decreases |es|
  {
    if es == [] then 0 else (if Handles(es[0]) then 1 else 0) + Handlings(es[1..])
  }

  lemma VisitsStep(s: Sys, e: Event)
    requires Enabled(s, e)
    ensures Apply(s, e).visits == s.visits + if Handles(e) then 1 else 0
  {
    hide Save, SetStatus;
  }

  /** Over every run the visits are the events that finish with a release. */
  lemma {:induction false} VisitsAreHandlings(s: Sys, es: seq<Event>, t: Sys)
    requires Reaches(s, es, t)
    ensures t.visits == s.visits + Handlings(es)
    decreases |es|
  {
    if es != [] {
      VisitsStep(s, es[0]);
      hide Apply, Enabled, Handles;
      VisitsAreHandlings(Apply(s, es[0]), es[1..], t);
    }
  }

  // ---------------------------------------------------------------------------
  // What a visit leaves behind
  // ---------------------------------------------------------------------------

  /** The position holds a release that has a token, unless its existence check once raised. */
  predicate Settled(s: Sys, page: int, i: nat)
    requires HasPage(s, page) && i < |Page(s, page)|
  {
    var e := Page(s, page)[i];
    e.Release? && (e.id in s.tokens || (page, i) in s.raised)
  }

  predicate SettledPart(s: Sys, page: int, n: nat) {
    HasPage(s, page) ==> forall i :: 0 <= i < n && i < |Page(s, page)| ==> Settled(s, page, i)
  }

  predicate PageSettled(s: Sys, page: int) { HasPage(s, page) ==> SettledPart(s, page, |Page(s, page)|) }

  predicate SettledBefore(s: Sys, page: int) { forall p :: 1 <= p < page ==> PageSettled(s, p) }

  predicate RowSettled(s: Sys) {
    && s.row.failed >= 0
    && (s.row.failed == 0 ==> SettledBefore(s, s.row.lastPage))
    && (s.row.failed == 0 && s.row.status == COMPLETED ==> SettledBefore(s, |s.listing| + 1))
  }

  predicate CursorSettled(s: Sys, c: Cursor, n: nat) {
    c.failed >= 0 && (c.failed == 0 ==> SettledBefore(s, c.page) && SettledPart(s, c.page, n))
  }

  predicate TaskSettled(s: Sys) {
    match s.task
    case Idle => true
    case Starting => true
    case AtPage(c) => CursorSettled(s, c, 0)
    case Fetching(c) => CursorSettled(s, c, 0)
    case InPage(c, i, _) => CursorSettled(s, c, i)
    case Checking(c, i, _) => CursorSettled(s, c, i)
    case Checked(c, i, _, known) => CursorSettled(s, c, i) && (known && OnRelease(s) ==> Current(s).id in s.tokens)
    case Stored(c, i, _) => CursorSettled(s, c, i) && (OnRelease(s) ==> Current(s).id in s.tokens)
    case Finishing(c) => CursorSettled(s, c, PageLength(s.listing, c.page))
  }

  predicate Grows(s: Sys, t: Sys) {
    t.listing == s.listing && s.raised <= t.raised && forall x :: x in s.tokens ==> x in t.tokens
  }

  lemma StepGrows(s: Sys, e: Event)
    requires Enabled(s, e)
    ensures Grows(s, Apply(s, e))
  {}

  lemma SettledGrows(s: Sys, t: Sys)
    requires Grows(s, t)
    ensures forall p, n :: SettledPart(s, p, n) ==> SettledPart(t, p, n)
    ensures forall p :: SettledBefore(s, p) ==> SettledBefore(t, p)
    ensures forall c, n :: CursorSettled(s, c, n) ==> CursorSettled(t, c, n)
  {
    forall p: int, n: nat | SettledPart(s, p, n) ensures SettledPart(t, p, n) {
      if HasPage(s, p) {
        forall i | 0 <= i < n && i < |Page(t, p)| ensures Settled(t, p, i) { assert Settled(s, p, i); }
      }
    }
    hide SettledPart;
    forall p, q | SettledBefore(s, p) && 1 <= q < p ensures PageSettled(t, q) { assert PageSettled(s, q); }
  }

  lemma OneMoreSettled(s: Sys, page: int, n: nat)
    requires SettledPart(s, page, n)
    requires HasPage(s, page) && n < |Page(s, page)| ==> Settled(s, page, n)
    ensures SettledPart(s, page, n + 1)
  {}

  lemma NoneSettled(s: Sys, page: int)
    ensures SettledPart(s, page, 0)
  {}

  lemma WholePageSettled(s: Sys, page: int, more: int)
    requires SettledBefore(s, page) && SettledPart(s, page, PageLength(s.listing, page)) && more <= page + 1
    ensures SettledBefore(s, more)
  {
    hide SettledPart;
    forall p | 1 <= p < more ensures PageSettled(s, p) {
      if p < page { assert PageSettled(s, p); }
    }
  }

  /** The row after one event: as it was, or what the cursor says. */
  lemma RowStep(s: Sys, e: Event)
    requires Covered(s) && RowSettled(s) && TaskSettled(s) && Enabled(s, e)
    ensures RowSettled(Apply(s, e))
  {
    var t := Apply(s, e);
    StepGrows(s, e);
    SettledGrows(s, t);
    if e.Finish? && s.task.c.failed == 0 {
      assert s.task.c.page >= |s.listing|;
      WholePageSettled(s, s.task.c.page, |s.listing| + 1);
    }
    hide SettledPart, SettledBefore, Covered;
  }

  lemma TaskStep(s: Sys, e: Event)
    requires RowSettled(s) && TaskSettled(s) && Enabled(s, e)
    ensures TaskSettled(Apply(s, e))
  {
    var t := Apply(s, e);
    StepGrows(s, e);
    SettledGrows(s, t);
    hide SettledPart, SettledBefore;
    match e {
      case Begin(_) => NoneSettled(t, s.row.lastPage);
      case CheckRaises => CursorMoves(t, s.task.c, s.task.i);
      case CheckFindsToken => CursorMoves(t, s.task.c, s.task.i);
      case CountImported => CursorMoves(t, s.task.c, s.task.i);
      case EndPage(_) =>
        NoneSettled(t, s.task.c.page + 1);
        if s.task.c.failed == 0 { WholePageSettled(t, s.task.c.page, s.task.c.page + 1); }
      case _ =>
    }
  }

  lemma CursorMoves(s: Sys, c: Cursor, i: nat)
    requires CursorSettled(s, c, i) && (HasPage(s, c.page) && i < |Page(s, c.page)| ==> Settled(s, c.page, i))
    ensures CursorSettled(s, c, i + 1)
  {
    hide Settled;
    if c.failed == 0 { OneMoreSettled(s, c.page, i); }
  }

  lemma {:induction false} SettledOverRuns(s: Sys, es: seq<Event>, t: Sys)
    requires Covered(s) && RowSettled(s) && TaskSettled(s) && Reaches(s, es, t)
    ensures RowSettled(t) && t.listing == s.listing
    decreases |es|
  {
    if es != [] {
      hide Covered, RowSettled, TaskSettled, Apply, Enabled;
      CoverageStep(s, es[0]);
      CoverageGrows(s, es[0]);
      RowStep(s, es[0]);
      TaskStep(s, es[0]);
      SettledOverRuns(Apply(s, es[0]), es[1..], t);
    }
  }

  /** A token for `id` is created on the way. */
  predicate Stores(s: Sys, es: seq<Event>, id: int)
    decreases |es|
  {
    && es != [] && Enabled(s, es[0])
    && ((es[0].StoreToken? && !s.task.known && Current(s).id == id) || Stores(Apply(s, es[0]), es[1..], id))
  }

  lemma TokenStep(s: Sys, e: Event, id: int)
    requires Enabled(s, e)
    ensures id in Apply(s, e).tokens
            <==> id in s.tokens || (e.StoreToken? && !s.task.known && Current(s).id == id)
  {
    hide Save, SetStatus;
  }

  lemma {:induction false} TokensExactly(s: Sys, es: seq<Event>, t: Sys, id: int)
    requires Reaches(s, es, t)
    ensures id in t.tokens <==> id in s.tokens || Stores(s, es, id)
    decreases |es|
  {
    if es != [] {
      TokenStep(s, es[0], id);
      hide Apply, Enabled;
      TokensExactly(Apply(s, es[0]), es[1..], t, id);
    }
  }

  /** A COMPLETED job whose row counts no failure has a token for every listed release, whatever happened on the way,
      except for releases whose existence check once raised. */
  lemma CompletedHasTokens(listing: seq<seq<Entry>>, tokens: seq<int>, es: seq<Event>, t: Sys, page: int, i: nat)
    requires Reaches(Init(listing, tokens), es, t) && t.row.status == COMPLETED && t.row.failed == 0
    requires 1 <= page <= |listing| && i < |listing[page - 1]|
    ensures var e := listing[page - 1][i]; e.Release? && (e.id in t.tokens || (page, i) in t.raised)
  {
    SettledOverRuns(Init(listing, tokens), es, t);
    assert PageSettled(t, page);
    assert Settled(t, page, i);
  }

  /** A release of a COMPLETED job without a counted failure has no token if and only if it had none at first and
      none was ever created; and then the existence check of every position that holds it has raised. */
  lemma MissingExactly(listing: seq<seq<Entry>>, tokens: seq<int>, es: seq<Event>, t: Sys, id: int)
    requires Reaches(Init(listing, tokens), es, t) && t.row.status == COMPLETED && t.row.failed == 0
    ensures id !in t.tokens <==> id !in tokens && !Stores(Init(listing, tokens), es, id)
    ensures id !in t.tokens ==>
              forall page, i :: (1 <= page <= |listing| && 0 <= i < |listing[page - 1]|
                                 && listing[page - 1][i] == Release(id))
                                ==> (page, i) in t.raised
  {
    TokensExactly(Init(listing, tokens), es, t, id);
    hide Reaches, Stores;
    if id !in t.tokens {
      forall page, i | 1 <= page <= |listing| && 0 <= i < |listing[page - 1]| && listing[page - 1][i] == Release(id)
        ensures (page, i) in t.raised
      {
        CompletedHasTokens(listing, tokens, es, t, page, i);
      }
    }
  }

  // ---------------------------------------------------------------------------
  // Losing the saved count
  // ---------------------------------------------------------------------------

  predicate CountKept(s: Sys) {
    s.row.imported >= 0 && (!s.task.Idle? && !s.task.Starting? ==> s.task.c.imported >= s.row.imported)
  }

  lemma CountKeptStep(s: Sys, e: Event)
    requires CountKept(s) && Enabled(s, e)
    ensures CountKept(Apply(s, e))
    ensures Apply(s, e).row.imported < s.row.imported <==> e.LoadFails? && e.saved && s.row.imported > 0
  {}

  lemma {:induction false} CountKeptOverRuns(s: Sys, es: seq<Event>, t: Sys)
    requires CountKept(s) && Reaches(s, es, t)
    ensures CountKept(t)
    decreases |es|
  {
    if es != [] {
      CountKeptStep(s, es[0]);
      CountKeptOverRuns(Apply(s, es[0]), es[1..], t);
    }
  }

  /** Over any history, the saved number of imported releases falls at an event if and only if the loading of the row
      raises and the failure is saved: the handler then writes zero. */
  lemma SavedCountFallsExactly(listing: seq<seq<Entry>>, tokens: seq<int>, es: seq<Event>, s: Sys, e: Event)
    requires Reaches(Init(listing, tokens), es, s) && Enabled(s, e)
    ensures Apply(s, e).row.imported < s.row.imported <==> e.LoadFails? && e.saved && s.row.imported > 0
  {
    CountKeptOverRuns(Init(listing, tokens), es, s);
    CountKeptStep(s, e);
  }

  // ---------------------------------------------------------------------------
  // Pausing
  // ---------------------------------------------------------------------------

  predicate Starts(e: Event) { e.Start? }

  predicate NoStart(es: seq<Event>) { forall e :: e in es ==> !Starts(e) }

  /** Pages fetched and releases handled by the events. */
  function Work(es: seq<Event>): nat
    decreases |es|
  {
    if es == [] then 0 else (if es[0].FetchOk? || Handles(es[0]) then 1 else 0) + Work(es[1..])
  }

  /** Work that is under way and may still be finished once the flag is set. */
  function UnderWay(s: Sys): nat {
    if s.task.Fetching? || s.task.Checking? || s.task.Checked? || s.task.Stored? then 1 else 0
  }

  lemma StopStep(s: Sys, e: Event)
    requires s.stop && Enabled(s, e) && !Starts(e)
    ensures Apply(s, e).stop
    ensures UnderWay(Apply(s, e)) + (if e.FetchOk? || Handles(e) then 1 else 0) <= UnderWay(s)
  {
    hide Save, SetStatus;
  }

  lemma {:induction false} StoppedRun(s: Sys, es: seq<Event>, t: Sys)
    requires Reaches(s, es, t) && s.stop && NoStart(es)
    ensures t.stop && UnderWay(t) + Work(es) <= UnderWay(s)
    decreases |es|
  {
    if es != [] {
      assert es[0] in es;
      StopStep(s, es[0]);
      hide Apply, Enabled, Handles;
      StoppedRun(Apply(s, es[0]), es[1..], t);
    }
  }

  /** After a pause of a live task and before the next start, over every run: the flag stays set, and at most one more
      page is fetched or release handled, the one that was under way. */
  lemma PauseStops(s: Sys, written: bool, es: seq<Event>, t: Sys)
    requires !s.task.Idle? && Reaches(Apply(s, Pause(written)), es, t) && NoStart(es)
    ensures t.stop && Work(es) <= 1
    ensures s.task.Starting? || s.task.AtPage? || s.task.InPage? ==> Work(es) == 0 && t.tokens == s.tokens
  {
    var u := Apply(s, Pause(written));
    StoppedRun(u, es, t);
    if s.task.Starting? || s.task.AtPage? || s.task.InPage? { NothingCreated(u, es, t); }
  }

  /** Without work under way no token is created either. */
  lemma {:induction false} NothingCreated(s: Sys, es: seq<Event>, t: Sys)
    requires Reaches(s, es, t) && s.stop && NoStart(es) && UnderWay(s) == 0
    ensures t.tokens == s.tokens
    decreases |es|
  {
    if es != [] {
      assert es[0] in es;
      StopStep(s, es[0]);
      TokensStay(s, es[0]);
      hide Apply, Enabled, Handles;
      NothingCreated(Apply(s, es[0]), es[1..], t);
    }
  }

  lemma TokensStay(s: Sys, e: Event)
    requires Enabled(s, e) && UnderWay(s) == 0
    ensures Apply(s, e).tokens == s.tokens
  {
    hide Save, SetStatus;
  }

  predicate NoPause(es: seq<Event>) { forall e :: e in es ==> !e.Pause? }

  lemma UnpausedStep(s: Sys, e: Event)
    requires Enabled(s, e) && !e.Pause? && !s.stop && s.row.status != PAUSED
    ensures !Apply(s, e).stop && Apply(s, e).row.status != PAUSED && !e.StopAtPage? && !e.StopInPage?
  {
    hide Page;
  }

  /** Nothing but a pause ever stops the task for a pause or marks the job PAUSED. */
  lemma {:induction false} StopsOnlyWhenPaused(s: Sys, es: seq<Event>, t: Sys)
    requires Reaches(s, es, t) && NoPause(es) && !s.stop && s.row.status != PAUSED
    ensures !t.stop && t.row.status != PAUSED
    ensures forall e :: e in es ==> !e.StopAtPage? && !e.StopInPage?
    decreases |es|
  {
    if es != [] {
      assert es[0] in es;
      UnpausedStep(s, es[0]);
      hide Apply, Enabled;
      StopsOnlyWhenPaused(Apply(s, es[0]), es[1..], t);
    }
  }

  // ---------------------------------------------------------------------------
  // What is saved when nothing goes wrong with saving
  // ---------------------------------------------------------------------------

  /** No crash, no failure to load the row, and every write of the task goes through. */
  predicate Smooth(e: Event) {
    match e
    case Crash => false
    case LoadFails(_, _) => false
    case Begin(saved) => saved
    case StopAtPage(saved) => saved
    case FetchOk(saved) => saved
    case FetchFails(saved) => saved
    case StopInPage(saved) => saved
    case Escapes(saved) => saved
    case ImportFails(saved) => saved
    case EndPage(saved) => saved
    case Finish(saved) => saved
    case _ => true
  }

  /** Releases imported, skipped and failed. */
  datatype Tally = Tally(imported: int, skipped: int, failed: int)

  function Plus(a: Tally, e: Event): Tally {
    match e
    case CountImported => a.(imported := a.imported + 1)
    case CheckRaises => a.(skipped := a.skipped + 1)
    case CheckFindsToken => a.(skipped := a.skipped + 1)
    case CountMissing => a.(failed := a.failed + 1)
    case ImportFails(_) => a.(failed := a.failed + 1)
    case _ => a
  }

  function Tallied(a: Tally, es: seq<Event>): Tally
    decreases |es|
  {
    if es == [] then a else Tallied(Plus(a, es[0]), es[1..])
  }

  predicate Counts(imported: int, skipped: int, failed: int, a: Tally, whole: bool) {
    imported == a.imported && (whole ==> skipped == a.skipped && failed == a.failed)
  }

  predicate RowCounts(r: Row, a: Tally, whole: bool) { Counts(r.imported, r.skipped, r.failed, a, whole) }

  predicate CursorCounts(c: Cursor, a: Tally, whole: bool) { Counts(c.imported, c.skipped, c.failed, a, whole) }

  /** The counts agree with the tally, and the job does not look as if it were running unless it is. */
  predicate Exact(s: Sys, a: Tally, whole: bool) {
    match s.task
    case Idle => RowCounts(s.row, a, whole) && s.row.status != RUNNING
    case Starting => RowCounts(s.row, a, whole)
    case AtPage(c) => RowCounts(s.row, a, whole) && CursorCounts(c, a, whole)
    case Fetching(c) => RowCounts(s.row, a, whole) && CursorCounts(c, a, whole)
    case _ => CursorCounts(s.task.c, a, whole)
  }

  lemma ExactStep(s: Sys, e: Event, a: Tally, whole: bool)
    requires Exact(s, a, whole) && Enabled(s, e) && Smooth(e) && (whole ==> !e.Escapes?)
    ensures Exact(Apply(s, e), Plus(a, e), whole)
  {
    hide Page;
  }

  lemma {:induction false} SavedCountIsExact(s: Sys, a: Tally, whole: bool, es: seq<Event>, t: Sys)
    requires Exact(s, a, whole) && Reaches(s, es, t)
    requires forall e :: e in es ==> Smooth(e) && (whole ==> !e.Escapes?)
    ensures Exact(t, Tallied(a, es), whole)
    decreases |es|
  {
    if es != [] {
      assert es[0] in es;
      ExactStep(s, es[0], a, whole);
      hide Apply, Enabled, Exact, Smooth, Plus;
      SavedCountIsExact(Apply(s, es[0]), Plus(a, es[0]), whole, es[1..], t);
    }
  }

  /** Over every run in which the writes go through and nothing crashes, with any pauses, page failures, aborts and
      resumes: when the task is over, the saved number of imported releases is that of all runs together, and the job
      is not left RUNNING; and without an exception that escapes, so are the numbers of skipped and failed ones. */
  lemma SavedCountsFromScratch(listing: seq<seq<Entry>>, tokens: seq<int>, es: seq<Event>, t: Sys)
    requires Reaches(Init(listing, tokens), es, t) && (forall e :: e in es ==> Smooth(e)) && t.task.Idle?
    ensures var a := Tallied(Tally(0, 0, 0), es);
            && t.row.status != RUNNING && t.row.imported == a.imported
            && ((forall e :: e in es ==> !e.Escapes?) ==> t.row.skipped == a.skipped && t.row.failed == a.failed)
  {
    SavedCountIsExact(Init(listing, tokens), Tally(0, 0, 0), false, es, t);
    if forall e :: e in es ==> !e.Escapes? { SavedCountIsExact(Init(listing, tokens), Tally(0, 0, 0), true, es, t); }
  }

  /** Over every run whose last event is a page that fails, an exception that escapes or a row that cannot be loaded:
      when that is saved the job is FAILED and the task over; a page that failed after others is the one to redo, with
      all the counts. */
  lemma FailureIsSaved(listing: seq<seq<Entry>>, tokens: seq<int>, es: seq<Event>, s: Sys, e: Event)
    requires Reaches(Init(listing, tokens), es, s) && Enabled(s, e)
    requires e == FetchFails(true) || e == Escapes(true) || e == LoadFails(true, true)
    ensures var t := Apply(s, e);
            && t.task.Idle? && t.row.status == FAILED
            && t.row.lastPage <= (if e.LoadFails? then s.row.lastPage else s.task.c.page)
            && (e.FetchFails? && s.task.c.pagesTotal.Some? ==>
                  t.row == Row(FAILED, s.task.c.page, s.task.c.imported, s.task.c.skipped, s.task.c.failed))
  {
    hide Reaches;
    RedoesOverRuns(Init(listing, tokens), es, s);
  }

  /** The saved page is never ahead of the task. */
  predicate Redoes(s: Sys) { s.task.Idle? || s.task.Starting? || s.row.lastPage <= s.task.c.page }

  lemma RedoesStep(s: Sys, e: Event)
    requires Redoes(s) && Enabled(s, e)
    ensures Redoes(Apply(s, e))
  {
    hide Page;
  }

  lemma {:induction false} RedoesOverRuns(s: Sys, es: seq<Event>, t: Sys)
    requires Redoes(s) && Reaches(s, es, t)
    ensures Redoes(t)
    decreases |es|
  {
    if es != [] {
      RedoesStep(s, es[0]);
      hide Apply, Enabled, Redoes;
      RedoesOverRuns(Apply(s, es[0]), es[1..], t);
    }
  }

  // ---------------------------------------------------------------------------
  // Giving up
  // ---------------------------------------------------------------------------

  /** Failed imports since the last imported or skipped release or the start of the page, whichever came last. */
  function Streak(es: seq<Event>): nat {
    if es == [] then 0
    else
      var n := |es| - 1;
      match es[n]
      case ImportFails(_) => Streak(es[..n]) + 1
      case CountImported => 0
      case CheckRaises => 0
      case CheckFindsToken => 0
      case FetchOk(_) => 0
      case _ => Streak(es[..n])
  }

  predicate InsidePage(s: Sys) { s.task.InPage? || s.task.Checking? || s.task.Checked? || s.task.Stored? }

  lemma {:induction false} LastStep(s: Sys, es: seq<Event>, t: Sys) returns (u: Sys)
    requires es != [] && Reaches(s, es, t)
    ensures Reaches(s, es[..|es| - 1], u) && Enabled(u, es[|es| - 1]) && t == Apply(u, es[|es| - 1])
    decreases |es|
  {
    hide Enabled, Apply;
    if |es| == 1 {
      u := s;
      assert es[..0] == [] && es[1..] == [];
    } else {
      u := LastStep(Apply(s, es[0]), es[1..], t);
      assert es[..|es| - 1][1..] == es[1..][..|es| - 2];
    }
  }

  /** In every reachable state the task's counter is the number of failures in a row that happened. */
  lemma {:induction false} CounterIsStreak(listing: seq<seq<Entry>>, tokens: seq<int>, es: seq<Event>, s: Sys)
    requires Reaches(Init(listing, tokens), es, s)
    ensures InsidePage(s) ==> s.task.consecutive == Streak(es) < MAX_CONSECUTIVE_FAILURES
    decreases |es|
  {
    if es != [] {
      hide Reaches;
      var u := LastStep(Init(listing, tokens), es, s);
      CounterIsStreak(listing, tokens, es[..|es| - 1], u);
      StreakOf(es);
      hide *;
      CounterStep(u, es[|es| - 1], Streak(es[..|es| - 1]));
    }
  }

  /** The event ends a series of failures. */
  predicate Breaks(e: Event) { e.CountImported? || e.CheckRaises? || e.CheckFindsToken? || e.FetchOk? }

  lemma StreakOf(es: seq<Event>)
    requires es != []
    ensures var e, before := es[|es| - 1], Streak(es[..|es| - 1]);
            Streak(es) == if e.ImportFails? then before + 1
                          else if Breaks(e) then 0
                          else before
  {}

  /** One event changes the counter as it changes the streak. */
  lemma CounterStep(u: Sys, e: Event, before: nat)
    requires Enabled(u, e) && (InsidePage(u) ==> u.task.consecutive == before < MAX_CONSECUTIVE_FAILURES)
    ensures var s := Apply(u, e);
            InsidePage(s) ==>
              && s.task.consecutive < MAX_CONSECUTIVE_FAILURES
              && s.task.consecutive == if e.ImportFails? then before + 1
                                       else if Breaks(e) then 0
                                       else before
  {}

  /** After any history a failing import aborts the run exactly when seven imports failed before it since the
      last imported or skipped release of the page; the aborted page is the one that is saved for the resume. */
  lemma AbortsAtTheEighth(listing: seq<seq<Entry>>, tokens: seq<int>, es: seq<Event>, s: Sys, saved: bool)
    requires Reaches(Init(listing, tokens), es, s) && Enabled(s, ImportFails(saved))
    ensures var t := Apply(s, ImportFails(saved));
            && (t.task.Idle? <==> Streak(es) == 7)
            && (t.task.Idle? && saved ==> t.row.status == FAILED && t.row.lastPage == s.task.c.page)
  {
    CounterIsStreak(listing, tokens, es, s);
  }
}
