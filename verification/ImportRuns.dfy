/** Runs of the import in which something is lost. */
module ImportRuns {
  import opened Wrappers
  import opened ImportProtocol
  import opened ImportSafety

  // ---------------------------------------------------------------------------
  // Single events
  // ---------------------------------------------------------------------------

  /** What the events below leave alone. */
  predicate Same(s: Sys, t: Sys) { t.listing == s.listing && t.tokens == s.tokens && !t.stop }

  /** And nor do they change whether this is a reimport. */
  predicate Alike(s: Sys, t: Sys) { Same(s, t) && t.reimport == s.reimport }

  lemma Starts(s: Sys)
    requires s.task == Idle
    ensures Enabled(s, Start(false))
    ensures var t := Apply(s, Start(false));
            Same(s, t) && !t.reimport && t.task == Starting && t.row == s.row.(status := PENDING)
  {}

  lemma Begins(s: Sys)
    requires s.task == Starting && !s.stop
    ensures Enabled(s, Begin(true))
    ensures var t := Apply(s, Begin(true)); var r := s.row.(status := RUNNING);
            && Alike(s, t) && t.row == r
            && t.task == AtPage(Cursor(r.lastPage, None, r.imported, r.skipped, r.failed))
  {}

  lemma AsksPage(s: Sys)
    requires s.task.AtPage? && !s.stop
    ensures Enabled(s, AsksForPage)
    ensures var t := Apply(s, AsksForPage); Alike(s, t) && t.row == s.row && t.task == Fetching(s.task.c)
  {}

  lemma AsksRelease(s: Sys)
    requires AtRelease(s) && Current(s).Release? && !s.stop
    ensures Enabled(s, AsksForRelease)
    ensures var t := Apply(s, AsksForRelease);
            Alike(s, t) && t.row == s.row && t.task == Checking(s.task.c, s.task.i, s.task.consecutive)
  {}

  lemma Fetches(s: Sys)
    requires s.task.Fetching? && !s.stop && HasPage(s, s.task.c.page) && Page(s, s.task.c.page) != []
    requires s.task.c.pagesTotal == None || s.task.c.pagesTotal == Some(|s.listing|)
    ensures Enabled(s, FetchOk(true))
    ensures var t := Apply(s, FetchOk(true));
            && Alike(s, t) && t.task == InPage(s.task.c.(pagesTotal := Some(|s.listing|)), 0, 0)
            && t.row.(status := RUNNING) == s.row.(status := RUNNING)
  {}

  lemma EndsPage(s: Sys)
    requires s.task.InPage? && HasPage(s, s.task.c.page) && s.task.i == |Page(s, s.task.c.page)| && !s.stop
    requires s.task.c.pagesTotal == Some(|s.listing|)
    ensures Enabled(s, EndPage(true))
    ensures var t := Apply(s, EndPage(true)); var c := s.task.c;
            && Alike(s, t) && t.row == Row(RUNNING, c.page, c.imported, c.skipped, c.failed)
            && t.task == if c.page == |s.listing| then Finishing(c) else AtPage(c.(page := c.page + 1))
  {}

  lemma Finishes(s: Sys)
    requires s.task.Finishing? && !s.stop
    ensures Enabled(s, Finish(true))
    ensures var t := Apply(s, Finish(true)); var c := s.task.c;
            Same(s, t) && t.task == Idle && t.row == Row(COMPLETED, c.page, c.imported, c.skipped, c.failed)
  {}

  predicate NoRaise(es: seq<Event>) { CheckRaises !in es }

  lemma Do(s0: Sys, es: seq<Event>, s: Sys, e: Event) returns (fs: seq<Event>, t: Sys)
    requires Reaches(s0, es, s) && Enabled(s, e)
    ensures Reaches(s0, fs, t) && t == Apply(s, e) && fs == es + [e]
    ensures NoRaise(es) && e != CheckRaises ==> NoRaise(fs)
  {
    ReachesStep(s0, es, s, e);
    fs, t := es + [e], Apply(s, e);
  }

  // ---------------------------------------------------------------------------
  // Raised checks
  // ---------------------------------------------------------------------------

  predicate AllReleases(listing: seq<seq<Entry>>) {
    forall p :: 0 <= p < |listing| ==> listing[p] != [] && forall i :: 0 <= i < |listing[p]| ==> listing[p][i].Release?
  }

  /** The check raises or finds a token: either way the release is skipped. */
  function Skip(found: bool): Event { if found then CheckFindsToken else CheckRaises }

  /** Every release has a token and the run is no reimport. */
  predicate AllFound(s: Sys) {
    && !s.reimport
    && forall p, i :: 0 <= p < |s.listing| && 0 <= i < |s.listing[p]| && s.listing[p][i].Release?
                      ==> s.listing[p][i].id in s.tokens
  }

  lemma Skips(s: Sys, found: bool)
    requires OnRelease(s) && s.task.Checking? && !s.stop && (found ==> AllFound(s))
    ensures Enabled(s, Skip(found))
    ensures var t := Apply(s, Skip(found)); var c := s.task.c;
            && Alike(s, t) && t.row == s.row
            && t.task == InPage(c.(skipped := c.skipped + 1), s.task.i + 1, 0)
  {}

  lemma {:induction false} SkipsThroughPage(s: Sys, found: bool) returns (es: seq<Event>, t: Sys)
    requires AllReleases(s.listing) && !s.stop && s.task.InPage? && HasPage(s, s.task.c.page)
    requires s.task.i <= |Page(s, s.task.c.page)| && (found ==> AllFound(s))
    ensures Reaches(s, es, t) && Alike(s, t) && t.row == s.row
    ensures t.task.InPage? && t.task.i == |Page(s, s.task.c.page)|
    ensures t.task.c == s.task.c.(skipped := s.task.c.skipped + |Page(s, s.task.c.page)| - s.task.i)
    ensures found ==> NoRaise(es)
    decreases |Page(s, s.task.c.page)| - s.task.i
  {
    assert NoRaise([]);
    hide Apply, Enabled, NoRaise;
    if s.task.i == |Page(s, s.task.c.page)| {
      es, t := [], s;
    } else {
      AsksRelease(s);
      var asked, v := Do(s, [], s, AsksForRelease);
      FoundStays(s, v);
      Skips(v, found);
      var first, u := Do(s, asked, v, Skip(found));
      FoundStays(s, u);
      hide Reaches, AllFound;
      var rest;
      rest, t := SkipsThroughPage(u, found);
      NoRaiseThen(first, rest);
      ReachesThen(s, first, u, rest, t);
      es := first + rest;
    }
  }

  /** Number of releases from a page to the end. */
  function Releases(listing: seq<seq<Entry>>, page: int): nat
    decreases |listing| - page
  {
    if page < 1 || page > |listing| then 0 else |listing[page - 1]| + Releases(listing, page + 1)
  }

  lemma ReleasesStep(listing: seq<seq<Entry>>, page: int)
    requires 1 <= page <= |listing|
    ensures Releases(listing, page) == |listing[page - 1]| + Releases(listing, page + 1)
    ensures Releases(listing, |listing| + 1) == 0
  {}

  lemma PageHasReleases(s: Sys)
    requires AllReleases(s.listing) && s.task.AtPage? && HasPage(s, s.task.c.page)
    ensures Page(s, s.task.c.page) != []
  {}

  lemma FoundStays(s: Sys, t: Sys)
    requires Alike(s, t)
    ensures AllFound(s) <==> AllFound(t)
  {}

  lemma NoRaiseThen(es: seq<Event>, fs: seq<Event>)
    ensures NoRaise(es) && NoRaise(fs) ==> NoRaise(es + fs)
  {}

  lemma OpensPage(s: Sys) returns (es: seq<Event>, t: Sys)
    requires AllReleases(s.listing) && !s.stop && s.task.AtPage? && HasPage(s, s.task.c.page)
    requires s.task.c.pagesTotal == None || s.task.c.pagesTotal == Some(|s.listing|)
    ensures Reaches(s, es, t) && Alike(s, t) && NoRaise(es)
    ensures t.task == InPage(s.task.c.(pagesTotal := Some(|s.listing|)), 0, 0)
  {
    assert Reaches(s, [], s) && NoRaise([]);
    PageHasReleases(s);
    hide Apply, Enabled, Reaches, AllReleases, NoRaise;
    AsksPage(s);
    var e0, s0 := Do(s, [], s, AsksForPage);
    Fetches(s0);
    es, t := Do(s, e0, s0, FetchOk(true));
  }

  /** One page is fetched, skipped and saved. */
  lemma SkipsOnePage(s: Sys, found: bool) returns (es: seq<Event>, t: Sys)
    requires AllReleases(s.listing) && !s.stop && s.task.AtPage? && HasPage(s, s.task.c.page)
    requires s.task.c.pagesTotal == None || s.task.c.pagesTotal == Some(|s.listing|)
    requires found ==> AllFound(s)
    ensures Reaches(s, es, t) && Alike(s, t) && (found ==> NoRaise(es))
    ensures var p, c := s.task.c.page, s.task.c;
            var d := c.(pagesTotal := Some(|s.listing|), skipped := c.skipped + |Page(s, p)|);
            t.task == if p == |s.listing| then Finishing(d) else AtPage(d.(page := p + 1))
  {
    hide Apply, Enabled, Reaches, AllReleases, AllFound, NoRaise, AtRelease, OnRelease, Save, SetStatus;
    var e1, s1 := OpensPage(s);
    FoundStays(s, s1);
    var more, s2 := SkipsThroughPage(s1, found);
    NoRaiseThen(e1, more);
    ReachesThen(s, e1, s1, more, s2);
    EndsPage(s2);
    es, t := Do(s, e1 + more, s2, EndPage(true));
  }

  lemma {:induction false} SkipsThroughPages(s: Sys, found: bool) returns (es: seq<Event>, t: Sys)
    requires AllReleases(s.listing) && !s.stop && s.task.AtPage? && HasPage(s, s.task.c.page)
    requires s.task.c.pagesTotal == None || s.task.c.pagesTotal == Some(|s.listing|)
    requires found ==> AllFound(s)
    ensures Reaches(s, es, t) && Same(s, t) && t.task == Idle
    ensures var c := s.task.c;
            t.row == Row(COMPLETED, |s.listing|, c.imported, c.skipped + Releases(s.listing, c.page), c.failed)
    ensures found ==> NoRaise(es)
    decreases |s.listing| - s.task.c.page
  {
    ReleasesStep(s.listing, s.task.c.page);
    hide Apply, Enabled, Reaches, AllReleases, AllFound, Releases, NoRaise;
    var e3, s3 := SkipsOnePage(s, found);
    if s.task.c.page == |s.listing| {
      Finishes(s3);
      es, t := Do(s, e3, s3, Finish(true));
    } else {
      FoundStays(s, s3);
      var rest;
      rest, t := SkipsThroughPages(s3, found);
      NoRaiseThen(e3, rest);
      ReachesThen(s, e3, s3, rest, t);
      es := e3 + rest;
    }
  }

  lemma SkipsFromStart(s: Sys, found: bool) returns (es: seq<Event>, t: Sys)
    requires AllReleases(s.listing) && s.listing != [] && s.task == Idle && s.row.lastPage == 1
    requires found ==> AllFound(s.(reimport := false))
    ensures Reaches(s, es, t) && Same(s, t) && t.task == Idle
    ensures t.row == Row(COMPLETED, |s.listing|, s.row.imported, s.row.skipped + Releases(s.listing, 1), s.row.failed)
    ensures found ==> NoRaise(es)
  {
    assert Reaches(s, [], s) && NoRaise([]);
    hide Apply, Enabled, Reaches, NoRaise;
    Starts(s);
    var e1, s1 := Do(s, [], s, Start(false));
    FoundStays(s.(reimport := false, stop := false), s1);
    Begins(s1);
    var e2, s2 := Do(s, e1, s1, Begin(true));
    FoundStays(s1, s2);
    var rest;
    rest, t := SkipsThroughPages(s2, found);
    NoRaiseThen(e2, rest);
    ReachesThen(s, e2, s2, rest, t);
    es := e2 + rest;
  }

  /** A raised existence check counts as skipped: for every listing and whatever tokens there are at first, a job can
      be COMPLETED without a failure and without a single new token. */
  lemma RaisedChecksLoseReleases(listing: seq<seq<Entry>>, tokens: seq<int>) returns (es: seq<Event>, t: Sys)
    requires AllReleases(listing) && listing != []
    ensures Reaches(Init(listing, tokens), es, t) && t.tokens == tokens
    ensures t.row == Row(COMPLETED, |listing|, 0, Releases(listing, 1), 0)
  {
    es, t := SkipsFromStart(Init(listing, tokens), false);
  }

  /** When every listed release has its token, the job can run through and skip all of them. */
  lemma SecondRunSkips(listing: seq<seq<Entry>>, tokens: seq<int>) returns (es: seq<Event>, t: Sys)
    requires AllReleases(listing) && listing != [] && AllFound(Init(listing, tokens).(reimport := false))
    ensures Reaches(Init(listing, tokens), es, t) && t.tokens == tokens && NoRaise(es)
    ensures t.row == Row(COMPLETED, |listing|, 0, Releases(listing, 1), 0)
  {
    es, t := SkipsFromStart(Init(listing, tokens), true);
  }

  lemma ComesToRelease(s: Sys) returns (es: seq<Event>, t: Sys)
    requires AllReleases(s.listing) && s.listing != [] && s.task == Idle && s.row.lastPage == 1
    ensures Reaches(s, es, t) && Same(s, t) && t.row == s.row.(status := RUNNING)
    ensures t.task == InPage(Cursor(1, Some(|s.listing|), s.row.imported, s.row.skipped, s.row.failed), 0, 0)
  {
    assert Reaches(s, [], s);
    hide Apply, Enabled, Reaches;
    Starts(s);
    var e1, s1 := Do(s, [], s, Start(false));
    Begins(s1);
    var e2, s2 := Do(s, e1, s1, Begin(true));
    AsksPage(s2);
    var e3, s3 := Do(s, e2, s2, AsksForPage);
    Fetches(s3);
    es, t := Do(s, e3, s3, FetchOk(true));
  }

  lemma Passes(s: Sys)
    requires OnRelease(s) && s.task.Checking? && !s.stop && Current(s).id !in s.tokens
    ensures Enabled(s, CheckPasses)
    ensures var t := Apply(s, CheckPasses);
            Same(s, t) && t.row == s.row && t.task == Checked(s.task.c, s.task.i, s.task.consecutive, false)
  {}

  lemma Crashes(s: Sys)
    requires s.task != Idle && !s.stop
    ensures Enabled(s, Crash)
    ensures var t := Apply(s, Crash); Same(s, t) && t.row == s.row && t.task == Idle
  {}

  /** Not even a check that passed saves a release: when the process dies before the token is created and the check
      of the next run raises, the job is COMPLETED without a failure and without the token. */
  lemma PassedCheckStillLost(listing: seq<seq<Entry>>) returns (es: seq<Event>, t: Sys)
    requires AllReleases(listing) && listing != []
    ensures Reaches(Init(listing, []), es, t) && CheckPasses in es
    ensures t.row == Row(COMPLETED, |listing|, 0, Releases(listing, 1), 0) && t.tokens == []
  {
    hide Apply, Enabled, Reaches;
    var s0 := Init(listing, []);
    var e0, s := ComesToRelease(s0);
    AsksRelease(s);
    var e1, s1 := Do(s0, e0, s, AsksForRelease);
    Passes(s1);
    var e2, s2 := Do(s0, e1, s1, CheckPasses);
    Crashes(s2);
    var e3, s3 := Do(s0, e2, s2, Crash);
    var rest;
    rest, t := SkipsFromStart(s3, false);
    ReachesThen(s0, e3, s3, rest, t);
    es := e3 + rest;
    assert CheckPasses in e2;
  }

  // ---------------------------------------------------------------------------
  // Losing the saved count
  // ---------------------------------------------------------------------------

  lemma Creates(s: Sys)
    requires OnRelease(s) && s.task.Checked? && !s.task.known && !s.stop
    ensures Enabled(s, StoreToken)
    ensures var t := Apply(s, StoreToken);
            && t.listing == s.listing && !t.stop && t.row == s.row
            && t.task == Stored(s.task.c, s.task.i, s.task.consecutive)
  {}

  lemma Counts(s: Sys)
    requires OnRelease(s) && s.task.Stored? && !s.stop
    ensures Enabled(s, CountImported)
    ensures var t := Apply(s, CountImported); var c := s.task.c;
            Same(s, t) && t.row == s.row && t.task == InPage(c.(imported := c.imported + 1), s.task.i + 1, 0)
  {}

  lemma LoadingFails(s: Sys)
    requires s.task == Starting && !s.stop
    ensures Enabled(s, LoadFails(true, true))
    ensures var t := Apply(s, LoadFails(true, true)); t.row == s.row.(status := FAILED, imported := 0) && t.task == Idle
  {}

  /** One release is imported and the first page saved. */
  lemma ImportsFirst(listing: seq<seq<Entry>>) returns (es: seq<Event>, t: Sys)
    requires AllReleases(listing) && listing != []
    ensures Reaches(Init(listing, []), es, t) && !t.stop && t.task != Idle && t.row.imported == 1
  {
    hide Apply, Enabled, Reaches;
    var s0 := Init(listing, []);
    var e0, s := ComesToRelease(s0);
    AsksRelease(s);
    var e1, s1 := Do(s0, e0, s, AsksForRelease);
    Passes(s1);
    var e2, s2 := Do(s0, e1, s1, CheckPasses);
    Creates(s2);
    var e3, s3 := Do(s0, e2, s2, StoreToken);
    Counts(s3);
    var e4, s4 := Do(s0, e3, s3, CountImported);
    var more, s5 := SkipsThroughPage(s4, false);
    ReachesThen(s0, e4, s4, more, s5);
    EndsPage(s5);
    es, t := Do(s0, e4 + more, s5, EndPage(true));
  }

  /** For every listing there is a run that saves one imported release and, when it is resumed after a crash and the
      row cannot be loaded, overwrites that count with zero. */
  lemma FailedLoadLosesCount(listing: seq<seq<Entry>>) returns (es: seq<Event>, s: Sys)
    requires AllReleases(listing) && listing != []
    ensures Reaches(Init(listing, []), es, s) && Enabled(s, LoadFails(true, true))
    ensures s.row.imported == 1 && Apply(s, LoadFails(true, true)).row.imported == 0
  {
    hide Apply, Enabled, Reaches;
    var s0 := Init(listing, []);
    var e1, s1 := ImportsFirst(listing);
    Crashes(s1);
    var e2, s2 := Do(s0, e1, s1, Crash);
    Starts(s2);
    es, s := Do(s0, e2, s2, Start(false));
    LoadingFails(s);
  }
}
