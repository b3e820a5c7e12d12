/** The resumable collection import as a state machine: one event per database write or per decision
    between two awaits.

    The Discogs listing is stable and a job has at most one live task; the task may be paused, fail,
    abort, crash (at any event) and be resumed any number of times, and every `_mark` write may be
    dropped. */
module ImportProtocol {
  import opened Wrappers

  /** A listing entry: no id (empty or "0"), an id that is not a number, or a release. */
  datatype Entry = Missing | Unreadable | Release(id: int)

  datatype Status = PENDING | RUNNING | PAUSED | FAILED | COMPLETED

  /** The job row. */
  datatype Row = Row(status: Status, lastPage: int, imported: int, skipped: int, failed: int)

  /** Locals of the running task. */
  datatype Cursor = Cursor(page: int, pagesTotal: Option<int>, imported: int, skipped: int, failed: int)

  datatype Task =
    | Idle
    | Starting
    | AtPage(c: Cursor)                                       // top of the page loop
    | Fetching(c: Cursor)                                     // stop flag looked at, page awaited
    | InPage(c: Cursor, i: nat, consecutive: nat)             // about to look at release i
    | Checking(c: Cursor, i: nat, consecutive: nat)           // stop flag looked at, existence check awaited
    | Checked(c: Cursor, i: nat, consecutive: nat, known: bool)   // existence known, import to come
    | Stored(c: Cursor, i: nat, consecutive: nat)             // token committed, not counted yet
    | Finishing(c: Cursor)                                    // all pages done, not marked yet

  const MAX_CONSECUTIVE_FAILURES := 8

  /** `tokens` are the Discogs ids of the live tokens.  The rest is history: `visited` are the listing positions
      handled so far, `raised` those whose existence check raised at least once, and `visits` counts how many
      times a release was handled; `startPage`, `startTotal` and
      `startVisits` are the page, the counter total and `visits` when the current run loaded its row. */
  datatype Sys = Sys(listing: seq<seq<Entry>>, row: Row, tokens: seq<int>, stop: bool, reimport: bool, task: Task,
                     visited: set<(int, int)>, raised: set<(int, int)>, visits: nat,
                     startPage: int, startTotal: int, startVisits: nat)

  /** `saved`, `marked` and `written` tell whether a row update goes through.  `Escapes` and `LoadFails` end in the
      outer exception handler: the fetch of a page or the reading of an id raises, or the loading of the row does. */
  datatype Event =
    | Pause(written: bool)
    | Start(reimport: bool)
    | Crash
    | Begin(saved: bool)
    | LoadFails(marked: bool, saved: bool)
    | StopAtPage(saved: bool)
    | AsksForPage
    | FetchOk(saved: bool)
    | FetchFails(saved: bool)
    | StopInPage(saved: bool)
    | CountMissing
    | Escapes(saved: bool)
    | AsksForRelease
    | CheckRaises
    | CheckFindsToken
    | CheckPasses
    | StoreToken
    | CountImported
    | ImportFails(saved: bool)
    | EndPage(saved: bool)
    | Finish(saved: bool)

  function Init(listing: seq<seq<Entry>>, tokens: seq<int>): Sys {
    Sys(listing, Row(PENDING, 1, 0, 0, 0), tokens, false, false, Idle, {}, {}, 0, 1, 0, 0)
  }

  predicate HasPage(s: Sys, page: int) { 1 <= page <= |s.listing| }

  function Page(s: Sys, page: int): seq<Entry>
    requires HasPage(s, page)
  {
    s.listing[page - 1]
  }

  function Total(c: Cursor): int { c.imported + c.skipped + c.failed }

  function Save(r: Row, c: Cursor, status: Status, saved: bool): Row {
    if saved then Row(status, c.page, c.imported, c.skipped, c.failed) else r
  }

  function SetStatus(r: Row, status: Status, saved: bool): Row {
    if saved then r.(status := status) else r
  }

  /** The task is in a page it fetched, at a release that exists. */
  predicate AtRelease(s: Sys) {
    s.task.InPage? && HasPage(s, s.task.c.page) && s.task.i < |Page(s, s.task.c.page)|
  }

  predicate OnRelease(s: Sys) {
    && (s.task.Checking? || s.task.Checked? || s.task.Stored?)
    && HasPage(s, s.task.c.page) && s.task.i < |Page(s, s.task.c.page)|
    && Page(s, s.task.c.page)[s.task.i].Release?
  }

  function Current(s: Sys): Entry
    requires AtRelease(s) || OnRelease(s)
  {
    Page(s, s.task.c.page)[s.task.i]
  }

  /** The stop flag is looked at before a page is fetched and before a release is handled, and nowhere else: a pause
      that arrives while one of these is awaited is noticed at the next such place. */
  predicate Enabled(s: Sys, e: Event) {
    match e
    case Pause(_) => true
    case Start(_) => s.task.Idle?
    case Crash => !s.task.Idle?
    case Begin(_) => s.task.Starting?
    case LoadFails(_, _) => s.task.Starting?
    case StopAtPage(_) => s.task.AtPage? && s.stop
    case AsksForPage => s.task.AtPage? && !s.stop
    case FetchOk(_) => s.task.Fetching? && HasPage(s, s.task.c.page) && Page(s, s.task.c.page) != []
    case FetchFails(_) => s.task.Fetching?
    case StopInPage(_) => AtRelease(s) && s.stop
    case CountMissing => AtRelease(s) && !s.stop && Current(s).Missing?
    case Escapes(_) => s.task.Fetching? || (AtRelease(s) && !s.stop && Current(s).Unreadable?)
    case AsksForRelease => AtRelease(s) && !s.stop && Current(s).Release?
    case CheckRaises => OnRelease(s) && s.task.Checking?
    case CheckFindsToken => OnRelease(s) && s.task.Checking? && Current(s).id in s.tokens && !s.reimport
    case CheckPasses => OnRelease(s) && s.task.Checking? && (Current(s).id in s.tokens ==> s.reimport)
    case StoreToken => OnRelease(s) && s.task.Checked?
    case CountImported => OnRelease(s) && s.task.Stored?
    case ImportFails(_) => OnRelease(s) && !s.task.Checking?
    case EndPage(_) => s.task.InPage? && HasPage(s, s.task.c.page) && s.task.i == |Page(s, s.task.c.page)|
    case Finish(_) => s.task.Finishing?
  }

  /** Release `i` of the current page has been handled. */
  function Visit(s: Sys, next: Task): Sys
    requires AtRelease(s) || OnRelease(s)
  {
    s.(task := next, visited := s.visited + {(s.task.c.page, s.task.i)}, visits := s.visits + 1)
  }

  function Apply(s: Sys, e: Event): Sys
    requires Enabled(s, e)
  {
    match e
    case Pause(written) => s.(row := SetStatus(s.row, PAUSED, written), stop := s.stop || !s.task.Idle?)
    case Start(reimport) =>
      s.(row := SetStatus(s.row, PENDING, true), stop := false, reimport := reimport, task := Starting)
    case Crash => s.(task := Idle)
    case Begin(saved) =>
      var r := SetStatus(s.row, RUNNING, saved);
      var c := Cursor(r.lastPage, None, r.imported, r.skipped, r.failed);
      s.(row := r, task := AtPage(c), startPage := c.page, startTotal := Total(c), startVisits := s.visits)
    case LoadFails(marked, saved) =>
      var r := SetStatus(s.row, RUNNING, marked);
      s.(row := if saved then r.(status := FAILED, imported := 0) else r, task := Idle)
    case StopAtPage(saved) => s.(row := SetStatus(s.row, PAUSED, saved), task := Idle)
    case AsksForPage => s.(task := Fetching(s.task.c))
    case FetchOk(saved) =>
      var c := s.task.c;
      if c.pagesTotal.None? then
        s.(row := SetStatus(s.row, RUNNING, saved), task := InPage(c.(pagesTotal := Some(|s.listing|)), 0, 0))
      else s.(task := InPage(c, 0, 0))
    case FetchFails(saved) =>
      s.(row := if s.task.c.pagesTotal.None? then SetStatus(s.row, FAILED, saved)
                else Save(s.row, s.task.c, FAILED, saved),
         task := Idle)
    case StopInPage(saved) => s.(row := Save(s.row, s.task.c, PAUSED, saved), task := Idle)
    case CountMissing =>
      Visit(s, InPage(s.task.c.(failed := s.task.c.failed + 1), s.task.i + 1, s.task.consecutive))
    case Escapes(saved) =>
      s.(row := if saved then s.row.(status := FAILED, imported := s.task.c.imported) else s.row, task := Idle)
    case AsksForRelease => s.(task := Checking(s.task.c, s.task.i, s.task.consecutive))
    case CheckRaises =>
      Visit(s, InPage(s.task.c.(skipped := s.task.c.skipped + 1), s.task.i + 1, 0))
        .(raised := s.raised + {(s.task.c.page, s.task.i)})
    case CheckFindsToken => Visit(s, InPage(s.task.c.(skipped := s.task.c.skipped + 1), s.task.i + 1, 0))
    case CheckPasses => s.(task := Checked(s.task.c, s.task.i, s.task.consecutive, Current(s).id in s.tokens))
    case StoreToken =>
      s.(tokens := if s.task.known then s.tokens else s.tokens + [Current(s).id],
         task := Stored(s.task.c, s.task.i, s.task.consecutive))
    case CountImported => Visit(s, InPage(s.task.c.(imported := s.task.c.imported + 1), s.task.i + 1, 0))
    case ImportFails(saved) =>
      var c := s.task.c.(failed := s.task.c.failed + 1);
      if s.task.consecutive + 1 >= MAX_CONSECUTIVE_FAILURES then
        Visit(s, Idle).(row := Save(s.row, c, FAILED, saved))
      else Visit(s, InPage(c, s.task.i + 1, s.task.consecutive + 1))
    case EndPage(saved) =>
      var c := s.task.c;
      s.(row := Save(s.row, c, RUNNING, saved),
         task := if c.pagesTotal.Some? && c.pagesTotal.value != 0 && c.page >= c.pagesTotal.value then Finishing(c)
                 else AtPage(c.(page := c.page + 1)))
    case Finish(saved) => s.(row := Save(s.row, s.task.c, COMPLETED, saved), task := Idle)
  }

  /** The next state, if `e` can happen. */
  function Step(s: Sys, e: Event): Option<Sys> {
    if Enabled(s, e) then Some(Apply(s, e)) else None
  }

  predicate Reaches(s: Sys, es: seq<Event>, t: Sys)
    decreases |es|
  {
    if es == [] then s == t else Enabled(s, es[0]) && Reaches(Apply(s, es[0]), es[1..], t)
  }

  lemma {:induction false} ReachesStep(s: Sys, es: seq<Event>, t: Sys, e: Event)
    requires Reaches(s, es, t) && Enabled(t, e)
    ensures Reaches(s, es + [e], Apply(t, e))
    decreases |es|
  {
    if es == [] {
      assert (es + [e])[1..] == [];
    } else {
      ReachesStep(Apply(s, es[0]), es[1..], t, e);
      assert (es + [e])[1..] == es[1..] + [e];
    }
  }

  lemma {:induction false} ReachesThen(s: Sys, es: seq<Event>, t: Sys, fs: seq<Event>, u: Sys)
    requires Reaches(s, es, t) && Reaches(t, fs, u)
    ensures Reaches(s, es + fs, u)
    decreases |es|
  {
    if es == [] {
      assert es + fs == fs;
    } else {
      ReachesThen(Apply(s, es[0]), es[1..], t, fs, u);
      assert (es + fs)[1..] == es[1..] + fs;
    }
  }
}
