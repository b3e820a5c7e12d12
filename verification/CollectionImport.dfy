/** The import task itself: nested loops over pages and releases, with local counters and database writes.

    Every choice of the outside world (a pause request, a crash, a failing fetch, a dropped `_mark`) is
    nondeterministic.  The ghost fields record the run of `ImportProtocol` that the code performs, so
    what is proved there about every run holds of the code at every one of its steps. */
module CollectionImport {
  import opened Wrappers
  import opened ImportProtocol
  import opened ImportSafety

  class ImportJob {
    const listing: seq<seq<Entry>>
    var row: Row
    var tokens: seq<int>
    var stop: bool
    ghost const initial: Sys
    ghost var events: seq<Event>
    ghost var state: Sys

    ghost predicate Valid()
      reads this
    {
      Reaches(initial, events, state) && state == state.(listing := listing, row := row, tokens := tokens, stop := stop)
    }

    constructor (listing: seq<seq<Entry>>, tokens: seq<int>)
      ensures Valid() && this.listing == listing && this.tokens == tokens
      ensures initial == Init(listing, tokens) && state == initial
    {
      this.listing, this.tokens, this.row, this.stop := listing, tokens, Row(PENDING, 1, 0, 0, 0), false;
      this.initial, this.events, this.state := Init(listing, tokens), [], Init(listing, tokens);
    }

    /** The database and the flags have just been changed as event `e` says. */
    ghost method Happened(e: Event)
      requires Reaches(initial, events, state) && Step(state, e).Some?
      modifies `events, `state
      ensures Some(state) == Step(old(state), e) && Reaches(initial, events, state)
    {
      ReachesStep(initial, events, state, e);
      events := events + [e];
      state := Apply(state, e);
    }

    /** `import_pause`, at any time; `live` tells whether the job's task has a stop flag registered. */
    method ImportPause(live: bool) returns (written: bool)
      requires Valid() && (live <==> !state.task.Idle?)
      modifies this
      ensures Valid() && state.task == old(state.task) && state.reimport == old(state.reimport)
      ensures state == Apply(old(state), Pause(written)) && (live ==> stop) && (written ==> row.status == PAUSED)
    {
      written := *;
      if written { row := row.(status := PAUSED); }
      if live { stop := true; }
      Happened(Pause(written));
    }

    /** An await: the user may pause meanwhile, and the process may die. */
    method Await() returns (dies: bool)
      requires Valid() && !state.task.Idle?
      modifies this
      ensures Valid() && state.task == old(state.task) && state.reimport == old(state.reimport)
      ensures (old(stop) ==> stop) && tokens == old(tokens) && state.visits == old(state.visits)
      ensures row == old(row) || row == old(row).(status := PAUSED)
    {
      if * { var _ := ImportPause(true); }
      dies := *;
    }

    method SaveProgress(status: Status, page: int, imported: int, skipped: int, failed: int) returns (saved: bool)
      modifies `row
      ensures row == if saved then Row(status, page, imported, skipped, failed) else old(row)
    {
      saved := *;
      if saved { row := Row(status, page, imported, skipped, failed); }
    }

    method MarkStatus(status: Status) returns (saved: bool)
      modifies `row
      ensures row == if saved then old(row).(status := status) else old(row)
    {
      saved := *;
      if saved { row := row.(status := status); }
    }

    /** The existence check of one release; `go` tells whether the import of the release follows. */
    method CheckRelease(releaseId: int, reimport: bool, ghost c: Cursor, ghost i: nat, ghost n: nat)
      returns (go: bool, known: bool)
      requires Valid() && OnRelease(state) && state.task == Checking(c, i, n)
      requires Current(state) == Release(releaseId) && state.reimport == reimport
      modifies `events, `state
      ensures Valid() && state.reimport == old(state.reimport)
      ensures known == (releaseId in tokens)
      ensures state.task == if go then Checked(c, i, n, known) else InPage(c.(skipped := c.skipped + 1), i + 1, 0)
    {
      known := releaseId in tokens;
      var checkRaises: bool := *;
      if checkRaises {
        Happened(CheckRaises);
        go := false;
      } else if known && !reimport {
        Happened(CheckFindsToken);
        go := false;
      } else {
        Happened(CheckPasses);
        go := true;
      }
    }

    /** The first half of the import of one release: everything up to the commit of the token. */
    method StoreRelease(releaseId: int, known: bool, ghost c: Cursor, ghost i: nat, ghost n: nat)
      returns (outcome: Outcome)
      requires Valid() && OnRelease(state) && state.task == Checked(c, i, n, known)
      requires Current(state) == Release(releaseId)
      modifies this
      ensures Valid() && state.reimport == old(state.reimport)
      ensures state.task == match outcome
                            case Imported => Stored(c, i, n)
                            case ImportFailed => Checked(c, i, n, known)
                            case Died => Idle
    {
      hide Reaches;
      var dies := Await();
      if dies {
        Happened(Crash);
        return Died;
      }
      if * { return ImportFailed; }
      if !known { tokens := tokens + [releaseId]; }
      Happened(StoreToken);
      return Imported;
    }

    /** The second half: extras and images, then the counter. */
    method CountRelease(ghost c: Cursor, ghost i: nat, ghost n: nat) returns (outcome: Outcome)
      requires Valid() && OnRelease(state) && state.task == Stored(c, i, n)
      modifies this
      ensures Valid() && state.reimport == old(state.reimport)
      ensures state.task == match outcome
                            case Imported => InPage(c.(imported := c.imported + 1), i + 1, 0)
                            case ImportFailed => Stored(c, i, n)
                            case Died => Idle
    {
      hide Reaches;
      var dies := Await();
      if dies {
        Happened(Crash);
        return Died;
      }
      if * { return ImportFailed; }
      Happened(CountImported);
      return Imported;
    }

    /** The import of one release.  `ImportFailed` is left to the caller to count. */
    method ImportRelease(releaseId: int, known: bool, ghost c: Cursor, ghost i: nat, ghost n: nat)
      returns (outcome: Outcome)
      requires Valid() && OnRelease(state) && state.task == Checked(c, i, n, known)
      requires Current(state) == Release(releaseId)
      modifies this
      ensures Valid() && state.reimport == old(state.reimport)
      ensures match outcome
              case Imported => state.task == InPage(c.(imported := c.imported + 1), i + 1, 0)
              case ImportFailed => state.task == Checked(c, i, n, known) || state.task == Stored(c, i, n)
              case Died => state.task == Idle
    {
      hide Reaches;
      outcome := StoreRelease(releaseId, known, c, i, n);
      if outcome.Imported? { outcome := CountRelease(c, i, n); }
    }

    /** A failed import: counted, and the run is given up at the eighth in a row. */
    method CountFailure(page: int, imported: int, skipped: int, failed: int, consecutive: nat, ghost c: Cursor,
                        ghost i: nat)
      returns (givesUp: bool)
      requires Valid() && OnRelease(state) && state.task.c == c && state.task.i == i
      requires state.task.consecutive == consecutive && !state.task.Checking?
      requires c.page == page && c.imported == imported && c.skipped == skipped && c.failed == failed
      modifies `row, `events, `state
      ensures Valid() && state.reimport == old(state.reimport) && (givesUp <==> consecutive + 1 >= 8)
      ensures state.task == if givesUp then Idle else InPage(c.(failed := failed + 1), i + 1, consecutive + 1)
    {
      givesUp := consecutive + 1 >= MAX_CONSECUTIVE_FAILURES;
      var saved := false;
      if givesUp {
        saved := SaveProgress(FAILED, page, imported, skipped, failed + 1);
      }
      Happened(ImportFails(saved));
    }

    /** What is done with a release id: check, import, count. */
    method HandleId(releaseId: int, page: int, imported0: int, skipped0: int, failed0: int, consecutive0: nat,
                    reimport: bool, ghost c: Cursor, ghost i: nat)
      returns (imported: int, skipped: int, failed: int, consecutive: nat, ended: bool)
      requires Valid() && OnRelease(state) && Current(state) == Release(releaseId)
      requires state.reimport == reimport
      requires c.page == page && c.imported == imported0 && c.skipped == skipped0 && c.failed == failed0
      requires state.task == Checking(c, i, consecutive0)
      modifies this
      ensures Valid() && state.reimport == reimport
      ensures state.task == if ended then Idle
                            else InPage(c.(imported := imported, skipped := skipped, failed := failed), i + 1,
                                        consecutive)
    {
      hide Reaches;
      imported, skipped, failed, consecutive, ended := imported0, skipped0, failed0, 0, false;
      var dies := Await();
      if dies {
        Happened(Crash);
        ended := true;
        return;
      }
      var go, known := CheckRelease(releaseId, reimport, c, i, consecutive0);
      if !go {
        skipped := skipped + 1;
        return;
      }
      var outcome := ImportRelease(releaseId, known, c, i, consecutive0);
      match outcome {
        case Died => ended := true;
        case Imported => imported := imported + 1;
        case ImportFailed =>
          ended := CountFailure(page, imported, skipped, failed, consecutive0, c, i);
          failed := failed + 1;
          consecutive := consecutive0 + 1;
      }
    }

    /** One release of a page; `ended` tells whether the task is over.  Under a set stop flag nothing is done. */
    method HandleRelease(release: Entry, page: int, imported0: int, skipped0: int, failed0: int, consecutive0: nat,
                         reimport: bool, ghost c: Cursor, ghost i: nat)
      returns (imported: int, skipped: int, failed: int, consecutive: nat, ended: bool)
      requires Valid() && AtRelease(state) && Current(state) == release && state.reimport == reimport
      requires c.page == page && c.imported == imported0 && c.skipped == skipped0 && c.failed == failed0
      requires state.task == InPage(c, i, consecutive0)
      modifies this
      ensures Valid() && state.reimport == reimport
      ensures state.task == if ended then Idle
                            else InPage(c.(imported := imported, skipped := skipped, failed := failed), i + 1,
                                        consecutive)
      ensures old(stop) ==> ended && tokens == old(tokens) && state.visits == old(state.visits)
      ensures old(stop) ==> row == old(row) || row == Row(PAUSED, page, imported0, skipped0, failed0)
    {
      hide Reaches;
      imported, skipped, failed, consecutive, ended := imported0, skipped0, failed0, consecutive0, false;
      if stop {
        var saved := SaveProgress(PAUSED, page, imported, skipped, failed);
        Happened(StopInPage(saved));
        ended := true;
      } else if release.Missing? {
        failed := failed + 1;
        Happened(CountMissing);
      } else if release.Unreadable? {
        var saved: bool := *;
        if saved { row := row.(status := FAILED, imported := imported); }
        Happened(Escapes(saved));
        ended := true;
      } else {
        Happened(AsksForRelease);
        imported, skipped, failed, consecutive, ended :=
          HandleId(release.id, page, imported0, skipped0, failed0, consecutive0, reimport, c, i);
      }
    }

    /** The loop over the releases of one fetched page; `ended` tells whether the task is over. */
    method ImportPage(page: int, pagesTotal: int, imported0: int, skipped0: int, failed0: int, reimport: bool)
      returns (imported: int, skipped: int, failed: int, ended: bool)
      requires Valid() && HasPage(state, page) && state.reimport == reimport
      requires state.task == InPage(Cursor(page, Some(pagesTotal), imported0, skipped0, failed0), 0, 0)
      modifies this
      ensures Valid() && state.reimport == reimport
      ensures ended ==> state.task == Idle
      ensures !ended ==> state.task.InPage? && state.task.i == |listing[page - 1]|
                         && state.task.c == Cursor(page, Some(pagesTotal), imported, skipped, failed)
    {
      hide Reaches;
      imported, skipped, failed, ended := imported0, skipped0, failed0, false;
      var releases := listing[page - 1];
      var consecutive := 0;
      for i := 0 to |releases|
        invariant Valid() && state.reimport == reimport
        invariant state.task == InPage(Cursor(page, Some(pagesTotal), imported, skipped, failed), i, consecutive)
      {
        ghost var c := Cursor(page, Some(pagesTotal), imported, skipped, failed);
        imported, skipped, failed, consecutive, ended :=
          HandleRelease(releases[i], page, imported, skipped, failed, consecutive, reimport, c, i);
        if ended { return; }
        var dies := Await();
        if dies {
          Happened(Crash);
          ended := true;
          return;
        }
      }
    }

    /** The fetch of one page; when it fails the task is over. */
    method FetchPage(page: int, pagesTotal: Option<int>, imported: int, skipped: int, failed: int)
      returns (ok: bool, total: int)
      requires Valid() && state.task == Fetching(Cursor(page, pagesTotal, imported, skipped, failed))
      modifies this
      ensures Valid() && state.reimport == old(state.reimport)
      ensures ok ==> HasPage(state, page)
      ensures ok ==> state.task == InPage(Cursor(page, Some(total), imported, skipped, failed), 0, 0)
      ensures ok ==> total == if pagesTotal.Some? then pagesTotal.value else |listing|
      ensures !ok ==> state.task == Idle
    {
      hide Reaches;
      var dies := Await();
      if dies {
        Happened(Crash);
        return false, 0;
      }
      var saved: bool := false;
      if * {
        saved := *;
        if saved { row := row.(status := FAILED, imported := imported); }
        Happened(Escapes(saved));
        return false, 0;
      }
      ok := *;
      if !ok || page < 1 || page > |listing| || listing[page - 1] == [] {
        if pagesTotal.None? {
          saved := MarkStatus(FAILED);
        } else {
          saved := SaveProgress(FAILED, page, imported, skipped, failed);
        }
        Happened(FetchFails(saved));
        return false, 0;
      }
      if pagesTotal.None? {
        total := |listing|;
        saved := MarkStatus(RUNNING);
      } else {
        total := pagesTotal.value;
      }
      Happened(FetchOk(saved));
    }

    /** `import_start` / `import_resume`, and the head of the task: status RUNNING, then load the row. */
    method LoadJob(reimport: bool) returns (alive: bool, page: int, imported: int, skipped: int, failed: int)
      requires Valid() && state.task.Idle?
      modifies this
      ensures Valid() && state.reimport == reimport
      ensures state.task == if alive then AtPage(Cursor(page, None, imported, skipped, failed)) else Idle
    {
      hide Reaches;
      row := row.(status := PENDING);
      stop := false;
      Happened(Start(reimport));
      var dies := Await();
      if dies {
        Happened(Crash);
        return false, 0, 0, 0, 0;
      }
      var marked := MarkStatus(RUNNING);
      if * {
        var saved: bool := *;
        if saved { row := row.(status := FAILED, imported := 0); }
        Happened(LoadFails(marked, saved));
        return false, 0, 0, 0, 0;
      }
      Happened(Begin(marked));
      return true, row.lastPage, row.imported, row.skipped, row.failed;
    }

    /** The stop check at the top of the page loop. */
    method StopsHere(ghost c: Cursor) returns (stops: bool)
      requires Valid() && state.task == AtPage(c)
      modifies this
      ensures Valid() && state.reimport == old(state.reimport) && (old(stop) ==> stops)
      ensures state.task == if stops then Idle else Fetching(c)
      ensures row == old(row) || row == old(row).(status := PAUSED)
    {
      hide Reaches;
      var dies := Await();
      if dies {
        Happened(Crash);
      } else if stop {
        var saved := MarkStatus(PAUSED);
        Happened(StopAtPage(saved));
      } else {
        Happened(AsksForPage);
      }
      stops := dies || stop;
    }

    /** Saving a finished page; `last` tells whether the page loop is left. */
    method SaveEndOfPage(page: int, total: int, imported: int, skipped: int, failed: int) returns (last: bool)
      requires Valid() && state.task.InPage? && HasPage(state, page) && state.task.i == |listing[page - 1]|
      requires state.task.c == Cursor(page, Some(total), imported, skipped, failed)
      modifies `row, `events, `state
      ensures Valid() && state.reimport == old(state.reimport) && (!last && total == |listing| ==> page < |listing|)
      ensures var c := Cursor(page, Some(total), imported, skipped, failed);
              state.task == if last then Finishing(c) else AtPage(c.(page := page + 1))
    {
      hide Reaches;
      var saved := SaveProgress(RUNNING, page, imported, skipped, failed);
      Happened(EndPage(saved));
      last := total != 0 && page >= total;
    }

    /** One round of the page loop: stop check, fetch, releases, saving. */
    method RunPage(page: int, pagesTotal: Option<int>, imported0: int, skipped0: int, failed0: int, reimport: bool)
      returns (end: PageEnd, total: int, imported: int, skipped: int, failed: int)
      requires Valid() && state.reimport == reimport && (pagesTotal.Some? ==> pagesTotal.value == |listing|)
      requires state.task == AtPage(Cursor(page, pagesTotal, imported0, skipped0, failed0))
      modifies this
      ensures Valid() && state.reimport == reimport && (end.Next? ==> total == |listing| && page < |listing|)
      ensures state.task == match end
                            case Over => Idle
                            case Last => Finishing(Cursor(page, Some(total), imported, skipped, failed))
                            case Next => AtPage(Cursor(page + 1, Some(total), imported, skipped, failed))
    {
      hide Reaches;
      imported, skipped, failed, total := imported0, skipped0, failed0, 0;
      var stops := StopsHere(Cursor(page, pagesTotal, imported, skipped, failed));
      if stops { return Over, total, imported, skipped, failed; }
      var ok;
      ok, total := FetchPage(page, pagesTotal, imported, skipped, failed);
      if !ok { return Over, total, imported, skipped, failed; }
      var ended;
      imported, skipped, failed, ended := ImportPage(page, total, imported, skipped, failed, reimport);
      if ended { return Over, total, imported, skipped, failed; }
      var last := SaveEndOfPage(page, total, imported, skipped, failed);
      end := if last then Last else Next;
    }

    /** The page loop of `_run_import`. */
    method Run(reimport: bool)
      requires Valid() && state.task.Idle?
      modifies this
      ensures Valid() && state.task.Idle?
    {
      hide Reaches;
      var alive, page, imported, skipped, failed := LoadJob(reimport);
      if !alive { return; }
      var pagesTotal: Option<int> := None;
      while true
        invariant Valid() && state.reimport == reimport && (pagesTotal.Some? ==> pagesTotal.value == |listing|)
        invariant state.task == AtPage(Cursor(page, pagesTotal, imported, skipped, failed))
        decreases |listing| + 1 - page
      {
        var end, total;
        end, total, imported, skipped, failed := RunPage(page, pagesTotal, imported, skipped, failed, reimport);
        if end.Over? { return; }
        if end.Last? { break; }
        pagesTotal := Some(total);
        page := page + 1;
      }
      var saved := SaveProgress(COMPLETED, page, imported, skipped, failed);
      Happened(Finish(saved));
    }

    /** One start or resume of the job, to its end, pause, failure or crash. */
    method RunImport(reimport: bool)
      requires Valid() && state.task.Idle? && Covered(initial) && initial.listing == listing
      modifies this
      ensures Valid() && state.task.Idle?
      ensures Covered(state)
      ensures Unduplicated(initial) ==> Distinct(tokens)
    {
      Run(reimport);
      ImportCoverage(initial, events, state);
      if Unduplicated(initial) { NeverDuplicates(initial, events, state); }
    }
  }

  datatype Outcome = Imported | ImportFailed | Died

  datatype PageEnd = Over | Last | Next
}
