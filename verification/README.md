# MediaCat verification

A Dafny model of the parts of MediaCat whose behaviour is hard to see from one function: the Redis job
queue, the rate-limited connectors, the resumable collection import, the MP4 and WebM walkers and the media
cache, the sales-history valuation, the Discogs merge and runout grouping, the login limiters, schema drift
and biography trimming.  `dafny verify dfyconfig.toml` checks everything.

## What is modelled

**Job queue** (`JobStore`, `JobProtocol`, `JobSafety`, `JobRetries`, `JobSoleCopy`, `JobOrder`,
`JobQueue`, `JobQueueRuns`).  `JobProtocol` is a state machine with one event per Redis command.  Any number of workers
and a fixed number of reapers interleave at every command, and a process may die or get a Redis error after
any of them.  The result of LREM is ignored, as in the code, so a late `fail` pushes a second copy.  `JobSafety`
keeps an exact ledger of the copies of a job; the only way to lose a job that is not completed is a death (or
Redis error) between LREM and LPUSH, and a run in which that happens is given.  `JobRetries` bounds how often a job
is dequeued by a potential over the pending list, the live handles and the snapshots of all reapers, without
assuming that `reap_stale` is atomic; a run that reaches the bound is given for any number of reapers and any job.
`JobSoleCopy` shows that there is exactly one copy when reapers only take abandoned entries, and
`JobOrder` says in which order jobs come out and at what age they are reaped.  `JobQueue` holds the methods themselves,
uninterrupted, and `JobQueueRuns` shows that they are runs of the protocol.

**Connectors** (`RateLimiter`, `RateBounds`, `Connector`, `ConnectorRuns`).  The token bucket runs over real time.  Its documentation
promises at most `rate` requests per period; the code stamps the clock before it sleeps, so a wait is credited
twice and the tight bound is twice the nominal rate.  The model follows the code, proves that bound and runs
that reach it, and gives the exact condition on a run to keep the nominal rate and the documented maximum in every
window.  The circuit breaker is characterised by its history, and the retry loop by its first decisive attempt; the
bound of the limiter and the condition of the breaker are carried over to a connector's whole life, with one request
at a time and (`ConnectorRuns`) with any interleaving of requests.

**Collection import** (`ImportProtocol`, `ImportSafety`, `ImportRuns`, `CollectionImport`).  A state machine of the import
task with pauses, page failures, the abort at eight failures in a row, crashes at any point, dropped status
writes and resumes; and the nested loops themselves, which carry a ghost run of that machine.

**Uploaded media** (`Bytes`, `Mp4`, `Mp4Track`, `Mp4Check`, `Mp4File`, `Ebml`, `MediaCache`).  The box walker of
ISO/IEC 14496-12 section 4.2 and the element walker of RFC 8794 sections 4, 5, 6.1 and 6.2, over arbitrary bytes
and as inverses of writers; the MP4 check as a whole against the box tree; the cache against the list of files by
last use.

**Valuation** (`Sorting`, `Valuation`, `PriceParser`, `PriceRules`).  Prices are integers in ten-thousandths.

**Discogs details** (`CollectionMerge`, `CollectionRoutes`, `StableSort`, `Runouts`), **login limiters** (`LoginLimiter`),
**schema drift** (`SchemaDrift`, `SchemaOrder`), **biographies** (`ArtistBio`), **strings** (`Text`).

Loops and objects that the source updates in place are methods and classes, each proved equal to a specification
function; the results in the table are about those functions.

## Model

| member | source | states |
|---|---|---|
| `JobSafety.Ledger` | mediacat/src/mediacat/ingestion/queue.py:87-183 | for every Redis command, copies of a job (listed or in the memory of a live `fail` / `reap_stale`) are created only by `enqueue` and by an LREM that found nothing, and removed only by `complete` and by a death between LREM and LPUSH |
| `JobSafety.VanishesExactlyWhen` | mediacat/src/mediacat/ingestion/queue.py:114-183 | a command makes a job disappear if and only if it takes the only copy and the job is completed or its holder dies between LREM and LPUSH |
| `JobSafety.NoJobLost` | mediacat/src/mediacat/ingestion/queue.py:87-183 | after every command of every run, an enqueued, uncompleted job whose holder did not die between LREM and LPUSH is in a list or held between LREM and LPUSH |
| `JobSafety.NoJobLostWhileWindowsSurvive` | mediacat/src/mediacat/ingestion/queue.py:87-183 | from an empty queue, while nobody dies inside that window, no uncompleted job is ever gone, whatever else dies |
| `JobSafety.DyingInTheWindowLosesTheJob` | mediacat/src/mediacat/ingestion/queue.py:127-140 | the run that loses a job: a worker dies between the LREM and the LPUSH of `fail` |
| `JobOrder.ReaperInTheWindowLosesTheJob` | mediacat/src/mediacat/ingestion/queue.py:159-182 | the same for a reaper that dies or gets an error between its LREM and its LPUSH |
| `JobRetries.PotentialNeverGrows` | mediacat/src/mediacat/ingestion/queue.py:87-183 | dequeues so far plus what all copies, handles and reaper snapshots can still cause stays within the job's budget at every command |
| `JobRetries.RetriesTerminate` | mediacat/src/mediacat/ingestion/queue.py:123-183 | over every run with any number of non-atomic reapers a job is dequeued at most `Tries` times |
| `JobRetries.TriesIsGeometric` | mediacat/src/mediacat/ingestion/queue.py:132-176 | that bound is the geometric sum of (reapers + 1)^i over the attempts left, for any number of reapers including none |
| `JobRetries.FreshJobOneReaper` | mediacat/src/mediacat/ingestion/queue.py:123-183 | with one reaper a fresh job is dequeued at most 2^m - 1 times |
| `JobRetries.BoundIsReached` | mediacat/src/mediacat/ingestion/queue.py:123-183 | for any number of reapers and any job there is a run in which it is dequeued exactly `Tries` times |
| `JobSoleCopy.ExactlyOneCopy` | mediacat/src/mediacat/ingestion/queue.py:123-183 | when reapers only take abandoned entries, an enqueued job that is neither completed nor lost has exactly one copy, and is dequeued at most as often as it has attempts |
| `JobSoleCopy.HolderIsUnique` | mediacat/src/mediacat/ingestion/queue.py:93-112 | over every run in which reapers only take abandoned entries, no two live workers hold the same job |
| `JobSoleCopy.PendingCopiesHaveAttemptsLeft` | mediacat/src/mediacat/ingestion/queue.py:132-176 | in every run a pending copy is as it was enqueued or has attempts left |
| `JobStore.SumLRem` | mediacat/src/mediacat/ingestion/queue.py:119-169 | LREM takes exactly one equal entry off any weighted count, or nothing when there is none |
| `JobQueue.Queue.Enqueue` | mediacat/src/mediacat/ingestion/queue.py:87-91 | the job is pushed on the left of `pending`; nothing else changes |
| `JobQueue.Queue.Dequeue` | mediacat/src/mediacat/ingestion/queue.py:93-112 | the rightmost pending entry moves to the left of `processing` with its start time, and the handle keeps the entry as its raw bytes |
| `JobQueue.Queue.Complete` | mediacat/src/mediacat/ingestion/queue.py:114-121 | one copy of the raw entry and its start time are removed |
| `JobQueue.Queue.Fail` | mediacat/src/mediacat/ingestion/queue.py:123-141 | the raw entry and start time are removed and the job with one more attempt goes to `pending` or `dead` |
| `JobQueue.Queue.ReapStale` | mediacat/src/mediacat/ingestion/queue.py:143-183 | undisturbed: an entry stays if and only if its recorded start, or its creation when none is recorded, is at most the maximum age ago; the number returned is the number of entries that left; the store is that of the specification `ReapPass` |
| `JobQueue.TakenThenReaped` | mediacat/src/mediacat/ingestion/queue.py:93-168 | a job taken at t0 stays in processing if and only if it was taken at most the maximum age ago, whenever it was created; one without a recorded start, if and only if it was created at most that long ago |
| `JobOrder.ReapedByAge` | mediacat/src/mediacat/ingestion/queue.py:93-183 | over every run: a reaper takes an entry away if and only if, when it asked for the start times, the last stamp of that job that no command had forgotten (or its creation) was more than the maximum age ago |
| `JobOrder.FirstInFirstOut` | mediacat/src/mediacat/ingestion/queue.py:87-176 | over every run: what was dequeued, in order, followed by what is pending, oldest first, is what was there before and everything enqueued or retried since, in order; the dead list holds exactly the jobs that failed without attempts left or without being requeued |
| `JobQueueRuns.ReapStaleIsExact` | mediacat/src/mediacat/ingestion/queue.py:143-183 | undisturbed, the pass removes exactly the stale entries, keeps the others in order and conserves the copies of every job |
| `JobQueueRuns.FailIsARun` | mediacat/src/mediacat/ingestion/queue.py:123-141 | the method `fail` is a run of three protocol events |
| `JobQueueRuns.ReapPassIsARun` | mediacat/src/mediacat/ingestion/queue.py:159-182 | the loop of `reap_stale` is a run of one reaper of the protocol |
| `RateLimiter.TokenBucket.Acquire` | mediacat/src/mediacat/ingestion/base.py:98-112 | the new state and the time of the grant; tokens stay in [0, rate] |
| `RateBounds.TokenLedger` | mediacat/src/mediacat/ingestion/base.py:98-112 | over every run: grants + tokens left + spill = initial tokens + nominal refill + nominal refill of the waiting time once more |
| `RateBounds.GrantsExactly` | mediacat/src/mediacat/ingestion/base.py:98-112 | from any bucket, the number of grants of a run is what the bucket held + the nominal refill up to the last grant + the excess: the waits credited twice without the last sleep, less what is left over and what a full bucket cut off |
| `RateBounds.SpanExactly` | mediacat/src/mediacat/ingestion/base.py:98-112 | the same for any span of calls inside a run, with the bucket as the span finds it |
| `RateBounds.NominalExactly` | mediacat/src/mediacat/ingestion/base.py:98-112 | from any bucket, a run stays within the tokens at hand and the nominal refill between any two of its grants if and only if no span has a positive excess |
| `RateBounds.NominalWithoutEarlierWaits` | mediacat/src/mediacat/ingestion/base.py:98-112 | a span in which no call but the last one has to wait keeps the nominal rate, wherever it lies in a run |
| `RateBounds.WindowExactly` | mediacat/src/mediacat/ingestion/base.py:98-112 | for any run from any bucket, any window and any number: at most that many grants fall into the window if and only if for every span of grants in it tokens at hand + nominal refill + excess are at most that |
| `RateBounds.DocumentedMaximumExactly` | mediacat/src/mediacat/ingestion/base.py:80-112 | every period, wherever it lies in a run, has at most `rate` grants if and only if for every span of grants within one period tokens at hand + nominal refill + excess are at most `rate` |
| `RateBounds.MaximumByTimes` | mediacat/src/mediacat/ingestion/base.py:80-112 | the same on times alone: if and only if any rate + 1 calls in a row are granted more than a period apart |
| `RateBounds.PeriodWithoutWaits` | mediacat/src/mediacat/ingestion/base.py:80-112 | grants within one period of which none but the last had to wait are at most 2 rate |
| `RateBounds.DocumentedMaximumFails` | mediacat/src/mediacat/ingestion/base.py:80-112 | for every limiter a legal run with 1 + 2 rate grants in its first period |
| `RateBounds.RateBound` | mediacat/src/mediacat/ingestion/base.py:91-112 | any run grants at most 1 + 2 rate/period T acquisitions in the first T seconds |
| `RateBounds.WindowBound` | mediacat/src/mediacat/ingestion/base.py:91-112 | any window of T seconds holds at most rate + 1 + 2 rate/period T grants |
| `RateBounds.RateBoundIsReached` | mediacat/src/mediacat/ingestion/base.py:91-112 | for every limiter and n a legal run is granted exactly 1 + 2n acquisitions by the time n nominal tokens are earned |
| `RateBounds.WindowBoundIsReached` | mediacat/src/mediacat/ingestion/base.py:91-112 | for every limiter and n a legal run with exactly rate + 1 + 2n grants in a window that earns n nominal tokens |
| `Connector.CircuitBreaker.Open` | mediacat/src/mediacat/ingestion/base.py:137-141 | open exactly while stamped and younger than the recovery time |
| `Connector.CircuitBreaker.RecordFailure` | mediacat/src/mediacat/ingestion/base.py:147-155 | counts the failure and stamps the breaker from the threshold on |
| `Connector.BreakerFollowsHistory` | mediacat/src/mediacat/ingestion/base.py:131-155 | over every history the counter is the number of failures since the last success, and the breaker is stamped (with the last failure) if and only if that number reached the threshold |
| `Connector.OpenExactlyWhen` | mediacat/src/mediacat/ingestion/base.py:137-155 | open if and only if the threshold was reached and the last failure is younger than the recovery time |
| `Connector.BaseConnector.DoRequest` | mediacat/src/mediacat/ingestion/base.py:260-346 | the retry loop, with limiter and breaker updated in place, is the specification `Request`; it adds exactly the acquisitions of the requests it sent to the calls of the connector and its reports to all that the breaker was ever told, and is refused if and only if the failures since the last success of the whole life reach the threshold and the last one is recent |
| `Connector.BaseConnector.SentBound` | mediacat/src/mediacat/ingestion/base.py:260-346 | over the whole life of a connector at most 1 + 2 rate/period T of the requests it sent went out in its first T seconds |
| `Connector.RequestOutcome` | mediacat/src/mediacat/ingestion/base.py:279-346 | an open breaker sends nothing; otherwise one request per attempt up to the first decisive one, at most max_retries; it returns if and only if that one is a reply, and the breaker was told of exactly these attempts |
| `Connector.UsedUp` | mediacat/src/mediacat/ingestion/base.py:338-346 | when no attempt is decisive: the last failure that was not a 429 is raised; when all were 429s, an error with their number |
| `Connector.RequestKeepsHistory` | mediacat/src/mediacat/ingestion/base.py:131-346 | after any history of reports: refused exactly by that condition, and otherwise the breaker is that of the history with the reports of this request |
| `Connector.SleptExactly` | mediacat/src/mediacat/ingestion/base.py:294-336 | a request that is let in sleeps exactly the delays after the attempts before the first decisive one: base 2^i up to the maximum after failure i, none after the last attempt, and min(Retry-After, maximum) after a 429 |
| `Connector.FailuresDouble` | mediacat/src/mediacat/ingestion/base.py:334-336 | d failures below the maximum delay and then a decisive attempt sleep exactly base (2^d - 1); when all n attempts fail, base (2^(n - 1) - 1) |
| `Connector.BackoffBound` | mediacat/src/mediacat/ingestion/base.py:306-334 | back-off is at most max_retries times max_delay, and without a 429 at most base_delay (2^(max_retries - 1) - 1) |
| `Connector.RequestsAreOneRun` | mediacat/src/mediacat/ingestion/base.py:279-346 | successive requests, each legal when it is made, are together one legal run of the limiter with exactly one acquisition per HTTP request sent |
| `Connector.ConnectorRateBound` | mediacat/src/mediacat/ingestion/base.py:279-346 | whatever the server answers, at most 1 + 2 rate/period T of the HTTP requests of any sequence of requests go out in the first T seconds |
| `ConnectorRuns.InterleavedRateBound` | mediacat/src/mediacat/ingestion/base.py:91-346 | for any interleaving of any number of requests there is one acquisition per HTTP request sent, and at most 1 + 2 rate/period T of them in the first T seconds |
| `ConnectorRuns.InterleavedRefusal` | mediacat/src/mediacat/ingestion/base.py:131-282 | in any interleaving a request is refused if and only if the failures that all requests together reported since the last success reach the threshold and the last one is recent |
| `ConnectorRuns.InterleavedLikeAlone` | mediacat/src/mediacat/ingestion/base.py:279-346 | in any interleaving a request that was let in sends as many HTTP requests and ends with the same verdict as alone on its own attempts |
| `ConnectorRuns.RequestIsARun` | mediacat/src/mediacat/ingestion/base.py:260-346 | a request made while nobody else moves is a run of the interleaving, from any state, with the same verdict, requests sent, limiter and breaker |
| `ImportSafety.ImportCoverage` | mediacat/src/mediacat/web/admin.py:973-1229 | the invariant of every run: pages before the saved `last_page` are visited, a COMPLETED job has visited everything |
| `ImportSafety.ImportCoverageFromScratch` | mediacat/src/mediacat/web/admin.py:973-1229 | for every listing and every sequence of pauses, failures, aborts, crashes and resumes, each release before the stored `last_page`, or any release of a COMPLETED job, was visited |
| `ImportSafety.CompletedHasTokens` | mediacat/src/mediacat/web/admin.py:996-1229 | whatever happened before, a COMPLETED job whose row counts no failure has a token for every listed release, except for releases whose existence check once raised |
| `ImportSafety.MissingExactly` | mediacat/src/mediacat/web/admin.py:996-1229 | at such a job a release has no token if and only if it had none at first and none was ever created, and then the existence check of every position that holds it has raised |
| `ImportRuns.RaisedChecksLoseReleases` | mediacat/src/mediacat/web/admin.py:1071-1079 | for every listing and any tokens at first, a run that is COMPLETED without a failure and without a new token: a raised check counts as skipped |
| `ImportRuns.SecondRunSkips` | mediacat/src/mediacat/web/admin.py:1041-1070 | when every listed release has its token, a run that is no reimport goes through, skips all of them and creates none |
| `ImportRuns.PassedCheckStillLost` | mediacat/src/mediacat/web/admin.py:1071-1079 | for every listing such a run in which a check had passed before the process died |
| `ImportSafety.NeverDuplicates` | mediacat/src/mediacat/web/admin.py:1041-1138 | over any number of runs, with reimport or without, no two live tokens share a release id, even when the listing repeats one, and no token disappears |
| `ImportSafety.CountsEveryVisit` | mediacat/src/mediacat/web/admin.py:996-1203 | in every reachable state the three counters of the running task have grown by exactly the lengths of the pages between the loaded page and the current one plus the place in it |
| `ImportSafety.VisitsAreHandlings` | mediacat/src/mediacat/web/admin.py:1025-1203 | over every run the visits are exactly the events that finish with a release |
| `ImportSafety.SavedCountFallsExactly` | mediacat/src/mediacat/web/admin.py:993-1246 | over any history the saved number of imported releases falls if and only if the loading of the job row raises and that failure is saved |
| `ImportSafety.SavedCountsFromScratch` | mediacat/src/mediacat/web/admin.py:993-1246 | over every run whose writes go through and that never crashes, with any pauses, failures, aborts and resumes: when the task is over the saved counts are those of all releases handled, and the job is not left RUNNING |
| `ImportSafety.FailureIsSaved` | mediacat/src/mediacat/web/admin.py:998-1246 | after any history a page that fails, an exception that escapes or a row that cannot be loaded ends the task as FAILED, with the page to redo |
| `ImportRuns.FailedLoadLosesCount` | mediacat/src/mediacat/web/admin.py:980-1246 | for every listing a run that saves one imported release and later overwrites that count with zero |
| `ImportSafety.PauseStops` | mediacat/src/mediacat/web/admin.py:639-657 | over every run: after a pause of a live task and before the next start the stop flag stays set and at most one more page is fetched or release handled, the one that was under way |
| `ImportSafety.StopsOnlyWhenPaused` | mediacat/src/mediacat/web/admin.py:990-1035 | without a pause no run stops for one or marks the job PAUSED |
| `ImportSafety.CounterIsStreak` | mediacat/src/mediacat/web/admin.py:1025-1203 | after every history the counter of the task is the number of imports that failed since the last imported or skipped release or the start of the page |
| `ImportSafety.AbortsAtTheEighth` | mediacat/src/mediacat/web/admin.py:1168-1203 | after every history a failing import aborts the run if and only if seven failed before it in a row, and the page that is saved is the one to redo |
| `CollectionImport.ImportJob.RunImport` | mediacat/src/mediacat/web/admin.py:920-1250 | every run of the nested loops, for every choice of failures, pauses and crashes, keeps coverage and uniqueness |
| `CollectionImport.ImportJob.ImportPage` | mediacat/src/mediacat/web/admin.py:1024-1206 | the loop over one page is a run of the state machine that ends the task or has handled every release |
| `CollectionImport.ImportJob.ImportPause` | mediacat/src/mediacat/web/admin.py:637-657 | a pause sets the stop flag of a live task and the status, and nothing else |
| `CollectionImport.ImportJob.HandleRelease` | mediacat/src/mediacat/web/admin.py:1026-1203 | with the stop flag set nothing is done to the release: the task ends, no token is created, and the row is saved as PAUSED at this page or left alone |
| `CollectionImport.ImportJob.StopsHere` | mediacat/src/mediacat/web/admin.py:990-992 | with the stop flag set the page loop ends |
| `CollectionImport.ImportJob.LoadJob` | mediacat/src/mediacat/web/admin.py:661-707 | start and resume take page and counters from the saved row |
| `Mp4.WalkBoxes` | mediacat/src/mediacat/web/background.py:183-199 | the loop yields the boxes of the specification, and says whether it raised |
| `Mp4.BoxesTile` | mediacat/src/mediacat/web/background.py:183-199 | on any bytes the boxes tile a prefix of [start, end); the walk ends normally if and only if fewer than 8 bytes are left, and raises only at a header that does not fit |
| `Mp4.BoxesLocal` | mediacat/src/mediacat/web/background.py:183-199 | the walk depends on nothing outside [start, end) |
| `Mp4.BoxesRoundTrip` | mediacat/src/mediacat/web/background.py:183-199 | for every forest written with 32-bit, 64-bit or final size-0 headers the walk yields exactly that forest |
| `Mp4.ContentReadsBack` | mediacat/src/mediacat/web/background.py:198-218 | the payload of every box read back is the content written |
| `Mp4Track.TrackReader.Walk` | mediacat/src/mediacat/web/background.py:208-218 | the recursive walk that updates width, height, handler and codec is the specification `WalkTrack` |
| `Mp4Track.TrackLocal` | mediacat/src/mediacat/web/background.py:202-223 | the recursive walk never looks outside its `trak` box |
| `Mp4Track.TrackRoundTrip` | mediacat/src/mediacat/web/background.py:202-223 | for every written tree the walk finds what reading the tree in document order finds |
| `Mp4Track.NoHeaderNoSize` | mediacat/src/mediacat/web/background.py:202-223 | a video track without a track header has width and height zero |
| `Mp4Check.CheckMp4` | mediacat/src/mediacat/web/background.py:226-253 | the check, whose every read is inside the data, is the specification `ReadMp4` |
| `Mp4Check.FileRoundTrip` | mediacat/src/mediacat/web/background.py:226-253 | for every box tree, in any mix of header forms, the check of the file gives the verdict, codec, dimensions, duration and fast-start flag read off the tree |
| `Mp4File.FileReads` | mediacat/src/mediacat/web/background.py:202-253 | from the values: a file written field by field with sound and video tracks is refused for its size, format, dimensions or duration, in this order, or accepted with exactly its width, height, codec, duration and fast-start flag |
| `Mp4File.SoundOnlyRefused` | mediacat/src/mediacat/web/background.py:246-247 | a file without a video track is refused as corrupt |
| `Mp4Check.CorruptMovieRefused` | mediacat/src/mediacat/web/background.py:236-237 | a movie box that does not divide into boxes makes the file corrupt, on any bytes |
| `Ebml.ReadVintLength` | mediacat/src/mediacat/web/background.py:265-274 | the bit-testing loop finds the announced length, or raises |
| `Ebml.SizeRoundTrip` | mediacat/src/mediacat/web/background.py:283-288 | every value below 2^(7n) - 1 written on n bytes (1 to 8) decodes to itself and consumes n bytes; all ones decodes to "unknown" |
| `Ebml.IdRoundTrip` | mediacat/src/mediacat/web/background.py:277-280 | every id written on n bytes decodes to itself with its marker bit |
| `Ebml.WalkElements` | mediacat/src/mediacat/web/background.py:291-303 | the loop yields the elements of the specification, and says whether it raised |
| `Ebml.ElementsChain` | mediacat/src/mediacat/web/background.py:291-303 | on any bytes: strict progress, every end within `end`, every header within the data, no cluster yielded; ends normally if and only if `end` or a cluster is reached; payloads are in order except for a last unknown-size element whose header passes `end` |
| `Ebml.ElementsRoundTrip` | mediacat/src/mediacat/web/background.py:291-303 | for every written sequence the walk yields exactly the elements before the first cluster, for all widths |
| `MediaCache.Cache.Put` | mediacat/src/mediacat/web/background.py:508-511 | stores the file and drops the oldest entries as `Evict` says; a file that is already there changes nothing |
| `MediaCache.Cache.Serve` | mediacat/src/mediacat/web/background.py:540-557 | a hit returns the stored bytes and moves the file to the end; a miss fetches and stores it, or fails and changes nothing |
| `MediaCache.EvictKeepsLongestSuffix` | mediacat/src/mediacat/web/background.py:508-511 | what is kept is the longest non-empty suffix that fits |
| `MediaCache.CacheIsBounded` | mediacat/src/mediacat/web/background.py:508-511 | after storing, the cache is within its bytes or holds a single file |
| `MediaCache.CacheIsLeastRecentlyUsed` | mediacat/src/mediacat/web/background.py:508-557 | after any sequence of served requests the cache is the list of all files by last use, cut to its longest suffix that fits |
| `MediaCache.Cache.IsLeastRecentlyUsed` | mediacat/src/mediacat/web/background.py:540-557 | the same of the cache object after any sequence of its calls |
| `MediaCache.LateStoreExactly` | mediacat/src/mediacat/web/background.py:508-557 | when two requests missed the same file at once, the second store keeps the cache least-recently-used if and only if that file is still the last one used |
| `MediaCache.LateStoreOfOlder` | mediacat/src/mediacat/web/background.py:508-557 | a run in which it fails: any two files that fit, and a late store of the older one |
| `MediaCache.BudgetIsKept` | mediacat/src/mediacat/web/background.py:497-511 | with the real limits the cache never exceeds 150 MiB when no file has more than 50 MiB |
| `MediaCache.ThreeLargestFit` | mediacat/src/mediacat/web/background.py:497-511 | and three files of that size stay in it together |
| `Valuation.ApplyOutlierDetection` | mediacat/src/mediacat/ingestion/discogs_sales_parser.py:312-340 | flags the rows in place as the fence says and counts the prices outside it |
| `Valuation.FlaggedExactly` | mediacat/src/mediacat/ingestion/discogs_sales_parser.py:312-340 | with five rows or more a row is flagged, if it was not before, exactly when its price lies more than three interquartile ranges outside the quartiles at n/4 and 3n/4; fewer rows stay as they are |
| `Valuation.StatisticsExactly` | mediacat/src/mediacat/ingestion/valuation_confidence.py:163-190 | of the unflagged prices: their number, the least, the greatest, and as median the one of which fewer than half are smaller and at least half not greater |
| `Valuation.RobustMedian` | mediacat/src/mediacat/ingestion/valuation_confidence.py:163-190 | for five rows or more the unflagged prices are a block of the sorted prices around both quartile positions, fewer than half are flagged, and the median is an observed price between the quartiles of the full set |
| `Valuation.InsideIsABlock` | mediacat/src/mediacat/ingestion/discogs_sales_parser.py:325-337 | the sorted prices inside the fence are exactly one block that contains indices n/4 to 3n/4 |
| `Valuation.OrderFree` | mediacat/src/mediacat/ingestion/discogs_sales_parser.py:325-339 | permuting the rows changes neither the fence nor which rows are flagged nor the statistics |
| `Valuation.ScaleEquivariant` | mediacat/src/mediacat/ingestion/valuation_confidence.py:163-190 | multiplying all prices by any fraction a/b > 0 keeps the flags and multiplies low, median and high by it |
| `Sorting.SortIs` | mediacat/src/mediacat/ingestion/discogs_sales_parser.py:325-325 | any sorted rearrangement is the sorted copy |
| `PriceParser.ParsePriceAndCurrency` | mediacat/src/mediacat/ingestion/discogs_sales_parser.py:441-521 | the two marker loops and the separator rules compute the specification `Parsed` |
| `PriceParser.SymbolRoundTrip` | mediacat/src/mediacat/ingestion/discogs_sales_parser.py:441-521 | every amount from 0.01 to 99,999.00, US or European, grouped or not, with any listed symbol before or after it, reads back exactly; no AU$, NZ$, CA$, C$ or A$ is taken for $ |
| `PriceParser.CodeRoundTrip` | mediacat/src/mediacat/ingestion/discogs_sales_parser.py:472-482 | the same for every ISO code, in whatever order the set of codes is enumerated |
| `PriceParser.WholeSymbolRoundTrip` | mediacat/src/mediacat/ingestion/discogs_sales_parser.py:502-511 | whole amounts from 1 to 99,999, plain or grouped by a comma, with any symbol and placement read back exactly: a lone comma in front of three digits is a thousands separator |
| `PriceParser.WholeCodeRoundTrip` | mediacat/src/mediacat/ingestion/discogs_sales_parser.py:502-511 | the same for every ISO code |
| `PriceParser.PointGroupsShrink` | mediacat/src/mediacat/ingestion/discogs_sales_parser.py:492-511 | a whole amount grouped by a point is read as a thousandth of it |
| `PriceRules.NumeralReads` | mediacat/src/mediacat/ingestion/discogs_sales_parser.py:513-516 | digits with an optional sign, point and power of ten are read as the number they denote |
| `PriceRules.QuantizeIsNearest` | mediacat/src/mediacat/ingestion/discogs_sales_parser.py:514-514 | four decimals are exact; more are rounded to the nearest, an even one when two are equally near |
| `PriceRules.LimitsAreExact` | mediacat/src/mediacat/ingestion/discogs_sales_parser.py:513-521 | every amount from 0.0001 to 99,999.0000 is accepted exactly, and zero and anything larger refused |
| `PriceRules.NegativeRefused` | mediacat/src/mediacat/ingestion/discogs_sales_parser.py:518-519 | negative amounts are refused |
| `PriceRules.BlankGroups` | mediacat/src/mediacat/ingestion/discogs_sales_parser.py:487-488 | thousands grouped by blanks or no-break spaces are read |
| `PriceParser.QuotesAreBounded` | mediacat/src/mediacat/ingestion/discogs_sales_parser.py:513-521 | whatever the cell holds, a result is positive, at most 99,999 and in an allowed currency |
| `PriceParser.SymbolsDistinct` | mediacat/src/mediacat/ingestion/discogs_sales_parser.py:89-100 | no symbol is hidden by one that is tried before it |
| `PriceParser.NormalisedPlain` | mediacat/src/mediacat/ingestion/discogs_sales_parser.py:492-509 | both separator conventions are brought to the same plain decimal |
| `CollectionMerge.MergeCollection` | mediacat/src/mediacat/ingestion/discogs_extras.py:347-382 | the loop over the fields computes the specification `Merged` |
| `CollectionMerge.MergeKeepsEdits` | mediacat/src/mediacat/ingestion/discogs_extras.py:347-382 | a field is pending after a merge if and only if it is still defined, was pending and its local value is not what Discogs now holds; then the local value is kept, every other field follows Discogs |
| `CollectionMerge.MergeKeepsIds` | mediacat/src/mediacat/ingestion/discogs_extras.py:347-382 | instance and folder id are those of Discogs when it gives some that are not zero, and else stay |
| `CollectionMerge.MergeTwice` | mediacat/src/mediacat/ingestion/discogs_extras.py:347-382 | merging the same Discogs state twice equals merging it once but for the time stamp, whatever was stored |
| `CollectionMerge.EditSurvives` | mediacat/src/mediacat/ingestion/discogs_extras.py:347-382 | with one route at a time: over any run of merges, write-backs and saves that keep its value (the form may send it back) an edit survives, with its value, exactly until Discogs holds or accepts it or the field is removed; clean fields stay clean |
| `CollectionMerge.LastEditDecides` | mediacat/src/mediacat/web/discogs_details.py:308-325 | with one route at a time, over every run whatever the saves hold: the last save that changes a field decides; at the end the field is pending, with the saved value, if and only if that save left it pending and nothing has settled it since |
| `CollectionMerge.UneditedFollowsDiscogs` | mediacat/src/mediacat/ingestion/discogs_extras.py:347-382 | with one route at a time: from the first merge on, over any run whose saves keep its value, a field shows what was last known to be on Discogs |
| `CollectionMerge.ResubmittingExactly` | mediacat/src/mediacat/web/discogs_details.py:314-318 | a save that sends back the shown value of a clean field makes it pending if and only if stripping changes that value |
| `CollectionMerge.StaysCleanExactly` | mediacat/src/mediacat/web/discogs_details.py:314-318 | over any run in which the form sends back what it showed, a field stays clean if and only if no save meets a value that stripping changes |
| `CollectionMerge.OuterBlankBecomesPending` | mediacat/src/mediacat/web/discogs_details.py:314-318 | an instance: a value with an outer blank, taken from Discogs, is pending after an unchanged form is saved |
| `CollectionMerge.StaleFormPutsBack` | mediacat/src/mediacat/web/discogs_details.py:314-318 | a form opened before a newer edit puts back the value it showed, whatever the newer edit was |
| `CollectionRoutes.StoredFollowsLineage` | mediacat/src/mediacat/web/discogs_details.py:112-325 | for any overlap of routes the stored state is that of the sequence of those routes alone that it descends from |
| `CollectionRoutes.OverwrittenLeavesNothing` | mediacat/src/mediacat/web/discogs_details.py:112-325 | nothing of what a route did is left in a state that does not descend from its store |
| `CollectionRoutes.KeptExactly` | mediacat/src/mediacat/web/discogs_details.py:112-325 | all later states descend from a store if and only if no later store comes from a state loaded before it |
| `CollectionRoutes.EditSurvivesOverlaps` | mediacat/src/mediacat/web/discogs_details.py:112-325 | for any overlap of routes an edit stays pending with its value in a state that descends from it, as long as the saves on the way keep that value, exactly until it is settled along that descent |
| `CollectionRoutes.LastEditDecidesOverlaps` | mediacat/src/mediacat/web/discogs_details.py:112-325 | for any overlap of routes and whatever they save: of the saves that a state descends from, the last one that changes the field decides |
| `CollectionRoutes.RefreshLosesOrKeeps` | mediacat/src/mediacat/web/discogs_details.py:193-228 | for every edit of a clean field and every refresh that finds another value: begun after the edit was stored, it keeps the edit; begun before, it overwrites it and nothing is pending |
| `CollectionMerge.SaveForm` | mediacat/src/mediacat/web/discogs_details.py:314-318 | exactly the submitted fields get their stripped values |
| `CollectionMerge.WriteBack` | mediacat/src/mediacat/web/discogs_details.py:251-295 | sends the pending fields in order until one fails and reports how many were written |
| `CollectionMerge.WriteBackShrinks` | mediacat/src/mediacat/web/discogs_details.py:251-295 | write-back takes exactly the accepted fields off the pending list, in order; a failure half-way leaves precisely the rest |
| `CollectionMerge.NothingSentWithoutIds` | mediacat/src/mediacat/web/discogs_details.py:258-262 | without an instance id and a folder id nothing is sent |
| `CollectionMerge.View` | mediacat/src/mediacat/ingestion/discogs_extras.py:385-424 | each field with value and pending mark, the number of pending fields, the well-known values |
| `CollectionMerge.KnownIsFirst` | mediacat/src/mediacat/ingestion/discogs_extras.py:409-411 | a well-known key has a value if and only if some field of that key is filled, and then that of the first |
| `Runouts.GroupRunouts` | mediacat/src/mediacat/ingestion/discogs_extras.py:169-231 | the loop over the identifiers and the sorting compute the specification `Result` |
| `Runouts.GroupingIs` | mediacat/src/mediacat/ingestion/discogs_extras.py:190-208 | the nested dictionaries hold, for every variant and LP, exactly the entries that filters select, in listing order |
| `Runouts.SidesAreStablySorted` | mediacat/src/mediacat/ingestion/discogs_extras.py:190-231 | every matrix identifier stands exactly once under its variant and slot; sides are stably sorted, LPs increase strictly, loose entries keep their order |
| `Runouts.VariantsAreOrdered` | mediacat/src/mediacat/ingestion/discogs_extras.py:210-231 | one block per variant, numbers non-decreasing, unnumbered last, and as many identifiers as `runout_count` says |
| `Runouts.NothingDropped` | mediacat/src/mediacat/ingestion/discogs_extras.py:194-198 | every cleaned identifier is either placed or listed under "other" |
| `Runouts.CleanedExactly` | mediacat/src/mediacat/ingestion/discogs_extras.py:122-138 | cleaning strips every part, drops identifiers without a value and keeps the others in order |
| `Runouts.PlacedBySide` | mediacat/src/mediacat/ingestion/discogs_extras.py:190-208 | an identifier whose description names a side stands on that side of its LP; one that names none is loose, with its note or else its description |
| `Runouts.LabelExactly` | mediacat/src/mediacat/ingestion/discogs_extras.py:158-166 | the title of a variant: its number, "Label" when all its entries are described as label matrices, else "Unnumbered" |
| `Runouts.SidesRoundTrip` | mediacat/src/mediacat/ingestion/discogs_extras.py:59-78 | `side_to_lp` leads from the two letters of an LP back to it |
| `Runouts.SidesByNumber` | mediacat/src/mediacat/ingestion/discogs_extras.py:59-73 | sides that are numbers: odd ones are the front of an LP, even ones its back; zero is no side |
| `Runouts.OtherSides` | mediacat/src/mediacat/ingestion/discogs_extras.py:59-73 | several letters or another sign are no side; small letters are as capital ones |
| `StableSort.SortByIsStable` | mediacat/src/mediacat/ingestion/discogs_extras.py:214-222 | the sort is ordered, keeps the elements and the order of ties |
| `LoginLimiter.LoginRateLimiter.RecordFailure` | mediacat/src/mediacat/web/auth.py:165-171 | the pruned list keeps agreeing with the full history on every later window |
| `LoginLimiter.LoginRateLimiter.IsLocked` | mediacat/src/mediacat/web/auth.py:173-178 | locked if and only if at least max failures since the last clear lie strictly inside the window |
| `LoginLimiter.LoginRateLimiter.Clear` | mediacat/src/mediacat/web/auth.py:180-182 | forgets exactly the failures of that key |
| `LoginLimiter.RedisLoginRateLimiter.RecordFailure` | mediacat/src/mediacat/web/auth.py:214-223 | the three commands, arriving at three times, keep the sorted set tied to the history of kept failures; the failure is forgotten exactly when the old key expires between the first and the last of them |
| `LoginLimiter.RedisLoginRateLimiter.IsLocked` | mediacat/src/mediacat/web/auth.py:225-230 | despite pruning and expiry the count lies between the open and the closed window of the full history, and is given exactly |
| `LoginLimiter.RecordKeptExactly` | mediacat/src/mediacat/web/auth.py:218-223 | a new failure is in the set after the three commands if and only if the window is positive and the old key does not expire between the ZADD and the EXPIRE |
| `LoginLimiter.RecordedStores` | mediacat/src/mediacat/web/auth.py:218-223 | what is stored then is tied to the history with the new failure; in the straddling case to none, and no later window reaches any other failure |
| `LoginLimiter.ExpiryHidesNothing` | mediacat/src/mediacat/web/auth.py:222-229 | when the key has expired, no failure of the history is in any later window |
| `LoginLimiter.StraddlingExpiryForgets` | mediacat/src/mediacat/web/auth.py:219-223 | a run that forgets: failures at 0 and 959, the second straddling the expiry at 960, are counted as none at 961 |
| `SchemaDrift.ExtractSchema` | mediacat/src/mediacat/ingestion/drift.py:68-85 | the recursive loop over the fields computes the specification `Schema` |
| `SchemaDrift.SchemaIsFaithful` | mediacat/src/mediacat/ingestion/drift.py:68-85 | for keys that are not empty and have no dots, two payloads have equal schemas if and only if they have the same shape |
| `SchemaDrift.FaithfulExactly` | mediacat/src/mediacat/ingestion/drift.py:68-85 | for any payload: its schema tells it from every payload of another shape, and from no other, if and only if no container path in it has another path below it and no path is empty |
| `SchemaDrift.SameSchemaOtherShape` | mediacat/src/mediacat/ingestion/drift.py:68-85 | otherwise there is a payload of another shape with the same schema |
| `SchemaDrift.PlainAmbiguous` | mediacat/src/mediacat/ingestion/drift.py:68-85 | for keys that are not empty and have no dots that is so if and only if the payload holds a non-empty nested object or list |
| `SchemaDrift.DottedKeysCollide` | mediacat/src/mediacat/ingestion/drift.py:75-76 | with a dot in a key two different shapes have the same schema |
| `SchemaOrder.OrderMattersExactly` | mediacat/src/mediacat/ingestion/drift.py:68-85 | for any payload: every payload of the same shape has the same schema, so that the order of fields raises no false alarm, if and only if it writes no path with two type names |
| `SchemaOrder.PlainNeverClashes` | mediacat/src/mediacat/ingestion/drift.py:68-85 | with keys that are not empty and have no dots that is always so |
| `SchemaOrder.OrderMatters` | mediacat/src/mediacat/ingestion/drift.py:68-85 | an instance of a false alarm: the same two fields in the other order have another schema |
| `SchemaDrift.DetectDrift` | mediacat/src/mediacat/ingestion/drift.py:108-136 | exactly the added, removed and changed paths; drift if and only if the schema differs; a missing snapshot is written and reports none |
| `SchemaDrift.ObserveTwice` | mediacat/src/mediacat/ingestion/drift.py:109-125 | against the snapshot of an earlier payload, drift is reported if and only if the shape changed |
| `ArtistBio.TrimBio` | mediacat/src/mediacat/ingestion/artist_bio.py:166-189 | the loop over the paragraphs computes the specification `Trimmed` |
| `ArtistBio.TrimmedFits` | mediacat/src/mediacat/ingestion/artist_bio.py:158-189 | the result minus a trailing ellipsis is a prefix of the joined paragraphs, of at most max_chars characters, or one more exactly when the cut head has no blank |
| `ArtistBio.UnbrokenParagraphOverruns` | mediacat/src/mediacat/ingestion/artist_bio.py:158-189 | a first paragraph without blanks that is longer than the maximum gives one character more than the maximum |
| `ArtistBio.DefaultLimitOverruns` | mediacat/src/mediacat/ingestion/artist_bio.py:158-189 | 2501 characters with the default limits of 1200 and 2500 |
| `ArtistBio.WholeStops` | mediacat/src/mediacat/ingestion/artist_bio.py:175-188 | paragraphs are taken whole while they fit and the minimum is not reached, and no longer |
| `ArtistBio.CutExactly` | mediacat/src/mediacat/ingestion/artist_bio.py:158-163 | a text that is too long is cut at the last sentence that ends inside the limit when that lies beyond a third of it, and else at the last blank, or the limit, with an ellipsis |
| `ArtistBio.TrimmedExactly` | mediacat/src/mediacat/ingestion/artist_bio.py:166-189 | the whole rule: which paragraphs are taken with a blank line between them, and that the next one is cut to the room when there is room for more than 200 characters |
| `ArtistBio.CutFits` | mediacat/src/mediacat/ingestion/artist_bio.py:158-163 | a cut text ends at a sentence inside the limit or in an ellipsis, and exceeds the limit exactly when there is no blank to cut at |

## Where the code falls short of its description

- Job queue: a crash between LREM and LPUSH loses the job; `VanishesExactlyWhen` is the exact condition.
- Rate limiter: the documented maximum of `rate` requests per period does not hold (`DocumentedMaximumFails`);
  `DocumentedMaximumExactly` and `MaximumByTimes` say which runs keep it in every period, `NominalExactly` which keep the nominal rate
  throughout, and `RateBound`, `WindowBound` and `PeriodWithoutWaits` give the bounds that do hold.
- Collection merge: a refresh that overlaps an edit overwrites it, although merging promises to keep local edits
  (`RefreshLosesOrKeeps`); `KeptExactly` and `EditSurvivesOverlaps` say exactly when an edit survives.
- Collection form: it sends back every field, stripped, so saving it can make fields pending that nobody changed
  (`OuterBlankBecomesPending`; `StaysCleanExactly` is the exact condition), and a form that was opened before a newer
  edit undoes that edit (`StaleFormPutsBack`).
- Collection import: a release whose existence check raises is counted as skipped and may never be imported
  (`RaisedChecksLoseReleases`, `MissingExactly`), and the saved count can be overwritten with zero
  (`FailedLoadLosesCount`, `SavedCountFallsExactly`).
- Media cache: two simultaneous misses of a file can leave it in its old place (`LateStoreOfOlder`, `LateStoreExactly`).
- Redis login limiter: the pipeline is no transaction, and a record that straddles the expiry of the old key is
  forgotten (`StraddlingExpiryForgets`); `RecordKeptExactly` is the exact condition.
- Schema drift: a schema can hide a changed shape; `FaithfulExactly` is the exact condition on the snapshot's payload.
  It can also report drift when only the order of the fields changed (`OrderMatters`); `OrderMattersExactly` says for
  which payloads.
- Biographies: one character more than the maximum is possible (`DefaultLimitOverruns`); `TrimmedFits` says exactly when.

## Left out

- Routes, templates, HTML, JavaScript, database models, migrations, audit log: presentation or declarations.
- HTTP, image, vision and language-model adapters: an HTTP attempt is an arbitrary outcome with an arbitrary body.
- Job encoding: JSON text is represented by the record it encodes, which assumes that encoding is injective and job
  ids are unique; an entry that cannot be decoded is skipped by the reaper like any other error.
- Job handles: the protocol resolves each dequeued handle at most once; a worker that calls `fail` twice is not modelled.
- BLMOVE timeouts and queue length queries: they change nothing.
- Floating point: rates, delays and durations are exact reals; the mantissa limits of Python floats are not modelled.
- Clocks: they never run backwards and a sleep lasts at least as long as requested; the limiter lock is a sequence of calls.
- Rate limiter: a caller that is cancelled while it sleeps, which leaves the bucket stamped but not emptied.
- Collection import: one live task per job (a pause followed at once by a resume can leave two tasks with one stop flag);
  the listing does not change during the job; nobody else creates tokens meanwhile; error messages and failed-id lists.
- WebM: `_check_webm`, the walk that puts the elements together, its codec table and IEEE duration are not modelled.
- MP4: the recursion limit of Python on deeply nested boxes.
- Media cache: HTTP range arithmetic; a stored file is assumed never to change under its name.
- Image checks with Pillow: one-branch facts.
- Sales history: splitting the pasted text into rows, dates and conditions; the confidence tiers.
- Price parser: letters whose upper case is not their own outside ASCII, non-ASCII digits, and "NaN", which the model
  rejects and Python compares with an error.
- Discogs details: regular expressions that read a runout description or classify a field name are parameters; a parsed
  variant is assumed to be a run of digits; matching of variants with the fields of one's own copy; letter case outside ASCII.
- Collection form: what a browser does to line ends and to a leading newline before it sends a value.
- Collection routes: the identifiers stored beside the collection, and routes that overlap before anything was stored.
- `CollectionMerge.WriteBackShrinks`: assumes that field ids are distinct, as Discogs assigns them.
- Login limiter: member names of the sorted set are assumed unique; the three commands of a record arrive at separate times of one
  clock, but the pipelines of two callers do not interleave, and a query runs at one instant.
- Schema drift: the report's lists are sets here (the code sorts them), the snapshot file is a value, and the summary text is left out.
- Biographies: fetching, validating and choosing a source.
- Password hashing, signed sessions and CSRF tokens: library calls.
