# Verified models of ten engines

This project models ten small engines of the repository in Dafny and proves what they keep: an LRU cache, a job queue
with its two storages, a batching data loader, a request limiter, an aggregation pipeline, a report scheduler, a plugin
marketplace, a Prometheus exporter with its line parser, histogram percentiles, and a permission engine with its cache.
`dafny verify dfyconfig.toml` checks all of it.

How the engines are modelled:

- An object that updates its fields is a `class` whose methods are proved against a transition function on values
  (`LruSpec.Get`, `JobQueueModel.Step`, `Marketplace.Install`, `PermissionCacheModel.Step`, ...). The theorems about runs are
  about those functions, so they are theorems about the objects.
- Asynchronous code is a state machine: one event is one stretch of code between two `await`s, what is suspended is part
  of the state, and a trace is any order of events. This holds for the job queue over in-memory storage (whose storage
  methods await nothing), for the data loader, and for the permission engine, whose checks await the stored set.
- Clock readings, the answers of handlers and batch functions, and what is fetched are parameters. Exceptions and refused
  requests are result values.
- JavaScript Maps and objects whose order matters are `OrderedMap.OMap`, which keeps insertion order. `Array.sort` is
  `Lists.Sort`; `Lists.StableSortUnique` says that a stable sort has only one possible result.

## Files

| files | content |
|---|---|
| `LruSpec`, `LruHistory`, `LruInclusion`, `LruRecency`, `LruCache` | the abstract LRU cache and its theorems; the maps and the linked list that implement it |
| `Jobs`, `JobQueries`, `JobStorage`, `JobQueueModel`, `JobQueueSafety`, `JobQueueTheorems`, `JobQueueOutcome`, `JobQueueLedger`, `JobQueueCancel`, `JobQueueTight`, `JobQueueExamples`, `JobQueue` | job records, the in-memory storage, the queue as a state machine with its theorems and telling runs, and as an object |
| `Iso`, `PersistentJobs`, `PersistentAgreement`, `PersistentStorage` | date texts, job serialization, the key-value storage and its agreement with the in-memory one |
| `DataLoaderModel`, `DataLoaderLaws`, `DataLoaderCache`, `DataLoaderValues`, `DataLoader` | the data loader |
| `RateLimit` | the request limiter |
| `Aggregation`, `AggregationMeaning`, `AggregationValues`, `AggregationSort`, `AggregationLaws`, `AggregationGroups`, `AggregationEngine` | pipeline semantics, what single stages mean, rewrite laws, and the loops of the engine |
| `Calendar`, `Cron`, `CronParsing`, `CronMeaning`, `Crontab` | the Gregorian calendar of section 21.4.1 of ECMA-262, cron parsing and search, crontab's days |
| `Versions`, `Marketplace`, `MarketplaceLaws`, `MarketplaceHistory`, `MarketplaceClosure`, `MarketplaceChecks`, `MarketplaceErrors`, `MarketplaceRanges`, `MarketplacePatterns`, `MarketplaceExamples`, `MarketplaceObjects` | version ranges, registry and installer, their invariants, checking loops and objects |
| `PrometheusText`, `PrometheusLaws`, `PrometheusRoundTrip`, `PrometheusPattern`, `PrometheusExport`, `Percentiles` | the exporter, the parser, and the histogram collector |
| `Permissions`, `PermissionFlags`, `PermissionKeys`, `PermissionCacheModel`, `PermissionCacheLaws`, `PermissionCacheTheorems`, `PermissionCacheSets`, `PermissionCacheAnswers`, `PermissionCacheExamples`, `PermissionEngine` | permission decisions, cache keys, the engine with its cache as a state machine, and as an object |
| `Options`, `Lists`, `Decimal`, `OrderedMap`, `Patterns` | shared vocabulary |

## Where the code differs from what is said about it

- The limiter's comment speaks of a sliding window. The code opens one fixed window per key, so an interval of one window
  length can see `2n - 1` accepted requests (`RateLimit.RateBound`, `RateLimit.RateBoundIsTight`); the window slides only
  for limits of one or windows without length (`RateLimit.SlidesIff`).
- The limiter's options `skipSuccessfulRequests` and `skipFailedRequests` are declared and never read.
- A `cancel` that reports success can be lost. It holds whatever follows exactly when, at its write, no loop holds the
  job and no body works on it (`JobQueueCancel.CancelHoldsIff`); a run loses one (`JobQueueExamples.CancelIsLostInARun`).
- Stopping the queue and enqueueing before the old loop wakes up leaves two loops alive, which then run one job twice
  and more jobs than the limit allows (`JobQueueExamples.RestartRunsOneJobTwice`). There is one loop exactly as long as
  none is opened while another is alive (`JobQueueSafety.OneLoopIff`).
- A body that has made its last write may still be returning when the next attempt of its job starts
  (`JobQueueExamples.FinishingBodyOverlaps`), so a job has one body at a time only for a limit of one
  (`JobQueueExamples.OneBodyPerJobIff`).
- A data loader with `maxBatchSize` below 1 never dispatches (`DataLoaderLaws.DispatchComesIff`).
- The persistent storage treats an update that changes a job's id differently from the in-memory storage
  (`PersistentAgreement.UpdateOfIdAgreesIff`).
- `upgrade` checks neither the new manifest's dependencies nor those of dependants
  (`MarketplaceClosure.UpgradeKeepsClosureIff`, `MarketplaceExamples.UpgradeCanBreakDependants`).
- A plugin called `constructor` passes validation and then cannot be uninstalled beside any other plugin, because the scan
  for dependants meets a property every object inherits (`MarketplaceClosure.UninstallRefusedIff`,
  `MarketplaceExamples.ConstructorIsStuck`).
- The manifest validator accepts ranges such as `<2.0.0` or `=1.0.0` that no version satisfies
  (`MarketplaceRanges.SatisfiableIff`).
- The manifest validator throws a `TypeError` for an `engine` that is `null` (`MarketplaceChecks.ValidateManifest`).
- The weighted version number confuses components above 999 (`Versions.AtLeastIsExactIff`); taken against all
  requirements, `>=` is right for hardly any version (`Versions.AtLeastIsAlwaysExactIff`).
- The scheduler requires both day fields to match, where crontab(5) takes any day that matches one of two single values;
  the two rules give the same times exactly when one day field is no single value (`Crontab.SameTimesIff`).
- The line parser undoes no escapes, cuts label values at `=` and `}`, drops a label called `__proto__`, and refuses
  numbers that print with a signed exponent, such as `1e-7` and `1e+21`, or as words (`PrometheusRoundTrip.RoundTripIff`,
  `PrometheusRoundTrip.SignedExponentIsNone`), while any reader of the text format gets all label values back
  (`PrometheusLaws.FormatReadsBack`).
- The exporter prints help texts as they are, so one with a newline adds lines to the text, which may read as samples
  (`PrometheusExport.ExportReadsBackIff`, `PrometheusExport.HelpBecomesSample`).
- A cached permission can be older than its time to live: by as long as the check took that cached it
  (`PermissionCacheTheorems.AnswersAreRecent`, `PermissionCacheTheorems.BoundIsReached`).
- Clearing a user is complete exactly when no check of that user is waiting for its permission set
  (`PermissionCacheTheorems.ClearIsCompleteIff`); a run outlives the clear (`PermissionCacheExamples.ClearIsOutrun`).
- Two users share cache keys exactly when one id continues the other behind a colon (`PermissionKeys.SharedKeyIff`), and
  then get each other's answers (`PermissionCacheExamples.SharedKeyMixesAnswers`).
- `getRecordFilters` also uses the filters of profiles that may not read (`Permissions.RecordFiltersAcceptMore`).

## Model

| member | source | states |
|---|---|---|
| `LruInclusion.LargerCacheNeverMisses` | packages/cache/src/lru-backend.ts:48-131 | on every trace of timed calls the recency list of the smaller cache is a subsequence of that of the larger one with equal values and expiries; every call finds at least as much in the larger cache; hits are no fewer and misses no more |
| `LruInclusion.IncludedAfterStep` | packages/cache/src/lru-backend.ts:48-131 | one get, set, delete, has, clean or clear on both caches keeps the inclusion, and a hit in the small cache is the same hit in the large one |
| `LruInclusion.IncludedAfterSet` | packages/cache/src/lru-backend.ts:75-108 | a set keeps the inclusion in all cases: key in both, in the large only, in neither, with and without eviction on either side |
| `LruInclusion.SubsequenceAlive` | packages/cache/src/lru-backend.ts:253-267 | cleaning expired entries keeps the inclusion and does not widen the difference in size |
| `LruSpec.StepKeeps` | packages/cache/src/lru-backend.ts:48-142 | every call keeps keys distinct and the size within the capacity |
| `LruSpec.SetThenGet` | packages/cache/src/lru-backend.ts:48-108 | a value set with a lifetime is found up to and including its last millisecond, without one for ever (an expiry at time zero counts as none); has agrees |
| `LruSpec.SetKeepsOthers` | packages/cache/src/lru-backend.ts:75-108 | a set with room, or of a key that is there, changes nothing found under other keys |
| `LruHistory.FoundIsLastSet` | packages/cache/src/lru-backend.ts:48-142 | whatever is found after any trace is the value of the last set of its key that no later delete of the key and no clear undoes, and its lifetime reaches the moment |
| `LruHistory.RoomyCacheIsMap` | packages/cache/src/lru-backend.ts:48-142 | while no more keys are set than there is room for, and time does not run backwards, exactly those are found whose last set is not undone and still reaches |
| `LruHistory.DeleteForgets` | packages/cache/src/lru-backend.ts:110-114 | after a delete get and has find nothing under the key at any time and find under every other key what they did; the answer tells whether an entry was there |
| `LruHistory.CleanRemovesExpired` | packages/cache/src/lru-backend.ts:253-267 | a clean keeps exactly the entries whose lifetime has not ended, in order, and counts none of it |
| `LruHistory.CountersAreTold` | packages/cache/src/lru-backend.ts:48-73 | hits and misses are the gets since the last clear that answered with a value, and those that did not |
| `LruHistory.EvictionsAreTold` | packages/cache/src/lru-backend.ts:91-107 | evictions are the sets since the last clear of a key that was not there, into a full cache |
| `LruHistory.DatesAreTold` | packages/cache/src/lru-backend.ts:48-108 | each entry's creation and last access times and its number of uses are those the calls of the trace tell |
| `LruRecency.RecencyOrder` | packages/cache/src/lru-backend.ts:164-221 | after any trace entries stand in the order of the last set or hitting get of their key, told from the trace alone |
| `LruRecency.EvictsLeastRecentlyTouched` | packages/cache/src/lru-backend.ts:91-107 | a set of a new key into a full cache drops exactly one entry, the one whose key was got or set longest ago, and keeps the others in place |
| `LruCache.LruCacheBackend.constructor` | packages/cache/src/lru-backend.ts:36-46 | a fresh cache is the empty one; a missing or zero size means 1000 |
| `LruCache.LruCacheBackend.Get` | packages/cache/src/lru-backend.ts:48-73 | over the two maps and the linked list: the value and the new state are those of the abstract get (expired entries are dropped and count as misses, a hit moves to the front) |
| `LruCache.LruCacheBackend.Set` | packages/cache/src/lru-backend.ts:75-108 | new state is that of the abstract set: update in place and move to front, or evict from a full cache and insert in front |
| `LruCache.LruCacheBackend.Delete` | packages/cache/src/lru-backend.ts:110-114 | over the maps and the list: new state and answer are those of the abstract delete; LruHistory.DeleteForgets says what that does |
| `LruCache.LruCacheBackend.Has` | packages/cache/src/lru-backend.ts:116-131 | new state and answer are those of the abstract has, which drops an expired entry and moves nothing |
| `LruCache.LruCacheBackend.Clear` | packages/cache/src/lru-backend.ts:133-142 | the cache is as new |
| `LruCache.LruCacheBackend.EvictLru` | packages/cache/src/lru-backend.ts:164-173 | the tail of the list leaves both maps and the list, and is the last entry of the recency order |
| `LruCache.LruCacheBackend.AddToFront` | packages/cache/src/lru-backend.ts:178-192 | the chain from head to tail gains one fresh node in front and stays a doubly linked, key-distinct list indexed by the map |
| `LruCache.LruCacheBackend.MoveToFront` | packages/cache/src/lru-backend.ts:197-221 | the node of the key moves to the front, all others keep their order; nothing happens for an unknown key |
| `LruCache.LruCacheBackend.Detach` | packages/cache/src/lru-backend.ts:203-212 | unlinking a node that is not the head leaves the chain of the other nodes, in order |
| `LruCache.LruCacheBackend.Attach` | packages/cache/src/lru-backend.ts:214-220 | linking a node in front of the chain |
| `LruCache.LruCacheBackend.RemoveFromAccessOrder` | packages/cache/src/lru-backend.ts:226-248 | the node of the key leaves list and map, the others keep their order |
| `LruCache.LruCacheBackend.Splice` | packages/cache/src/lru-backend.ts:232-245 | after the link surgery the chain is the old one without that node, for head, tail, inner and only nodes |
| `LruCache.LruCacheBackend.CleanExpired` | packages/cache/src/lru-backend.ts:253-267 | new state is the abstract one without its expired entries, in whatever order the keys are visited |
| `LruCache.EntriesForget` | packages/cache/src/lru-backend.ts:110-114 | taking a key out of list, index and store takes exactly its entry out of the abstract entries |
| `JobQueueTheorems.NoJobTwiceAtOnce` | packages/jobs/src/queue.ts:107-138 | in every interleaving with one loop and fresh ids: the active count equals the number of bodies and never exceeds the limit, and no job is inside two bodies that both still have something to write |
| `JobQueueExamples.FinishingBodyOverlaps` | packages/jobs/src/queue.ts:130-132 | for every limit above one a proper run: the body of a failed attempt, past its last write, has not returned when the next attempt of its job starts |
| `JobQueueExamples.OneBodyPerJobIff` | packages/jobs/src/queue.ts:113-132 | counting bodies that have nothing left to write, no proper run gives a job two bodies exactly when the limit is at most one |
| `JobQueueSafety.ConcurrencyBound` | packages/jobs/src/queue.ts:113-132 | with at most k loops alive at a time, active jobs (and jobs a loop holds) never exceed the limit plus k - 1 |
| `JobQueueTight.ConcurrencyBoundIsTight` | packages/jobs/src/queue.ts:97-138 | for every limit and every k at least one a run with at most k loops alive reaches that many active jobs |
| `JobQueueSafety.OneLoopIff` | packages/jobs/src/queue.ts:97-113 | at most one loop is alive throughout a trace exactly when no loop is opened while another is alive |
| `JobQueueSafety.LiveRises` | packages/jobs/src/queue.ts:97-113 | live loops become more at no event but the start of processing of an idle or stopped queue |
| `JobQueueSafety.OneLoopWithoutStop` | packages/jobs/src/queue.ts:107-110 | as long as nothing stops the queue at most one loop is alive |
| `JobQueueSafety.RunKeeps` | packages/jobs/src/queue.ts:156-224 | every reachable state ties stored jobs, suspended loops and suspended bodies together: a held job is untouched by bodies, a body owns its job, attempts match |
| `JobQueueSafety.StepKeeps` | packages/jobs/src/queue.ts:107-272 | one event of any kind keeps that invariant |
| `JobQueueTheorems.AttemptsAreMarks` | packages/jobs/src/queue.ts:164-169 | stored attempts equal the number of times the job was marked running in the trace, at most maxRetries + 1 |
| `JobQueueTheorems.TallyCountsMarks` | packages/jobs/src/queue.ts:164-169 | the model's count of marks is the number of starts in the trace |
| `JobQueueTheorems.TallyCountsSleep` | packages/jobs/src/queue.ts:212-224 | the model's tally of a job's sleep is the sum over the trace of the delays its failures start |
| `JobQueueTheorems.BackoffBound` | packages/jobs/src/queue.ts:212-224 | the delays of one job in a trace add up to at most retryDelay * (2^maxRetries - 1) |
| `JobQueueTheorems.MarksAreBounded` | packages/jobs/src/queue.ts:156-224 | once nothing is enqueued any more, jobs are marked running at most as often as the sum of (maxRetries + 1) less the attempts already made |
| `JobQueueTheorems.AllMarksAreAttempts` | packages/jobs/src/queue.ts:164-169 | starts in the trace add up to the stored attempts of all jobs |
| `JobQueueTheorems.SumsStep` | packages/jobs/src/queue.ts:73-242 | the sum of attempts rises by one at each start and at no other event, the sum of budgets by the new job's at an accepted enqueue and at no other event |
| `JobQueueTheorems.SettledNeverRestarts` | packages/jobs/src/queue.ts:189-205 | a job that is completed or failed at some point is never marked running again; which of the two it is says JobQueueOutcome.OutcomeIff |
| `JobQueueOutcome.OutcomeIff` | packages/jobs/src/queue.ts:156-224 | in every proper run a stored job is completed exactly when the handler of one of its bodies returned, and failed exactly when a handler threw with attempts above maxRetries or a loop took it without a handler, in both cases with no cancel written over it since |
| `JobQueueOutcome.SuccessCompletes` | packages/jobs/src/queue.ts:189-193 | right after a handler returns its job is completed, with the result and the time, its attempts and all else as before |
| `JobQueueOutcome.EventWrites` | packages/jobs/src/queue.ts:156-272 | what each event writes to each stored job, field by field, and that it writes nothing else |
| `JobQueueOutcome.EnqueueWrites` | packages/jobs/src/queue.ts:73-94 | an enqueue is refused exactly without a handler; otherwise the job is stored last, pending, with what the caller gave or else the defaults, and the others stay |
| `JobQueueLedger.LedgerTold` | packages/jobs/src/queue.ts:54-272 | after any events: who has a handler, which enqueues have yet to start a loop, whether the queue is processing, and which cancels have yet to write |
| `JobQueueLedger.TurnMeaning` | packages/jobs/src/queue.ts:113-126 | a loop whose turn it is ends if the queue has been stopped; otherwise it is given the most urgent and among those oldest pending job, if there is one and room for it, and with neither nothing changes |
| `JobQueueCancel.CancelHoldsIff` | packages/jobs/src/queue.ts:257-272 | after the write of a cancel of a stored job it is cancelled in every proper continuation exactly when, at the write, no loop holds it and no body works on it |
| `JobQueueCancel.CancelledForever` | packages/jobs/src/queue.ts:156-272 | a cancelled job no loop holds and no body works on is cancelled after any further events |
| `JobQueueCancel.TouchedIsOverwritten` | packages/jobs/src/queue.ts:164-223 | whoever holds the job or works on it has one event that writes another status |
| `JobQueueExamples.CancelIsLostInARun` | packages/jobs/src/queue.ts:113-169 | a proper run from the start: the cancel is accepted and written while the loop holds the job, whose start then makes it running |
| `JobQueueTheorems.CancelSticks` | packages/jobs/src/queue.ts:257-272 | a job cancelled while untouched is never marked running again |
| `JobQueueTheorems.CancelIsLost` | packages/jobs/src/queue.ts:257-272 | from any state of the invariant in which a loop holds the cancelled job and its handler is registered, the loop's next step marks it running |
| `JobQueueTheorems.TwoLoopsTakeOneJob` | packages/jobs/src/queue.ts:121-132 | with two loops both may take the same pending job, which then runs twice at once |
| `JobQueueExamples.RestartLeavesTwoLoops` | packages/jobs/src/queue.ts:107-145 | a run: stop, then enqueue before the old loop wakes, leaves two idle loops and a pending job |
| `JobQueueExamples.RestartRunsOneJobTwice` | packages/jobs/src/queue.ts:107-145 | the run goes on: one job is executing in two bodies, two active jobs under a limit of one |
| `JobQueue.JobQueue.Enqueue` | packages/jobs/src/queue.ts:73-94 | refused without a handler; otherwise saves a pending job with the given or default settings |
| `JobQueue.JobQueue.LoopTurn` | packages/jobs/src/queue.ts:113-126 | one turn of the loop up to the job it is given |
| `JobQueue.JobQueue.LoopResume` | packages/jobs/src/queue.ts:128-169 | the loop goes on with its job: count it, fail it without a handler, otherwise mark it running |
| `JobQueue.JobQueue.HandlerThrows` | packages/jobs/src/queue.ts:196-206 | back off while attempts are at most maxRetries, otherwise mark failed |
| `Jobs.NextOfIsSoonest` | packages/jobs/src/storage.ts:138-162 | the job picked is pending, no pending job has a higher priority or the same and is older, and among equals it is the one stored first; none exactly when nothing is pending |
| `Jobs.NextIsOldestOfMostUrgent` | packages/jobs/src/storage.ts:148-159 | no pending job is more urgent (critical, high, normal, low) than the one picked, or as urgent and older |
| `Jobs.PatchLaws` | packages/jobs/src/storage.ts:22-28 | an empty patch changes nothing, a full one everything, and two updates in a row are the one that takes the later value of each field |
| `Jobs.UnpagedIsAll` | packages/jobs/src/storage.ts:34-86 | without paging a query answers with exactly the matching jobs, sorted as asked or in stored order |
| `Jobs.PagesCover` | packages/jobs/src/storage.ts:88-94 | the first k pages of a size, one after another, are the first k times size jobs of the unpaged answer, in the end all of it |
| `JobQueries.AnswersAreAsked` | packages/jobs/src/storage.ts:34-54 | an unpaged query answers with exactly the stored jobs that have the name, one of the statuses and the priority asked for |
| `JobQueries.AnswersInOrder` | packages/jobs/src/storage.ts:56-86 | they stand in the order asked for, ascending or descending by creation, urgency or next run, and jobs alike in that keep their stored order |
| `JobQueries.PageIsPiece` | packages/jobs/src/storage.ts:88-94 | a page is the unpaged answer from skip on, and of that the piece up to a limit that is not zero, negative numbers counting from the end |
| `JobQueries.StatsTell` | packages/jobs/src/storage.ts:99-136 | each number of the statistics is how many of the jobs have that status |
| `Jobs.StatsAddUp` | packages/jobs/src/storage.ts:99-136 | the counts by status add up to the total |
| `OrderedMap.RemoveMeaning` | packages/jobs/src/storage.ts:30-32 | deleting a key takes its one place out of the insertion order and leaves everything else |
| `JobStorage.CountByStatus` | packages/jobs/src/storage.ts:102-135 | the counting loop counts exactly the jobs of each status |
| `JobStorage.InMemoryJobStorage.Update` | packages/jobs/src/storage.ts:22-28 | the patch is merged into the stored job; refused without one |
| `JobStorage.InMemoryJobStorage.QueryJobs` | packages/jobs/src/storage.ts:34-97 | filter by name, status and priority, stable sort, then skip and limit as slices |
| `JobStorage.InMemoryJobStorage.GetNextPending` | packages/jobs/src/storage.ts:138-162 | the soonest pending job, none when nothing is pending |
| `Iso.IsoRoundTrip` | packages/jobs/src/persistent-storage.ts:33-56 | every time a Date can hold (section 21.4.1.1 of ECMA-262) is read back from its ISO text (section 21.4.1.32) |
| `Iso.IsoForm` | packages/jobs/src/persistent-storage.ts:33-45 | the text of a time holds its year, month, day, hours, minutes, seconds and milliseconds at their places, with four digits for the years 0 to 9999 and a sign and six for others (section 21.4.1.32 of ECMA-262) |
| `PersistentJobs.JobRoundTrip` | packages/jobs/src/persistent-storage.ts:33-56 | deserializing a serialized job gives back the job, dates included, for all jobs whose dates are time values |
| `PersistentJobs.SaveAgrees` | packages/jobs/src/persistent-storage.ts:74-76 | a save keeps the key-value store and the in-memory table in correspondence, order included |
| `PersistentJobs.GetAgrees` | packages/jobs/src/persistent-storage.ts:79-82 | both storages get the same job |
| `PersistentJobs.DeleteAgrees` | packages/jobs/src/persistent-storage.ts:95-97 | a delete keeps the correspondence |
| `PersistentJobs.JobsAgree` | packages/jobs/src/persistent-storage.ts:100-109 | reading all job keys one by one yields the values of the in-memory table in order, whatever other keys are in between |
| `PersistentAgreement.UpdateAgrees` | packages/jobs/src/persistent-storage.ts:85-92 | an update that keeps the id keeps the correspondence and is refused for the same ids |
| `PersistentAgreement.UpdateOfIdAgreesIff` | packages/jobs/src/persistent-storage.ts:85-92 | after an update of a stored job all ordinary calls get the same answer from both storages exactly when the patch does not change the id, and so does a get of that id |
| `PersistentAgreement.ChangedIdParts` | packages/jobs/src/persistent-storage.ts:85-92 | with another id the in-memory job changes it under its old key, while the key-value store still has the old job there |
| `PersistentAgreement.NextAgrees` | packages/jobs/src/persistent-storage.ts:206-218 | both storages pick the same next pending job |
| `PersistentAgreement.StepAgrees` | packages/jobs/src/persistent-storage.ts:74-218 | one save, get, update, delete, query, statistics or next-pending call keeps the correspondence and answers the same |
| `PersistentAgreement.StoragesAgree` | packages/jobs/src/persistent-storage.ts:74-218 | after any sequence of calls each next call gets the same answer from both storages |
| `PersistentAgreement.MoveKeepsJobs` | packages/jobs/src/persistent-storage.ts:232-247 | writing a dead letter leaves the jobs alone |
| `PersistentAgreement.LetterTells` | packages/jobs/src/persistent-storage.ts:232-247 | a dead letter holds the job's id, name, data and attempts, the error and the time, which reads back; all other keys keep their values |
| `PersistentAgreement.ReplayMovesLetter` | packages/jobs/src/persistent-storage.ts:282-313 | replaying a letter to a fresh id removes exactly that letter and adds exactly one pending job, last in order, with the letter's name and data |
| `PersistentAgreement.MoveThenReplay` | packages/jobs/src/persistent-storage.ts:232-313 | a job moved to the dead letters and replayed under a fresh id comes back as one new pending job with its name and data, no attempts, created at the time of the replay |
| `PersistentStorage.PersistentJobStorage.Save` | packages/jobs/src/persistent-storage.ts:74-76 | the serialized job is stored under its key |
| `PersistentStorage.PersistentJobStorage.Get` | packages/jobs/src/persistent-storage.ts:79-82 | the deserialized job or none |
| `PersistentStorage.PersistentJobStorage.Update` | packages/jobs/src/persistent-storage.ts:85-92 | read, merge, save under the merged id; refused without a stored job |
| `PersistentStorage.PersistentJobStorage.Delete` | packages/jobs/src/persistent-storage.ts:95-97 | the job's key is gone |
| `PersistentStorage.PersistentJobStorage.ReadJobs` | packages/jobs/src/persistent-storage.ts:101-109 | the loop over the job keys reads all stored jobs in key order |
| `PersistentStorage.PersistentJobStorage.QueryJobs` | packages/jobs/src/persistent-storage.ts:100-163 | the same query answer as in memory over the jobs read |
| `PersistentStorage.PersistentJobStorage.GetStats` | packages/jobs/src/persistent-storage.ts:166-203 | the statistics of the jobs read |
| `PersistentStorage.PersistentJobStorage.GetNextPending` | packages/jobs/src/persistent-storage.ts:206-218 | the soonest pending job of those read |
| `PersistentStorage.PersistentJobStorage.MoveJobToDeadLetter` | packages/jobs/src/persistent-storage.ts:232-247 | a letter with the job's name, data, attempts and error under a key made of its id and the time |
| `PersistentStorage.PersistentJobStorage.Replay` | packages/jobs/src/persistent-storage.ts:282-313 | new pending job saved, letter deleted; refused without a letter |
| `DataLoaderLaws.NothingIsLost` | packages/graphql/src/dataloader.ts:29-73 | after any events every load ever made is either answered or outstanding, the outstanding ones being the batches in flight and the waiting list in the order the loads were made |
| `DataLoaderLaws.SettlesOnce` | packages/graphql/src/dataloader.ts:55-67 | an answer once given stays: no load settles twice |
| `DataLoaderCache.StepRemembers` | packages/graphql/src/dataloader.ts:48-83 | what each event makes of what is remembered under a key: a returned batch leaves the last value found for it, a prime its value, a clear nothing, any other event what was there |
| `DataLoaderCache.LoadMeaning` | packages/graphql/src/dataloader.ts:29-42 | after any events a load is answered at once, with the remembered value, exactly when its key is remembered, and waits at the end of the list otherwise |
| `DataLoaderLaws.ReturnAnswers` | packages/graphql/src/dataloader.ts:55-62 | the loads of a returned batch get the results at their positions, missing ones null |
| `DataLoaderLaws.BatchesAreFifo` | packages/graphql/src/dataloader.ts:48-53 | batches are consecutive pieces, of at most maxBatchSize, of the loads in the order they were listed |
| `DataLoaderLaws.AlwaysScheduled` | packages/graphql/src/dataloader.ts:35-41 | with maxBatchSize at least 1 a non-empty waiting list always has a dispatch queued or a batch in flight |
| `DataLoaderLaws.DispatchComesIff` | packages/graphql/src/dataloader.ts:48-51 | that holds on all traces exactly when maxBatchSize is at least 1 |
| `DataLoaderLaws.BurstCost` | packages/graphql/src/dataloader.ts:48-73 | n uncached loads on an idle loader cost exactly ceil(n / maxBatchSize) batch calls once it is idle again, whatever the batches answer |
| `DataLoaderLaws.ChainAdvances` | packages/graphql/src/dataloader.ts:69-72 | until everything is answered some event of the loader's own is due, and each uses up one unit of what remains |
| `DataLoaderLaws.CeilRoundsUp` | packages/graphql/src/dataloader.ts:50-51 | what the number of batches means: the least multiple of the batch size that covers n |
| `DataLoaderValues.FetchIsWanted` | packages/graphql/src/dataloader.ts:100-115 | every position of a batch gets the direct lookup of its id, repeated and empty ids included, and the limit cuts nothing off |
| `DataLoaderValues.AnswersAreLookups` | packages/graphql/src/dataloader.ts:29-73 | over fixed records every load that resolves, from cache or batch, gets what a direct lookup of its key gives; where finds may fail it may get null instead, and no such null is cached |
| `DataLoader.Loader.MakeLoad` | packages/graphql/src/dataloader.ts:29-42 | answered from the cache, or listed with a dispatch queued unless one is scheduled |
| `DataLoader.Loader.DispatchBatch` | packages/graphql/src/dataloader.ts:48-55 | takes up to maxBatchSize loads off the list and hands them to the batch function |
| `DataLoader.Loader.BatchReturns` | packages/graphql/src/dataloader.ts:55-72 | settles the batch by position, caches what was found, and queues another dispatch when loads wait |
| `DataLoader.Loader.BatchThrows` | packages/graphql/src/dataloader.ts:63-72 | rejects all loads of the batch and queues another dispatch when loads wait |
| `DataLoader.FetchRecords` | packages/graphql/src/dataloader.ts:100-115 | the batch function of the factory answers each id with its record or null, and with nulls only when its find fails |
| `RateLimit.RateBound` | api/middleware/rate-limit.ts:64-82 | for a monotone clock any closed interval of one window length holds at most 2n - 1 accepted requests of a key, n being the number one window lets through (at least 1) |
| `RateLimit.RateBoundIsTight` | api/middleware/rate-limit.ts:64-82 | for every configuration with at least one request and a positive window a run and an interval reach that bound |
| `RateLimit.SlidesIff` | api/middleware/rate-limit.ts:1-20 | no closed interval of one window length ever holds more accepted requests than one window lets through exactly when the limit is at most one or the window has no positive length |
| `RateLimit.AcceptedIff` | api/middleware/rate-limit.ts:64-85 | with a monotone clock a request passes exactly when the window of its key, told from the key's own requests, is over or has let through fewer than the limit |
| `RateLimit.SameRequestSameDecision` | api/middleware/rate-limit.ts:50-82 | with a monotone clock every request gets the decision of the same request in the run without the cleanup timer |
| `RateLimit.CleanupIsInvisible` | api/middleware/rate-limit.ts:50-57 | so the accepted requests of every key in every interval are as many |
| `RateLimit.CleanupEquivalence` | api/middleware/rate-limit.ts:50-57 | the swept table lacks only windows that are over |
| `RateLimit.RateLimiter.Request` | api/middleware/rate-limit.ts:64-83 | opens a window, counts in it, or refuses |
| `RateLimit.RateLimiter.Cleanup` | api/middleware/rate-limit.ts:50-57 | exactly the entries whose window is over are deleted |
| `AggregationLaws.PushdownSame` | packages/analytics/src/aggregation.ts:61-65 | moving every match as far forward as its laws allow leaves the result rows and their order unchanged |
| `AggregationLaws.PushdownSettled` | packages/analytics/src/aggregation.ts:61-65 | the rewritten pipeline has the same length and no match left that could still move |
| `AggregationLaws.SwapWithMatch` | packages/analytics/src/aggregation.ts:137-422 | a match changes places with another match, a sort, an unwind or an addFields whose fields it does not test |
| `AggregationLaws.MatchPastSort` | packages/analytics/src/aggregation.ts:257-270 | a match commutes with the stable multi-key sort |
| `AggregationLaws.HomogeneousIsSortable` | packages/analytics/src/aggregation.ts:259-269 | on columns of numbers and columns of strings the comparator is a consistent order, whatever keys and directions |
| `AggregationLaws.MatchPastUnwind` | packages/analytics/src/aggregation.ts:335-354 | a match commutes with an unwind of a field it does not test |
| `AggregationLaws.MatchPastAddFields` | packages/analytics/src/aggregation.ts:374-422 | a match commutes with added fields it does not test |
| `AggregationLaws.MatchSeesTestedFields` | packages/analytics/src/aggregation.ts:137-176 | a match depends on nothing but the fields it tests |
| `AggregationLaws.GroupingIsPartition` | packages/analytics/src/aggregation.ts:183-194 | groups come in first-occurrence order of their keys, each holding in order exactly the rows a match on its key selects |
| `AggregationLaws.FirstKeysDistinct` | packages/analytics/src/aggregation.ts:188-194 | group keys are distinct and every row has its group |
| `AggregationGroups.MatchPastGroupIff` | packages/analytics/src/aggregation.ts:137-250 | a match on _id behind a group stage gives what the match on the group field in front of it gives exactly when no row has the key __all__ or the condition does not tell that text from null |
| `AggregationGroups.GroupsOfMatched` | packages/analytics/src/aggregation.ts:183-194 | the groups of the rows a match on the group field selects are the groups whose key meets the condition, in order |
| `AggregationMeaning.GroupStageReports` | packages/analytics/src/aggregation.ts:183-247 | row i of a group stage names the i-th key in order of first occurrence and holds, under each alias, the aggregate over exactly the rows of that key, which a match on it selects |
| `AggregationMeaning.GroupStageTotals` | packages/analytics/src/aggregation.ts:183-247 | the counts and sums the result rows hold under an alias add up to those of the whole input |
| `AggregationValues.CountMeaning` | packages/analytics/src/aggregation.ts:206-240 | a count grows by one with each row, a sum of a number by the number |
| `AggregationLaws.GroupingConserves` | packages/analytics/src/aggregation.ts:183-194 | sizes and sums of the groups add up to those of the whole input |
| `AggregationLaws.GroupRowReports` | packages/analytics/src/aggregation.ts:197-247 | a group row holds, under each alias, the aggregate over exactly its rows, and its key under _id |
| `Lists.StableSortUnique` | packages/analytics/src/aggregation.ts:259-269 | sorted, a permutation, and equal elements in their old order: only one sequence is all that |
| `AggregationMeaning.SortMeaning` | packages/analytics/src/aggregation.ts:257-270 | for any consistent comparator: sorted rows are in its order, a permutation, and rows that compare equal keep their order |
| `AggregationSort.SortedByKeys` | packages/analytics/src/aggregation.ts:257-270 | for every list of keys on columns of numbers or of texts: of any two sorted rows either all key values are equal or at the first key that differs they stand in its direction, numbers by size and texts character by character; the rows are the same, and those with equal key values keep their order |
| `AggregationMeaning.NumberColumnSorted` | packages/analytics/src/aggregation.ts:259-267 | a sort by a column of numbers ascends, or descends with direction -1 |
| `AggregationMeaning.PagesAreAll` | packages/analytics/src/aggregation.ts:275-294 | the first k pages that skip and limit cut out, one after another, are the first k times size rows, in the end all |
| `AggregationMeaning.PageOfPipeline` | packages/analytics/src/aggregation.ts:275-295 | a skip stage and then a limit stage give the piece of the rows that starts there, as far as there are rows |
| `AggregationMeaning.StagesInTurn` | packages/analytics/src/aggregation.ts:42-75 | a pipeline runs its stages in turn, each on the rows of the ones before |
| `AggregationMeaning.OneStage` | packages/analytics/src/aggregation.ts:107-132 | each kind of stage runs the operation the other laws are about |
| `AggregationMeaning.RangeMatchSelects` | packages/analytics/src/aggregation.ts:137-172 | on a column of numbers a match with a lower and an upper bound selects, in order, the rows of that half-open range |
| `AggregationMeaning.RangesSplit` | packages/analytics/src/aggregation.ts:137-172 | ranges that meet at a number share no row and lose none |
| `AggregationMeaning.TextTests` | packages/analytics/src/aggregation.ts:148-159 | on texts greater-than and at-most are complements, and at-least and less-than; both at-least and at-most only when equal |
| `AggregationValues.TestMeaning` | packages/analytics/src/aggregation.ts:141-170 | what each test of a match asks, whatever the values: two texts compare as texts, anything else as the numbers they read as, if they do; $ne is the complement of equality |
| `AggregationValues.InMeaning` | packages/analytics/src/aggregation.ts:162-164 | $in asks for one value of the list that is the same; only here NaN finds itself |
| `AggregationValues.MissingField` | packages/analytics/src/aggregation.ts:137-172 | a missing field is not null and compares with nothing; one that is there is the value it holds |
| `AggregationValues.MatchTwice` | packages/analytics/src/aggregation.ts:132-180 | a match on two lists of conditions is a match on one and then on the other |
| `AggregationValues.TestsOneByOne` | packages/analytics/src/aggregation.ts:140-170 | several tests of one field are tests one by one, and no tests select everything |
| `AggregationValues.UnwindMeaning` | packages/analytics/src/aggregation.ts:335-354 | a row whose field is a list becomes a row for each item in order, any other stays, and rows are unwound one after another |
| `AggregationValues.ArithmeticMeaning` | packages/analytics/src/aggregation.ts:393-410 | $add starts at zero and $multiply at one, and each argument is added or multiplied by as the number it reads as, or zero |
| `AggregationValues.ExtremeMeaning` | packages/analytics/src/aggregation.ts:223-236 | $min and $max leave null and missing values out; of the others they are the number that is reached and bounds them all, NaN if one is no number, null if there are none |
| `AggregationValues.SumMeaning` | packages/analytics/src/aggregation.ts:206-221 | a sum starts at zero and takes each row's number, or zero; the average times the number of rows is the sum |
| `AggregationMeaning.AddedFieldValue` | packages/analytics/src/aggregation.ts:378-421 | an added field holds its expression's value on the original record |
| `AggregationMeaning.ConcatJoins` | packages/analytics/src/aggregation.ts:384-392 | concatenation joins the arguments' texts in order and skips null and missing ones |
| `AggregationValues.ConcatOne` | packages/analytics/src/aggregation.ts:384-392 | a concatenation of one argument is its text, of a null or missing one empty |
| `AggregationValues.AddedFieldOnly` | packages/analytics/src/aggregation.ts:378-421 | a stage that adds one field sets it to the constant, the other field's value or null, and leaves all others |
| `AggregationMeaning.ArgumentsSwap` | packages/analytics/src/aggregation.ts:393-410 | sums and products do not depend on the order of their arguments |
| `AggregationMeaning.MinAvgMax` | packages/analytics/src/aggregation.ts:217-235 | on a column of numbers minimum and maximum are reached, bound every row, and lie around the average |
| `Aggregation.Least` | packages/analytics/src/aggregation.ts:222-228 | the minimum is one of the values and at most all of them |
| `Aggregation.Greatest` | packages/analytics/src/aggregation.ts:229-235 | the maximum is one of the values and at least all of them |
| `AggregationEngine.Run` | packages/analytics/src/aggregation.ts:42-75 | the stage loop computes the pipeline's meaning; refused without stages or with too many |
| `AggregationEngine.GroupData` | packages/analytics/src/aggregation.ts:183-250 | the grouping and reporting loops compute the group stage's meaning |
| `AggregationEngine.AddRecord` | packages/analytics/src/aggregation.ts:190-194 | a record joins its group, or opens a new one at the end |
| `AggregationEngine.ReportGroup` | packages/analytics/src/aggregation.ts:197-247 | the loop over the aliases fills the group's row |
| `AggregationEngine.UnwindRows` | packages/analytics/src/aggregation.ts:335-354 | the nested loops compute the unwind stage's meaning |
| `AggregationEngine.AddFieldsToRows` | packages/analytics/src/aggregation.ts:374-422 | the loops compute the addFields stage's meaning; every expression reads the original record |
| `Cron.GetNextRun` | packages/analytics/src/scheduler.ts:171-191 | the result is the next run of the expression, an error exactly for a bad expression or when there is none; CronMeaning.NextRunMeaning says what that is |
| `CronMeaning.NextRunMeaning` | packages/analytics/src/scheduler.ts:171-225 | the next run is the first whole minute after now whose local minute, hour, date, month and weekday each are the single value or a multiple of the interval asked for; there is none exactly when no minute of the next 366 days is such |
| `CronMeaning.EveryMinuteRuns` | packages/analytics/src/scheduler.ts:171-225 | for */n in the minutes and the other fields open the run is the first later minute that is a multiple of n, at most n minutes ahead, and exactly n minutes after the last for n dividing 60 |
| `CronMeaning.EveryHourRuns` | packages/analytics/src/scheduler.ts:171-225 | for a fixed minute and */n in the hours the run is at that minute in the first such hour that is a multiple of n, at most n hours ahead |
| `CronMeaning.SingleValueRuns` | packages/analytics/src/scheduler.ts:171-225 | for single values the run is on that month, date, hour and minute of some year |
| `Cron.NextRunMinute` | packages/analytics/src/scheduler.ts:176-190 | the search loop finds the first matching minute of the next 366 days, or that there is none |
| `Cron.SearchAlwaysSucceedsIff` | packages/analytics/src/scheduler.ts:180-204 | with a wildcard day of week the search succeeds from every moment exactly when some date other than 29 February matches the month and day fields |
| `Cron.YearlyDateIsFound` | packages/analytics/src/scheduler.ts:180-204 | the direction from the date to the successful search |
| `Cron.YearlyOccurrence` | packages/analytics/src/scheduler.ts:180-187 | a yearly date and time comes up within 366 days of any minute |
| `Crontab.SameTimesIff` | packages/analytics/src/scheduler.ts:196-204 | the scheduler runs at the times of the either-day rule exactly when one of the day fields is no single value or no month matches |
| `Crontab.OnlyEither` | packages/analytics/src/scheduler.ts:196-204 | with single values in both day fields, on a day of the right weekday and another date only the either-day rule matches |
| `Cron.ParsedIsWellFormed` | packages/analytics/src/scheduler.ts:153-166 | whatever parses has values in their ranges and positive intervals |
| `Cron.PrintCronParses` | packages/analytics/src/scheduler.ts:153-166 | a printed cron expression reads back as itself |
| `CronParsing.ParseCronIff` | packages/analytics/src/scheduler.ts:153-166 | a text is the expression of given fields exactly when it can be cut at blanks into five words that say them: a star, a star and a positive interval, or a value in range, where what follows the digits of a number does not matter |
| `Calendar.TimeOfFields` | packages/analytics/src/scheduler.ts:196-204 | reading year, month, date, hours and minutes of a composed time gives back its parts (section 21.4.1 of ECMA-262) |
| `Calendar.FieldsOfTime` | packages/analytics/src/scheduler.ts:196-204 | composing the fields read from any time gives back the time, and its date is a date of that month |
| `Calendar.YearUnique` | packages/analytics/src/scheduler.ts:176-187 | every day belongs to exactly one year |
| `Calendar.MonthLengths` | packages/analytics/src/scheduler.ts:199-201 | the months have the days they have, February 28 or 29 |
| `Calendar.WeekdayCycle` | packages/analytics/src/scheduler.ts:202-202 | days of the week follow one another from Thursday, 1 January 1970 (section 21.4.1 of ECMA-262) |
| `MarketplaceClosure.DependencyClosure` | packages/marketplace/src/installer.ts:56-179 | after any run of registrations, installs and uninstalls every dependency of an installed plugin is installed at a version in range, and the dependency graph has no cycle |
| `MarketplaceClosure.InstallKeepsClosed` | packages/marketplace/src/installer.ts:101-129 | an install keeps dependencies met and in installation order |
| `MarketplaceClosure.UninstallKeepsClosed` | packages/marketplace/src/installer.ts:158-171 | an uninstall that is let through takes nothing away that others need |
| `MarketplaceClosure.UninstallRefusedIff` | packages/marketplace/src/installer.ts:158-169 | among valid plugins an uninstall is refused for dependants exactly when another installed plugin names this one, or this one is called constructor and another is installed at all |
| `MarketplaceExamples.ConstructorIsStuck` | packages/marketplace/src/installer.ts:56-169 | whatever the runtime: a run publishes and installs a plugin called constructor and an unrelated one; the first cannot be uninstalled, though nothing names it, and the other can |
| `MarketplaceExamples.ConstructorIsValid` | packages/marketplace/src/manifest-validator.ts:23-23 | such plugins pass validation |
| `MarketplaceClosure.PathsGoDown` | packages/marketplace/src/installer.ts:101-129 | every dependency path runs strictly down the installation order |
| `MarketplaceClosure.UpgradeKeepsClosureIff` | packages/marketplace/src/installer.ts:188-244 | an upgrade keeps the closure exactly when the new manifest's dependencies are met, all dependants accept the new version, and no dependency leads back to the plugin |
| `MarketplaceClosure.ReplaceKeepsMetIff` | packages/marketplace/src/installer.ts:233-235 | replacing a manifest keeps dependencies met exactly under the first two of these conditions |
| `MarketplaceClosure.ReplaceKeepsAcyclicIff` | packages/marketplace/src/installer.ts:233-235 | replacing a manifest keeps the graph acyclic exactly when none of its dependencies already reaches the plugin |
| `MarketplaceExamples.UpgradeCanBreakDependants` | packages/marketplace/src/installer.ts:188-244 | whatever the runtime: in the run that publishes and installs a base and an application and then publishes a version of the base the application does not accept, all dependencies are met until the base is upgraded, and not after |
| `MarketplaceExamples.SetupReaches` | packages/marketplace/src/installer.ts:56-140 | that run reaches, from the empty marketplace, the state with both installed |
| `MarketplaceExamples.CaretBreaks` | packages/marketplace/src/manifest-validator.ts:208-252 | any two versions of different majors and an application that pins the first by a caret are such an instance |
| `MarketplaceLaws.HistoriesAlwaysOk` | packages/marketplace/src/installer.ts:188-294 | in every reachable state each history is non-empty, ends in the installed version, has different neighbours, and all its versions are published |
| `MarketplaceLaws.ActKeepsHistories` | packages/marketplace/src/installer.ts:56-294 | every action keeps that |
| `MarketplaceLaws.RollbackFinds` | packages/marketplace/src/installer.ts:273-283 | from reachable states a rollback with a previous version always succeeds and goes to it: the not-found branch is dead |
| `MarketplaceLaws.RollbackUndoesUpgrade` | packages/marketplace/src/installer.ts:188-294 | a rollback after a successful upgrade restores the whole state |
| `MarketplaceLaws.RollbacksUndoUpgrades` | packages/marketplace/src/installer.ts:188-294 | k upgrades followed by k rollbacks restore the whole state |
| `MarketplaceLaws.RegisterKeeps` | packages/marketplace/src/registry.ts:34-62 | a registration keeps versions of a plugin distinct and valid, and every published manifest as it was |
| `MarketplaceLaws.CountDownloadKeeps` | packages/marketplace/src/registry.ts:260-265 | counting a download changes no published manifest |
| `MarketplaceLaws.ResolveFacts` | packages/marketplace/src/registry.ts:150-163 | what is resolved is a valid manifest of that plugin, found again under its own version |
| `MarketplaceLaws.FindVersionFacts` | packages/marketplace/src/registry.ts:159-163 | a version is found exactly when an entry has it |
| `MarketplaceHistory.RegistryTold` | packages/marketplace/src/registry.ts:34-62 | the registry of every run: each accepted registration of a plugin has its entry, in order, published when the first one was, with as many downloads as installs were accepted while it was the newest |
| `MarketplaceHistory.InstalledTold` | packages/marketplace/src/installer.ts:56-294 | what is installed after every run, since when and with which version history, told from the accepted actions; the manifest is the one registered under the last of those versions |
| `MarketplaceHistory.InstallMeaning` | packages/marketplace/src/installer.ts:56-140 | the answer of an install in every reachable state: its refusals by precedence, and otherwise the version asked for, or the newest, is installed last |
| `MarketplaceHistory.UpgradeMeaning` | packages/marketplace/src/installer.ts:188-244 | the answer of an upgrade: refused for a plugin that is not installed, a version that is not published, the same version, or an engine that is not met, and for nothing else |
| `MarketplaceHistory.RegisterMeaning` | packages/marketplace/src/registry.ts:34-62 | a registration is refused exactly for an invalid manifest or a version already published, and then changes nothing |
| `MarketplaceHistory.RemovalMeaning` | packages/marketplace/src/installer.ts:148-294 | an uninstall takes exactly that plugin away, a rollback is refused exactly without an earlier version, and refusals change nothing |
| `MarketplaceObjects.PluginRegistry.Register` | packages/marketplace/src/registry.ts:34-62 | refused for a manifest that lacks its declared types, is invalid, or has a version already there; otherwise one new entry with the first publication date |
| `MarketplaceObjects.PluginRegistry.GetPlugin` | packages/marketplace/src/registry.ts:150-154 | the newest entry, none for an unknown plugin |
| `MarketplaceObjects.PluginRegistry.GetPluginVersion` | packages/marketplace/src/registry.ts:159-163 | the first entry of that version, none without one |
| `MarketplaceObjects.PluginRegistry.Lookup` | packages/marketplace/src/installer.ts:67-69 | the given version, or the newest entry |
| `MarketplaceObjects.PluginRegistry.IncrementDownloads` | packages/marketplace/src/registry.ts:260-265 | the newest entry counts one more download |
| `MarketplaceObjects.PluginInstaller.Install` | packages/marketplace/src/installer.ts:56-140 | state and result are those of the install transition, with its six refusals in order |
| `MarketplaceObjects.PluginInstaller.InstalledVersions` | packages/marketplace/src/installer.ts:102-105 | the map of installed versions |
| `MarketplaceObjects.PluginInstaller.Uninstall` | packages/marketplace/src/installer.ts:148-179 | state and result are those of the uninstall transition; the scan stops at the first dependant |
| `MarketplaceObjects.PluginInstaller.Upgrade` | packages/marketplace/src/installer.ts:188-244 | state and result are those of the upgrade transition |
| `MarketplaceObjects.PluginInstaller.Rollback` | packages/marketplace/src/installer.ts:252-294 | state and result are those of the rollback transition; a pop whose lookup fails is pushed back |
| `MarketplaceChecks.ValidateManifest` | packages/marketplace/src/manifest-validator.ts:31-111 | of a manifest with fields of any type: the errors in order, the TypeError for a null engine, and none exactly when it is well-typed and valid |
| `MarketplaceChecks.NoErrorsIsValid` | packages/marketplace/src/manifest-validator.ts:31-111 | no error is reported exactly when every field has its declared type and all fields, dependencies, keywords and engine ranges are valid |
| `MarketplaceErrors.ErrorsTell` | packages/marketplace/src/manifest-validator.ts:31-111 | of a manifest with fields of any type: it gets exactly the errors that say something true of it, those of a field behind those of the fields before it; a null engine throws |
| `MarketplaceErrors.RawRegistration` | packages/marketplace/src/registry.ts:34-42 | a registration is refused as invalid, and changes nothing, exactly when the manifest has errors or the validator throws |
| `MarketplacePatterns.IdIsPattern` | packages/marketplace/src/manifest-validator.ts:23-23 | ids are valid exactly when the regular expression matches them |
| `MarketplacePatterns.VersionIsPattern` | packages/marketplace/src/manifest-validator.ts:13-13 | the greedy reader accepts exactly the versions the regular expression matches |
| `MarketplacePatterns.RangeIsPattern` | packages/marketplace/src/manifest-validator.ts:18-18 | the greedy reader accepts exactly the ranges the regular expression matches |
| `MarketplaceRanges.PrintedVersionIsValid` | packages/marketplace/src/manifest-validator.ts:13-13 | every printed version is valid, also with a pre-release or build tag |
| `MarketplaceRanges.PrintedRangeIsValid` | packages/marketplace/src/manifest-validator.ts:18-18 | any run of operator characters in front of a version is a valid range |
| `MarketplaceRanges.SatisfiableIff` | packages/marketplace/src/manifest-validator.ts:208-252 | of the valid ranges exactly those with no operator, ^, ~ or >= are satisfied by some version; <, >, =, <= and longer runs by none |
| `MarketplaceChecks.ResolveDependencies` | packages/marketplace/src/manifest-validator.ts:120-151 | exactly the missing and the conflicting requirements in order, and the versions of the resolved ones |
| `MarketplaceChecks.ResolutionDecides` | packages/marketplace/src/installer.ts:106-122 | the two lists are empty exactly when every dependency is installed, and installed in range |
| `MarketplaceChecks.CheckCompatibility` | packages/marketplace/src/manifest-validator.ts:160-186 | exactly the engine requirements the runtime does not meet, none when it fits |
| `MarketplaceErrors.ReportsMean` | packages/marketplace/src/manifest-validator.ts:120-186 | a requirement is reported missing exactly without a version, conflicting exactly with one out of range, unmet exactly in both cases, and resolved exactly with one in range |
| `Versions.WeightOrder` | packages/marketplace/src/manifest-validator.ts:230-231 | for minor and patch up to 999 the weighted number orders versions as section 11 of Semantic Versioning 2.0.0 does |
| `Versions.AtLeastIsExactIff` | packages/marketplace/src/manifest-validator.ts:233-235 | >= against all requirements of small components is exact for a version exactly when its own minor and patch are at most 999 |
| `Versions.AtLeastIsAlwaysExactIff` | packages/marketplace/src/manifest-validator.ts:233-235 | against all requirements it is exact for a version exactly when that is 0.0.p with p at most 999 |
| `Versions.RequirementIsAlwaysExactIff` | packages/marketplace/src/manifest-validator.ts:233-235 | of a requirement all versions are judged by precedence exactly when it is 0.0.p with p at most 1000 |
| `Versions.CheckersAgree` | packages/federation/src/shared-deps.ts:119-146 | on small components both checkers give the same verdict for caret, tilde and exact ranges |
| `Versions.CheckersAgreeIff` | packages/federation/src/shared-deps.ts:119-146 | for a version they do so against all such ranges of small components exactly when its own minor and patch are at most 999 |
| `Versions.RangesAreIntervals` | packages/federation/src/shared-deps.ts:119-146 | by precedence a caret or tilde range holds the versions from its own up to the next major or minor one, exactly in one checker and for small components in the other |
| `Versions.TextCheckersAgree` | packages/federation/src/shared-deps.ts:119-162 | the same for printed versions and ranges |
| `Versions.AtLeastIsRefused` | packages/federation/src/shared-deps.ts:119-146 | the federation checker refuses every >= range; the marketplace compares weights |
| `Versions.ParseSemverPrinted` | packages/marketplace/src/manifest-validator.ts:193-201 | a printed version parses to itself |
| `Versions.ParseSemverIff` | packages/marketplace/src/manifest-validator.ts:193-201 | a text parses to a version exactly when it starts with those three numerals and dots; what follows is ignored |
| `Versions.ParseVersionPrinted` | packages/federation/src/shared-deps.ts:154-162 | a printed version parses to itself |
| `Versions.ParseVersionIff` | packages/federation/src/shared-deps.ts:154-162 | a text parses to a version exactly when its first three pieces between dots are those numbers, an empty piece counting as zero; what follows a third dot is ignored |
| `PrometheusText.EscapeIsOnePass` | packages/metrics/src/prometheus.ts:28-30 | the three successive replaces equal one per-character escape |
| `PrometheusLaws.EscapedReadsBack` | packages/metrics/src/prometheus.ts:28-30 | a reader that undoes the format's escapes gets any escaped value back, up to its closing quote and not further |
| `PrometheusLaws.FormatReadsBack` | packages/metrics/src/prometheus.ts:14-23 | for legal label names and arbitrary values a reader of the text format gets all labels back in order, and the text after them |
| `PrometheusLaws.EscapeFacts` | packages/metrics/src/prometheus.ts:28-30 | an escaped value holds no newline, and is unchanged exactly when it holds none of the three characters |
| `PrometheusLaws.ValueOfRaw` | packages/metrics/src/prometheus.ts:122-126 | the parsed value of a pair is its quoted text, cut one short of the first = when it holds one |
| `PrometheusRoundTrip.RoundTripIff` | packages/metrics/src/prometheus.ts:47-131 | whatever the name, the labels and the text the number prints as: a printed line parses back to them exactly when name and label names are legal, no label is called __proto__, every label value is free of quote, backslash, newline, = and }, and the number pattern matches the text |
| `PrometheusRoundTrip.IntegerRoundTripIff` | packages/metrics/src/prometheus.ts:47-131 | for integers in plain digits the last condition always holds and the value is read as it is |
| `PrometheusRoundTrip.ParsedIsLegal` | packages/metrics/src/prometheus.ts:105-130 | whatever parses has a legal name and legal label names, and no label __proto__ |
| `PrometheusPattern.LineIsPattern` | packages/metrics/src/prometheus.ts:105-110 | a line is parsed exactly when the regular expression matches it |
| `PrometheusPattern.PiecesAreTaken` | packages/metrics/src/prometheus.ts:105-130 | however a line is cut into the pieces of the expression, those are the name, labels and number the parser takes |
| `PrometheusRoundTrip.NumberTextIff` | packages/metrics/src/prometheus.ts:105-107 | the number pattern matches a text exactly when it has digits, points and exponent letters only, behind at most one sign |
| `PrometheusRoundTrip.SignedExponentIsNone` | packages/metrics/src/prometheus.ts:105-107 | a number printed with a signed exponent is not matched |
| `PrometheusRoundTrip.WordsAreNone` | packages/metrics/src/prometheus.ts:105-107 | neither are NaN and the infinities |
| `PrometheusRoundTrip.LineRefused` | packages/metrics/src/prometheus.ts:105-110 | a closing brace in a label value makes the parser refuse the line |
| `PrometheusRoundTrip.LineParses` | packages/metrics/src/prometheus.ts:105-130 | without one the line parses exactly when the number is matched, to the pairs found between the braces |
| `PrometheusRoundTrip.CollectsEscaped` | packages/metrics/src/prometheus.ts:122-126 | as long as no value holds =, the parser keeps every value as it was escaped |
| `PrometheusRoundTrip.DecimalReads` | packages/metrics/src/prometheus.ts:114-114 | digits with a point and an exponent are read as the number they stand for, before rounding |
| `PrometheusText.ParsePrometheusLine` | packages/metrics/src/prometheus.ts:96-131 | the parser with its loop computes the value of the parse function |
| `PrometheusText.CollectLabels` | packages/metrics/src/prometheus.ts:122-126 | the loop that fills the labels object, a later value replacing an earlier one, __proto__ ignored |
| `PrometheusExport.ExportReadsBackIff` | packages/metrics/src/prometheus.ts:35-79 | for counters, gauges and histograms: the text has a line for each comment and sample exactly when help, name and label names hold no newline; the comments are then skipped, and each sample comes back exactly when its name, labels and printed number do |
| `PrometheusExport.TypeIsTold` | packages/metrics/src/prometheus.ts:39-42 | the first lines of an exported text are the help and the type of the metric, one word for each kind |
| `PrometheusExport.HelpBecomesLine` | packages/metrics/src/prometheus.ts:40-40 | what stands behind a newline of the help text is a line of its own |
| `PrometheusExport.HelpBecomesSample` | packages/metrics/src/prometheus.ts:40-40 | a help text can hold a sample of another metric, which the parser returns |
| `PrometheusExport.FormatMetric` | packages/metrics/src/prometheus.ts:35-79 | the lines pushed for counters, gauges and histograms, joined by newlines |
| `PrometheusExport.Replayed` | packages/metrics/src/prometheus.ts:56-63 | a histogram's percentiles are those of the last 10000 of its observations |
| `Percentiles.PercentileFacts` | packages/metrics/src/collectors.ts:174-177 | a percentile is an observed value with at least p percent of the window at or below it and, unless p is 0, fewer than p percent strictly below |
| `Percentiles.PercentileIsLeast` | packages/metrics/src/collectors.ts:174-177 | an observed value is at least the percentile exactly when at least p percent of the window are at or below it |
| `Percentiles.PercentilesAscend` | packages/metrics/src/collectors.ts:174-184 | a higher percentile is never a smaller value |
| `Percentiles.WindowMeaning` | packages/metrics/src/collectors.ts:158-161 | the window never holds more than it may, ends with the newest observation, and leaves nothing out while it has room |
| `Percentiles.TotalMeaning` | packages/metrics/src/collectors.ts:150-152 | the sum of all observations: of two parts the sum of theirs, of one its value |
| `Percentiles.HistogramCollector.Observe` | packages/metrics/src/collectors.ts:150-164 | the window stays the last maxObservations observations, sum and count those of all |
| `Percentiles.HistogramCollector.CalculatePercentiles` | packages/metrics/src/collectors.ts:169-185 | the four percentiles of the window, in ascending order; zeros when it is empty |
| `Percentiles.HistogramCollector.Reset` | packages/metrics/src/collectors.ts:208-213 | as new |
| `Permissions.FilterIsUnion` | packages/permissions/src/engine.ts:90-136 | under a stored set the action is allowed exactly when some profile allows it, and the combined filter accepts exactly the records some allowing profile shows |
| `Permissions.MoreProfilesShowMore` | packages/permissions/src/engine.ts:95-119 | more profiles, in any order, take nothing away |
| `Permissions.OrderDoesNotMatter` | packages/permissions/src/engine.ts:95-119 | the order of a user's profiles changes neither the verdict nor the records accepted |
| `Permissions.RecordFiltersAcceptMore` | packages/permissions/src/engine.ts:211-258 | for a user who may read, the record filters accept what the read check accepts and, besides, what meets the filter of a profile that may not read |
| `PermissionFlags.RecordFiltersMeaning` | packages/permissions/src/engine.ts:211-254 | for any user, reader or not: without a stored set nothing is filtered; otherwise a record is accepted when a listed profile reads freely, when it meets the filter of a listed profile, or when no listed profile has a filter |
| `Permissions.GetRecordFilters` | packages/permissions/src/engine.ts:215-254 | the loop over the profiles computes the record filters |
| `Permissions.Decide` | packages/permissions/src/engine.ts:90-144 | the loop over the profiles computes the decision |
| `Permissions.CheckActionPermission` | packages/permissions/src/engine.ts:267-280 | the switch decides as Permissions.ActionAllowed; PermissionFlags.AllowedByFlags says which flag that is |
| `PermissionFlags.AllowedByFlags` | packages/permissions/src/engine.ts:90-144 | a stored set allows create exactly when some listed profile has allowCreate, read with allowRead, update with allowEdit, and delete with allowDelete |
| `PermissionFlags.ShownByFlags` | packages/permissions/src/engine.ts:90-144 | a user who may act sees exactly the records that some listed profile with the flag of the action shows, by its filters or without any |
| `PermissionFlags.DefaultsAndReasons` | packages/permissions/src/engine.ts:78-144 | without a stored set the default decides; refusals carry no filter and the reason given |
| `PermissionCacheTheorems.CachedEqualsRecomputed` | packages/permissions/src/engine.ts:61-148 | while nothing stored changes, every answer in every interleaving of suspended checks, clears and failures equals the recomputed one, for user ids without a colon |
| `PermissionCacheAnswers.ServedOnce` | packages/permissions/src/engine.ts:60-148 | after any events every answer and every pending check is one that was asked, about the same user, object and action; none is answered twice, and those neither answered nor pending are those whose storage failed |
| `PermissionCacheAnswers.AnsweredAtOnceIff` | packages/permissions/src/engine.ts:67-76 | a check is answered at once exactly from an entry under its key that is no older than the time to live, a minute by default |
| `PermissionCacheTheorems.AnswersAreRecent` | packages/permissions/src/engine.ts:61-148 | while stored sets and profiles change, an answer is the right one for the permission set and the profiles of two moments, neither older than the time to live plus the longest time a check of the trace took |
| `PermissionCacheTheorems.BoundIsReached` | packages/permissions/src/engine.ts:76-146 | for every time to live and every length of a check a run gives an answer exactly that old |
| `PermissionCacheTheorems.ClearIsCompleteIff` | packages/permissions/src/engine.ts:372-394 | after clearing a user, or everything, no later question of the user gets the answer of a check asked before it, whatever follows, exactly when no check of the user is suspended at that moment or the cache never answers |
| `PermissionCacheSets.ClearRenewsSetsIff` | packages/permissions/src/engine.ts:372-394 | all answers to the user after it rest on permission sets read from then on exactly when no suspended check of the user already holds an older one |
| `PermissionCacheTheorems.ClearKeepsOthers` | packages/permissions/src/engine.ts:382-394 | clearing one user leaves the entries of all others as they are |
| `PermissionCacheExamples.ClearIsOutrun` | packages/permissions/src/engine.ts:382-394 | a run: the permission is revoked and the user cleared while a check is suspended, and the next question is still answered with yes |
| `PermissionCacheExamples.SharedKeyMixesAnswers` | packages/permissions/src/engine.ts:335-337 | a run in which a user gets the answer to another user's question about another object |
| `PermissionCacheLaws.AlwaysSound` | packages/permissions/src/engine.ts:61-148 | in every reachable state each entry, each suspended check and each answer is tied to the moments its set and its profiles were read |
| `PermissionCacheLaws.StepKeeps` | packages/permissions/src/engine.ts:61-148 | one event of any kind keeps that |
| `PermissionKeys.SharedKeyIff` | packages/permissions/src/engine.ts:335-337 | two users can have a cache key in common exactly when one id continues the other behind a colon |
| `PermissionKeys.KeysAreDistinct` | packages/permissions/src/engine.ts:335-337 | user ids without a colon make cache keys unambiguous, whatever the object names hold |
| `PermissionKeys.PrefixIsUser` | packages/permissions/src/engine.ts:386-388 | a key starts with a user's prefix exactly when it is that user's |
| `PermissionEngine.PermissionEngine.CheckPermission` | packages/permissions/src/engine.ts:61-76 | the step of the state machine up to the await: answered from the cache, or suspended |
| `PermissionEngine.PermissionEngine.Resume` | packages/permissions/src/engine.ts:76-148 | the rest of a check: decides by the set it was given, fills the cache with the time of the decision, answers |
| `PermissionEngine.PermissionEngine.ClearUserCache` | packages/permissions/src/engine.ts:382-394 | exactly the keys with the user's prefix are gone |

## Left out

- LruCache.LruCacheBackend.Get: entries are values in the map, not shared objects; they never leave the cache in the source either. `getStats` and its hit rate, and the expiry timer itself, are not modelled.
- One call reads the clock once, where the source may read it twice in a row.
- JobQueueTheorems.NoJobTwiceAtOnce: assumes one live loop and fresh job ids, and that nothing deletes jobs from the storage while the queue runs; `OneLoopIff` says when there is one loop, and `TwoLoopsTakeOneJob` and `RestartRunsOneJobTwice` what happens with two. A handler's timeout is a handler that throws. Sleeps have no length: an event may come at any time.
- The job queue over persistent storage under interleaving: its update awaits between read and write.
- PersistentAgreement.StoragesAgree: sequential calls on a key-value store that lists keys in insertion order; patches keep the id and hold valid dates. Listing and purging dead letters and scheduled jobs are left out, as are date texts other than those `toISOString` writes.
- DataLoader: keys are strings; the promise machinery is the list of answers by ticket. Batch functions of the factory see a fixed record collection with distinct ids; a find that answers with no array is one that found nothing.
- RateLimit: headers, the custom handler and the derivation of the key from the request are not modelled.
- Aggregation: field names every object inherits, dotted paths, `project`, `lookup` and `count` stages, floating-point rounding, and mixed-type conversions are left out or parameters; group keys that are arrays are compared by content; a real group key `__all__` is not told apart from no grouping, as in the code.
- AggregationLaws.PushdownSame: assumes that each sort stage meets rows on which its comparator is a consistent order, as JavaScript needs for a predictable sort; `HomogeneousIsSortable` says which columns qualify.
- Cron: a fixed offset from UTC in whole minutes; the schedule table and the delivery of reports are left out.
- Strings are sequences of characters; comparisons of strings are by character, not by UTF-16 code unit.
- Marketplace: search, ratings, featured and verified flags and the listing calls are left out; keywords are checked and not kept. An entry's stored manifest and an installed one are separate values; sharing of nested objects between them is not modelled. Runtime versions are looked up by own engine names only: an engine called like a property every object inherits makes the source throw where the model refuses as incompatible, and changes nothing in either. The TypeError of a null engine is one of the refusals.
- Versions: numbers in version texts are plain digits; other texts that `Number` accepts are not modelled. Pre-release precedence is not part of either checker.
- PrometheusRoundTrip.RoundTripIff: what a number prints as is a parameter, a text without blanks; the value read is the one before rounding to a double. Labels come in the order of `Object.entries`. The blank lines between the metrics of one export are left out.
- Percentiles: exact arithmetic; the rounding of `p / 100 * n` in doubles is not modelled.
- Permissions: field permissions and template replacement are left out; what a filter condition means to a record is a parameter. The theorems about the cache are for user ids without a colon; `SharedKeyIff` says which others share keys. The profiles are read when the check is asked.
- HTTP routes, plugin wiring, scheduled triggers, sandboxes, Redis and database backends: thin calls into services outside these engines.
