# Verification of Scrapy's crawl core

A Dafny 4.11 model of the parts of Scrapy that decide which request goes next, what becomes of
it, and when a crawl is over, with proofs of what these parts promise over whole runs.
`dafny verify dfyconfig.toml` checks everything.

Code that updates objects step by step is modelled by classes whose methods are proved against
functions of the old state; code that is interleaved by the event loop is modelled by its steps,
each the code between two awaits, and the theorems are about every interleaving of them. One
file stands for one component:

- `ArrivalQueue.dfy`, `PriorityQueues.dfy`: the bucketed queue with its cached priority and its
  second tier for start requests, against a reference that has neither: one sequence of requests
  in order of arrival, from which the request that comes before all others is served. Pushes may
  fail halfway, so empty buckets are reachable.
- `SlotSelection.dfy`, `SlotQueues.dfy`: the queue per download slot, the round robin among the
  least busy slots, its fairness over runs, and closing and reopening.
- `DupeFilters.dfy`, `Schedulers.dfy`: the duplicate filter with its file, and the scheduler over
  a memory and a disk queue, with its statistics.
- `EngineLifecycle.dfy`, `ScraperSlots.dfy`: requests and items in flight, idleness, backpressure, and
  the graceful close of engine and scraper.
- `SpiderMiddleware.dfy`: output stages and exception handlers over streams that may fail.
- `WorkerPool.dfy`: the producer and the workers behind the parallel processing of output.
- `MediaPipelines.dfy`, `Robots.dfy`: one caller fetches, the others wait; with media all get the
  result, with robots.txt not all do.
- `RetryRedirect.dfy`: budgets of retries and redirects, and the loop of `download_async`.
- `FeedExport.dfy`, `Throttle.dfy`, `HttpCache.dfy`: batches, delays, freshness over time.
- `Requests.dfy`, `Deferreds.dfy`, `Collections.dfy`, `Reals.dfy`: the request as the queues see it,
  deferreds, and facts about sets, maps and reals.

Where a natural claim is false of the code, the model keeps the code, and the exact condition is
proved:

- `peek` of a priority queue names what `pop` would return only if the cached priority is absent
  or belongs to a bucket of exactly one tier (or of two empty ones); it raises KeyError if the
  cached priority belongs to no bucket (`PriorityQueues.ScrapyPriorityQueue.Peek`; inputs in
  `PriorityQueues.PeekMisleads` and `PriorityQueues.PeekRaisesKeyError`).
- `pop` may return nothing while requests are pending, because of a bucket that a failed push left
  empty (`PriorityQueues.PopAnswersNothing`); draining nevertheless ends, with every request in the
  undisturbed order.
- Requests that wait for a robots.txt do not all learn what it says: they await one deferred, and
  only the first gets its result. All callers of a site agree if and only if there are no rules or
  at most one of them waited (`Robots.SameAnswers`; input in `Robots.ThirdCallerSkipsRules`).
- A graceful close gets past the scraper if and only if no item is in the pipelines when it gets
  there; an item from `start()` that is still there makes it wait for ever
  (`EngineLifecycle.CloseHangsOnStartItems`, input in `EngineLifecycle.CloseCanHang`). From any
  other state the close can come to its end (`EngineLifecycle.CloseCanFinish`).
- A spider that the engine finds idle is closed in a later step, and what comes in before that may
  be left behind or waited for. The close finds nothing pending and nothing to wait for if and
  only if as many requests are done in the meantime as were about to resume their callers and
  come in since (`EngineLifecycle.NaturalCloseFindsNothing`): as long as those that come in get
  no further, if and only if none comes in (`EngineLifecycle.NaturalCloseInOneTurn`, inputs in
  `EngineLifecycle.CrawlBeforeClose` and `EngineLifecycle.RedirectBeforeClose`). A close that
  somebody else requests while the spider is idle waits if and only if a `download_async` has
  ended in the downloader and not yet resumed its caller
  (`EngineLifecycle.IdleCloseWaitsForDirect`, input in `EngineLifecycle.IdleCloseCanWait`).
- `start()` can hand over requests when the scheduler has been closed; exactly these are left over,
  neither saved nor started (`EngineLifecycle.LateFollowUps`).
- The slot's deferred is fired a second time if and only if a `download_async` begins or goes on
  after the slot has closed and the last request leaves the slot after that
  (`EngineLifecycle.FiresTwiceIffLate`); a redirect during the close is enough
  (`EngineLifecycle.RedirectDuringCloseFails`).
- With `count` Nones or more among its elements the worker pool loses the items behind the
  `count`-th, and the wait ends only if at most `count` elements follow
  (`WorkerPool.ManyNonesLoseItems`, input in `WorkerPool.ItemBehindNoneIsLost`). With a count of
  0, which a CONCURRENT_ITEMS of 0 gives, all items are lost and the wait ends
  (`WorkerPool.NoWorkersLoseAll`).
- A duplicate filter reopened on its file knows what it knew if and only if no fingerprint has a
  line end or trailing white space and the first one written did not run on into a line that was
  never ended (`DupeFilters.Reopen`, input in `DupeFilters.TornLineForgets`). Over several runs
  that write whole lines a fingerprint is accepted twice if and only if it has a line end or
  trailing white space and is offered in two of them (`DupeFilters.Runs`, input in
  `DupeFilters.AcceptedTwice`). The hexadecimal digits of the default fingerprints never have
  (`DupeFilters.HexIsPlain`).
- An exception handler is sure to be asked at most once about a response if and only if there is no
  output stage before it (`SpiderMiddleware.AskedOnce`), and on exactly the same condition it is
  never asked about an exception that a given handler raised, be it a later one, an earlier one
  or itself (`SpiderMiddleware.NeverAskedAboutHandlers`; an input for both in
  `SpiderMiddleware.HandlerAskedAgain`).
- A stored response without a date can get fresh again (`HttpCache.StalenessOverTime`, input in
  `HttpCache.StaleThenFresh`), and a max-age directive without a value is a TypeError
  (`HttpCache.FailsOnValuelessMaxAge`).

Assumed: serialization to disk is inverted by deserialization and fails for a request either
always or never; the digest in directory names has no collisions; a Request object is handed to
the engine once and is in flight at most once; the output stages of spider middlewares are
generators that yield a function of what they have pulled. Of Twisted, that awaiting a Deferred
adds a callback that returns None, so that a second coroutine awaiting it gets None; of asyncio,
that tasks begin and resume in the order in which they were scheduled to.

## Model

| member | source | states |
|---|---|---|
| `ArrivalQueue.SomeoneIsServed` | scrapy/pqueues.py:176-228 | the reference order is total enough that a non-empty queue always has a request that comes before all others |
| `ArrivalQueue.ServedUnique` | scrapy/pqueues.py:176-228 | and there is only one such request |
| `ArrivalQueue.ServeBucket` | scrapy/pqueues.py:191-219 | serving it is popping the head of its bucket, FIFO or LIFO, and leaves all other buckets alone |
| `ArrivalQueue.SameBucketsServeAlike` | scrapy/pqueues.py:139-156 | queues that agree bucket by bucket serve the same request next and agree again afterwards, however the arrivals were interleaved across buckets |
| `ArrivalQueue.DrainIsPermutation` | scrapy/pqueues.py:191-219 | draining hands out each stored request once |
| `ArrivalQueue.DrainIsSorted` | scrapy/pqueues.py:191-219 | never a request of lower priority ahead of one of higher priority; at equal priority regular requests ahead of start requests, if these have a queue class of their own |
| `ArrivalQueue.DrainKeepsBucketOrder` | scrapy/pqueues.py:158-171 | inside a bucket in arrival order, or the reverse for LIFO |
| `ArrivalQueue.DrainFollowsOrders` | scrapy/pqueues.py:158-189 | with such a class, the start requests of one priority come out in its order, FIFO or LIFO, and the regular ones in that of the regular class; without, all in the latter |
| `PriorityQueues.ScrapyPriorityQueue.constructor` | scrapy/pqueues.py:121-137 | a new queue is empty |
| `PriorityQueues.ScrapyPriorityQueue.Open` | scrapy/pqueues.py:139-156 | reopening holds exactly the files of the given priorities; the cached priority is the least of these, stale if its files are empty |
| `PriorityQueues.ScrapyPriorityQueue.Push` | scrapy/pqueues.py:176-189 | a push appends to the arrival order and lowers the cached priority if need be, or fails, leaves that and at most one empty bucket more; the bucket of the request is there either way |
| `PriorityQueues.ScrapyPriorityQueue.UpdateCurprio` | scrapy/pqueues.py:221-228 | the least priority number among all stored requests, none if there are none |
| `PriorityQueues.ScrapyPriorityQueue.Pop` | scrapy/pqueues.py:191-219 | the request that comes before all stored ones, unless an empty bucket stands first; without failed pushes always that request; each call on a non-empty queue takes exactly one request or one empty bucket; its loop goes round at most twice; and when the cached priority stays behind |
| `PriorityQueues.ScrapyPriorityQueue.Peek` | scrapy/pqueues.py:230-244 | agrees with the next pop, and raises KeyError, exactly under the conditions above |
| `PriorityQueues.ScrapyPriorityQueue.Len` | scrapy/pqueues.py:254-263 | the number of stored requests |
| `PriorityQueues.ScrapyPriorityQueue.Close` | scrapy/pqueues.py:246-252 | all priorities with a bucket, and the non-empty buckets on disk |
| `PriorityQueues.ScrapyPriorityQueue.DrainAll` | scrapy/pqueues.py:191-219 | popping until empty ends, whatever pushes failed before, and yields the reference order |
| `PriorityQueues.SavedAndRestored` | scrapy/pqueues.py:139-156 | whatever holds what a closed queue saved has its buckets, its length and its drain order |
| `PriorityQueues.Restart` | scrapy/pqueues.py:246-252 | closing and reopening keeps buckets, length and drain order |
| `PriorityQueues.PeekMisleads` | scrapy/pqueues.py:230-244 | a regular and a start request of equal priority for which peek and pop differ |
| `PriorityQueues.PeekRaisesKeyError` | scrapy/pqueues.py:199-204 | a regular and a less urgent start request after which peek raises KeyError |
| `PriorityQueues.PopAnswersNothing` | scrapy/pqueues.py:187-189 | a failed and a successful push after which the first pop answers nothing |
| `PriorityQueues.PopsInBothOrders` | scrapy/settings/default_settings.py:549-553 | with the default classes, two regular and two start requests of one priority: the regular ones last in, first out, then the start requests first in, first out |
| `SlotSelection.NextSlot` | scrapy/pqueues.py:364-389 | one pass finds the round robin choice among the slots with the fewest active downloads |
| `SlotSelection.SelectsOne` | scrapy/pqueues.py:364-389 | that choice is unique |
| `SlotSelection.LessMeans` | scrapy/pqueues.py:371-389 | slot names are ordered by their first difference |
| `SlotSelection.ChoicesMoveForward` | scrapy/pqueues.py:364-389 | while a tied slot is passed over, the choices go forward within one round of the names |
| `SlotSelection.BoundedBypass` | scrapy/pqueues.py:364-389 | over any run, as slots come and go, no slot is chosen twice while another stays tied and is not chosen |
| `SlotSelection.RoundRobin` | scrapy/pqueues.py:364-389 | with a constant set of tied slots, as many choices as slots take each once |
| `SlotQueues.PathSafeIsInjective` | scrapy/pqueues.py:24-39 | different slots get different directories |
| `SlotQueues.PathSafeKeeps` | scrapy/pqueues.py:24-39 | letters, digits, dashes, dots and underscores stay in it, everything else becomes an underscore |
| `SlotQueues.Stats` | scrapy/pqueues.py:270-280 | the pairs from which the least busy slots are found |
| `SlotQueues.DownloaderAwarePriorityQueue.constructor` | scrapy/pqueues.py:352-359 | a new queue has no slot, and none selected last |
| `SlotQueues.DownloaderAwarePriorityQueue.Open` | scrapy/pqueues.py:358-362 | reopening restores every saved slot from its own directory; no slot counts as selected last |
| `SlotQueues.DownloaderAwarePriorityQueue.Push` | scrapy/pqueues.py:420-425 | stores at the end of the request's slot and of no other, or fails and may leave an empty slot |
| `SlotQueues.DownloaderAwarePriorityQueue.Pop` | scrapy/pqueues.py:402-418 | serves the round robin choice among the least busy slots with what its queue is due to return, drops an emptied slot, and makes progress while any slot exists |
| `SlotQueues.LeastBusyIsServed` | scrapy/pqueues.py:364-389 | no slot has fewer active downloads than the one served |
| `SlotQueues.DownloaderAwarePriorityQueue.Peek` | scrapy/pqueues.py:427-439 | looks into the slot pop would serve, agrees with it exactly when that slot's queue does, and passes on its KeyError |
| `SlotQueues.DownloaderAwarePriorityQueue.Len` | scrapy/pqueues.py:446-447 | the requests of all slots |
| `SlotQueues.DownloaderAwarePriorityQueue.Close` | scrapy/pqueues.py:441-444 | the state of every slot, and its files under its own directory |
| `SlotQueues.DownloaderAwarePriorityQueue.Use` | scrapy/pqueues.py:364-425 | any sequence of pushes and pops: what is stored before and after each call, which slot each pop serves, that these choices are one run of the round robin among the slots tied in the queue, and how many there can be |
| `SlotQueues.TracedIsRun` | scrapy/pqueues.py:364-389 | whatever traces calls of the queue makes one run of the round robin among the slots of the queue that were tied at each pop |
| `SlotQueues.BypassIsBounded` | scrapy/pqueues.py:364-418 | in any stretch of any run of pushes and pops no slot is served twice while another slot of the queue stays tied for the fewest downloads and is not served |
| `SlotQueues.DownloaderAwarePriorityQueue.DrainAll` | scrapy/pqueues.py:402-418 | popping until no slot is left ends, under any download activity and whatever pushes failed, and hands out each slot's requests in that slot's order |
| `SlotQueues.Restart` | scrapy/pqueues.py:441-444 | closing and reopening keeps each slot's requests, their number and their later order |
| `DupeFilters.LoadedIsPlain` | scrapy/dupefilters.py:87-94 | nothing with a line end or trailing white space is ever read back |
| `DupeFilters.ReloadRestores` | scrapy/dupefilters.py:87-94 | reading back a file written line by line gives the fingerprints written if and only if none has a line end or trailing white space |
| `DupeFilters.HexIsPlain` | scrapy/dupefilters.py:114-116 | the fingerprints of the class itself have none |
| `DupeFilters.SpacesAre` | scrapy/dupefilters.py:94-94 | which characters count as trailing white space |
| `DupeFilters.WrittenBehind` | scrapy/dupefilters.py:87-94 | what is written behind the end of a line is read back beside what is there |
| `DupeFilters.TornForgets` | scrapy/dupefilters.py:87-94 | the first fingerprint written behind a line that was not ended is not read back |
| `DupeFilters.TornLineForgets` | scrapy/dupefilters.py:105-112 | a file cut off in a line and a fingerprint lost for it |
| `DupeFilters.RFPDupeFilter.constructor` | scrapy/dupefilters.py:72-94 | opening on any file loads what its lines say |
| `DupeFilters.RFPDupeFilter.RequestSeen` | scrapy/dupefilters.py:105-112 | true exactly for fingerprints known before, whatever they look like; a new one is remembered and written |
| `DupeFilters.Reopen` | scrapy/dupefilters.py:72-94 | the next run knows every plain fingerprint unless the first one written ran on into a line that was not ended, and all that was known if and only if that did not happen and all of it is plain |
| `DupeFilters.Runs` | scrapy/dupefilters.py:72-112 | over any number of runs on one job directory none is accepted twice if and only if what is offered in two runs is plain; if all are plain, all offered are accepted |
| `DupeFilters.AcceptedTwice` | scrapy/dupefilters.py:87-112 | a fingerprint that ends in a space, accepted in two runs |
| `Schedulers.ConservedPut` | scrapy/core/scheduler.py:364-385 | adding one request to memory or disk keeps the balance of initial and accepted against dequeued and stored |
| `Schedulers.ConservedTake` | scrapy/core/scheduler.py:387-406 | so does handing one out |
| `Schedulers.PopTakesOut` | scrapy/core/scheduler.py:387-406 | a pop takes out the request answered and nothing else |
| `Schedulers.Scheduler.constructor` | scrapy/core/scheduler.py:342-351 | opening establishes the balance with what is on disk |
| `Schedulers.Scheduler.OnePlace` | scrapy/core/scheduler.py:364-385 | no request is stored both in memory and on disk |
| `Schedulers.Scheduler.EnqueueRequest` | scrapy/core/scheduler.py:364-385 | rejects exactly the duplicates among requests without dont_filter; stores on disk if there is a disk queue that can, else in memory; counts each accepted request once in all and once in its place, and each failed serialization; keeps the balance |
| `Schedulers.Scheduler.DqPush` | scrapy/core/scheduler.py:414-436 | false without a disk queue or if serialization fails, which is counted |
| `Schedulers.Scheduler.NextRequest` | scrapy/core/scheduler.py:387-406 | what the memory queue's pop selects if it holds anything, else what the disk queue's does; counts it once in all and once for its place; keeps the balance |
| `Schedulers.Scheduler.Len` | scrapy/core/scheduler.py:408-412 | initial plus accepted minus dequeued |
| `Schedulers.Resume` | scrapy/core/scheduler.py:353-362 | after a stop and a resume each slot on disk has the same later order, memory is empty, and the duplicate filter remembers every plain fingerprint, all if and only if all are plain, on the condition above on the file |
| `EngineLifecycle.StepKeeps` | scrapy/core/engine.py:344-434 | every step keeps: what is in progress is what is in flight; every request handed over is pending, refused, in flight or done, and only one of these; a fired slot has nothing scheduled in flight; what is awaited is nested in what awaits it |
| `EngineLifecycle.SafeToCloseScheduler` | scrapy/core/engine.py:626-672 | in any run, when the scheduler is closed nothing it handed out is in the downloader or scraper, and everything ever handed to it is pending, refused or done |
| `EngineLifecycle.NoFollowUpIsLost` | scrapy/core/engine.py:413-424 | a request that a redirect, a callback or start() handed over at any time of a run, and the scheduler took, is pending or done when the scheduler is closed; one it refused stays refused |
| `EngineLifecycle.LateFollowUps` | scrapy/core/engine.py:666-710 | while the engine finishes closing, a request the scheduler took is left over if and only if it was handed over when the scheduler had been closed; all others are saved as pending, or done |
| `EngineLifecycle.LateIsNeverStarted` | scrapy/core/engine.py:666-710 | from then on nothing is started, and what was pending and done does not change |
| `EngineLifecycle.QuietOnceFired` | scrapy/core/engine.py:626-672 | after the slot's deferred has fired no scheduler-started request moves, so none hands over a follow-up |
| `EngineLifecycle.NoStartOnceClosing` | scrapy/core/engine.py:344-368 | no request is taken from the scheduler once closing has begun |
| `EngineLifecycle.TearDownOnce` | scrapy/core/engine.py:626-715 | whatever close requests come, teardown runs at most once, and has run exactly when the spider is gone |
| `EngineLifecycle.IdleCloseWaitsForDirect` | scrapy/core/engine.py:626-648 | a close that anybody but the engine requests while the spider is idle finds every request refused or done, and waits neither for the slot nor for the scraper if and only if no download_async is about to resume |
| `EngineLifecycle.IdleCloseCanWait` | scrapy/core/engine.py:487-493 | a run after which such a close does wait |
| `EngineLifecycle.NaturalCloseWasIdle` | scrapy/core/engine.py:590-614 | in any run, the engine's own close begins only after start() was exhausted, nothing was pending, in the downloader or in the scraper, and at most downloads about to resume were left |
| `EngineLifecycle.NaturalCloseFindsNothing` | scrapy/core/engine.py:590-614 | whatever happens between the idle test and the beginning of that close: it finds nothing pending and nothing to wait for if and only if as many requests are done since as were about to resume and came in |
| `EngineLifecycle.NaturalCloseInOneTurn` | scrapy/utils/defer.py:530-542 | as long as what comes in gets no further before the close begins: if and only if nothing comes in |
| `EngineLifecycle.NothingBroughtIsOneTurn` | scrapy/utils/defer.py:530-542 | if nothing comes in, nothing gets any further |
| `EngineLifecycle.AheadIsFixed` | scrapy/utils/defer.py:530-542 | the scheduled close waits for what was about to resume when it was asked for, and for nothing that gets ready later |
| `EngineLifecycle.ItemStays` | scrapy/core/scraper.py:479-494 | an item stays in the pipelines, awaited as it was, until it ends |
| `EngineLifecycle.CrawlBeforeClose` | scrapy/core/engine.py:447-452 | a request handed over after the idle test that is pending when the slot has closed |
| `EngineLifecycle.RedirectBeforeClose` | scrapy/core/engine.py:487-497 | a download_async that goes on with a redirect after the idle test, for which the close waits |
| `EngineLifecycle.MoveShrinks` | scrapy/core/engine.py:374-434 | each thing in flight ends within a bounded number of steps |
| `EngineLifecycle.SlotCloseFinishes` | scrapy/core/engine.py:88-99 | a closing slot is never stuck: what is in flight leads to the deferred firing |
| `EngineLifecycle.CloseHangsOnStartItems` | scrapy/core/scraper.py:191-239 | the exact condition under which the close gets past the scraper; otherwise it never does, whatever happens |
| `EngineLifecycle.CloseCanHang` | scrapy/core/scraper.py:479-494 | a run from the opened spider after which it never does |
| `EngineLifecycle.SlotToEnd` | scrapy/core/engine.py:647-710 | from a slot that is being closed, what is in flight, with the items ended first, and three more steps lead to the end of the close |
| `EngineLifecycle.CloseCanFinish` | scrapy/core/engine.py:626-715 | from any state the close can still come to its end if and only if it does not hang on a start item already, and then within a bounded number of steps |
| `EngineLifecycle.SecondFiring` | scrapy/core/engine.py:84-99 | the only step that fires a deferred twice: a download_async that outlives the slot's close is the last to leave |
| `EngineLifecycle.FiresTwiceIffLate` | scrapy/core/engine.py:84-99 | over any run a deferred is fired twice if and only if a download_async begins or goes on once the slot has closed and the last request leaves the slot after that |
| `EngineLifecycle.RedirectDuringCloseFails` | scrapy/core/engine.py:487-497 | a redirect inside download_async during the close fires it twice |
| `EngineLifecycle.ExecutionEngine.constructor` | scrapy/core/engine.py:545-560 | the state right after opening |
| `EngineLifecycle.ExecutionEngine.MaybeFireClosing` | scrapy/core/engine.py:93-99 | fires when closing and nothing is in progress |
| `EngineLifecycle.ExecutionEngine.CheckIfClosing` | scrapy/core/scraper.py:213-217 | fires when the scraper is closing and idle |
| `EngineLifecycle.ExecutionEngine.Crawl` | scrapy/core/engine.py:447-467 | a request is handed to the scheduler, which keeps or refuses it; the invariant of the engine stays |
| `EngineLifecycle.ExecutionEngine.HandleDownloaderOutput` | scrapy/core/engine.py:413-434 | a response goes to the scraper; a request is handed over before the one it answers leaves the slot |
| `EngineLifecycle.ExecutionEngine.FinishScrape` | scrapy/core/scraper.py:220-239 | the end of a response, for scraper and slot |
| `EngineLifecycle.ExecutionEngine.CloseSpider` | scrapy/core/engine.py:626-655 | only the first close request does anything |
| `EngineLifecycle.ExecutionEngine.BeginClose` | scrapy/core/engine.py:626-655 | the scheduled close begins |
| `EngineLifecycle.ExecutionEngine.SpiderIdle` | scrapy/core/engine.py:590-614 | schedules the close exactly if the spider is idle and nothing keeps it open |
| `EngineLifecycle.ExecutionEngine.AskClose` | scrapy/core/engine.py:612-614 | the close is scheduled behind what is about to resume |
| `EngineLifecycle.ExecutionEngine.StartScheduledRequest` | scrapy/core/engine.py:374-410 | one request leaves the scheduler and is in progress and downloading |
| `EngineLifecycle.ExecutionEngine.StartWhileRoom` | scrapy/core/engine.py:348-350 | starts what the scheduler answers, in that order, as long as it answers and there is room, and no longer: none while the scraper is full or the engine is stopped, and never more downloads than the limit |
| `EngineLifecycle.ExecutionEngine.StartScheduledRequests` | scrapy/core/engine.py:344-368 | the same, nothing at all while paused or closing, and schedules the close exactly when start, scheduler, downloader and scraper are all exhausted and it is to be closed then |
| `ScraperSlots.Charge` | scrapy/core/scraper.py:81-84 | the greater of the body's size and 1024, and 1024 for a failure |
| `ScraperSlots.HeldBound` | scrapy/core/scraper.py:65-103 | the account is at least 1024 for each result held and at least the bytes of all bodies, and 0 exactly when nothing is held |
| `ScraperSlots.Slot.AddResponseRequest` | scrapy/core/scraper.py:75-85 | queues a result and charges it |
| `ScraperSlots.Slot.NextResponseRequest` | scrapy/core/scraper.py:87-90 | the oldest queued result becomes active, its charge stays |
| `ScraperSlots.Slot.FinishResponse` | scrapy/core/scraper.py:92-97 | takes a result and its charge away |
| `ScraperSlots.Slot.IsIdle` | scrapy/core/scraper.py:99-100 | nothing held, announced or in the pipelines, which is when both accounts are 0 |
| `ScraperSlots.Slot.NeedsBackout` | scrapy/core/scraper.py:102-103 | the exact total of charges against the limit, which bounds the number of results and the bytes held |
| `ScraperSlots.Slot.ScrapeNext` | scrapy/core/scraper.py:241-245 | all that is queued is started, in order, and nothing stays queued |
| `ScraperSlots.Slot.EnqueueScrape` | scrapy/core/scraper.py:220-228 | between two awaits nothing is queued |
| `ScraperSlots.Slot.FinishScrape` | scrapy/core/scraper.py:236-239 | a closing scraper is told exactly when this leaves it idle, which raises no error |
| `ScraperSlots.Slot.CloseSpider` | scrapy/core/scraper.py:191-200 | fires at once exactly when both accounts are 0 |
| `ScraperSlots.Slot.StartItemprocNowait` | scrapy/core/scraper.py:479-488 | an item is counted before its coroutine runs |
| `ScraperSlots.Slot.TakeOverItem` | scrapy/core/scraper.py:490-494 | the handover leaves the count as it is |
| `ScraperSlots.Slot.StartItemproc` | scrapy/core/scraper.py:508-512 | the count stays that of the items announced and in the pipelines, one of which is new |
| `ScraperSlots.Slot.EndItemproc` | scrapy/core/scraper.py:557-558 | the same with one gone, and without a look at the closing deferred |
| `ScraperSlots.MoveMeans` | scrapy/core/scraper.py:72-100 | what is in the scraper after a move: the requests that came and are not finished, the items that began and have not ended, and as many announced ones as are not taken over |
| `ScraperSlots.FiresOnce` | scrapy/core/scraper.py:213-239 | over any run of these methods the closing deferred is fired once at most |
| `ScraperSlots.LastResponseDecides` | scrapy/core/scraper.py:213-239 | when closing has begun and the last response is finished it fires if and only if no item is under way that no response awaits |
| `ScraperSlots.NeverToldAgain` | scrapy/core/scraper.py:213-239 | and if it does not fire then, it never does |
| `ScraperSlots.FiresWhenIdle` | scrapy/core/scraper.py:213-239 | over any run with items nested in responses it has fired exactly when closing has begun and the scraper is idle |
| `SpiderMiddleware.SpiderMiddlewareManager.constructor` | scrapy/core/spidermw.py:57-73 | no middlewares yet |
| `SpiderMiddleware.SpiderMiddlewareManager.AddMiddleware` | scrapy/core/spidermw.py:57-73 | both method lists grow on the left in step |
| `SpiderMiddleware.SpiderMiddlewareManager.Middlewares` | scrapy/core/spidermw.py:57-73 | position i of both lists belongs to the same middleware, the one added i places before the last |
| `SpiderMiddleware.ExceptionAt` | scrapy/core/spidermw.py:116-150 | one exception is offered to handlers from the start index on, each at most once and in order, and what comes of it is an exception of its own or a stream all of whose items passed the right stages |
| `SpiderMiddleware.FirstHandlerDecides` | scrapy/core/spidermw.py:116-150 | the first handler that does not pass decides; its iterable runs through the stages behind it |
| `SpiderMiddleware.HandlerRaises` | scrapy/core/spidermw.py:133-150 | an exception that the first handler to act raises instead, and an invalid output for an answer that is no iterable |
| `SpiderMiddleware.InvalidAnswerIsFinal` | scrapy/core/spidermw.py:124-126 | such an invalid output is offered to no handler any more |
| `SpiderMiddleware.NobodyRecovers` | scrapy/core/spidermw.py:125-126 | invalid output, and what all handlers pass on, is raised as it was |
| `SpiderMiddleware.RunStagesAt` | scrapy/core/spidermw.py:152-172 | whatever the stages do, what leaves the last of them has passed all stages behind its origin |
| `SpiderMiddleware.StageYields` | scrapy/core/spidermw.py:152-172 | what one stage yields for a stream, however that ends: what its generator makes of the values pulled, prefix by prefix, with their order and end |
| `SpiderMiddleware.ScrapeYields` | scrapy/core/spidermw.py:174-180 | without exceptions, the values of the result are what the stages, one behind the other, make of what the callback returned |
| `SpiderMiddleware.OneStageExample` | scrapy/core/spidermw.py:152-172 | a stage that adds one, between a callback that returns 1 and 5 and a result of 2 and 6 |
| `SpiderMiddleware.HandlerYields` | scrapy/core/spidermw.py:133-150 | what a handler returned comes out as what the stages behind it make of it |
| `SpiderMiddleware.RaisedYields` | scrapy/core/spidermw.py:209-228 | for a callback that raises at once these are the values of the result |
| `SpiderMiddleware.FailureYields` | scrapy/core/spidermw.py:174-180 | for a callback that fails after some items: what the stages make of these, then what those behind the handler make of its answer |
| `SpiderMiddleware.ScrapeRoutes` | scrapy/core/spidermw.py:209-228 | every item of the result passed exactly the stages behind its origin, once each and in order, and every exception was offered only to handlers behind its origin |
| `SpiderMiddleware.RecoveryComposes` | scrapy/core/spidermw.py:174-180 | a recovered callback failure gives the items of the run that ends normally, then those recovered: the latter if and only if all stages still read then and end without exception |
| `SpiderMiddleware.StageFailureIsRecovered` | scrapy/core/spidermw.py:152-172 | a failing stage has the handlers from the next index on asked, at the point of its failure; the rest is as if it had ended normally, or, if a later stage stops before, nobody is asked |
| `SpiderMiddleware.StageRecoveryComposes` | scrapy/core/spidermw.py:152-172 | the output of a stage failure that is recovered has the items of the output without the failure, with the recovered stream behind the main stream and what was recovered upstream, ahead of what was recovered later |
| `SpiderMiddleware.FeedSplit` | scrapy/core/spidermw.py:100-114 | a stage does the same with what it pulled first, whatever follows |
| `SpiderMiddleware.RunStagesSplit` | scrapy/core/spidermw.py:152-172 | what is queued while a stream is pulled goes through all stages in its place, or is never reached |
| `SpiderMiddleware.QueuedComesLast` | scrapy/core/spidermw.py:174-180 | a stream queued in the middle comes out behind everything else |
| `SpiderMiddleware.HandlerAskedAgain` | scrapy/core/spidermw.py:100-150 | a run in which a handler is asked twice, also about what a later handler raised |
| `SpiderMiddleware.AskedOnce` | scrapy/core/spidermw.py:116-172 | a handler is asked once at most, whatever stages, handlers and callback do, if and only if there is no stage before it |
| `SpiderMiddleware.NeverAskedAboutHandlers` | scrapy/core/spidermw.py:100-150 | it is never asked about what any given handler raised, on exactly the same condition |
| `SpiderMiddleware.OnlyTheCallbacksException` | scrapy/core/spidermw.py:209-228 | with no stage before it, a handler is asked about the very exception the callback raised, if it raised one, once at most, and about nothing else |
| `SpiderMiddleware.RelayedRun` | scrapy/core/spidermw.py:100-172 | stages and handlers that pass on a failure have a handler asked again once for each stage before it |
| `WorkerPool.StepKeeps` | scrapy/utils/asyncio.py:110-130 | elements come out in the order they went in, each in one place; a worker stops for each None it got |
| `WorkerPool.StepMakesProgress` | scrapy/utils/asyncio.py:110-130 | no run goes on for ever |
| `WorkerPool.RunIsBounded` | scrapy/utils/asyncio.py:108-130 | at most 2 * count elements queued unless there are no workers, at most count calls running, started in the order of the iterable |
| `WorkerPool.CutExists` | scrapy/utils/asyncio.py:122-126 | there is a count-th None in every case, for the producer adds that many |
| `WorkerPool.RunEnds` | scrapy/utils/asyncio.py:108-130 | where every run ends, for any count: all workers stopped, exactly the items up to the count-th None finished, and the producer through exactly if at most 2 * count elements follow or the queue has no limit |
| `WorkerPool.FewNonesAreHarmless` | scrapy/utils/asyncio.py:108-130 | with fewer than count Nones every item is finished once and the wait ends |
| `WorkerPool.ManyNonesLoseItems` | scrapy/utils/asyncio.py:112-124 | with count Nones or more: what is finished, what is lost, and when the wait ends |
| `WorkerPool.ItemBehindNoneIsLost` | scrapy/utils/asyncio.py:112-126 | one worker, a None and an item that is never processed |
| `WorkerPool.NoWorkersLoseAll` | scrapy/utils/asyncio.py:108-130 | without workers the wait ends and nothing has been processed |
| `WorkerPool.Pool.constructor` | scrapy/utils/asyncio.py:108-130 | the queue is empty and all workers idle; a negative count is like none |
| `WorkerPool.Pool.Put` | scrapy/utils/asyncio.py:122-126 | one element is queued |
| `WorkerPool.Pool.Get` | scrapy/utils/asyncio.py:112-118 | a worker takes the oldest element, and stops for None |
| `WorkerPool.Pool.Finish` | scrapy/utils/asyncio.py:117-120 | a call ends |
| `WorkerPool.Pool.Run` | scrapy/utils/asyncio.py:128-130 | any order of steps ends where nothing can move |
| `MediaPipelines.StepIsSafe` | scrapy/pipelines/media.py:168-217 | the code never finds a cached result, a set member or a list of waiters missing, and never fires a deferred twice |
| `MediaPipelines.StepKeeps` | scrapy/pipelines/media.py:168-217 | the keys waited for are those downloading, none of which is downloaded; each caller waits in one place; each fetch is begun once |
| `MediaPipelines.RunKeeps` | scrapy/pipelines/media.py:168-217 | over any run results never change, and a caller that has returned stays so |
| `MediaPipelines.SingleFlight` | scrapy/pipelines/media.py:168-217 | all callers of one media get the one cached result, a failure through their own errback if they have one, and it was fetched once |
| `MediaPipelines.CallersReturn` | scrapy/pipelines/media.py:277-283 | as long as a caller has not returned, a step other than a new call is possible |
| `MediaPipelines.StepMakesProgress` | scrapy/pipelines/media.py:277-283 | and each such step brings the callers closer to their return |
| `MediaPipelines.SpiderInfo.constructor` | scrapy/pipelines/media.py:80-86 | nothing asked for yet |
| `MediaPipelines.SpiderInfo.ProcessRequest` | scrapy/pipelines/media.py:168-198 | the first caller fetches, others wait, later ones read the cache |
| `MediaPipelines.SpiderInfo.Fire` | scrapy/pipelines/media.py:279-283 | one waiter gets the result, through its errback if it is a failure |
| `MediaPipelines.SpiderInfo.CacheResultAndExecuteWaiters` | scrapy/pipelines/media.py:277-283 | the result is cached and exactly the callers of this media that had not returned get it, each once, whatever they ask for while they are resumed |
| `Robots.FireAllAnswers` | scrapy/downloadermiddlewares/robotstxt.py:113-116 | the first coroutine that awaits the deferred of a site gets its result, the others None |
| `Robots.StepIsSafe` | scrapy/downloadermiddlewares/robotstxt.py:86-141 | a pending entry has a deferred, which has not been fired when the fetch ends |
| `Robots.StepKeeps` | scrapy/downloadermiddlewares/robotstxt.py:86-141 | one caller fetches a site, the callers of the meantime wait in order, and who has which answer |
| `Robots.FetchedOnce` | scrapy/downloadermiddlewares/robotstxt.py:89-103 | a site is fetched once, however many requests ask |
| `Robots.AnswersAre` | scrapy/downloadermiddlewares/robotstxt.py:113-116 | the parser for the fetching caller, the first that waited and those that came later; None for the other waiters |
| `Robots.SameAnswers` | scrapy/downloadermiddlewares/robotstxt.py:86-116 | all callers of a site agree if and only if there are no rules or at most one waited |
| `Robots.ThirdCallerSkipsRules` | scrapy/downloadermiddlewares/robotstxt.py:69-71 | three requests of which the third gets no rules |
| `Robots.NobodyIsForgotten` | scrapy/downloadermiddlewares/robotstxt.py:86-116 | as long as a caller has no answer, exactly one caller is fetching for it and can end |
| `Robots.RobotsTxtMiddleware.constructor` | scrapy/downloadermiddlewares/robotstxt.py:39-52 | no site yet |
| `Robots.RobotsTxtMiddleware.RobotParser` | scrapy/downloadermiddlewares/robotstxt.py:86-116 | a site is fetched by its first caller only; later ones await its deferred or find the entry |
| `Robots.RobotsTxtMiddleware.FireDeferred` | scrapy/utils/defer.py:463-496 | each callback takes what the one before returned |
| `Robots.RobotsTxtMiddleware.FinishFetch` | scrapy/downloadermiddlewares/robotstxt.py:118-141 | the entry becomes final, with the parser or nothing, and the waiters get what the deferred gives them |
| `RetryRedirect.LinkSpendsOne` | scrapy/downloadermiddlewares/redirect.py:93-121 | a redirect or retry is refused exactly when its budget is used up, takes one from it, and leaves the other budget alone |
| `RetryRedirect.ChainFits` | scrapy/downloadermiddlewares/retry.py:98-123 | any interleaving of redirects and retries goes through if and only if neither budget is exceeded |
| `RetryRedirect.RetriesFit` | scrapy/downloadermiddlewares/retry.py:98-105 | how many retries fit: the max_retry_times of the meta, or else of the settings, less the retry_times so far |
| `RetryRedirect.RedirectsFit` | scrapy/downloadermiddlewares/redirect.py:93-99 | how many redirects fit: what the setting allows beyond redirect_times, and the time to live |
| `RetryRedirect.ChainRemembers` | scrapy/downloadermiddlewares/redirect.py:100-107 | the URLs and reasons of the redirects, in order |
| `RetryRedirect.ChainCounts` | scrapy/downloadermiddlewares/redirect.py:94-99 | redirect_ttl plus redirect_times is constant; both counters count |
| `RetryRedirect.ChainPriority` | scrapy/downloadermiddlewares/redirect.py:109-109 | each link moves the priority once |
| `RetryRedirect.FreshChain` | scrapy/downloadermiddlewares/retry.py:98-123 | from a fresh request no chain is longer than both limits together, and both lists have redirect_times entries |
| `RetryRedirect.RedirectRequest` | scrapy/downloadermiddlewares/redirect.py:93-121 | the redirected request, or refusal; the old request gets its time to live either way |
| `RetryRedirect.RetryRequest` | scrapy/downloadermiddlewares/retry.py:98-138 | a changed copy, or none |
| `RetryRedirect.DownloadAsync` | scrapy/core/engine.py:487-497 | the loop follows what the site answers link by link, ends within both budgets at the first answer that calls for no request or for a refused one, with the request reached by these links, and gives up on a redirect only when its budget is used up |
| `FeedExport.BatchesCounted` | scrapy/extensions/feedexport.py:680-698 | after n items in batches of N: n / N closed batches, n mod N items in the open one, and the number of files |
| `FeedExport.FilesAre` | scrapy/extensions/feedexport.py:601-612 | the files together hold the items in order, numbered from 1, all but the last full |
| `FeedExport.FeedSlot.constructor` | scrapy/extensions/feedexport.py:398-433 | an empty slot |
| `FeedExport.FeedSlot.StartExporting` | scrapy/extensions/feedexport.py:435-460 | the file is opened and the exporter started, each only once |
| `FeedExport.FeedSlot.FinishExporting` | scrapy/extensions/feedexport.py:469-473 | the exporter is finished exactly if it was exporting |
| `FeedExport.Feed.constructor` | scrapy/extensions/feedexport.py:541-552 | batch 1 is open |
| `FeedExport.Feed.SlotAfter` | scrapy/extensions/feedexport.py:680-698 | after n accepted items the open slot has batch_id n / N + 1 and itemcount n mod N |
| `FeedExport.Feed.BatchesHold` | scrapy/extensions/feedexport.py:680-686 | for a positive setting each closed batch holds exactly that many items, for a negative one a single item, and for 0 none is closed |
| `FeedExport.Feed.CloseSlot` | scrapy/extensions/feedexport.py:601-612 | a file for a slot with items, and for an empty first batch if asked for; opened, started and finished once, and nothing done for any other |
| `FeedExport.Feed.ItemScraped` | scrapy/extensions/feedexport.py:667-700 | exactly the accepted items are written, each to the open batch |
| `FeedExport.Feed.CloseBatch` | scrapy/extensions/feedexport.py:680-696 | a full batch is closed and the next one opened |
| `FeedExport.Feed.Store` | scrapy/extensions/feedexport.py:616-628 | a closed batch is stored, or fails, once |
| `FeedExport.Feed.CloseOpenSlot` | scrapy/extensions/feedexport.py:554-556 | at the end the files hold the accepted items in order, are as many as they should be, and each is still to be stored, stored or failed |
| `FeedExport.FeedExporter.constructor` | scrapy/extensions/feedexport.py:541-552 | one open slot per feed |
| `FeedExport.FeedExporter.ItemScraped` | scrapy/extensions/feedexport.py:667-700 | an item reaches exactly the feeds that accept it, and none of their batches is disturbed by another feed |
| `FeedExport.FeedExporter.WaitForStores` | scrapy/extensions/feedexport.py:558-566 | in whatever order the files of all feeds are stored, all of them are stored or have failed in the end |
| `FeedExport.FeedExporter.CloseSpider` | scrapy/extensions/feedexport.py:554-570 | every feed ends as described |
| `Throttle.AutoThrottle.AdjustDelay` | scrapy/extensions/throttle.py:102-127 | the new delay |
| `Throttle.AdjustedStaysInRange` | scrapy/extensions/throttle.py:116-127 | an applied update lands between the limits; a response other than 200 never lowers the delay |
| `Throttle.AdjustedByCases` | scrapy/extensions/throttle.py:102-127 | the new delay by cases, for targets between, below and above the limits |
| `Throttle.ExcessHalves` | scrapy/extensions/throttle.py:102-127 | with a constant target below the delay each response 200 halves the excess exactly and other responses change nothing |
| `Throttle.Converges` | scrapy/extensions/throttle.py:102-127 | from any delay, with any constant target and any statuses: the excess over the target, or over the limit next to it, is at most the first excess halved once per response 200, and none after one response from below |
| `Throttle.HalvedShrinks` | scrapy/extensions/throttle.py:111-111 | such an excess gets below any bound |
| `Throttle.BracketHolds` | scrapy/extensions/throttle.py:102-127 | targets that vary between two bounds keep the delay between them |
| `HttpCache.Conditions.SetValidators` | scrapy/extensions/httpcache.py:175-184 | the request gets the validators the stored response has |
| `HttpCache.IsCachedResponseFresh` | scrapy/extensions/httpcache.py:119-160 | the decision of the policy, and validators exactly if the response is stale by its age |
| `HttpCache.FreshByAge` | scrapy/extensions/httpcache.py:126-156 | it comes down to one comparison of age with lifetime and accepted staleness |
| `HttpCache.DirectivesGoFirst` | scrapy/extensions/httpcache.py:119-152 | no-cache goes first; a max-stale without a value accepts any age; directives that are no numbers count for nothing |
| `HttpCache.ZeroIsNoDate` | scrapy/extensions/httpcache.py:192-234 | a date at the beginning of 1970 counts as none |
| `HttpCache.LifetimeShrinks` | scrapy/extensions/httpcache.py:192-244 | with a date, a max-age, Expires or no Last-Modified, lifetimes do not grow and ages do not shrink |
| `HttpCache.StalenessOverTime` | scrapy/extensions/httpcache.py:119-244 | staleness is permanent for a response with a date, and otherwise exactly under the condition given |
| `HttpCache.StaleThenFresh` | scrapy/extensions/httpcache.py:192-244 | a response without a date that is stale and, eleven seconds later, fresh |
| `HttpCache.FreshUntil` | scrapy/extensions/httpcache.py:119-156 | a dated response is fresh exactly until date plus lifetime plus accepted staleness, if its Age allows |
| `HttpCache.FreshUntilWhen` | scrapy/extensions/httpcache.py:192-223 | which moment that is for max-age, Expires, Last-Modified, and a year for the statuses 300, 301 and 308 |
| `HttpCache.RequestDirectives` | scrapy/extensions/httpcache.py:130-152 | the request's max-age limits the lifetime and its max-stale is added, unless the response must be revalidated |
| `HttpCache.FailsOnValuelessMaxAge` | scrapy/extensions/httpcache.py:186-190 | exactly when the policy raises TypeError |

## Left out

- The downloader, its handlers and its slots: any download may end at any time in any way. Only
  the number of active downloads appears, as an argument or as a limit.
- Cancellation of coroutines, `stop_async` and failures inside closing components.
- Serialization, JSON, MD5, fingerprints and the file system, beyond the assumptions above.
- `parallel` and `parallel_async`, used without asyncio instead of the worker pool.
- Logging, signals other than those that decide something, statistics other than the
  scheduler's, deprecated arguments and variants.
- Headers, cookies, methods and proxies of redirected requests, and the decision whether a
  response is a redirect or to be retried: which link comes next is arbitrary.
- How Cache-Control and dates are parsed, whether a response may be stored, and the storages.
- Other priority queue classes, and queues given a key without directories.
- `process_spider_input` and `process_start` of spider middlewares; output stages that read
  anything but what they pulled, or that raise when called instead of when iterated over.
- SlotQueues.DownloaderAwarePriorityQueue.constructor: does not model the settings and the saved
  states of other queue classes that it refuses with a ValueError.
- DupeFilters.Runs: has every run write whole lines; what a line that was cut off does to the next run
  is in DupeFilters.Reopen.
- FeedExport.Feed.CloseSlot: fixes the file of a batch when its slot is closed, not when the
  coroutine that closes it starts; nothing can reach the slot in between.
- EngineLifecycle.ExecutionEngine.MaybeFireClosing: leaves out that the next call is cancelled and
  the heartbeat stopped; with the slot closing they would start nothing.
- EngineLifecycle.ExecutionEngine.StartScheduledRequests: the scheduler may answer with any
  pending request or none, by any rule; which one it is belongs to the queues.
- ScraperSlots.Slot.AddResponseRequest: requires that the request is not already in the
  scraper; the same Request object twice would be one member of the active set.
- ScraperSlots.Slot.EnqueueScrape: requires the same.
- Throttle.AutoThrottle.AdjustDelay: is over reals, without rounding.
