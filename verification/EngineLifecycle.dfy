/** scrapy/core/engine.py and scrapy/core/scraper.py: the life of requests and items in the
    engine and the graceful close, over every interleaving.

    A step is the code between two awaits. The downloader is abstract: it may end any download
    with a response, a failure or another request. Request objects and items are numbered, and
    each is handed over once. */
module EngineLifecycle {
  import opened Collections
  import opened Deferreds
  import opened Requests

  /** How far the one effective call of `close_spider_async` is. */
  datatype Closer = Nobody | ClosingSlot | ClosingScraper | SchedulerClosed | Gone

  datatype Stage = Downloading | Scraping

  /** `scheduled`: the requests taken from the scheduler that are in flight. `direct`: downloads
      asked for with `download_async`, and `items`: items in the pipelines, each with the
      request whose response is being processed while they are awaited, if any. `resuming`: the
      direct downloads that the downloader has ended, but not yet the coroutine awaiting them.
      `asked`: the spider was found idle, and the coroutine that closes it is scheduled and has not
      begun; `ahead`: what was resuming then, and so is ahead of it in the event loop. `late`: what
      the scheduler took after it had been closed. */
  datatype State = State(
    closing: Closing,
    inprogress: set<int>,
    scheduled: map<int, Stage>,
    direct: map<int, Option<int>>,
    resuming: set<int>,
    items: map<int, Option<int>>,
    start: bool,
    handed: set<int>,
    pending: set<int>,
    dropped: set<int>,
    completed: set<int>,
    late: set<int>,
    asked: bool,
    ahead: set<int>,
    scraperClosing: Closing,
    closer: Closer,
    teardowns: nat,
    errors: nat)

  /** Right after `open_spider_async`. */
  function Opened(restored: set<int>): State {
    State(NotSet, {}, map[], map[], {}, map[], true, restored, restored, {}, {}, {},
          false, {}, NotSet, Nobody, 0, 0)
  }

  datatype Step =
    | Crawl(id: int, accepted: bool, parent: Option<int>)
    | StartRequest(id: int)
    | Downloaded(id: int)
    | Redirected(id: int, next: int, accepted: bool)
    | Scraped(id: int)
    | StartDirect(id: int, parent: Option<int>)
    | DirectFetched(id: int)
    | EndDirect(id: int, redirect: Option<int>)
    | StartItem(item: int, parent: Option<int>)
    | EndItem(item: int)
    | EndStart
    | AskClose
    | BeginClose
    | RequestClose
    | CloseScraper
    | CloseScheduler
    | TearDown

  predicate IsScraping(s: State, id: int) {
    id in s.scheduled && s.scheduled[id].Scraping?
  }

  /** Nothing awaited by the processing of this response is under way. */
  predicate NothingNested(s: State, id: int) {
    && (forall d | d in s.direct :: s.direct[d] != Some(id))
    && (forall i | i in s.items :: s.items[i] != Some(id))
  }

  predicate Fresh(s: State, id: int) {
    id !in s.handed && id !in s.direct
  }

  predicate ScraperIdle(s: State) {
    s.items == map[] && forall id | id in s.scheduled :: !s.scheduled[id].Scraping?
  }

  /** `spider_is_idle`. The downloader holds the scheduled and the direct downloads, but the
      latter no longer when they are about to resume the coroutine that awaits them. */
  predicate SpiderIsIdle(s: State) {
    && ScraperIdle(s) && s.direct.Keys <= s.resuming && (forall id | id in s.scheduled :: !s.scheduled[id].Downloading?)
    && !s.start && s.pending == {}
  }

  predicate Enabled(s: State, step: Step) {
    s.closer != Gone &&
    match step
    case Crawl(id, _, parent) => Fresh(s, id) && (parent.Some? ==> IsScraping(s, parent.value))
    case StartRequest(id) => s.closing.NotSet? && id in s.pending
    case Downloaded(id) => id in s.scheduled && s.scheduled[id].Downloading?
    case Redirected(id, next, _) => id in s.scheduled && s.scheduled[id].Downloading? && Fresh(s, next)
    case Scraped(id) => IsScraping(s, id) && NothingNested(s, id)
    case StartDirect(id, parent) => Fresh(s, id) && (parent.Some? ==> IsScraping(s, parent.value))
    case DirectFetched(id) => id in s.direct && id !in s.resuming
    case EndDirect(id, redirect) => id in s.resuming && id in s.direct && (redirect.Some? ==> Fresh(s, redirect.value))
    case StartItem(i, parent) => i !in s.items && (if parent.Some? then IsScraping(s, parent.value) else s.start)
    case EndItem(i) => i in s.items
    case EndStart => s.start
    case AskClose => s.closing.NotSet? && SpiderIsIdle(s)
    case BeginClose => s.asked && s.ahead == {}
    case RequestClose => true
    case CloseScraper => s.closer.ClosingSlot? && s.closing.Fired?
    case CloseScheduler => s.closer.ClosingScraper? && s.scraperClosing.Fired?
    case TearDown => s.closer.SchedulerClosed?
  }

  /** `_maybe_fire_closing`; firing a second time is an error. */
  function Fire(s: State): (t: State)
    ensures t == s.(closing := t.closing, errors := t.errors)
  {
    if s.closing.NotSet? || s.inprogress != {} then s
    else if s.closing.Waiting? then s.(closing := Fired)
    else s.(errors := s.errors + 1)
  }

  /** `remove_request` of the slot. */
  function RemoveRequest(s: State, id: int): State {
    Fire(s.(inprogress := s.inprogress - {id}))
  }

  /** `_check_if_closing` of the scraper. */
  function Check(s: State): (t: State)
    ensures t == s.(scraperClosing := t.scraperClosing, errors := t.errors)
  {
    if s.scraperClosing.NotSet? || !ScraperIdle(s) then s
    else if s.scraperClosing.Waiting? then s.(scraperClosing := Fired)
    else s.(errors := s.errors + 1)
  }

  function Hand(s: State, id: int, accepted: bool): State {
    s.(handed := s.handed + {id},
       pending := if accepted && !s.closer.SchedulerClosed? then s.pending + {id} else s.pending,
       late := if accepted && s.closer.SchedulerClosed? then s.late + {id} else s.late,
       dropped := if accepted then s.dropped else s.dropped + {id})
  }

  function Complete(s: State, id: int): State {
    s.(scheduled := s.scheduled - {id}, completed := s.completed + {id})
  }

  function Start(s: State, id: int): State {
    s.(pending := s.pending - {id}, inprogress := s.inprogress + {id}, scheduled := s.scheduled[id := Downloading])
  }

  function AddDirect(s: State, id: int, parent: Option<int>): State {
    s.(inprogress := s.inprogress + {id}, direct := s.direct[id := parent])
  }

  function Resumed(s: State, id: int): State {
    s.(direct := s.direct - {id}, resuming := s.resuming - {id}, ahead := s.ahead - {id})
  }

  /** One turn of the loop of `download_async`. */
  function LeaveDirect(s: State, id: int, redirect: Option<int>): State
    requires id in s.direct
  {
    var t := RemoveRequest(Resumed(s, id), id);
    match redirect
    case None => t
    case Some(n) => AddDirect(t, n, s.direct[id])
  }

  function Close(s: State): State {
    if s.closing.NotSet? then Fire(s.(closing := Waiting, closer := ClosingSlot)) else s
  }

  /** `_spider_idle` schedules the close as a coroutine of its own. */
  function Ask(s: State): State {
    s.(asked := true, ahead := if s.asked then s.ahead else s.resuming)
  }

  function Next(s: State, step: Step): State
    requires Enabled(s, step)
  {
    match step
    case Crawl(id, accepted, _) => Hand(s, id, accepted)
    case StartRequest(id) => Start(s, id)
    case Downloaded(id) => s.(scheduled := s.scheduled[id := Scraping])
    case Redirected(id, next, accepted) => RemoveRequest(Complete(Hand(s, next, accepted), id), id)
    case Scraped(id) => RemoveRequest(Check(Complete(s, id)), id)
    case StartDirect(id, parent) => AddDirect(s, id, parent)
    case DirectFetched(id) => s.(resuming := s.resuming + {id})
    case EndDirect(id, redirect) => LeaveDirect(s, id, redirect)
    case StartItem(i, parent) => s.(items := s.items[i := parent])
    case EndItem(i) => s.(items := s.items - {i})
    case EndStart => s.(start := false)
    case AskClose => Ask(s)
    case BeginClose => Close(s.(asked := false))
    case RequestClose => Close(s)
    case CloseScraper => Check(s.(scraperClosing := Waiting, closer := ClosingScraper))
    case CloseScheduler => s.(closer := SchedulerClosed)
    case TearDown => s.(closer := Gone, teardowns := s.teardowns + 1)
  }

  // ----- What every step keeps

  predicate SchedulerIsClosed(s: State) {
    s.closer.SchedulerClosed? || s.closer.Gone?
  }

  ghost predicate Partition(s: State) {
    && s.handed == s.pending + s.dropped + s.scheduled.Keys + s.completed + s.late
    && s.pending !! s.dropped !! s.scheduled.Keys !! s.completed !! s.late
    && s.handed !! s.direct.Keys
  }

  ghost predicate Phases(s: State) {
    && (s.closer.Nobody? <==> s.closing.NotSet?)
    && (s.closer.ClosingScraper? || SchedulerIsClosed(s) <==> !s.scraperClosing.NotSet?)
    && (s.closing.Waiting? ==> s.inprogress != {})
    && (s.closing.Fired? ==> s.scheduled == map[])
    && (!s.scraperClosing.NotSet? ==> s.closing.Fired?)
    && (SchedulerIsClosed(s) ==> s.scraperClosing.Fired?)
    && (s.late != {} ==> SchedulerIsClosed(s))
    && s.teardowns == (if s.closer.Gone? then 1 else 0)
  }

  ghost predicate Nesting(s: State) {
    && s.ahead <= s.resuming <= s.direct.Keys
    && (forall d | d in s.direct && s.direct[d].Some? :: IsScraping(s, s.direct[d].value))
    && (forall i | i in s.items && s.items[i].Some? :: IsScraping(s, s.items[i].value))
  }

  ghost predicate Inv(s: State) {
    s.inprogress == s.scheduled.Keys + s.direct.Keys && Partition(s) && Phases(s) && Nesting(s)
  }

  lemma HandKeeps(s: State, id: int, accepted: bool)
    requires Inv(s) && Fresh(s, id)
    ensures Inv(Hand(s, id, accepted))
  {
    hide Phases;
    assert Phases(Hand(s, id, accepted)) by { PhasesAre(s, Hand(s, id, accepted)); }
  }

  /** The phases do not depend on what is in the scheduler. */
  lemma PhasesAre(s: State, t: State)
    requires Phases(s)
    requires t.closing == s.closing && t.inprogress == s.inprogress && t.scraperClosing == s.scraperClosing
    requires t.closer == s.closer && t.teardowns == s.teardowns && (s.scheduled == map[] ==> t.scheduled == map[])
    requires t.late == s.late || s.closer.SchedulerClosed?
    ensures Phases(t)
  {}

  lemma StartKeeps(s: State, id: int)
    requires Inv(s) && s.closing.NotSet? && id in s.pending
    ensures Inv(Start(s, id))
  {
    var t := Start(s, id);
    assert t.scheduled.Keys == s.scheduled.Keys + {id};
    assert Partition(t) by { hide Phases, Nesting; }
    assert Nesting(t) by { hide Phases, Partition; assert id !in s.scheduled; }
  }

  lemma DownloadedKeeps(s: State, id: int)
    requires Inv(s) && id in s.scheduled
    ensures Inv(s.(scheduled := s.scheduled[id := Scraping]))
  {
    var t := s.(scheduled := s.scheduled[id := Scraping]);
    assert t.scheduled.Keys == s.scheduled.Keys;
    assert Nesting(t) by { hide Phases, Partition; }
    assert Phases(t) by { hide Partition, Nesting; }
  }

  /** While a request is in flight the scraper is not being closed. */
  lemma NoCheckYet(s: State, id: int)
    requires Inv(s) && id in s.scheduled
    ensures Check(Complete(s, id)) == Complete(s, id)
  {
    hide Partition, Nesting;
  }

  lemma LeaveKeeps(s: State, id: int)
    requires Inv(s) && id in s.scheduled && NothingNested(s, id)
    ensures Inv(RemoveRequest(Complete(s, id), id))
  {
    var t := RemoveRequest(Complete(s, id), id);
    assert t.scheduled.Keys == s.scheduled.Keys - {id};
    assert Partition(t) by { hide Phases, Nesting, NothingNested, Fire; }
    assert t.inprogress == t.scheduled.Keys + t.direct.Keys by { hide Phases, Nesting, NothingNested, Fire; }
    assert Nesting(t) by { hide Phases, Partition, Fire; }
    assert Phases(t) by { hide Partition, Nesting, NothingNested; }
  }

  /** A request that is still being downloaded awaits nothing. */
  lemma NothingNestedInDownload(s: State, id: int)
    requires Nesting(s) && id in s.scheduled && s.scheduled[id].Downloading?
    ensures NothingNested(s, id)
  {}

  lemma AddDirectKeeps(s: State, id: int, parent: Option<int>)
    requires Inv(s) && Fresh(s, id) && (parent.Some? ==> IsScraping(s, parent.value))
    ensures Inv(AddDirect(s, id, parent))
  {
    var t := AddDirect(s, id, parent);
    assert t.direct.Keys == s.direct.Keys + {id};
    assert Partition(t) by { hide Phases, Nesting; }
    assert Nesting(t) by { hide Phases, Partition; }
    assert Phases(t) by { hide Partition, Nesting; }
  }

  lemma FetchedKeeps(s: State, id: int)
    requires Inv(s) && id in s.direct
    ensures Inv(s.(resuming := s.resuming + {id}))
  {
    hide Phases;
    PhasesAre(s, s.(resuming := s.resuming + {id}));
  }

  lemma LeaveDirectKeeps(s: State, id: int, redirect: Option<int>)
    requires Inv(s) && id in s.direct && (redirect.Some? ==> Fresh(s, redirect.value))
    ensures Inv(LeaveDirect(s, id, redirect))
  {
    var t := RemoveRequest(Resumed(s, id), id);
    assert t.direct.Keys == s.direct.Keys - {id};
    assert Partition(t) by { hide Phases, Nesting, Fire; }
    assert t.inprogress == t.scheduled.Keys + t.direct.Keys by { hide Phases, Nesting, Fire; }
    assert Nesting(t) by { hide Phases, Partition, Fire; }
    assert Phases(t) by { hide Partition, Nesting; }
    if redirect.Some? {
      AddDirectKeeps(t, redirect.value, s.direct[id]);
    }
  }

  lemma CloseKeeps(s: State)
    requires Inv(s)
    ensures Inv(Close(s))
  {
    hide Nesting, Partition;
    var t := Close(s);
    assert Phases(t);
    assert Nesting(t) && Partition(t) by { TrafficKept(s, t); }
  }

  /** These two do not depend on how far the close is. */
  lemma TrafficKept(s: State, t: State)
    requires t == s.(closing := t.closing, scraperClosing := t.scraperClosing, closer := t.closer,
                     teardowns := t.teardowns, errors := t.errors, start := t.start, asked := t.asked)
    requires Partition(s) && Nesting(s)
    ensures Partition(t) && Nesting(t)
  {}

  lemma AskKeeps(s: State)
    requires Inv(s)
    ensures Inv(Ask(s))
  {
    hide Phases;
    PhasesAre(s, Ask(s));
  }

  lemma BeginKeeps(s: State)
    requires Inv(s)
    ensures Inv(Close(s.(asked := false)))
  {
    hide Partition, Nesting;
    var t := s.(asked := false);
    TrafficKept(s, t);
    CloseKeeps(t);
  }

  lemma CloserKeeps(s: State, step: Step)
    requires Inv(s) && Enabled(s, step)
    requires step.CloseScraper? || step.CloseScheduler? || step.TearDown? || step.EndStart?
    ensures Inv(Next(s, step))
  {
    hide Nesting, Partition;
    var t := Next(s, step);
    assert Phases(t);
    assert Nesting(t) && Partition(t) by { TrafficKept(s, t); }
  }

  lemma ItemKeeps(s: State, i: int, parent: Option<int>)
    requires Inv(s) && (parent.Some? ==> IsScraping(s, parent.value))
    ensures Inv(s.(items := s.items[i := parent])) && Inv(s.(items := s.items - {i}))
  {
    hide Phases, Partition;
    var t, u := s.(items := s.items[i := parent]), s.(items := s.items - {i});
    PhasesAre(s, t);
    PhasesAre(s, u);
    assert Partition(t) && Partition(u) by { PartitionAre(s, t); PartitionAre(s, u); }
  }

  lemma PartitionAre(s: State, t: State)
    requires t == s.(items := t.items) && Partition(s)
    ensures Partition(t)
  {}

  lemma StepKeeps(s: State, step: Step)
    requires Inv(s) && Enabled(s, step)
    ensures Inv(Next(s, step))
  {
    match step
    case Crawl(id, accepted, _) => HandKeeps(s, id, accepted);
    case StartRequest(id) => StartKeeps(s, id);
    case Downloaded(id) => DownloadedKeeps(s, id);
    case Redirected(id, next, accepted) =>
      HandKeeps(s, next, accepted);
      NothingNestedInDownload(s, id);
      LeaveKeeps(Hand(s, next, accepted), id);
    case Scraped(id) =>
      NoCheckYet(s, id);
      LeaveKeeps(s, id);
    case StartDirect(id, parent) => AddDirectKeeps(s, id, parent);
    case DirectFetched(id) => FetchedKeeps(s, id);
    case EndDirect(id, redirect) => LeaveDirectKeeps(s, id, redirect);
    case StartItem(i, parent) => ItemKeeps(s, i, parent);
    case EndItem(i) => ItemKeeps(s, i, None);
    case AskClose => AskKeeps(s);
    case BeginClose => BeginKeeps(s);
    case RequestClose => CloseKeeps(s);
    case _ => CloserKeeps(s, step);
  }

  // ----- Runs

  ghost predicate Reaches(s: State, steps: seq<Step>, t: State)
    decreases |steps|
  {
    if steps == [] then s == t else Enabled(s, steps[0]) && Reaches(Next(s, steps[0]), steps[1..], t)
  }

  lemma {:induction false} RunKeeps(s: State, steps: seq<Step>, t: State)
    requires Inv(s) && Reaches(s, steps, t)
    ensures Inv(t)
    decreases |steps|
  {
    if steps != [] {
      hide Inv, Next, Enabled;
      StepKeeps(s, steps[0]);
      RunKeeps(Next(s, steps[0]), steps[1..], t);
    }
  }

  lemma {:induction false} ReachesOneMore(s: State, steps: seq<Step>, t: State, step: Step)
    requires Reaches(s, steps, t) && Enabled(t, step)
    ensures Reaches(s, steps + [step], Next(t, step))
    decreases |steps|
  {
    hide Enabled, Next;
    if steps == [] {
      assert Reaches(Next(t, step), [], Next(t, step));
    } else {
      assert (steps + [step])[1..] == steps[1..] + [step];
      ReachesOneMore(Next(s, steps[0]), steps[1..], t, step);
    }
  }

  /** The state of a run before step `k`. */
  ghost function Before(s: State, steps: seq<Step>, t: State, k: nat): State
    requires Reaches(s, steps, t) && k <= |steps|
    decreases |steps|
  {
    if k == 0 then s else Before(Next(s, steps[0]), steps[1..], t, k - 1)
  }

  lemma {:induction false} BeforeStep(s: State, steps: seq<Step>, t: State, k: nat)
    requires Reaches(s, steps, t) && k < |steps|
    ensures var u := Before(s, steps, t, k);
            Enabled(u, steps[k]) && Before(s, steps, t, k + 1) == Next(u, steps[k])
    decreases k
  {
    hide Enabled, Next;
    if k > 0 {
      BeforeStep(Next(s, steps[0]), steps[1..], t, k - 1);
    }
  }

  lemma OpenedHolds(restored: set<int>)
    ensures Inv(Opened(restored))
  {}

  /** When the scheduler is closed, no request that came from it is in the downloader or the
      scraper, and every request ever handed to it is pending, was refused or has been dealt
      with, in exactly one of these ways. */
  lemma SafeToCloseScheduler(restored: set<int>, steps: seq<Step>, t: State)
    requires Reaches(Opened(restored), steps, t) && t.closer.ClosingScraper? && t.scraperClosing.Fired?
    ensures t.scheduled == map[]
    ensures t.handed == t.pending + t.dropped + t.completed && t.pending !! t.dropped !! t.completed
  {
    OpenedHolds(restored);
    RunKeeps(Opened(restored), steps, t);
  }

  /** The request a step hands to the scheduler, and whether the scheduler takes it. */
  function HandedOver(step: Step): Option<(int, bool)> {
    match step
    case Crawl(id, accepted, _) => Some((id, accepted))
    case Redirected(_, next, accepted) => Some((next, accepted))
    case _ => None
  }

  lemma StepHandsOver(s: State, step: Step)
    requires Inv(s) && Enabled(s, step)
    ensures var t := Next(s, step);
            && (forall id | id in s.handed ::
                  id in t.handed && (id in t.dropped <==> id in s.dropped) && (id in t.late <==> id in s.late))
            && (HandedOver(step).Some? ==>
                  var (id, accepted) := HandedOver(step).value;
                  && id in t.handed && (id in t.dropped <==> !accepted)
                  && (id in t.late <==> accepted && s.closer.SchedulerClosed?))
  {
    hide Phases, Nesting, NothingNested, ScraperIdle, SpiderIsIdle;
  }

  lemma {:induction false} HandedStays(s: State, steps: seq<Step>, t: State, id: int)
    requires Inv(s) && Reaches(s, steps, t) && id in s.handed
    ensures id in t.handed && (id in t.dropped <==> id in s.dropped) && (id in t.late <==> id in s.late)
    decreases |steps|
  {
    if steps != [] {
      hide Inv, Next, Enabled;
      StepKeeps(s, steps[0]);
      StepHandsOver(s, steps[0]);
      HandedStays(Next(s, steps[0]), steps[1..], t, id);
    }
  }

  lemma {:induction false} HandedOverStays(s: State, steps: seq<Step>, t: State, k: nat)
    requires Inv(s) && Reaches(s, steps, t) && k < |steps| && HandedOver(steps[k]).Some?
    ensures var (id, accepted) := HandedOver(steps[k]).value;
            && id in t.handed && (id in t.dropped <==> !accepted)
            && (id in t.late <==> accepted && Before(s, steps, t, k).closer.SchedulerClosed?)
    decreases k
  {
    hide Inv, Next, Enabled, HandedOver;
    StepKeeps(s, steps[0]);
    if k == 0 {
      StepHandsOver(s, steps[0]);
      HandedStays(Next(s, steps[0]), steps[1..], t, HandedOver(steps[0]).value.0);
    } else {
      HandedOverStays(Next(s, steps[0]), steps[1..], t, k - 1);
    }
  }

  /** No follow-up is lost: a request that a redirect, a callback or `start()` handed over at any
      time of a run, and that the scheduler took, is still pending or has been dealt with when
      the scheduler is closed. */
  lemma NoFollowUpIsLost(restored: set<int>, steps: seq<Step>, t: State, k: nat)
    requires Reaches(Opened(restored), steps, t) && t.closer.ClosingScraper? && t.scraperClosing.Fired?
    requires k < |steps| && HandedOver(steps[k]).Some?
    ensures var (id, accepted) := HandedOver(steps[k]).value;
            if accepted then id in t.pending || id in t.completed else id in t.dropped
  {
    OpenedHolds(restored);
    SafeToCloseScheduler(restored, steps, t);
    HandedOverStays(Opened(restored), steps, t, k);
  }

  /** And after that, until the engine lets go of the spider: what the scheduler took is left over
      exactly if it was handed over when the scheduler had been closed, which `start()` can still
      do; all else is pending in what was saved, or has been dealt with. */
  lemma LateFollowUps(restored: set<int>, steps: seq<Step>, t: State, k: nat)
    requires Reaches(Opened(restored), steps, t) && SchedulerIsClosed(t)
    requires k < |steps| && HandedOver(steps[k]).Some?
    ensures var (id, accepted) := HandedOver(steps[k]).value;
            && (id in t.dropped <==> !accepted)
            && (id in t.late <==> accepted && Before(Opened(restored), steps, t, k).closer.SchedulerClosed?)
            && (id in t.pending + t.completed <==> id !in t.late && accepted)
  {
    var s := Opened(restored);
    OpenedHolds(restored);
    RunKeeps(s, steps, t);
    HandedOverStays(s, steps, t, k);
    hide Before, Nesting;
    assert t.scheduled == map[];
  }

  /** Once the scheduler is closed, what it has saved does not change, and what it takes then is
      never started. */
  lemma {:induction false} LateIsNeverStarted(s: State, steps: seq<Step>, t: State)
    requires Inv(s) && SchedulerIsClosed(s) && Reaches(s, steps, t)
    ensures SchedulerIsClosed(t) && t.pending == s.pending && t.completed == s.completed && s.late <= t.late
    ensures forall k | 0 <= k < |steps| :: !steps[k].StartRequest?
    decreases |steps|
  {
    if steps != [] {
      StepKeeps(s, steps[0]);
      StepWhenClosed(s, steps[0]);
      hide Inv, Next, Enabled;
      LateIsNeverStarted(Next(s, steps[0]), steps[1..], t);
    }
  }

  lemma StepWhenClosed(s: State, step: Step)
    requires Inv(s) && SchedulerIsClosed(s) && Enabled(s, step)
    ensures var t := Next(s, step);
            SchedulerIsClosed(t) && t.pending == s.pending && t.completed == s.completed && s.late <= t.late
    ensures !step.StartRequest?
  {
    hide Partition, Nesting, NothingNested, ScraperIdle, SpiderIsIdle;
  }

  predicate FromScheduled(step: Step) {
    step.StartRequest? || step.Downloaded? || step.Redirected? || step.Scraped? || (step.Crawl? && step.parent.Some?)
  }

  /** Once the slot's deferred has fired, nothing the scheduler had started moves any more, and
      so hands over no follow-up; the deferred stays fired. */
  lemma {:induction false} QuietOnceFired(s: State, steps: seq<Step>, t: State)
    requires Inv(s) && s.closing.Fired? && Reaches(s, steps, t)
    ensures t.closing.Fired? && forall k | 0 <= k < |steps| :: !FromScheduled(steps[k])
    decreases |steps|
  {
    if steps != [] {
      StepKeeps(s, steps[0]);
      StaysFired(s, steps[0]);
      NothingFromScheduled(s, steps[0]);
      hide Inv, Next, Enabled, FromScheduled;
      QuietOnceFired(Next(s, steps[0]), steps[1..], t);
    }
  }

  lemma NothingFromScheduled(s: State, step: Step)
    requires Inv(s) && s.closing.Fired? && Enabled(s, step)
    ensures !FromScheduled(step)
  {
    hide Partition, Nesting, NothingNested, SpiderIsIdle, ScraperIdle;
  }

  lemma StaysFired(s: State, step: Step)
    requires Inv(s) && Enabled(s, step)
    ensures s.closing.Fired? ==> Next(s, step).closing.Fired?
  {
    hide Partition, Nesting, NothingNested, ScraperIdle, SpiderIsIdle;
  }

  /** No request is taken from the scheduler once closing has begun, whoever asks for what. */
  lemma {:induction false} NoStartOnceClosing(s: State, steps: seq<Step>, t: State)
    requires !s.closing.NotSet? && Reaches(s, steps, t)
    ensures !t.closing.NotSet? && forall k | 0 <= k < |steps| :: !steps[k].StartRequest?
    decreases |steps|
  {
    if steps != [] {
      hide Next, Enabled;
      CloseOnly(s, steps[0]);
      NoStartOnceClosing(Next(s, steps[0]), steps[1..], t);
    }
  }

  function TearDowns(steps: seq<Step>): nat {
    if steps == [] then 0 else (if steps[0].TearDown? then 1 else 0) + TearDowns(steps[1..])
  }

  /** What one step can change about the close itself. */
  lemma CloseOnly(s: State, step: Step)
    requires Enabled(s, step)
    ensures var t := Next(s, step);
            && (!s.closing.NotSet? ==> !step.StartRequest? && !t.closing.NotSet?)
            && (!step.RequestClose? && !step.BeginClose? && s.closer.Nobody? && s.closing.NotSet? ==> t.closing.NotSet?)
  {
    hide ScraperIdle, SpiderIsIdle, NothingNested, IsScraping;
  }

  lemma TearDownStep(s: State, step: Step)
    requires Enabled(s, step)
    ensures Next(s, step).teardowns == s.teardowns + if step.TearDown? then 1 else 0
  {
    hide ScraperIdle, SpiderIsIdle, NothingNested, IsScraping, Fire, Check;
  }

  lemma {:induction false} TearDownsCounted(s: State, steps: seq<Step>, t: State)
    requires Reaches(s, steps, t)
    ensures t.teardowns == s.teardowns + TearDowns(steps)
    decreases |steps|
  {
    if steps != [] {
      hide Next, Enabled;
      TearDownStep(s, steps[0]);
      TearDownsCounted(Next(s, steps[0]), steps[1..], t);
    }
  }

  /** However many close requests come, from whom and when: teardown runs at most once, and it
      has run if and only if the engine has let go of the spider. */
  lemma TearDownOnce(restored: set<int>, steps: seq<Step>, t: State)
    requires Reaches(Opened(restored), steps, t)
    ensures TearDowns(steps) == if t.closer.Gone? then 1 else 0
  {
    OpenedHolds(restored);
    RunKeeps(Opened(restored), steps, t);
    TearDownsCounted(Opened(restored), steps, t);
  }

  // ----- Natural close

  /** A close that somebody requests while the spider is idle finds every request refused or dealt
      with. It waits for nothing if and only if no `download_async` is about to resume; one that
      is was not asked for by the processing of a response. */
  lemma IdleCloseWaitsForDirect(s: State)
    requires Inv(s) && SpiderIsIdle(s) && s.closer.Nobody?
    ensures var t := Next(s, RequestClose);
            && t.scheduled == map[] && t.handed == t.dropped + t.completed
            && (forall d | d in s.direct :: s.direct[d].None?)
            && (t.closing.Fired? <==> s.direct == map[])
            && (s.direct == map[] ==>
                  && Enabled(t, CloseScraper)
                  && Enabled(Next(t, CloseScraper), CloseScheduler))
  {
    NothingInFlight(s.scheduled);
    assert s.inprogress == s.direct.Keys;
  }

  /** It can be about to resume: a download outside the processing of any response ends when all
      else is exhausted. */
  lemma IdleCloseCanWait(id: int) returns (steps: seq<Step>, t: State)
    ensures Reaches(Opened({}), steps, t) && SpiderIsIdle(t)
    ensures Enabled(t, RequestClose) && Next(t, RequestClose).closing.Waiting?
    ensures t == Opened({}).(start := false, inprogress := {id}, direct := map[id := None], resuming := {id})
  {
    var s1 := Next(Opened({}), EndStart);
    var s2 := Next(s1, StartDirect(id, None));
    t := Next(s2, DirectFetched(id));
    assert t.inprogress == {id};
    steps := [EndStart];
    ReachesOneMore(Opened({}), [], Opened({}), EndStart);
    assert [] + [EndStart] == steps;
    ReachesOneMore(Opened({}), steps, s1, StartDirect(id, None));
    steps := steps + [StartDirect(id, None)];
    ReachesOneMore(Opened({}), steps, s2, DirectFetched(id));
    steps := steps + [DirectFetched(id)];
  }

  lemma NothingInFlight(scheduled: map<int, Stage>)
    requires forall id | id in scheduled :: !scheduled[id].Scraping?
    requires forall id | id in scheduled :: !scheduled[id].Downloading?
    ensures scheduled == map[]
  {
    if scheduled != map[] {
      var id := SomeKey(scheduled);
      assert false;
    }
  }

  /** The idle test finds nothing left of `start()`, of the scheduler, of the downloader and of the
      scraper, except downloads that are about to resume what awaits them. */
  lemma IdleMeans(s: State)
    ensures SpiderIsIdle(s) <==>
        !s.start && s.pending == {} && s.items == map[] && s.scheduled == map[] && s.direct.Keys <= s.resuming
  {
    if SpiderIsIdle(s) {
      NothingInFlight(s.scheduled);
    }
  }

  /** The close that the engine schedules by itself is asked for only when the spider is idle, and
      begins once for that. */
  lemma NaturalCloseWasIdle(restored: set<int>, steps: seq<Step>, t: State, k: nat) returns (j: nat)
    requires Reaches(Opened(restored), steps, t) && k < |steps| && steps[k].BeginClose?
    ensures j < k && steps[j].AskClose?
    ensures var u := Before(Opened(restored), steps, t, j);
            !u.start && u.pending == {} && u.items == map[] && u.scheduled == map[] && u.direct.Keys <= u.resuming
    ensures forall m | j < m < k :: !steps[m].BeginClose?
  {
    hide SpiderIsIdle, ScraperIdle, Next;
    var s := Opened(restored);
    BeforeStep(s, steps, t, k);
    j := k;
    while !(j < k && steps[j].AskClose?)
      invariant j <= k && ((j < k && steps[j].AskClose?) || Before(s, steps, t, j).asked)
      invariant forall m | j <= m < k :: !steps[m].BeginClose?
      decreases j
    {
      BeforeStep(s, steps, t, j - 1);
      AskedByAsking(Before(s, steps, t, j - 1), steps[j - 1]);
      j := j - 1;
    }
    BeforeStep(s, steps, t, j);
    IdleMeans(Before(s, steps, t, j));
  }

  lemma AskedByAsking(s: State, step: Step)
    requires Enabled(s, step) && Next(s, step).asked
    ensures !step.BeginClose? && (step.AskClose? || s.asked)
  {
    hide SpiderIsIdle, ScraperIdle, NothingNested, IsScraping;
  }

  /** A scheduled close waits for what was about to resume when it was asked for, and for nothing
      that gets ready later. */
  lemma AheadIsFixed(s: State, step: Step)
    requires Enabled(s, step)
    ensures Next(s, step).ahead
         == if step.AskClose? && !s.asked then s.resuming else if step.EndDirect? then s.ahead - {step.id} else s.ahead
  {
    hide SpiderIsIdle, ScraperIdle, NothingNested, IsScraping;
  }

  /** An item is in the pipelines, awaited by the same response or by none, until it ends. */
  lemma {:induction false} ItemStays(s: State, steps: seq<Step>, t: State, item: int)
    requires Reaches(s, steps, t) && item in s.items && EndItem(item) !in steps
    ensures item in t.items && t.items[item] == s.items[item]
    decreases |steps|
  {
    if steps != [] {
      assert steps[0] in steps && forall step | step in steps[1..] :: step in steps;
      ItemStep(s, steps[0], item);
      hide Enabled, Next;
      ItemStays(Next(s, steps[0]), steps[1..], t, item);
    }
  }

  lemma ItemStep(s: State, step: Step, item: int)
    requires Enabled(s, step)
    ensures var t := Next(s, step).items;
            if step.StartItem? && step.item == item then item in t && t[item] == step.parent
            else if step == EndItem(item) then item !in t
            else (item in t <==> item in s.items) && (item in t ==> t[item] == s.items[item])
  {
    hide SpiderIsIdle, ScraperIdle, NothingNested, IsScraping;
  }

  /** The requests in the scheduler and in the slot. */
  function Held(s: State): nat {
    |s.pending| + |s.inprogress|
  }

  /** A step that brings in a request, as long as the scheduler is open. */
  function Brings(step: Step): nat {
    match step
    case Crawl(_, accepted, _) => if accepted then 1 else 0
    case Redirected(_, _, accepted) => if accepted then 1 else 0
    case StartDirect(_, _) => 1
    case EndDirect(_, redirect) => if redirect.Some? then 1 else 0
    case _ => 0
  }

  /** A step with which a request is done. */
  function Takes(step: Step): nat {
    if step.Redirected? || step.Scraped? || step.EndDirect? then 1 else 0
  }

  function Brought(steps: seq<Step>): nat {
    if steps == [] then 0 else Brings(steps[0]) + Brought(steps[1..])
  }

  function Taken(steps: seq<Step>): nat {
    if steps == [] then 0 else Takes(steps[0]) + Taken(steps[1..])
  }

  lemma HandHolds(s: State, id: int, accepted: bool)
    requires Inv(s) && Fresh(s, id) && !s.closer.SchedulerClosed?
    ensures Held(Hand(s, id, accepted)) == Held(s) + if accepted then 1 else 0
  {
    hide Phases, Nesting;
  }

  lemma RemoveHolds(s: State, id: int)
    requires id in s.inprogress
    ensures Held(RemoveRequest(s, id)) == Held(s) - 1
  {}

  lemma AddHolds(s: State, id: int, parent: Option<int>)
    requires Inv(s) && Fresh(s, id)
    ensures Held(AddDirect(s, id, parent)) == Held(s) + 1
  {
    hide Phases, Nesting;
  }

  lemma StartHolds(s: State, id: int)
    requires Inv(s) && id in s.pending
    ensures Held(Start(s, id)) == Held(s)
  {
    hide Phases, Nesting;
    assert id !in s.inprogress;
  }

  lemma HeldByDirect(s: State, id: int)
    requires Inv(s)
    ensures id in s.direct ==> id in s.inprogress
    ensures Fresh(s, id) ==> id !in s.inprogress
  {
    hide Phases, Nesting;
  }

  lemma LeaveDirectHolds(s: State, id: int, redirect: Option<int>)
    requires Inv(s) && id in s.direct && (redirect.Some? ==> Fresh(s, redirect.value))
    ensures Held(LeaveDirect(s, id, redirect)) == Held(s) - 1 + if redirect.Some? then 1 else 0
  {
    hide Inv, Fire;
    HeldByDirect(s, id);
    var t := RemoveRequest(Resumed(s, id), id);
    RemoveHolds(Resumed(s, id), id);
    if redirect.Some? {
      HeldByDirect(s, redirect.value);
      assert redirect.value !in t.inprogress;
    }
  }

  lemma RedirectedHolds(s: State, id: int, next: int, accepted: bool)
    requires Inv(s) && id in s.scheduled && Fresh(s, next) && !s.closer.SchedulerClosed?
    ensures Held(RemoveRequest(Complete(Hand(s, next, accepted), id), id))
         == Held(s) - 1 + if accepted then 1 else 0
  {
    HandHolds(s, next, accepted);
    assert id in s.inprogress;
    hide Inv;
    RemoveHolds(Complete(Hand(s, next, accepted), id), id);
  }

  lemma ScrapedHolds(s: State, id: int)
    requires Inv(s) && id in s.scheduled
    ensures Held(RemoveRequest(Check(Complete(s, id)), id)) == Held(s) - 1
  {
    assert id in s.inprogress;
    hide Inv, ScraperIdle;
    RemoveHolds(Check(Complete(s, id)), id);
  }

  lemma StepHolds(s: State, step: Step)
    requires Inv(s) && Enabled(s, step) && !s.closer.SchedulerClosed?
    ensures Held(Next(s, step)) == Held(s) + Brings(step) - Takes(step)
  {
    hide Inv, NothingNested, ScraperIdle, SpiderIsIdle, IsScraping, RemoveRequest, Hand, AddDirect, Start, LeaveDirect;
    match step
    case Crawl(id, accepted, _) => HandHolds(s, id, accepted);
    case StartRequest(id) => StartHolds(s, id);
    case Redirected(id, next, accepted) => RedirectedHolds(s, id, next, accepted);
    case Scraped(id) =>
      assert id in s.scheduled by { ScrapingIsScheduled(s, id); }
      ScrapedHolds(s, id);
    case StartDirect(id, parent) => AddHolds(s, id, parent);
    case EndDirect(id, redirect) => LeaveDirectHolds(s, id, redirect);
    case _ =>
  }

  lemma ScrapingIsScheduled(s: State, id: int)
    requires IsScraping(s, id)
    ensures id in s.scheduled
  {}

  /** Nothing gets past the slot's deferred before it has been asked for. */
  lemma {:induction false} RunHolds(s: State, steps: seq<Step>, t: State)
    requires Inv(s) && Reaches(s, steps, t) && t.closing.NotSet?
    ensures s.closing.NotSet? && Held(t) == Held(s) + Brought(steps) - Taken(steps)
    decreases |steps|
  {
    if steps != [] {
      StepKeeps(s, steps[0]);
      CloseOnly(s, steps[0]);
      hide Enabled, Next, Held, Brings, Takes, Partition, Nesting;
      RunHolds(Next(s, steps[0]), steps[1..], t);
      StepHolds(s, steps[0]);
    }
  }

  lemma IdleHolds(s: State)
    requires Inv(s) && SpiderIsIdle(s)
    ensures s.scheduled == map[] && s.resuming == s.direct.Keys && Held(s) == |s.direct|
  {
    NothingInFlight(s.scheduled);
    hide Partition, Phases;
    assert s.inprogress == s.direct.Keys && s.pending == {};
    assert |s.direct.Keys| == |s.direct|;
  }

  lemma BeginFinds(s: State)
    requires s.closing.NotSet?
    ensures var t := Close(s.(asked := false)); t.pending == {} && t.closing.Fired? <==> Held(s) == 0
  {}

  /** What a natural close finds, whatever happens between the moment the spider was found idle
      and the beginning of the close: nothing pending and nothing to wait for, if and only if as
      many requests are done in the meantime as were about to resume then and come in since. */
  lemma NaturalCloseFindsNothing(s: State, steps: seq<Step>, t: State)
    requires Inv(s) && Enabled(s, AskClose)
    requires Reaches(Next(s, AskClose), steps, t) && t.closing.NotSet? && Enabled(t, BeginClose)
    ensures var u := Next(t, BeginClose);
            u.pending == {} && u.closing.Fired? <==> Taken(steps) == |s.direct| + Brought(steps)
  {
    hide Inv, Reaches, SpiderIsIdle, Close, Brought, Taken;
    IdleHolds(s);
    AskKeeps(s);
    RunHolds(Ask(s), steps, t);
    BeginFinds(t);
  }

  /** No request that came in has got any further. */
  predicate InOneTurn(step: Step) {
    !step.StartRequest? && !step.DirectFetched?
  }

  /** What a step of such a turn does once nothing is scheduled and the close is asked for. */
  lemma TurnStep(s: State, step: Step)
    requires s.scheduled == map[] && s.asked && s.ahead == s.resuming && s.closing.NotSet?
    requires Enabled(s, step) && InOneTurn(step)
    ensures var u := Next(s, step);
            u.closing.NotSet? ==>
              && u.scheduled == map[] && u.asked && u.ahead == u.resuming
              && |u.resuming| == |s.resuming| - Takes(step)
  {
    hide NothingNested, ScraperIdle, SpiderIsIdle;
  }

  lemma {:induction false} TurnTakesResuming(s: State, steps: seq<Step>, t: State)
    requires s.scheduled == map[] && s.asked && s.ahead == s.resuming && s.closing.NotSet?
    requires Reaches(s, steps, t) && t.closing.NotSet? && forall k | 0 <= k < |steps| :: InOneTurn(steps[k])
    ensures t.ahead == t.resuming && Taken(steps) == |s.resuming| - |t.resuming|
    decreases |steps|
  {
    if steps != [] {
      hide Enabled, Next, Takes, InOneTurn;
      var u := Next(s, steps[0]);
      TurnStep(s, steps[0]);
      if !u.closing.NotSet? {
        NoStartOnceClosing(u, steps[1..], t);
        assert false;
      }
      TurnTakesResuming(u, steps[1..], t);
    }
  }

  /** As long as nothing that comes in gets any further before the close begins: the close finds
      nothing pending and nothing to wait for if and only if nothing came in. */
  lemma NaturalCloseInOneTurn(s: State, steps: seq<Step>, t: State)
    requires Inv(s) && Enabled(s, AskClose) && !s.asked
    requires Reaches(Next(s, AskClose), steps, t) && t.closing.NotSet? && Enabled(t, BeginClose)
    requires forall k | 0 <= k < |steps| :: InOneTurn(steps[k])
    ensures var u := Next(t, BeginClose); u.pending == {} && u.closing.Fired? <==> Brought(steps) == 0
  {
    hide Inv, Reaches, SpiderIsIdle, Close, Brought, Taken, InOneTurn;
    NaturalCloseFindsNothing(s, steps, t);
    IdleHolds(s);
    assert |s.direct.Keys| == |s.direct|;
    TurnTakesResuming(Ask(s), steps, t);
  }

  /** And if nothing comes in, nothing gets any further. */
  lemma {:induction false} NothingBroughtIsOneTurn(s: State, steps: seq<Step>, t: State)
    requires s.pending == {} && s.direct.Keys <= s.resuming && Reaches(s, steps, t) && Brought(steps) == 0
    ensures forall k | 0 <= k < |steps| :: InOneTurn(steps[k])
    decreases |steps|
  {
    if steps != [] {
      BringsNothing(s, steps[0]);
      hide Enabled, Next, Brings, InOneTurn;
      NothingBroughtIsOneTurn(Next(s, steps[0]), steps[1..], t);
    }
  }

  lemma BringsNothing(s: State, step: Step)
    requires s.pending == {} && s.direct.Keys <= s.resuming && Enabled(s, step) && Brings(step) == 0
    ensures var t := Next(s, step); InOneTurn(step) && t.pending == {} && t.direct.Keys <= t.resuming
  {
    hide NothingNested, ScraperIdle, SpiderIsIdle, IsScraping;
  }

  /** A request handed over between the idle test and the close is left in the scheduler. */
  lemma CrawlBeforeClose(id: int) returns (steps: seq<Step>, t: State)
    ensures Reaches(Opened({}), steps, t) && steps == [EndStart, AskClose, Step.Crawl(id, true, None), BeginClose]
    ensures t.pending == {id} && t.closing.Fired?
  {
    var crawl := Step.Crawl(id, true, None);
    var s1 := Next(Opened({}), EndStart);
    steps := [EndStart];
    ReachesOneMore(Opened({}), [], Opened({}), EndStart);
    assert [] + [EndStart] == steps;
    var s2 := Next(s1, AskClose);
    ReachesOneMore(Opened({}), steps, s1, AskClose);
    steps := steps + [AskClose];
    assert s2 == Opened({}).(start := false, asked := true);
    hide ScraperIdle, SpiderIsIdle, NothingNested, IsScraping, Reaches;
    var s3 := Next(s2, crawl);
    ReachesOneMore(Opened({}), steps, s2, crawl);
    steps := steps + [crawl];
    assert s3 == s2.(handed := {id}, pending := {id});
    t := Next(s3, BeginClose);
    ReachesOneMore(Opened({}), steps, s3, BeginClose);
    steps := steps + [BeginClose];
  }

  /** A download that was about to resume and goes on with a redirect makes the close wait. */
  lemma RedirectBeforeClose(id: int, next: int) returns (steps: seq<Step>, t: State)
    requires id != next
    ensures Reaches(Opened({}), steps, t) && |steps| > 0 && steps[|steps| - 1] == BeginClose
    ensures t.closing.Waiting? && t.inprogress == {next}
  {
    var s: State;
    steps, s := IdleCloseCanWait(id);
    assert s.direct == map[id := None] && s.resuming == {id} && s.closing.NotSet? && !s.asked && Fresh(s, next);
    var s1 := Next(s, AskClose);
    ReachesOneMore(Opened({}), steps, s, AskClose);
    steps := steps + [AskClose];
    var s2 := Next(s1, EndDirect(id, Some(next)));
    ReachesOneMore(Opened({}), steps, s1, EndDirect(id, Some(next)));
    steps := steps + [EndDirect(id, Some(next))];
    assert s2.inprogress == {next} && s2.ahead == {};
    t := Next(s2, BeginClose);
    ReachesOneMore(Opened({}), steps, s2, BeginClose);
    steps := steps + [BeginClose];
  }

  // ----- Progress of a graceful close

  function InDownloader(scheduled: map<int, Stage>): set<int> {
    set id | id in scheduled && scheduled[id].Downloading?
  }

  /** The steps still ahead of what is in flight. */
  function Remaining(s: State): nat {
    |InDownloader(s.scheduled)| + |s.scheduled| + |s.direct.Keys - s.resuming| + |s.direct| + |s.items|
  }

  /** What is in flight moves on, and nothing new comes in. */
  predicate MovesOn(step: Step) {
    || step.Downloaded? || step.Redirected? || step.Scraped? || step.EndItem? || step.DirectFetched?
    || (step.EndDirect? && step.redirect.None?)
  }

  lemma LeaveShrinks(s: State, t: State, id: int)
    requires id in s.scheduled && t.scheduled == s.scheduled - {id} && t.direct == s.direct && t.resuming == s.resuming
        && t.items == s.items
    ensures Remaining(t) < Remaining(s)
  {
    MapWithout(s.scheduled, id);
    assert InDownloader(t.scheduled) <= InDownloader(s.scheduled);
    CardMonotone(InDownloader(t.scheduled), InDownloader(s.scheduled));
  }

  lemma ResponseShrinks(s: State, t: State, id: int)
    requires id in s.scheduled && s.scheduled[id].Downloading?
    requires t.scheduled == s.scheduled[id := Scraping] && t.direct == s.direct && t.resuming == s.resuming
        && t.items == s.items
    ensures Remaining(t) < Remaining(s)
  {
    assert t.scheduled.Keys == s.scheduled.Keys;
    assert InDownloader(t.scheduled) == InDownloader(s.scheduled) - {id};
  }

  lemma ResumedShrinks(s: State, t: State, d: int)
    requires d in s.direct && d in s.resuming
    requires t.direct == s.direct - {d} && t.resuming == s.resuming - {d} && t.scheduled == s.scheduled
        && t.items == s.items
    ensures Remaining(t) < Remaining(s)
  {
    MapWithout(s.direct, d);
    assert t.direct.Keys - t.resuming == s.direct.Keys - s.resuming;
  }

  lemma FetchedShrinks(s: State, t: State, d: int)
    requires d in s.direct && d !in s.resuming && t == s.(resuming := s.resuming + {d})
    ensures Remaining(t) < Remaining(s)
  {
    assert t.direct.Keys - t.resuming == (s.direct.Keys - s.resuming) - {d};
  }

  lemma MoveShrinks(s: State, step: Step)
    requires Enabled(s, step) && MovesOn(step)
    ensures Remaining(Next(s, step)) < Remaining(s)
  {
    hide NothingNested, ScraperIdle, SpiderIsIdle, Fire, Check, InDownloader;
    var t := Next(s, step);
    match step
    case Downloaded(id) => ResponseShrinks(s, t, id);
    case Redirected(id, _, _) => LeaveShrinks(s, t, id);
    case Scraped(id) =>
      LeaveShrinks(s, t, id);
    case EndItem(i) =>
      MapWithout(s.items, i);
    case EndDirect(d, _) =>
      ResumedShrinks(s, t, d);
    case DirectFetched(d) =>
      FetchedShrinks(s, t, d);
  }

  /** A slot that waits for its deferred is never stuck, and gets there by what is in flight. */
  lemma {:induction false} SlotCloseFinishes(s: State) returns (steps: seq<Step>, t: State)
    requires Inv(s) && s.closing.Waiting?
    ensures Reaches(s, steps, t) && t.closing.Fired? && t.closer == s.closer && Inv(t)
    ensures |steps| + Remaining(t) <= Remaining(s)
    ensures forall k | 0 <= k < |steps| :: MovesOn(steps[k])
    decreases Remaining(s)
  {
    hide Remaining, Inv, Next, Enabled;
    var step := AMove(s);
    StepKeeps(s, step);
    MoveShrinks(s, step);
    CloseOnly(s, step);
    MoveKeepsCloser(s, step);
    var u := Next(s, step);
    if u.closing.Fired? {
      steps, t := [step], u;
      assert Reaches(u, [], u);
    } else {
      var rest: seq<Step>;
      rest, t := SlotCloseFinishes(u);
      steps := [step] + rest;
      assert steps[1..] == rest;
    }
  }

  lemma MoveKeepsCloser(s: State, step: Step)
    requires Enabled(s, step) && MovesOn(step)
    ensures Next(s, step).closer == s.closer
  {
    hide NothingNested, ScraperIdle, SpiderIsIdle, IsScraping, Fire, Check;
  }

  lemma AMove(s: State) returns (step: Step)
    requires Inv(s) && s.closing.Waiting?
    ensures Enabled(s, step) && MovesOn(step)
  {
    if s.direct != map[] {
      var d := SomeKey(s.direct);
      step := if d in s.resuming then EndDirect(d, None) else DirectFetched(d);
    } else if s.items != map[] {
      var i := SomeKey(s.items);
      step := EndItem(i);
    } else {
      var id := SomeKey(s.scheduled);
      step := if s.scheduled[id].Downloading? then Downloaded(id) else Scraped(id);
    }
  }

  /** Once the slot has closed, the close gets past the scraper if and only if no item is in
      the pipelines at that moment. The items that can still be there came from `start()`:
      nobody awaits them, and nothing looks again at the scraper's deferred when they end. */
  lemma CloseHangsOnStartItems(s: State, steps: seq<Step>, t: State)
    requires Inv(s) && s.closer.ClosingSlot? && s.closing.Fired?
    requires Reaches(Next(s, CloseScraper), steps, t)
    ensures forall i | i in s.items :: s.items[i].None?
    ensures s.items == map[] ==> Next(s, CloseScraper).scraperClosing.Fired?
    ensures s.items != map[] ==> t.closer.ClosingScraper? && t.scraperClosing.Waiting? && TearDowns(steps) == 0
  {
    StepKeeps(s, CloseScraper);
    if s.items != map[] {
      StaysWaiting(Next(s, CloseScraper), steps, t);
    }
  }

  /** The hang is real: one item from `start()` is enough. */
  lemma CloseCanHang(item: int) returns (steps: seq<Step>, t: State)
    ensures Reaches(Opened({}), steps, t) && t.closer.ClosingScraper? && t.scraperClosing.Waiting?
    ensures forall more: seq<Step>, u: State | Reaches(t, more, u) :: TearDowns(more) == 0
  {
    var s1 := Next(Opened({}), StartItem(item, None));
    var s2 := Next(s1, RequestClose);
    t := Next(s2, CloseScraper);
    steps := [StartItem(item, None)];
    ReachesOneMore(Opened({}), [], Opened({}), StartItem(item, None));
    assert [] + [StartItem(item, None)] == steps;
    ReachesOneMore(Opened({}), steps, s1, RequestClose);
    steps := steps + [RequestClose];
    ReachesOneMore(Opened({}), steps, s2, CloseScraper);
    steps := steps + [CloseScraper];
    OpenedHolds({});
    RunKeeps(Opened({}), steps, t);
    forall more: seq<Step>, u: State | Reaches(t, more, u) ensures TearDowns(more) == 0 {
      StaysWaiting(t, more, u);
    }
  }

  /** Nothing leads out of the close of the scraper that waits for a start item. */
  predicate Hangs(s: State) {
    s.closer.ClosingScraper? && s.scraperClosing.Waiting?
  }

  lemma {:induction false} ReachesCat(s: State, steps: seq<Step>, t: State, more: seq<Step>, u: State)
    requires Reaches(s, steps, t) && Reaches(t, more, u)
    ensures Reaches(s, steps + more, u)
    decreases |steps|
  {
    hide Enabled, Next;
    if steps == [] {
      assert steps + more == more;
    } else {
      assert (steps + more)[1..] == steps[1..] + more;
      ReachesCat(Next(s, steps[0]), steps[1..], t, more, u);
    }
  }

  /** The items in the pipelines end. */
  lemma {:induction false} ItemsEnd(s: State) returns (steps: seq<Step>, t: State)
    requires Inv(s) && s.closer != Gone
    ensures Reaches(s, steps, t) && t.items == map[] && t == s.(items := t.items) && Inv(t)
    ensures |steps| + Remaining(t) <= Remaining(s) && forall k | 0 <= k < |steps| :: steps[k].EndItem?
    decreases |s.items|
  {
    hide Inv, Remaining;
    if s.items == map[] {
      steps, t := [], s;
    } else {
      var i := SomeKey(s.items);
      var u := Next(s, EndItem(i));
      StepKeeps(s, EndItem(i));
      MoveShrinks(s, EndItem(i));
      MapWithout(s.items, i);
      var rest: seq<Step>;
      rest, t := ItemsEnd(u);
      steps := [EndItem(i)] + rest;
      assert steps[1..] == rest;
    }
  }

  /** With no item in the pipelines the rest of the close is three steps. */
  lemma LastSteps(s: State) returns (steps: seq<Step>, t: State)
    requires Inv(s) && s.closer.ClosingSlot? && s.closing.Fired? && s.items == map[]
    ensures Reaches(s, steps, t) && t.closer.Gone? && steps == [CloseScraper, CloseScheduler, TearDown]
  {
    var u := Next(s, CloseScraper);
    hide Inv, ScraperIdle;
    var v := Next(u, CloseScheduler);
    t := Next(v, TearDown);
    steps := [CloseScraper, CloseScheduler, TearDown];
    assert Reaches(v, [TearDown], t) by {
      assert [TearDown][1..] == [] && Reaches(t, [], t);
    }
    assert Reaches(u, [CloseScheduler, TearDown], t) by {
      assert [CloseScheduler, TearDown][1..] == [TearDown];
    }
    assert steps[1..] == [CloseScheduler, TearDown];
  }

  lemma SlotIsClosing(s: State)
    requires Inv(s) && s.closer.ClosingSlot?
    ensures !s.closing.NotSet?
  {
    hide Partition, Nesting;
  }

  /** From a slot that is being closed, the moves of what is in flight, with the items ended before
      the scraper is closed, lead to the end of the close. */
  lemma SlotToEnd(s: State) returns (moves: seq<Step>, t: State)
    requires Inv(s) && s.closer.ClosingSlot?
    ensures Reaches(s, moves + [CloseScraper, CloseScheduler, TearDown], t) && t.closer.Gone?
    ensures |moves| <= Remaining(s) && forall k | 0 <= k < |moves| :: MovesOn(moves[k])
  {
    hide Inv, Reaches, Remaining;
    SlotIsClosing(s);
    ReachesNone(s);
    var u := s;
    moves := [];
    if s.closing.Waiting? {
      moves, u := SlotCloseFinishes(s);
    }
    var ends, v := ItemsEnd(u);
    ReachesCat(s, moves, u, ends, v);
    moves := moves + ends;
    var last: seq<Step>;
    last, t := LastSteps(v);
    ReachesCat(s, moves, v, last, t);
  }

  /** From any state the close can still come to its end, whatever is in flight, if and only if it
      does not hang already; and then it does within as many steps as what is in flight has ahead
      of it and four more. */
  lemma CloseCanFinish(s: State)
    requires Inv(s)
    ensures (exists steps: seq<Step>, t: State :: Reaches(s, steps, t) && t.closer.Gone?) <==> !Hangs(s)
    ensures !Hangs(s) ==>
              exists steps: seq<Step>, t: State ::
                Reaches(s, steps, t) && t.closer.Gone? && |steps| <= Remaining(s) + 4
  {
    if Hangs(s) {
      forall steps: seq<Step>, t: State | Reaches(s, steps, t) ensures !t.closer.Gone? {
        StaysWaiting(s, steps, t);
      }
    } else {
      var steps, t := FinishesClose(s);
    }
  }

  lemma FinishesClose(s: State) returns (steps: seq<Step>, t: State)
    requires Inv(s) && !Hangs(s)
    ensures Reaches(s, steps, t) && t.closer.Gone? && |steps| <= Remaining(s) + 4
  {
    hide Reaches, Remaining;
    ReachesNone(s);
    match s.closer
    case Nobody =>
      var moves;
      NobodyBegins(s);
      moves, t := SlotToEnd(Close(s));
      var rest := moves + [CloseScraper, CloseScheduler, TearDown];
      ReachesOneMore(s, [], s, RequestClose);
      ReachesCat(s, [] + [RequestClose], Close(s), rest, t);
      steps := [] + [RequestClose] + rest;
    case ClosingSlot =>
      var moves;
      moves, t := SlotToEnd(s);
      steps := moves + [CloseScraper, CloseScheduler, TearDown];
    case ClosingScraper =>
      ScraperIsClosing(s);
      hide Inv;
      var u := Next(s, CloseScheduler);
      t := Next(u, TearDown);
      ReachesOneMore(s, [], s, CloseScheduler);
      ReachesOneMore(s, [] + [CloseScheduler], u, TearDown);
      steps := [] + [CloseScheduler] + [TearDown];
    case SchedulerClosed =>
      hide Inv;
      t := Next(s, TearDown);
      ReachesOneMore(s, [], s, TearDown);
      steps := [] + [TearDown];
    case Gone =>
      steps, t := [], s;
  }

  lemma NobodyBegins(s: State)
    requires Inv(s) && s.closer.Nobody?
    ensures Inv(Close(s)) && Close(s).closer.ClosingSlot? && Remaining(Close(s)) == Remaining(s)
  {
    CloseKeeps(s);
    hide Partition, Nesting;
  }

  lemma ScraperIsClosing(s: State)
    requires Inv(s) && s.closer.ClosingScraper? && !Hangs(s)
    ensures s.scraperClosing.Fired?
  {
    hide Partition, Nesting;
  }

  lemma WaitingStep(s: State, step: Step)
    requires Inv(s) && s.closer.ClosingScraper? && s.scraperClosing.Waiting? && Enabled(s, step)
    ensures var t := Next(s, step); t.closer.ClosingScraper? && t.scraperClosing.Waiting? && !step.TearDown?
  {
    hide Partition, Nesting, NothingNested, SpiderIsIdle, ScraperIdle;
  }

  lemma {:induction false} StaysWaiting(s: State, steps: seq<Step>, t: State)
    requires Inv(s) && s.closer.ClosingScraper? && s.scraperClosing.Waiting? && Reaches(s, steps, t)
    ensures t.closer.ClosingScraper? && t.scraperClosing.Waiting? && TearDowns(steps) == 0
    decreases |steps|
  {
    if steps != [] {
      StepKeeps(s, steps[0]);
      WaitingStep(s, steps[0]);
      hide Inv, Next, Enabled;
      StaysWaiting(Next(s, steps[0]), steps[1..], t);
    }
  }

  // ----- Firing the slot's deferred twice

  predicate AddsDirect(step: Step) {
    step.StartDirect? || (step.EndDirect? && step.redirect.Some?)
  }

  /** The one way to fire a deferred again: the slot has closed, and a download started with
      `download_async` after that is the last to leave. */
  lemma SecondFiring(s: State, step: Step)
    requires Inv(s) && Enabled(s, step)
    ensures Next(s, step).errors
         == s.errors + if step.EndDirect? && s.closing.Fired? && s.inprogress == {step.id} then 1 else 0
  {
    StepKeeps(s, step);
    if step.EndDirect? && s.closing.Fired? {
      assert s.inprogress - {step.id} == {} <==> s.inprogress == {step.id};
    }
  }

  /** Step `k` begins a download_async, or lets it go on, when the slot has closed. */
  ghost predicate AddsLate(s: State, steps: seq<Step>, t: State, k: nat)
    requires Reaches(s, steps, t)
  {
    k < |steps| && AddsDirect(steps[k]) && Before(s, steps, t, k + 1).closing.Fired?
  }

  /** With step `k` the last request leaves the slot. */
  ghost predicate Empties(s: State, steps: seq<Step>, t: State, k: nat)
    requires Reaches(s, steps, t)
  {
    && k < |steps| && (steps[k].EndDirect? || steps[k].Redirected? || steps[k].Scraped?)
    && Before(s, steps, t, k).inprogress == {steps[k].id}
  }

  lemma {:induction false} ErrorsGrow(s: State, steps: seq<Step>, t: State)
    requires Inv(s) && Reaches(s, steps, t)
    ensures s.errors <= t.errors && (s.closing.Fired? ==> t.closing.Fired?)
    decreases |steps|
  {
    if steps != [] {
      StepKeeps(s, steps[0]);
      SecondFiring(s, steps[0]);
      StaysFired(s, steps[0]);
      hide Inv, Next, Enabled;
      ErrorsGrow(Next(s, steps[0]), steps[1..], t);
    }
  }

  /** From a state in which the slot is empty if it has closed, an empty slot fills up again only
      by a late download_async. */
  lemma FillsLate(s: State, step: Step)
    requires Inv(s) && Enabled(s, step) && (s.closing.Fired? ==> s.inprogress == {})
    ensures var t := Next(s, step); t.closing.Fired? && t.inprogress != {} ==> AddsDirect(step)
    ensures Next(s, step).errors == s.errors
  {
    SecondFiring(s, step);
    hide Partition, Nesting, NothingNested, ScraperIdle, SpiderIsIdle;
  }

  lemma {:induction false} ErrorNeedsLate(s: State, steps: seq<Step>, t: State) returns (k: nat, j: nat)
    requires Inv(s) && (s.closing.Fired? ==> s.inprogress == {}) && Reaches(s, steps, t) && t.errors > s.errors
    ensures k < j && AddsLate(s, steps, t, k) && Empties(s, steps, t, j)
    decreases |steps|
  {
    var u := Next(s, steps[0]);
    StepKeeps(s, steps[0]);
    FillsLate(s, steps[0]);
    if u.closing.Fired? && u.inprogress != {} {
      k := 0;
      assert Before(u, steps[1..], t, 0) == u;
      j := ErrorNeedsEmptying(u, steps[1..], t);
    } else {
      k, j := ErrorNeedsLate(u, steps[1..], t);
      k := k + 1;
    }
    j := j + 1;
  }

  lemma {:induction false} ErrorNeedsEmptying(s: State, steps: seq<Step>, t: State) returns (j: nat)
    requires Inv(s) && Reaches(s, steps, t) && t.errors > s.errors
    ensures Empties(s, steps, t, j)
    decreases |steps|
  {
    var u := Next(s, steps[0]);
    StepKeeps(s, steps[0]);
    SecondFiring(s, steps[0]);
    if u.errors > s.errors {
      j := 0;
    } else {
      j := ErrorNeedsEmptying(u, steps[1..], t);
      j := j + 1;
    }
  }

  lemma {:induction false} EmptyingLateIsError(s: State, steps: seq<Step>, t: State, j: nat)
    requires Inv(s) && s.closing.Fired? && Reaches(s, steps, t) && Empties(s, steps, t, j)
    ensures t.errors > s.errors
    decreases j
  {
    var u := Next(s, steps[0]);
    StepKeeps(s, steps[0]);
    SecondFiring(s, steps[0]);
    StaysFired(s, steps[0]);
    if j == 0 {
      ErrorsGrow(u, steps[1..], t);
    } else {
      EmptyingLateIsError(u, steps[1..], t, j - 1);
    }
  }

  lemma {:induction false} LateIsError(s: State, steps: seq<Step>, t: State, k: nat, j: nat)
    requires Inv(s) && Reaches(s, steps, t) && k < j && AddsLate(s, steps, t, k) && Empties(s, steps, t, j)
    ensures t.errors > s.errors
    decreases k
  {
    var u := Next(s, steps[0]);
    StepKeeps(s, steps[0]);
    SecondFiring(s, steps[0]);
    if k == 0 {
      assert Before(u, steps[1..], t, 0) == u;
      EmptyingLateIsError(u, steps[1..], t, j - 1);
    } else {
      LateIsError(u, steps[1..], t, k - 1, j - 1);
    }
  }

  /** Over any run: a deferred is fired a second time if and only if a download_async begins or
      goes on after the slot has closed, and later the last request leaves the slot again. */
  lemma FiresTwiceIffLate(restored: set<int>, steps: seq<Step>, t: State)
    requires Reaches(Opened(restored), steps, t)
    ensures t.errors > 0 <==>
              exists k: nat, j: nat ::
                k < j && AddsLate(Opened(restored), steps, t, k) && Empties(Opened(restored), steps, t, j)
  {
    var s := Opened(restored);
    OpenedHolds(restored);
    if t.errors > 0 {
      var k, j := ErrorNeedsLate(s, steps, t);
    }
    forall k: nat, j: nat | k < j && AddsLate(s, steps, t, k) && Empties(s, steps, t, j) ensures t.errors > 0 {
      LateIsError(s, steps, t, k, j);
    }
  }

  /** A redirect followed by `download_async` leaves the slot empty for a moment. Closing fires
      then, and the end of the redirected download fires it again. */
  lemma RedirectDuringCloseFails(id: int, next: int) returns (steps: seq<Step>, t: State)
    requires id != next
    ensures Reaches(Opened({}), steps, t) && t.errors == 1
  {
    var s1 := Next(Opened({}), StartDirect(id, None));
    steps := [StartDirect(id, None)];
    ReachesOneMore(Opened({}), [], Opened({}), StartDirect(id, None));
    assert [] + [StartDirect(id, None)] == steps;
    var s2 := Next(s1, RequestClose);
    ReachesOneMore(Opened({}), steps, s1, RequestClose);
    steps := steps + [RequestClose];
    assert s2.inprogress == {id} && s2.direct == map[id := None] && s2.resuming == {} && s2.errors == 0;
    steps, t := RedirectLast(Opened({}), steps, s2, id, next);
  }

  lemma RedirectLast(s: State, steps: seq<Step>, t: State, id: int, next: int) returns (steps': seq<Step>, u: State)
    requires Reaches(s, steps, t) && t.closing.Waiting? && t.closer != Gone
    requires t.inprogress == {id} && t.direct == map[id := None] && t.resuming == {} && Fresh(t, next)
    ensures Reaches(s, steps', u) && u.errors == t.errors + 1
  {
    var t1 := Next(t, DirectFetched(id));
    ReachesOneMore(s, steps, t, DirectFetched(id));
    steps' := steps + [DirectFetched(id)];
    var t2 := Next(t1, EndDirect(id, Some(next)));
    ReachesOneMore(s, steps', t1, EndDirect(id, Some(next)));
    steps' := steps' + [EndDirect(id, Some(next))];
    assert t2.inprogress == {next} && t2.closing.Fired? && next in t2.direct && next !in t2.resuming;
    var t3 := Next(t2, DirectFetched(next));
    ReachesOneMore(s, steps', t2, DirectFetched(next));
    steps' := steps' + [DirectFetched(next)];
    u := Next(t3, EndDirect(next, None));
    assert t3.inprogress - {next} == {};
    ReachesOneMore(s, steps', t3, EndDirect(next, None));
    steps' := steps' + [EndDirect(next, None)];
  }

  lemma PendingIsNotScheduled(s: State, id: int)
    requires Inv(s) && id in s.pending
    ensures id !in s.scheduled
  {
    hide Phases, Nesting;
  }

  lemma OneMoreDownload(scheduled: map<int, Stage>, id: int)
    requires id !in scheduled
    ensures |InDownloader(scheduled[id := Downloading])| == |InDownloader(scheduled)| + 1
  {
    assert InDownloader(scheduled[id := Downloading]) == InDownloader(scheduled) + {id};
  }

  // ----- The engine itself

  /** Starts of what the scheduler answers one after the other, from `held` on. */
  ghost predicate AreAnswers(next: set<int> -> Option<int>, held: set<int>, steps: seq<Step>)
    decreases |steps|
  {
    steps != [] ==>
      && next(held).Some? && steps[0] == StartRequest(next(held).value)
      && AreAnswers(next, held - {next(held).value}, steps[1..])
  }

  ghost predicate AnsweredSoFar(next: set<int> -> Option<int>, held: set<int>, steps: seq<Step>, left: set<int>) {
    AreAnswers(next, held, steps) && left == Without(held, steps)
  }

  function Without(held: set<int>, steps: seq<Step>): set<int> {
    if steps == [] then held else
    Without(if steps[0].StartRequest? then held - {steps[0].id} else held, steps[1..])
  }

  lemma NoAnswers(next: set<int> -> Option<int>, held: set<int>)
    ensures AnsweredSoFar(next, held, [], held)
  {}

  lemma {:induction false} OneMoreAnswer(next: set<int> -> Option<int>, held: set<int>, steps: seq<Step>,
      left: set<int>)
    requires AnsweredSoFar(next, held, steps, left) && next(left).Some?
    ensures var id := next(left).value; AnsweredSoFar(next, held, steps + [StartRequest(id)], left - {id})
    decreases |steps|
  {
    var step := StartRequest(next(left).value);
    if steps == [] {
      assert [] + [step] == [step] && [step][1..] == [];
    } else {
      assert (steps + [step])[1..] == steps[1..] + [step];
      OneMoreAnswer(next, held - {next(held).value}, steps[1..], left);
    }
  }

  lemma DownloadingAre(scheduled: map<int, Stage>)
    ensures InDownloader(scheduled) == set id | id in scheduled && scheduled[id].Downloading?
  {}

  class ExecutionEngine {
    var closing: Closing
    var inprogress: set<int>
    var scheduled: map<int, Stage>
    var direct: map<int, Option<int>>
    var resuming: set<int>
    var items: map<int, Option<int>>
    var start: bool
    ghost var handed: set<int>
    var pending: set<int>
    ghost var dropped: set<int>
    ghost var completed: set<int>
    ghost var late: set<int>
    var asked: bool
    ghost var ahead: set<int>
    var scraperClosing: Closing
    var closer: Closer
    ghost var teardowns: nat
    var errors: nat

    ghost function Now(): State
      reads this
    {
      State(closing, inprogress, scheduled, direct, resuming, items, start, handed, pending, dropped, completed,
            late, asked, ahead, scraperClosing, closer, teardowns, errors)
    }

    constructor (restored: set<int>)
      ensures Now() == Opened(restored) && Inv(Now())
    {
      closing, inprogress, scheduled, direct, resuming, items, start := NotSet, {}, map[], map[], {}, map[], true;
      handed, pending, dropped, completed, late := restored, restored, {}, {}, {};
      asked, ahead := false, {};
      scraperClosing, closer, teardowns, errors := NotSet, Nobody, 0, 0;
    }

    method MaybeFireClosing()
      modifies this`closing, this`errors
      ensures Now() == Fire(old(Now()))
    {
      if !closing.NotSet? && inprogress == {} {
        if closing.Waiting? {
          closing := Fired;
        } else {
          errors := errors + 1;
        }
      }
    }

    method CheckIfClosing()
      modifies this`scraperClosing, this`errors
      ensures Now() == Check(old(Now()))
    {
      if !scraperClosing.NotSet? && items == map[] && forall id | id in scheduled :: !scheduled[id].Scraping? {
        if scraperClosing.Waiting? {
          scraperClosing := Fired;
        } else {
          errors := errors + 1;
        }
      }
    }

    method Crawl(id: int, accepted: bool)
      requires Inv(Now()) && Fresh(Now(), id)
      modifies this
      ensures Now() == Hand(old(Now()), id, accepted) && Inv(Now())
    {
      HandKeeps(Now(), id, accepted);
      hide Inv;
      handed := handed + {id};
      if accepted && closer.SchedulerClosed? {
        late := late + {id};
      } else if accepted {
        pending := pending + {id};
      } else {
        dropped := dropped + {id};
      }
    }

    /** A download ends with a response or a failure, or with another request, which is handed
        to the scheduler before the first one leaves the slot. */
    method HandleDownloaderOutput(id: int, next: Option<int>, accepted: bool)
      requires Inv(Now())
      requires Enabled(Now(), if next.None? then Step.Downloaded(id) else Step.Redirected(id, next.value, accepted))
      modifies this
      ensures Now()
          == Next(old(Now()), if next.None? then Step.Downloaded(id) else Step.Redirected(id, next.value, accepted))
      ensures Inv(Now())
    {
      hide Partition, Phases, Nesting, SpiderIsIdle, ScraperIdle;
      StepKeeps(Now(), if next.None? then Step.Downloaded(id) else Step.Redirected(id, next.value, accepted));
      match next {
        case None => scheduled := scheduled[id := Scraping];
        case Some(n) =>
          Crawl(n, accepted);
          scheduled, completed := scheduled - {id}, completed + {id};
          inprogress := inprogress - {id};
          MaybeFireClosing();
      }
    }

    /** The end of `enqueue_scrape` and what the engine does then. */
    method FinishScrape(id: int)
      requires Inv(Now()) && Enabled(Now(), Step.Scraped(id))
      modifies this
      ensures Now() == Next(old(Now()), Step.Scraped(id)) && Inv(Now())
    {
      hide Inv, SpiderIsIdle, NothingNested;
      StepKeeps(Now(), Step.Scraped(id));
      hide Enabled;
      scheduled, completed := scheduled - {id}, completed + {id};
      CheckIfClosing();
      inprogress := inprogress - {id};
      MaybeFireClosing();
    }

    function Downloads(): nat
      reads this
    {
      |InDownloader(scheduled)| + |direct.Keys - resuming|
    }

    /** `needs_backout`; a limit of 0 means that the downloads are not limited. */
    predicate NeedsBackout(running: bool, limit: nat, scraperFull: bool)
      reads this
    {
      !running || !closing.NotSet? || 0 < limit <= Downloads() || scraperFull
    }

    predicate IsIdle()
      reads this
      ensures IsIdle() <==> SpiderIsIdle(Now())
    {
      && items == map[] && (forall id | id in scheduled :: !scheduled[id].Scraping?)
      && direct.Keys <= resuming && (forall id | id in scheduled :: !scheduled[id].Downloading?)
      && !start && pending == {}
    }

    method StartScheduledRequest(id: int)
      requires Inv(Now()) && closing.NotSet? && id in pending
      modifies this
      ensures Now() == Start(old(Now()), id) && Inv(Now())
      ensures Downloads() == old(Downloads()) + 1
    {
      hide Inv, InDownloader;
      StartKeeps(Now(), id);
      PendingIsNotScheduled(Now(), id);
      OneMoreDownload(scheduled, id);
      pending := pending - {id};
      inprogress := inprogress + {id};
      scheduled := scheduled[id := Downloading];
    }

    method CloseSpider()
      requires Inv(Now())
      modifies this
      ensures Now() == Close(old(Now())) && Inv(Now())
    {
      CloseKeeps(Now());
      hide Inv;
      if closing.NotSet? {
        closing, closer := Waiting, ClosingSlot;
        MaybeFireClosing();
      }
    }

    /** The loop of `_start_scheduled_requests`. `next` is what the scheduler answers for the requests
        it holds; it may answer with none although it holds some. Requests are started in that order
        as long as there is an answer and room, and no longer. */
    method StartWhileRoom(running: bool, limit: nat, scraperFull: bool, next: set<int> -> Option<int>)
        returns (ghost steps: seq<Step>)
      requires Inv(Now()) && closing.NotSet?
      requires forall held: set<int> :: next(held).Some? ==> next(held).value in held
      modifies this
      ensures Inv(Now()) && closing.NotSet? && Reaches(old(Now()), steps, Now())
      ensures AreAnswers(next, old(pending), steps)
      ensures running && !scraperFull && next(pending).Some? ==>
                var downloading := set id | id in scheduled && scheduled[id].Downloading?;
                0 < limit <= |downloading| + |direct.Keys - resuming|
      ensures 0 < limit && steps != [] ==>
                var downloading := set id | id in scheduled && scheduled[id].Downloading?;
                |downloading| + |direct.Keys - resuming| <= limit
      ensures !running || scraperFull ==> steps == []
    {
      hide Inv, Start, Next, Close, InDownloader, AreAnswers;
      steps := [];
      NoAnswers(next, pending);
      while !NeedsBackout(running, limit, scraperFull) && next(pending).Some?
        invariant Inv(Now()) && closing.NotSet? && Reaches(old(Now()), steps, Now())
        invariant AnsweredSoFar(next, old(pending), steps, pending)
        invariant 0 < limit && steps != [] ==> Downloads() <= limit
        invariant !running || scraperFull ==> steps == []
        decreases |pending|
      {
        var id := next(pending).value;
        ghost var was := Now();
        StartOne(old(Now()), steps, was, id);
        OneMoreAnswer(next, old(pending), steps, pending);
        steps := steps + [Step.StartRequest(id)];
        StartScheduledRequest(id);
        assert |pending| < |was.pending|;
      }
      DownloadingAre(scheduled);
    }

    method AskClose()
      modifies this`asked, this`ahead
      ensures Now() == Ask(old(Now())) && asked
    {
      if !asked {
        asked, ahead := true, resuming;
      }
    }

    /** `_start_scheduled_requests`. When the spider is idle, its close is scheduled; it begins in
        a later step. `closeIfIdle` says that the slot is to be closed then and that no handler of
        `spider_idle` raises DontCloseSpider. */
    method StartScheduledRequests(running: bool, paused: bool, limit: nat, scraperFull: bool, closeIfIdle: bool,
        next: set<int> -> Option<int>)
        returns (ghost starts: seq<Step>, asks: bool)
      requires Inv(Now())
      requires forall held: set<int> :: next(held).Some? ==> next(held).value in held
      modifies this
      ensures Inv(Now()) && Reaches(old(Now()), if asks then starts + [Step.AskClose] else starts, Now())
      ensures AreAnswers(next, old(pending), starts)
      ensures running && !scraperFull && !paused && old(closing).NotSet? && next(pending).Some? ==>
                var downloading := set id | id in scheduled && scheduled[id].Downloading?;
                0 < limit <= |downloading| + |direct.Keys - resuming|
      ensures 0 < limit && starts != [] ==>
                var downloading := set id | id in scheduled && scheduled[id].Downloading?;
                |downloading| + |direct.Keys - resuming| <= limit
      ensures !running || scraperFull || paused || !old(closing).NotSet? ==> starts == []
      ensures asks <==>
          && !paused && old(closing).NotSet? && closeIfIdle
          && !start && pending == {} && items == map[] && scheduled == map[] && direct.Keys <= resuming
      ensures closing == old(closing) && (asks ==> asked)
    {
      hide Inv, Reaches, InDownloader, AreAnswers;
      starts, asks := [], false;
      ReachesNone(Now());
      NoAnswers(next, pending);
      if !closing.NotSet? || paused {
        return;
      }
      starts := StartWhileRoom(running, limit, scraperFull, next);
      AskOneIfIdle(old(Now()), starts, Now());
      IdleMeans(Now());
      asks := SpiderIdle(closeIfIdle);
    }

    /** `_spider_idle`, if the spider is idle. */
    method SpiderIdle(closeIfIdle: bool) returns (idle: bool)
      requires closing.NotSet?
      modifies this`asked, this`ahead
      ensures idle <==>
          && closeIfIdle && !start && pending == {} && items == map[] && scheduled == map[] && direct.Keys <= resuming
      ensures Now() == (if idle then Ask(old(Now())) else old(Now())) && (idle ==> asked)
    {
      hide SpiderIsIdle, ExecutionEngine.IsIdle;
      IdleMeans(Now());
      idle := closeIfIdle && IsIdle();
      if idle {
        AskClose();
      }
    }

    /** The coroutine that `_spider_idle` scheduled begins. */
    method BeginClose()
      requires Inv(Now()) && Enabled(Now(), Step.BeginClose)
      modifies this
      ensures Now() == Next(old(Now()), Step.BeginClose) && Inv(Now())
    {
      BeginKeeps(Now());
      hide Partition, Nesting, Enabled;
      TrafficKept(Now(), Now().(asked := false));
      asked := false;
      CloseSpider();
    }
  }

  lemma ReachesNone(s: State)
    ensures Reaches(s, [], s)
  {}

  lemma StartOne(s: State, steps: seq<Step>, t: State, id: int)
    requires Inv(t) && Reaches(s, steps, t) && t.closing.NotSet? && id in t.pending
    ensures var u := Start(t, id);
            Reaches(s, steps + [StartRequest(id)], u) && u.closing.NotSet? && u.pending == t.pending - {id}
            && |u.pending| < |t.pending|
  {
    ReachesOneMore(s, steps, t, StartRequest(id));
  }

  lemma AskOneIfIdle(s: State, steps: seq<Step>, t: State)
    requires Inv(t) && Reaches(s, steps, t) && t.closing.NotSet?
    ensures SpiderIsIdle(t) ==> Reaches(s, steps + [AskClose], Ask(t)) && Inv(Ask(t)) && SpiderIsIdle(Ask(t))
  {
    if SpiderIsIdle(t) {
      ReachesOneMore(s, steps, t, AskClose);
      AskKeeps(t);
    }
  }
}
