/** scrapy/core/scraper.py: what the scraper holds, and its size accounts, which limit how much
    is downloaded and tell whether the scraper is idle. */
module ScraperSlots {
  import opened Collections
  import opened Deferreds
  import opened Requests

  const MIN_RESPONSE_SIZE: nat := 1024

  datatype Result = Response(size: nat) | Failure

  function Bytes(r: Result): nat {
    if r.Response? then r.size else 0
  }

  /** What a result adds to `active_size`: its size, if that is more than 1024, and 1024 otherwise. */
  function Charge(r: Result): (c: nat)
    ensures c >= 1024 && (r.Response? ==> c >= r.size)
    ensures c == 1024 || (r.Response? && c == r.size)
  {
    if r.Response? && r.size > MIN_RESPONSE_SIZE then r.size else MIN_RESPONSE_SIZE
  }

  ghost function Charges(held: map<int, Result>): map<int, nat> {
    map id | id in held :: Charge(held[id])
  }

  ghost function TotalCharge(held: map<int, Result>): nat {
    Sum(Charges(held))
  }

  lemma ChargeRemoved(held: map<int, Result>, id: int)
    requires id in held
    ensures TotalCharge(held) == Charge(held[id]) + TotalCharge(held - {id})
  {
    SumRemove(Charges(held), id);
    assert Charges(held) - {id} == Charges(held - {id});
  }

  lemma ChargeAdded(held: map<int, Result>, id: int, r: Result)
    requires id !in held
    ensures TotalCharge(held[id := r]) == TotalCharge(held) + Charge(r)
  {
    ChargeRemoved(held[id := r], id);
    assert held[id := r] - {id} == held;
  }

  ghost function Sizes(held: map<int, Result>): map<int, nat> {
    map id | id in held :: Bytes(held[id])
  }

  ghost function TotalBytes(held: map<int, Result>): nat {
    Sum(Sizes(held))
  }

  lemma BytesRemoved(held: map<int, Result>, id: int)
    requires id in held
    ensures TotalBytes(held) == (if held[id].Response? then held[id].size else 0) + TotalBytes(held - {id})
  {
    SumRemove(Sizes(held), id);
    assert Sizes(held) - {id} == Sizes(held - {id});
  }

  /** The account covers the bodies held and bounds the number of results; and an empty account
      means an empty slot. */
  lemma {:induction false} HeldBound(held: map<int, Result>)
    ensures 1024 * |held| <= TotalCharge(held) && TotalBytes(held) <= TotalCharge(held)
    ensures TotalCharge(held) == 0 <==> held == map[]
    decreases |held|
  {
    if held == map[] {
      assert Charges(held) == map[] && Sizes(held) == map[];
    } else {
      var id := SomeKey(held);
      ChargeRemoved(held, id);
      BytesRemoved(held, id);
      MapWithout(held, id);
      HeldBound(held - {id});
    }
  }

  // ----- What the scraper is doing

  /** `active`: the requests in the scraper; `announced`: the items from `start()` whose coroutine
      is still to run; `items`: the items in the pipelines, each with the request whose processing
      awaits it, if any. */
  datatype Scraping = Scraping(
    active: set<int>,
    announced: nat,
    items: map<int, Option<int>>,
    closing: Closing,
    errors: nat)

  const NOTHING := Scraping({}, 0, map[], NotSet, 0)

  datatype Move =
    | Come(request: int)
    | Finish(request: int)
    | Announce
    | TakeOver(item: int)
    | Item(item: int, parent: Option<int>)
    | ItemDone(item: int)
    | Shut

  predicate NothingToDo(s: Scraping) {
    s.active == {} && s.announced == 0 && s.items == map[]
  }

  /** `_check_if_closing`: firing the deferred a second time is an error. */
  function Looked(s: Scraping): Scraping {
    if s.closing.NotSet? || !NothingToDo(s) then s
    else if s.closing.Waiting? then s.(closing := Fired)
    else s.(errors := s.errors + 1)
  }

  /** The deferred is looked at when closing begins and when a response is finished. */
  function Moved(s: Scraping, m: Move): Scraping
    requires m.TakeOver? ==> s.announced > 0
  {
    match m
    case Come(r) => s.(active := s.active + {r})
    case Finish(r) => Looked(s.(active := s.active - {r}))
    case Announce => s.(announced := s.announced + 1)
    case TakeOver(i) => s.(announced := s.announced - 1, items := s.items[i := None])
    case Item(i, parent) => s.(items := s.items[i := parent])
    case ItemDone(i) => s.(items := s.items - {i})
    case Shut => Looked(s.(closing := Waiting))
  }

  /** The moves that can come: no new response once closing has begun, and closing begins once; a
      response is finished when nothing it awaits is left. */
  predicate CanMove(s: Scraping, m: Move) {
    match m
    case Come(r) => s.closing.NotSet? && r !in s.active
    case Finish(r) => r in s.active && forall i | i in s.items :: s.items[i] != Some(r)
    case Announce => true
    case TakeOver(i) => s.announced > 0 && i !in s.items
    case Item(i, parent) => i !in s.items && (parent.Some? ==> parent.value in s.active)
    case ItemDone(i) => i in s.items
    case Shut => s.closing.NotSet?
  }

  /** What is in the scraper after a move: the requests that came and are not finished, the items that
      began and have not ended, and as many announced items as have not been taken over. */
  lemma MoveMeans(s: Scraping, m: Move, request: int, item: int)
    requires CanMove(s, m)
    ensures var t := Moved(s, m);
            && (request in t.active <==> m == Come(request) || (request in s.active && m != Finish(request)))
            && (item in t.items <==> ((m.TakeOver? || m.Item?) && m.item == item)
                                     || (item in s.items && m != ItemDone(item)))
            && t.announced == s.announced + (if m.Announce? then 1 else 0) - (if m.TakeOver? then 1 else 0)
            && (item in t.items && item in s.items ==> t.items[item] == s.items[item])
            && (item in t.items && item !in s.items ==> t.items[item] == if m.Item? then m.parent else None)
  {}

  /** Each result held is queued, once and with its request, or its request is active. */
  ghost predicate Lined(queue: seq<(Result, int)>, active: set<int>, held: map<int, Result>) {
    && active <= held.Keys
    && (forall k | 0 <= k < |queue| :: queue[k].1 in held && held[queue[k].1] == queue[k].0 && queue[k].1 !in active)
    && (forall j, k | 0 <= j < k < |queue| :: queue[j].1 != queue[k].1)
    && (forall id | id in held && id !in active :: exists k | 0 <= k < |queue| :: queue[k].1 == id)
  }

  lemma LinedUp(queue: seq<(Result, int)>, active: set<int>, held: map<int, Result>, result: Result, request: int)
    requires Lined(queue, active, held) && request !in held
    ensures Lined(queue + [(result, request)], active, held[request := result])
  {
    var all := queue + [(result, request)];
    assert all[|queue|].1 == request;
    forall id | id in held && id !in active ensures exists k | 0 <= k < |all| :: all[k].1 == id {
      var k :| 0 <= k < |queue| && queue[k].1 == id;
      assert all[k] == queue[k];
    }
  }

  class Slot {
    const maxActiveSize: nat
    var queue: seq<(Result, int)>
    var active: set<int>
    var activeSize: int
    var itemprocSize: int
    var closing: Closing
    var errors: nat

    /** The results that have come in and are not finished; the number of items announced, and
        the items in the pipelines. */
    ghost var held: map<int, Result>
    ghost var announced: nat
    ghost var items: map<int, Option<int>>

    ghost function Now(): Scraping
      reads this
    {
      Scraping(held.Keys, announced, items, closing, errors)
    }

    ghost predicate Valid()
      reads this
    {
      && Lined(queue, active, held)
      && activeSize == TotalCharge(held)
      && itemprocSize == announced + |items|
    }

    /** Between two awaits nothing is left on the queue. */
    ghost predicate Settled()
      reads this
    {
      Valid() && queue == [] && active == held.Keys
    }

    lemma NothingQueued()
      requires Valid() && queue == []
      ensures held.Keys == active
    {
      forall id | id in held ensures id in active {}
    }

    constructor (size: nat)
      ensures Settled() && maxActiveSize == size && Now() == NOTHING
    {
      maxActiveSize, queue, active, activeSize, itemprocSize, closing, errors := size, [], {}, 0, 0, NotSet, 0;
      held, announced, items := map[], 0, map[];
      new;
      HeldBound(held);
    }

    method AddResponseRequest(result: Result, request: int)
      requires Valid() && request !in held
      modifies this`queue, this`activeSize, this`held
      ensures Valid() && held == old(held)[request := result] && queue == old(queue) + [(result, request)]
      ensures activeSize == old(activeSize)
                          + if result.Response? && result.size > 1024 then result.size else 1024
    {
      hide Lined, TotalCharge;
      LinedUp(queue, active, held, result, request);
      ChargeAdded(held, request, result);
      queue := queue + [(result, request)];
      held := held[request := result];
      if result.Response? {
        activeSize := activeSize + if result.size > MIN_RESPONSE_SIZE then result.size else MIN_RESPONSE_SIZE;
      } else {
        activeSize := activeSize + MIN_RESPONSE_SIZE;
      }
    }

    method NextResponseRequest() returns (result: Result, request: int)
      requires Valid() && queue != []
      modifies this`queue, this`active
      ensures Valid() && [(result, request)] + queue == old(queue) && active == old(active) + {request}
      ensures request in held && held[request] == result
    {
      result, request := queue[0].0, queue[0].1;
      ghost var was := queue;
      queue := queue[1..];
      active := active + {request};
      forall id | id in held && id !in active ensures exists k | 0 <= k < |queue| :: queue[k].1 == id {
        var k :| 0 <= k < |was| && was[k].1 == id;
        assert queue[k - 1] == was[k];
      }
    }

    /** The request is the one of a result that is being processed. */
    method FinishResponse(result: Result, request: int)
      requires Valid() && request in active && held[request] == result
      modifies this`active, this`activeSize, this`held
      ensures Valid() && active == old(active) - {request} && held == old(held) - {request}
      ensures activeSize == old(activeSize)
                          - if result.Response? && result.size > 1024 then result.size else 1024
    {
      ChargeRemoved(held, request);
      active := active - {request};
      held := held - {request};
      if result.Response? {
        activeSize := activeSize - if result.size > MIN_RESPONSE_SIZE then result.size else MIN_RESPONSE_SIZE;
      } else {
        activeSize := activeSize - MIN_RESPONSE_SIZE;
      }
    }

    method IsIdle() returns (idle: bool)
      requires Valid()
      ensures idle <==> NothingToDo(Now())
      ensures idle <==> activeSize == 0 && itemprocSize == 0
    {
      HeldBound(held);
      idle := queue == [] && active == {} && itemprocSize == 0;
      if queue != [] {
        assert queue[0].1 in held;
      } else if active == {} {
        NothingQueued();
        assert held.Keys == {};
      }
    }

    /** As long as there is no back-out, the slot holds at most `maxActiveSize / 1024` results,
        and bodies of at most `maxActiveSize` bytes. */
    method NeedsBackout() returns (full: bool)
      requires Valid()
      ensures full <==> TotalCharge(held) > maxActiveSize
      ensures !full ==> 1024 * |held| <= maxActiveSize && TotalBytes(held) <= maxActiveSize
    {
      HeldBound(held);
      full := activeSize > maxActiveSize;
    }

    // ----- The scraper's use of its slot

    method CheckIfClosing()
      requires Valid()
      modifies this`closing, this`errors
      ensures Valid() && Now() == Looked(old(Now()))
    {
      var idle := IsIdle();
      if !closing.NotSet? && idle {
        if closing.Waiting? {
          closing := Fired;
        } else {
          errors := errors + 1;
        }
      }
    }

    /** `_scrape_next` starts the processing of all that is queued, in order. */
    method ScrapeNext() returns (started: seq<int>)
      requires Valid()
      modifies this`queue, this`active
      ensures Settled()
      ensures |started| == |old(queue)| && forall k | 0 <= k < |started| :: started[k] == old(queue)[k].1
    {
      hide Slot.Valid;
      started := [];
      while queue != []
        invariant Valid() && |started| + |queue| == |old(queue)| && queue == old(queue)[|started|..]
        invariant forall k | 0 <= k < |started| :: started[k] == old(queue)[k].1
        decreases |queue|
      {
        var _, request := NextResponseRequest();
        started := started + [request];
      }
      NothingQueued();
    }

    /** `enqueue_scrape` up to its await. */
    method EnqueueScrape(result: Result, request: int)
      requires Settled() && request !in held
      modifies this`queue, this`active, this`activeSize, this`held
      ensures Settled() && held == old(held)[request := result]
      ensures Now() == Moved(old(Now()), Come(request)) && (closing.NotSet? ==> CanMove(old(Now()), Come(request)))
    {
      AddResponseRequest(result, request);
      var _ := ScrapeNext();
    }

    /** The rest of `enqueue_scrape`, however the processing ended. A deferred that is waited for
        fires exactly if this leaves the scraper idle; one that has fired must not be met again. */
    method FinishScrape(result: Result, request: int)
      requires Settled() && request in held && held[request] == result
      modifies this`queue, this`active, this`activeSize, this`held, this`closing, this`errors
      ensures Settled() && held == old(held) - {request}
      ensures Now() == Moved(old(Now()), Finish(request))
      ensures (forall i | i in items :: items[i] != Some(request)) ==> CanMove(old(Now()), Finish(request))
      ensures old(closing).Waiting? ==>
          (closing.Fired? <==> activeSize == 0 && itemprocSize == 0) && errors == old(errors)
      ensures old(closing).Fired? ==>
          errors == old(errors) + if activeSize == 0 && itemprocSize == 0 then 1 else 0
    {
      FinishResponse(result, request);
      assert held.Keys == old(held).Keys - {request};
      HeldBound(held);
      CheckIfClosing();
      var _ := ScrapeNext();
    }

    /** `close_spider_async` up to its await. */
    method CloseSpider()
      requires Settled()
      modifies this`closing, this`errors
      ensures Settled() && Now() == Moved(old(Now()), Shut) && (old(closing).NotSet? ==> CanMove(old(Now()), Shut))
      ensures errors == old(errors) && closing == if activeSize == 0 && itemprocSize == 0 then Fired else Waiting
    {
      closing := Waiting;
      HeldBound(held);
      CheckIfClosing();
    }

    // ----- Items

    /** `_start_itemproc_nowait` announces an item before its coroutine runs. */
    method StartItemprocNowait()
      requires Valid()
      modifies this`itemprocSize, this`announced
      ensures Valid() && Now() == Moved(old(Now()), Announce) && CanMove(old(Now()), Announce)
      ensures itemprocSize == old(itemprocSize) + 1
    {
      itemprocSize, announced := itemprocSize + 1, announced + 1;
    }

    /** The coroutine hands the count of the item over to `start_itemproc_async`. */
    method TakeOverItem(ghost item: int)
      requires Valid() && announced > 0 && item !in items
      modifies this`itemprocSize, this`announced, this`items
      ensures Valid() && Now() == Moved(old(Now()), TakeOver(item)) && CanMove(old(Now()), TakeOver(item))
      ensures itemprocSize == old(itemprocSize)
    {
      itemprocSize, announced := itemprocSize - 1, announced - 1;
      itemprocSize := itemprocSize + 1;
      OneMoreItem(items, item, None);
      items := items[item := None];
    }

    /** `start_itemproc_async`, mostly awaited by the processing of a response. */
    method StartItemproc(ghost item: int, ghost parent: Option<int>)
      requires Valid() && item !in items
      modifies this`itemprocSize, this`items
      ensures Valid() && Now() == Moved(old(Now()), Item(item, parent))
      ensures itemprocSize == old(itemprocSize) + 1
      ensures (parent.Some? ==> parent.value in held) ==> CanMove(old(Now()), Item(item, parent))
    {
      itemprocSize := itemprocSize + 1;
      OneMoreItem(items, item, parent);
      items := items[item := parent];
    }

    /** The end of `start_itemproc_async`, whether the item was scraped, dropped or failed. It
        does not look at the deferred: a scraper that this leaves idle is not told so. */
    method EndItemproc(ghost item: int)
      requires Valid() && item in items
      modifies this`itemprocSize, this`items
      ensures Valid() && Now() == Moved(old(Now()), ItemDone(item)) && CanMove(old(Now()), ItemDone(item))
      ensures itemprocSize == old(itemprocSize) - 1
    {
      itemprocSize := itemprocSize - 1;
      MapWithout(items, item);
      items := items - {item};
    }
  }

  lemma OneMoreItem(items: map<int, Option<int>>, item: int, parent: Option<int>)
    requires item !in items
    ensures |items[item := parent]| == |items| + 1
  {
    assert items[item := parent].Keys == items.Keys + {item};
  }

  // ----- Closing over whole runs

  ghost predicate Leads(s: Scraping, moves: seq<Move>, t: Scraping)
    decreases |moves|
  {
    if moves == [] then s == t else CanMove(s, moves[0]) && Leads(Moved(s, moves[0]), moves[1..], t)
  }

  /** Nothing is under way that no response awaits. */
  predicate NoStray(s: Scraping) {
    s.announced == 0 && forall i | i in s.items :: s.items[i].Some?
  }

  ghost predicate Sound(s: Scraping) {
    && (forall i | i in s.items && s.items[i].Some? :: s.items[i].value in s.active)
    && (s.closing.Fired? ==> s.active == {})
  }

  /** Over every run, with or without items from `start()`: the deferred is fired once at most. */
  lemma {:induction false} FiresOnce(s: Scraping, moves: seq<Move>, t: Scraping)
    requires Sound(s) && Leads(s, moves, t)
    ensures Sound(t) && t.errors == s.errors
    decreases |moves|
  {
    if moves != [] {
      FiresOnce(Moved(s, moves[0]), moves[1..], t);
    }
  }

  /** Once closing has begun and the last response is finished, the deferred has fired or will
      never fire: no later move looks at it. */
  lemma {:induction false} NeverToldAgain(s: Scraping, moves: seq<Move>, t: Scraping)
    requires !s.closing.NotSet? && s.active == {} && Leads(s, moves, t)
    ensures t.closing == s.closing && t.active == {}
    decreases |moves|
  {
    if moves != [] {
      NeverToldAgain(Moved(s, moves[0]), moves[1..], t);
    }
  }

  /** The move with which closing has begun and the last response is finished decides: the
      deferred fires if and only if no item is under way that no response awaits. */
  lemma LastResponseDecides(s: Scraping, m: Move)
    requires Sound(s) && !s.closing.Fired? && CanMove(s, m)
    requires (m.Shut? && s.active == {}) || (s.closing.Waiting? && m.Finish? && s.active == {m.request})
    ensures Moved(s, m).active == {} && (Moved(s, m).closing.Fired? <==> NoStray(s))
  {
    if NoStray(s) {
      NoOrphans(s.items, s.active - if m.Finish? then {m.request} else {});
    }
  }

  lemma NoOrphans(items: map<int, Option<int>>, active: set<int>)
    requires active == {} && forall i | i in items :: items[i].Some? && items[i].value in active
    ensures items == map[]
  {
    if items != map[] {
      var i := SomeKey(items);
      assert false;
    }
  }

  predicate Strays(m: Move) {
    m.Announce? || m.TakeOver? || (m.Item? && m.parent.None?)
  }

  ghost predicate Nested(s: Scraping) {
    && Sound(s) && NoStray(s)
    && (s.closing.Waiting? ==> s.active != {})
  }

  /** In every state of every run without items that no response awaits the closing deferred has fired if
      and only if closing has begun and the scraper is idle; as long as it has not, something is
      in the scraper that will look at it again. */
  lemma {:induction false} FiresWhenIdle(s: Scraping, moves: seq<Move>, t: Scraping)
    requires Nested(s) && Leads(s, moves, t)
    requires forall k | 0 <= k < |moves| ::
               !moves[k].Announce? && !moves[k].TakeOver? && (moves[k].Item? ==> moves[k].parent.Some?)
    ensures Nested(t)
    ensures t.closing.Fired? <==> !t.closing.NotSet? && NothingToDo(t)
    decreases |moves|
  {
    if moves != [] {
      MoveKeepsNested(s, moves[0]);
      FiresWhenIdle(Moved(s, moves[0]), moves[1..], t);
    } else if t.active == {} {
      NoOrphans(t.items, t.active);
    }
  }

  lemma MoveKeepsNested(s: Scraping, m: Move)
    requires Nested(s) && CanMove(s, m) && !Strays(m)
    ensures Nested(Moved(s, m))
  {
    match m
    case Finish(r) =>
      if s.active - {r} == {} {
        NoOrphans(s.items, s.active - {r});
      }
    case Shut =>
      if s.active == {} {
        NoOrphans(s.items, s.active);
      }
    case _ =>
  }
}
