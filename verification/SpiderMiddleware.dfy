/** scrapy/core/spidermw.py: output stages and exception handlers, mutually recursive over
    streams that may fail partway.

    A stage is an asynchronous generator: it pulls from its input and yields. What happens
    while its input is pulled is kept in the stream as events, in order: items, offers of an
    exception to a handler, and recovered streams queued for later. A stage that stops pulling
    early never sees, and so never triggers, the events behind that point. */
module SpiderMiddleware {
  import opened Requests

  /** Where an item or an exception comes from: the callback, stage `i` of its own accord, the
      iterable returned by handler `h`, or a call of handler `h` made at point `at`. */
  datatype Origin = Callback | OfStage(i: nat) | OfHandler(h: nat) | RaisedBy(h: nat, at: nat)

  /** An item with the stages it went through. */
  datatype Item = Item(value: int, origin: Origin, path: seq<nat>)

  datatype Error = Error(code: int, invalid: bool, origin: Origin)

  datatype End = Done | Failed(error: Error)

  datatype Event =
    | Emit(item: Item)
    | Offer(handler: nat, error: Error)
    | Recover(level: nat, stream: Stream)

  datatype Stream = Stream(events: seq<Event>, end: End)

  /** What a stage does once it has pulled one more item, or before it pulls at all. */
  datatype Control = GoOn | Return | Raise(code: int, invalid: bool)
  datatype Reaction = Reaction(out: seq<int>, control: Control)

  /** What a stage does at the end of its input. */
  datatype EndControl = Finish | Rethrow | RaiseNew(code: int, invalid: bool)
  datatype EndReaction = EndReaction(out: seq<int>, control: EndControl)

  datatype Stage = Stage(onItem: seq<int> -> Reaction, onEnd: (seq<int>, Option<int>) -> EndReaction)

  /** What a handler does with an exception: return None, return an iterable, which may fail
      after its items, return something else, or raise. */
  datatype Answer =
    | Pass
    | Iterable(items: seq<int>, fails: Option<int>, invalid: bool)
    | NotIterable
    | Raises(code: int, invalid: bool)

  datatype Middleware = Middleware(stage: Option<Stage>, handler: Option<int -> Answer>)

  /** The manager's two method lists, filled from the left in step: position `i` of both holds
      what the same middleware offers, the one added `i` places before the last. */
  class SpiderMiddlewareManager {
    var outputs: seq<Option<Stage>>
    var handlers: seq<Option<int -> Answer>>
    ghost var added: seq<Middleware>

    ghost predicate Valid()
      reads this
    {
      && |outputs| == |handlers| == |added|
      && forall i | 0 <= i < |added| ::
           var mw := added[|added| - 1 - i]; outputs[i] == mw.stage && handlers[i] == mw.handler
    }

    constructor ()
      ensures Valid() && added == []
    {
      outputs, handlers, added := [], [], [];
    }

    method AddMiddleware(mw: Middleware)
      requires Valid()
      modifies this
      ensures Valid() && added == old(added) + [mw]
    {
      outputs := [mw.stage] + outputs;
      handlers := [mw.handler] + handlers;
      added := added + [mw];
    }

    /** The middlewares in the order in which responses meet them: last added first. */
    function Middlewares(): (mws: seq<Middleware>)
      requires Valid()
      reads this
      ensures |mws| == |added| && forall i | 0 <= i < |mws| :: mws[i] == added[|added| - 1 - i]
    {
      seq(|outputs|, i requires 0 <= i < |outputs| && |handlers| == |outputs| reads this =>
        Middleware(outputs[i], handlers[i]))
    }
  }

  /** Items a stage yields while it handles `cause`, or of its own accord. */
  function Stamp(i: nat, cause: Option<Item>, out: seq<int>): seq<Event> {
    if out == [] then [] else
    [Emit(match cause
          case Some(x) => Item(out[0], x.origin, x.path + [i])
          case None => Item(out[0], OfStage(i), []))] + Stamp(i, cause, out[1..])
  }

  function Prepend(events: seq<Event>, s: Stream): Stream {
    Stream(events + s.events, s.end)
  }

  /** Stage `i` run over the rest of its input, having pulled `history` so far. */
  function Feed(i: nat, g: Stage, history: seq<int>, input: Stream): Stream
    decreases |input.events|
  {
    if input.events == [] then
      var r := g.onEnd(history, if input.end.Done? then None else Some(input.end.error.code));
      Stream(Stamp(i, None, r.out),
             match r.control
             case Finish => Done
             case Rethrow => input.end
             case RaiseNew(code, invalid) => Failed(Error(code, invalid, OfStage(i))))
    else
      var rest := Stream(input.events[1..], input.end);
      match input.events[0]
      case Emit(x) =>
        var r := g.onItem(history + [x.value]);
        var out := Stamp(i, Some(x), r.out);
        (match r.control
         case GoOn => Prepend(out, Feed(i, g, history + [x.value], rest))
         case Return => Stream(out, Done)
         case Raise(code, invalid) => Stream(out, Failed(Error(code, invalid, OfStage(i)))))
      case _ => Prepend([input.events[0]], Feed(i, g, history, rest))
  }

  function Apply(i: nat, g: Stage, input: Stream): Stream {
    var r := g.onItem([]);
    var out := Stamp(i, None, r.out);
    match r.control
    case GoOn => Prepend(out, Feed(i, g, [], input))
    case Return => Stream(out, Done)
    case Raise(code, invalid) => Stream(out, Failed(Error(code, invalid, OfStage(i))))
  }

  /** The events other than the recovered streams of this level. */
  function Main(level: nat, events: seq<Event>): seq<Event> {
    if events == [] then [] else
    (if events[0].Recover? && events[0].level == level then [] else [events[0]]) + Main(level, events[1..])
  }

  /** The recovered streams of this level, one after the other, until one fails. */
  function Recovered(level: nat, events: seq<Event>): Stream {
    if events == [] then Stream([], Done) else
    var rest := Recovered(level, events[1..]);
    if events[0].Recover? && events[0].level == level then Then(events[0].stream, rest) else rest
  }

  /** A chain of two streams: the second is reached only if the first does not fail. */
  function Then(a: Stream, b: Stream): Stream {
    if a.end.Done? then Stream(a.events + b.events, b.end) else a
  }

  function Chain(level: nat, s: Stream): Stream {
    Then(Stream(Main(level, s.events), s.end), Recovered(level, s.events))
  }

  datatype Handling = Handled(offers: seq<Event>, stream: Stream) | Unhandled(offers: seq<Event>, error: Error)

  function HandlerStream(h: nat, items: seq<int>, fails: Option<int>, invalid: bool): Stream {
    Stream(seq(|items|, i requires 0 <= i < |items| => Emit(Item(items[i], OfHandler(h), []))),
           if fails.None? then Done else Failed(Error(fails.value, invalid, OfHandler(h))))
  }

  /** `_process_spider_exception`: the handlers from `j` on, asked at point `at`. */
  function ProcessException(mws: seq<Middleware>, e: Error, j: nat, at: nat): Handling
    requires at <= j <= |mws|
    decreases |mws| - j, 0
  {
    if e.invalid then Unhandled([], e)
    else if j == |mws| then Unhandled([], e)
    else if mws[j].handler.None? then ProcessException(mws, e, j + 1, at)
    else
      var offer := Offer(j, e);
      match mws[j].handler.value(e.code)
      case Pass => Offered(offer, ProcessException(mws, e, j + 1, at))
      case Iterable(items, fails, invalid) =>
        Handled([offer], ProcessOutput(mws, HandlerStream(j, items, fails, invalid), j + 1))
      case NotIterable => Unhandled([offer], Error(0, true, RaisedBy(j, at)))
      case Raises(code, invalid) => Unhandled([offer], Error(code, invalid, RaisedBy(j, at)))
  }

  function Offered(offer: Event, h: Handling): Handling {
    h.(offers := [offer] + h.offers)
  }

  /** `_evaluate_iterable`: a failing stream ends normally once a handler recovers it. */
  function Evaluate(mws: seq<Middleware>, s: Stream, k: nat, level: nat): Stream
    requires k <= |mws|
    decreases |mws| - k, 1
  {
    match s.end
    case Done => s
    case Failed(e) =>
      match ProcessException(mws, e, k, k)
      case Handled(offers, r) => Stream(s.events + offers + [Recover(level, r)], Done)
      case Unhandled(offers, e') => Stream(s.events + offers, Failed(e'))
  }

  /** The loop of `_process_spider_output`, from stage `i` on. */
  function RunStages(mws: seq<Middleware>, s: Stream, i: nat): Stream
    requires i <= |mws|
    decreases |mws| - i, 1
  {
    if i == |mws| then s
    else if mws[i].stage.None? then RunStages(mws, s, i + 1)
    else RunStages(mws, Evaluate(mws, Apply(i, mws[i].stage.value, s), i + 1, 0), i + 1)
  }

  function ProcessOutput(mws: seq<Middleware>, s: Stream, start: nat): Stream
    requires start <= |mws|
    decreases |mws| - start, 2
  {
    Chain(0, RunStages(mws, s, start))
  }

  /** What the callback returned: nothing but an exception, or an iterable. */
  datatype CallbackResult =
    | Raised(code: int, invalid: bool)
    | Returned(items: seq<int>, fails: Option<int>, invalid: bool)

  function CallbackStream(items: seq<int>, end: End): Stream {
    Stream(seq(|items|, i requires 0 <= i < |items| => Emit(Item(items[i], Callback, []))), end)
  }

  function ProcessCallbackOutput(mws: seq<Middleware>, s: Stream): Stream {
    Chain(1, ProcessOutput(mws, Evaluate(mws, s, 0, 1), 0))
  }

  /** `scrape_response_async`, as the stream its caller iterates over. */
  function ScrapeResponse(mws: seq<Middleware>, c: CallbackResult): Stream {
    match c
    case Raised(code, invalid) =>
      (match ProcessException(mws, Error(code, invalid, Callback), 0, 0)
       case Handled(offers, s) => Prepend(offers, s)
       case Unhandled(offers, e) => Stream(offers, Failed(e)))
    case Returned(items, fails, invalid) =>
      ProcessCallbackOutput(mws,
          CallbackStream(items, if fails.None? then Done else Failed(Error(fails.value, invalid, Callback))))
  }

  // ----- Every item passes exactly the stages behind its origin, and every exception is
  // ----- offered only to handlers behind its origin

  /** The first stage an item of this origin passes. */
  function FirstStage(o: Origin): nat {
    match o
    case Callback => 0
    case OfStage(i) => i + 1
    case OfHandler(h) => h + 1
    case RaisedBy(h, _) => h + 1
  }

  /** The first handler an exception of this origin can be offered to. The iterable a handler
      returned is not watched itself, only the stages behind it are; and what a handler raised
      is offered again behind the point where that handler was asked. */
  function FirstHandler(o: Origin): nat {
    match o
    case Callback => 0
    case OfStage(i) => i + 1
    case OfHandler(h) => h + 2
    case RaisedBy(_, at) => at + 1
  }

  /** The indices of the stages from `lo` up to, not including, `hi`. */
  function Stages(mws: seq<Middleware>, lo: nat, hi: nat): seq<nat>
    requires hi <= |mws|
    decreases hi
  {
    if hi <= lo then [] else
    Stages(mws, lo, hi - 1) + if mws[hi - 1].stage.Some? then [hi - 1] else []
  }

  predicate ItemAt(mws: seq<Middleware>, x: Item, i: nat)
    requires i <= |mws|
  {
    FirstStage(x.origin) <= i && x.path == Stages(mws, FirstStage(x.origin), i)
  }

  /** Items of the stream itself have passed the stages before `i`, items of recovered streams
      all stages; no offer was made too early; and no level is above `top`. */
  predicate EventAt(mws: seq<Middleware>, ev: Event, i: nat, top: nat)
    requires i <= |mws|
  {
    match ev
    case Emit(x) => ItemAt(mws, x, i)
    case Offer(h, e) => FirstHandler(e.origin) <= h
    case Recover(level, s) => level <= top && forall k | 0 <= k < |s.events| :: EventAt(mws, s.events[k], |mws|, 0)
  }

  predicate EventsAt(mws: seq<Middleware>, events: seq<Event>, i: nat, top: nat)
    requires i <= |mws|
  {
    forall k | 0 <= k < |events| :: EventAt(mws, events[k], i, top)
  }

  predicate StreamAt(mws: seq<Middleware>, s: Stream, i: nat, bound: nat, top: nat)
    requires i <= |mws|
  {
    && EventsAt(mws, s.events, i, top)
    && (s.end.Failed? ==> FirstHandler(s.end.error.origin) <= bound)
  }

  lemma {:induction false} NoStages(mws: seq<Middleware>, lo: nat, hi: nat)
    requires hi <= |mws| && hi <= lo
    ensures Stages(mws, lo, hi) == []
  {}

  lemma {:induction false} StampAt(mws: seq<Middleware>, i: nat, cause: Option<Item>, out: seq<int>, top: nat)
    requires i < |mws| && mws[i].stage.Some?
    requires cause.Some? ==> ItemAt(mws, cause.value, i)
    ensures EventsAt(mws, Stamp(i, cause, out), i + 1, top)
    decreases |out|
  {
    if out != [] {
      StampAt(mws, i, cause, out[1..], top);
    }
  }

  lemma {:induction false} FeedAt(mws: seq<Middleware>, i: nat, g: Stage, history: seq<int>, input: Stream, top: nat)
    requires i < |mws| && mws[i].stage.Some? && StreamAt(mws, input, i, i + 1, top)
    ensures StreamAt(mws, Feed(i, g, history, input), i + 1, i + 1, top)
    decreases |input.events|
  {
    if input.events == [] {
      var r := g.onEnd(history, if input.end.Done? then None else Some(input.end.error.code));
      StampAt(mws, i, None, r.out, top);
    } else {
      var ev := input.events[0];
      assert EventAt(mws, ev, i, top);
      var rest := Stream(input.events[1..], input.end);
      if ev.Emit? {
        var h := history + [ev.item.value];
        StampAt(mws, i, Some(ev.item), g.onItem(h).out, top);
        FeedAt(mws, i, g, h, rest, top);
      } else {
        FeedAt(mws, i, g, history, rest, top);
      }
    }
  }

  lemma ApplyAt(mws: seq<Middleware>, i: nat, g: Stage, input: Stream, top: nat)
    requires i < |mws| && mws[i].stage.Some? && StreamAt(mws, input, i, i + 1, top)
    ensures StreamAt(mws, Apply(i, g, input), i + 1, i + 1, top)
  {
    StampAt(mws, i, None, g.onItem([]).out, top);
    FeedAt(mws, i, g, [], input, top);
  }

  lemma SkipAt(mws: seq<Middleware>, s: Stream, i: nat, top: nat)
    requires i < |mws| && mws[i].stage.None? && StreamAt(mws, s, i, i + 1, top)
    ensures StreamAt(mws, s, i + 1, i + 2, top)
  {
    forall k | 0 <= k < |s.events| ensures EventAt(mws, s.events[k], i + 1, top) {
      assert EventAt(mws, s.events[k], i, top);
    }
  }

  lemma {:induction false} MainAt(mws: seq<Middleware>, level: nat, events: seq<Event>, top: nat)
    requires EventsAt(mws, events, |mws|, top)
    ensures EventsAt(mws, Main(level, events), |mws|, top)
    ensures EventsAt(mws, Recovered(level, events).events, |mws|, 0)
    decreases |events|
  {
    if events != [] {
      assert EventAt(mws, events[0], |mws|, top);
      MainAt(mws, level, events[1..], top);
    }
  }

  lemma ChainAt(mws: seq<Middleware>, level: nat, s: Stream, top: nat)
    requires EventsAt(mws, s.events, |mws|, top)
    ensures EventsAt(mws, Chain(level, s).events, |mws|, top)
  {
    MainAt(mws, level, s.events, top);
  }

  lemma {:induction false} OutputAt(mws: seq<Middleware>, s: Stream, start: nat, top: nat)
    requires start <= |mws| && StreamAt(mws, s, start, start + 1, top)
    ensures EventsAt(mws, ProcessOutput(mws, s, start).events, |mws|, top)
    decreases |mws| - start, 2
  {
    RunStagesAt(mws, s, start, top);
    ChainAt(mws, 0, RunStages(mws, s, start), top);
  }

  lemma {:induction false} RunStagesAt(mws: seq<Middleware>, s: Stream, i: nat, top: nat)
    requires i <= |mws| && StreamAt(mws, s, i, i + 1, top)
    ensures EventsAt(mws, RunStages(mws, s, i).events, |mws|, top)
    decreases |mws| - i, 1
  {
    if i < |mws| {
      if mws[i].stage.None? {
        SkipAt(mws, s, i, top);
        RunStagesAt(mws, s, i + 1, top);
      } else {
        var out := Apply(i, mws[i].stage.value, s);
        ApplyAt(mws, i, mws[i].stage.value, s, top);
        EvaluateAt(mws, out, i + 1, 0, top);
        RunStagesAt(mws, Evaluate(mws, out, i + 1, 0), i + 1, top);
      }
    }
  }

  lemma {:induction false} EvaluateAt(mws: seq<Middleware>, s: Stream, k: nat, level: nat, top: nat)
    requires level <= top && k <= |mws| && StreamAt(mws, s, k, k, top)
    ensures StreamAt(mws, Evaluate(mws, s, k, level), k, k + 1, top)
    decreases |mws| - k, 1
  {
    if s.end.Failed? {
      ExceptionAt(mws, s.end.error, k, k);
      var h := ProcessException(mws, s.end.error, k, k);
      OffersAnywhere(mws, h.offers, k, top);
      if h.Handled? {
        assert EventAt(mws, Recover(level, h.stream), k, top);
      }
    }
  }

  ghost predicate OffersFor(offers: seq<Event>, e: Error, j: nat) {
    forall k | 0 <= k < |offers| :: offers[k].Offer? && offers[k].error == e && j <= offers[k].handler
  }

  lemma OffersAnywhere(mws: seq<Middleware>, offers: seq<Event>, i: nat, top: nat)
    requires i <= |mws|
    requires forall k | 0 <= k < |offers| ::
               offers[k].Offer? && FirstHandler(offers[k].error.origin) <= offers[k].handler
    ensures EventsAt(mws, offers, i, top)
  {}

  /** One exception is offered to the handlers from `j` on, each at most once and in order. */
  lemma {:induction false} ExceptionAt(mws: seq<Middleware>, e: Error, j: nat, at: nat)
    requires at <= j <= |mws|
    ensures var h := ProcessException(mws, e, j, at);
            && OffersFor(h.offers, e, j)
            && (forall a, b | 0 <= a < b < |h.offers| :: h.offers[a].handler < h.offers[b].handler)
            && (h.Handled? ==> EventsAt(mws, h.stream.events, |mws|, 0))
            && (h.Unhandled? ==> h.error == e || FirstHandler(h.error.origin) == at + 1)
    decreases |mws| - j, 0
  {
    if !e.invalid && j < |mws| {
      if mws[j].handler.None? {
        ExceptionAt(mws, e, j + 1, at);
      } else {
        match mws[j].handler.value(e.code)
        case Pass => ExceptionAt(mws, e, j + 1, at);
        case Iterable(items, fails, invalid) =>
          var s := HandlerStream(j, items, fails, invalid);
          forall k | 0 <= k < |s.events| ensures EventAt(mws, s.events[k], j + 1, 0) {
            NoStages(mws, j + 1, j + 1);
          }
          OutputAt(mws, s, j + 1, 0);
        case NotIterable =>
        case Raises(_, _) =>
      }
    }
  }

  predicate Passes(mws: seq<Middleware>, h: nat, e: Error)
    requires h < |mws|
  {
    mws[h].handler.None? || mws[h].handler.value(e.code).Pass?
  }

  predicate Recovers(mws: seq<Middleware>, h: nat, e: Error)
    requires h < |mws|
  {
    mws[h].handler.Some? && mws[h].handler.value(e.code).Iterable?
  }

  /** An exception is recovered if and only if the first handler that does not pass it on
      returns an iterable; what is recovered is that iterable behind the stages after this
      handler, and the handlers asked are those that exist up to it. */
  lemma {:induction false} FirstHandlerDecides(mws: seq<Middleware>, e: Error, j: nat, at: nat, h: nat)
    requires at <= j <= h < |mws| && !e.invalid
    requires !Passes(mws, h, e) && forall k | j <= k < h :: Passes(mws, k, e)
    ensures var r := ProcessException(mws, e, j, at);
            && (r.Handled? <==> Recovers(mws, h, e))
            && (r.Handled? ==>
                  var a := mws[h].handler.value(e.code);
                  r.stream == ProcessOutput(mws, HandlerStream(h, a.items, a.fails, a.invalid), h + 1))
            && (forall k | j <= k < |mws| :: Offer(k, e) in r.offers <==> k <= h && mws[k].handler.Some?)
    decreases h - j
  {
    hide ProcessOutput, HandlerStream;
    if j < h {
      assert Passes(mws, j, e);
      FirstHandlerDecides(mws, e, j + 1, at, h);
      if mws[j].handler.Some? {
        forall k | j + 1 <= k < |mws|
          ensures Offer(k, e) in ProcessException(mws, e, j, at).offers <==>
              Offer(k, e) in ProcessException(mws, e, j + 1, at).offers {}
      } else {
        OfferedLater(mws, e, j, at);
      }
    }
  }

  lemma OfferedLater(mws: seq<Middleware>, e: Error, j: nat, at: nat)
    requires at <= j < |mws|
    ensures Offer(j, e) !in ProcessException(mws, e, j + 1, at).offers
  {
    ExceptionAt(mws, e, j + 1, at);
  }

  /** Nobody recovers an exception that all handlers pass on. */
  lemma {:induction false} NobodyRecovers(mws: seq<Middleware>, e: Error, j: nat, at: nat)
    requires at <= j <= |mws| && (e.invalid || forall k | j <= k < |mws| :: Passes(mws, k, e))
    ensures ProcessException(mws, e, j, at).Unhandled? && ProcessException(mws, e, j, at).error == e
    decreases |mws| - j
  {
    if !e.invalid && j < |mws| {
      assert Passes(mws, j, e);
      NobodyRecovers(mws, e, j + 1, at);
    }
  }

  /** The first handler that does not pass an exception on, and raises instead, or returns neither
      None nor an iterable, which is an invalid output: what is raised then is that. */
  lemma {:induction false} HandlerRaises(mws: seq<Middleware>, e: Error, j: nat, at: nat, h: nat)
    requires at <= j <= h < |mws| && !e.invalid
    requires !Passes(mws, h, e) && forall k | j <= k < h :: Passes(mws, k, e)
    ensures var r := ProcessException(mws, e, j, at);
            match mws[h].handler.value(e.code)
            case Raises(code, invalid) => r.Unhandled? && r.error == Error(code, invalid, RaisedBy(h, at))
            case NotIterable => r.Unhandled? && r.error.invalid && r.error.origin == RaisedBy(h, at)
            case _ => true
    decreases h - j
  {
    hide ProcessOutput;
    if j < h {
      assert Passes(mws, j, e);
      HandlerRaises(mws, e, j + 1, at, h);
    }
  }

  /** An invalid output is offered to nobody, from whatever index on. */
  lemma InvalidAnswerIsFinal(mws: seq<Middleware>, e: Error, j: nat, at: nat, h: nat, k: nat)
    requires at <= j <= h < |mws| && !e.invalid && k <= |mws|
    requires !Passes(mws, h, e) && mws[h].handler.value(e.code).NotIterable?
    requires forall i | j <= i < h :: Passes(mws, i, e)
    ensures var r := ProcessException(mws, e, j, at);
            r.Unhandled? && ProcessException(mws, r.error, k, k) == Unhandled([], r.error)
  {
    HandlerRaises(mws, e, j, at, h);
  }

  predicate Routed(mws: seq<Middleware>, ev: Event) {
    && (ev.Emit? ==> ev.item.path == Stages(mws, FirstStage(ev.item.origin), |mws|))
    && (ev.Offer? ==> FirstHandler(ev.error.origin) <= ev.handler)
  }

  /** Whatever the stages, the handlers and the callback do: each item of the result went
      through exactly the stages behind its origin, once each and in order, and each exception
      was offered only to handlers behind its origin. */
  lemma ScrapeRoutes(mws: seq<Middleware>, c: CallbackResult)
    ensures var out := ScrapeResponse(mws, c).events; forall k | 0 <= k < |out| :: Routed(mws, out[k])
  {
    match c {
    case Raised(code, invalid) =>
      var e := Error(code, invalid, Callback);
      ExceptionAt(mws, e, 0, 0);
      OffersAnywhere(mws, ProcessException(mws, e, 0, 0).offers, |mws|, 1);
    case Returned(items, fails, invalid) =>
      var s := CallbackStream(items, if fails.None? then Done else Failed(Error(fails.value, invalid, Callback)));
      forall k | 0 <= k < |s.events| ensures EventAt(mws, s.events[k], 0, 1) {
        NoStages(mws, 0, 0);
      }
      EvaluateAt(mws, s, 0, 1, 1);
      var evaluated := Evaluate(mws, s, 0, 1);
      OutputAt(mws, evaluated, 0, 1);
      ChainAt(mws, 1, ProcessOutput(mws, evaluated, 0), 1);
    }
    var out := ScrapeResponse(mws, c).events;
    forall k | 0 <= k < |out| ensures Routed(mws, out[k]) {
      assert EventAt(mws, out[k], |mws|, 1);
    }
  }

  /** A stage that only passes on what it pulls. */
  function PassOn(): Stage {
    Stage((h: seq<int>) => Reaction(if h == [] then [] else [h[|h| - 1]], GoOn),
          (h: seq<int>, e: Option<int>) => EndReaction([], if e.None? then Finish else Rethrow))
  }

  lemma PassedOn(i: nat, s: Stream)
    requires Silent(s.events) && s.end.Failed?
    ensures Apply(i, PassOn(), s) == s
  {
    SilentPulled(i, PassOn(), [], s.events);
    FeedSplit(i, PassOn(), [], s.events, [], s.end);
    assert s.events + [] == s.events;
  }

  lemma ChainOfNone(level: nat, s: Stream)
    requires NoneAt(level, s.events)
    ensures Chain(level, s) == s
  {
    NothingRecovered(level, s.events);
    assert s.events + [] == s.events;
  }

  /** A stage, then a handler that passes everything on, then one that raises another exception. */
  function StageAndHandlers(): (mws: seq<Middleware>)
    ensures |mws| == 3 && mws[0] == Middleware(Some(PassOn()), None)
    ensures mws[1].stage.None? && mws[1].handler.Some? && mws[2].stage.None? && mws[2].handler.Some?
    ensures forall e :: mws[1].handler.value(e) == Pass && mws[2].handler.value(e) == Raises(e + 1, false)
  {
    [Middleware(Some(PassOn()), None), Middleware(None, Some((e: int) => Pass)),
     Middleware(None, Some((e: int) => Raises(e + 1, false)))]
  }

  lemma BothHandlersAsked(e: Error, at: nat)
    requires !e.invalid && at <= 1
    ensures ProcessException(StageAndHandlers(), e, at, at)
         == Unhandled([Offer(1, e), Offer(2, e)], Error(e.code + 1, false, RaisedBy(2, at)))
  {
    hide ProcessOutput;
    var mws := StageAndHandlers();
    assert ProcessException(mws, e, 2, at) == Unhandled([Offer(2, e)], Error(e.code + 1, false, RaisedBy(2, at)));
    assert ProcessException(mws, e, 1, at)
        == Unhandled([Offer(1, e), Offer(2, e)], Error(e.code + 1, false, RaisedBy(2, at)));
  }

  /** A handler is neither asked at most once, nor only about exceptions raised before it: the
      handler at 1 passes on the callback's exception, the handler at 2 raises another one, and
      behind stage 0 the handler at 1 is asked again, now about what the handler at 2 raised. */
  lemma HandlerAskedAgain() returns (mws: seq<Middleware>, first: Error, second: Error)
    ensures second.origin == RaisedBy(2, 0)
    ensures ScrapeResponse(mws, Returned([], Some(7), false)).events
         == [Offer(1, first), Offer(2, first), Offer(1, second), Offer(2, second)]
  {
    hide Apply, ProcessException, Chain, RunStages;
    mws := StageAndHandlers();
    first, second := Error(7, false, Callback), Error(8, false, RaisedBy(2, 0));
    BothHandlersAsked(first, 0);
    BothHandlersAsked(second, 1);
    var s := Stream([Offer(1, first), Offer(2, first)], Failed(second));
    assert Evaluate(mws, CallbackStream([], Failed(first)), 0, 1) == s;
    PassedOn(0, s);
    var t := Stream(s.events + [Offer(1, second), Offer(2, second)], Failed(Error(9, false, RaisedBy(2, 1))));
    assert Evaluate(mws, s, 1, 0) == t;
    StageThenNone(mws, s);
    ChainOfNone(0, t);
    ChainOfNone(1, t);
  }

  lemma StageThenNone(mws: seq<Middleware>, s: Stream)
    requires |mws| == 3 && mws[0].stage.Some? && mws[1].stage.None? && mws[2].stage.None?
    ensures RunStages(mws, s, 0) == Evaluate(mws, Apply(0, mws[0].stage.value, s), 1, 0)
  {
    hide Evaluate, Apply;
    var t := Evaluate(mws, Apply(0, mws[0].stage.value, s), 1, 0);
    assert RunStages(mws, t, 3) == t;
    assert RunStages(mws, t, 2) == t;
    assert RunStages(mws, t, 1) == t;
  }

  // ----- Which values come out

  /** How a sequence of values ends, told without saying where an exception came from. */
  datatype Ending = Ended | Broke(code: int, invalid: bool)

  /** What one generator sees and what it yields: values, in order, and how they end. */
  datatype Yield = Yield(values: seq<int>, end: Ending)

  /** A stage as a function on values: what it yields before it pulls, then for each longer prefix
      of its input, until it stops or raises, and last what it makes of the end of its input. */
  function Yielded(g: Stage, input: Yield, k: nat): Yield
    requires k <= |input.values|
    decreases |input.values| - k
  {
    var r := g.onItem(input.values[..k]);
    match r.control
    case Return => Yield(r.out, Ended)
    case Raise(code, invalid) => Yield(r.out, Broke(code, invalid))
    case GoOn =>
      if k < |input.values| then
        var later := Yielded(g, input, k + 1);
        Yield(r.out + later.values, later.end)
      else
        var e := g.onEnd(input.values, if input.end.Ended? then None else Some(input.end.code));
        Yield(r.out + e.out,
              match e.control
              case Finish => Ended
              case Rethrow => input.end
              case RaiseNew(code, invalid) => Broke(code, invalid))
  }

  /** The stages from `i` on, one behind the other; nothing if one of them raises. */
  function Piped(mws: seq<Middleware>, values: seq<int>, i: nat): Option<seq<int>>
    requires i <= |mws|
    decreases |mws| - i
  {
    if i == |mws| then Some(values)
    else if mws[i].stage.None? then Piped(mws, values, i + 1)
    else
      var y := Yielded(mws[i].stage.value, Yield(values, Ended), 0);
      if y.end.Ended? then Piped(mws, y.values, i + 1) else None
  }

  function ValuesOf(items: seq<Item>): (values: seq<int>)
    ensures |values| == |items| && forall k | 0 <= k < |items| :: values[k] == items[k].value
  {
    seq(|items|, k requires 0 <= k < |items| => items[k].value)
  }

  function Values(events: seq<Event>): seq<int> {
    ValuesOf(Items(events))
  }

  function EndingOf(end: End): Ending {
    match end
    case Done => Ended
    case Failed(e) => Broke(e.code, e.invalid)
  }

  function Plainly(s: Stream): Yield {
    Yield(Values(s.events), EndingOf(s.end))
  }

  lemma ValuesCat(a: seq<Event>, b: seq<Event>)
    ensures Values(a + b) == Values(a) + Values(b)
  {
    hide Items, ValuesOf;
    ItemsCat(a, b);
    ValuesOfCat(Items(a), Items(b));
  }

  lemma ValuesOfOne(ev: Event)
    ensures Values([ev]) == if ev.Emit? then [ev.item.value] else []
  {
    assert Items([ev][1..]) == [];
  }

  lemma {:induction false} StampYields(i: nat, cause: Option<Item>, out: seq<int>)
    ensures Values(Stamp(i, cause, out)) == out
    decreases |out|
  {
    if out != [] {
      StampYields(i, cause, out[1..]);
      var events := Stamp(i, cause, out);
      assert events == [events[0]] + Stamp(i, cause, out[1..]);
      ValuesCat([events[0]], Stamp(i, cause, out[1..]));
      ValuesOfOne(events[0]);
    }
  }

  /** What is still to come of a stage that has pulled the first `|before|` values. */
  lemma {:induction false} FeedYields(i: nat, g: Stage, before: seq<int>, input: Stream)
    requires g.onItem(before).control.GoOn?
    ensures var all := Yield(before + Values(input.events), EndingOf(input.end));
            var rest := Plainly(Feed(i, g, before, input));
            Yielded(g, all, |before|) == Yield(g.onItem(before).out + rest.values, rest.end)
    decreases |input.events|, 0
  {
    hide Stamp, Items, ValuesOf;
    var all := Yield(before + Values(input.events), EndingOf(input.end));
    assert all.values[..|before|] == before;
    if input.events == [] {
      NoValues();
      assert all.values == before;
      var r := g.onEnd(before, if input.end.Done? then None else Some(input.end.error.code));
      StampYields(i, None, r.out);
    } else {
      var ev := input.events[0];
      var rest := Stream(input.events[1..], input.end);
      assert input.events == [ev] + rest.events;
      ValuesCat([ev], rest.events);
      ValuesOfOne(ev);
      if ev.Emit? {
        FeedPulls(i, g, before, ev.item, rest);
      } else {
        assert [] + Values(rest.events) == Values(rest.events);
        FeedYields(i, g, before, rest);
        ValuesCat([ev], Feed(i, g, before, rest).events);
        var later := Values(Feed(i, g, before, rest).events);
        assert [] + later == later;
      }
    }
  }

  lemma {:induction false} FeedPulls(i: nat, g: Stage, before: seq<int>, x: Item, rest: Stream)
    requires g.onItem(before).control.GoOn?
    ensures var all := Yield(before + ([x.value] + Values(rest.events)), EndingOf(rest.end));
            var fed := Plainly(Feed(i, g, before, Stream([Emit(x)] + rest.events, rest.end)));
            Yielded(g, all, |before|) == Yield(g.onItem(before).out + fed.values, fed.end)
    decreases |rest.events|, 1
  {
    hide Stamp, Items, ValuesOf;
    var now := before + [x.value];
    var all := Yield(before + ([x.value] + Values(rest.events)), EndingOf(rest.end));
    assert all.values == now + Values(rest.events) && all.values[..|now|] == now && all.values[..|before|] == before;
    assert ([Emit(x)] + rest.events)[1..] == rest.events;
    var r := g.onItem(now);
    StampYields(i, Some(x), r.out);
    if r.control.GoOn? {
      FeedYields(i, g, now, rest);
      ValuesCat(Stamp(i, Some(x), r.out), Feed(i, g, now, rest).events);
    }
  }

  lemma NoValues()
    ensures Values([]) == []
  {}

  /** A stage that meets a stream, whatever else is queued in that and however it ends, yields what
      it makes of the values in it. */
  lemma StageYields(i: nat, g: Stage, input: Stream)
    ensures Plainly(Apply(i, g, input)) == Yielded(g, Plainly(input), 0)
  {
    hide Stamp, Feed, Items, ValuesOf;
    var r := g.onItem([]);
    assert Values(input.events)[..0] == [];
    StampYields(i, None, r.out);
    if r.control.GoOn? {
      FeedYields(i, g, [], input);
      assert [] + Values(input.events) == Values(input.events);
      ValuesCat(Stamp(i, None, r.out), Feed(i, g, [], input).events);
    }
  }

  ghost predicate AllItems(events: seq<Event>) {
    forall k | 0 <= k < |events| :: events[k].Emit?
  }

  /** Nothing but items, and no exception. */
  ghost predicate OnlyItems(s: Stream) {
    s.end.Done? && AllItems(s.events)
  }

  lemma AllItemsCat(a: seq<Event>, b: seq<Event>)
    requires AllItems(a) && AllItems(b)
    ensures AllItems(a + b)
  {}

  lemma StampAllItems(i: nat, cause: Option<Item>, out: seq<int>)
    ensures AllItems(Stamp(i, cause, out))
  {
    StampIsItems(i, cause, out);
  }

  lemma {:induction false} FeedOnlyItems(i: nat, g: Stage, history: seq<int>, input: Stream)
    requires AllItems(input.events)
    ensures AllItems(Feed(i, g, history, input).events)
    decreases |input.events|
  {
    hide Stamp;
    if input.events == [] {
      var r := g.onEnd(history, if input.end.Done? then None else Some(input.end.error.code));
      StampAllItems(i, None, r.out);
    } else {
      assert input.events[0].Emit?;
      var x, rest := input.events[0].item, Stream(input.events[1..], input.end);
      var h := history + [x.value];
      StampAllItems(i, Some(x), g.onItem(h).out);
      FeedOnlyItems(i, g, h, rest);
      AllItemsCat(Stamp(i, Some(x), g.onItem(h).out), Feed(i, g, h, rest).events);
    }
  }

  lemma ApplyOnlyItems(i: nat, g: Stage, s: Stream)
    requires OnlyItems(s)
    ensures AllItems(Apply(i, g, s).events)
  {
    hide Stamp, Feed;
    StampAllItems(i, None, g.onItem([]).out);
    FeedOnlyItems(i, g, [], s);
    AllItemsCat(Stamp(i, None, g.onItem([]).out), Feed(i, g, [], s).events);
  }

  /** The stages from `start` on, over a stream that only has items, when none of them raises: the
      values that come out, their number and their order. */
  lemma {:induction false} StagesYield(mws: seq<Middleware>, s: Stream, start: nat)
    requires start <= |mws| && OnlyItems(s) && Piped(mws, Values(s.events), start).Some?
    ensures var out := RunStages(mws, s, start);
            OnlyItems(out) && Values(out.events) == Piped(mws, Values(s.events), start).value
    decreases |mws| - start
  {
    hide Values, Apply, Yielded;
    if start < |mws| {
      if mws[start].stage.None? {
        StagesYield(mws, s, start + 1);
      } else {
        var g := mws[start].stage.value;
        var out := Apply(start, g, s);
        StageYields(start, g, s);
        ApplyOnlyItems(start, g, s);
        StagesYield(mws, out, start + 1);
      }
    }
  }

  /** The same behind them, where recovered streams would be added. */
  lemma OutputYields(mws: seq<Middleware>, s: Stream, start: nat)
    requires start <= |mws| && OnlyItems(s) && Piped(mws, Values(s.events), start).Some?
    ensures var out := ProcessOutput(mws, s, start);
            OnlyItems(out) && Values(out.events) == Piped(mws, Values(s.events), start).value
  {
    hide Values, RunStages;
    StagesYield(mws, s, start);
    ChainOfNone(0, RunStages(mws, s, start));
  }

  lemma {:induction false} ItemsOfItems(events: seq<Event>)
    requires forall k | 0 <= k < |events| :: events[k].Emit?
    ensures |Items(events)| == |events| && forall k | 0 <= k < |events| :: Items(events)[k] == events[k].item
    decreases |events|
  {
    if events != [] {
      ItemsOfItems(events[1..]);
    }
  }

  lemma CallbackValues(items: seq<int>)
    ensures OnlyItems(CallbackStream(items, Done)) && Values(CallbackStream(items, Done).events) == items
  {
    ItemsOfItems(CallbackStream(items, Done).events);
  }

  lemma HandlerValues(h: nat, items: seq<int>, invalid: bool)
    ensures OnlyItems(HandlerStream(h, items, None, invalid))
    ensures Values(HandlerStream(h, items, None, invalid).events) == items
  {
    ItemsOfItems(HandlerStream(h, items, None, invalid).events);
  }

  /** The callback returns `items`, and neither it nor a stage raises: what comes out is what the
      stages, each a function on values, make of `items` in their order. */
  lemma ScrapeYields(mws: seq<Middleware>, items: seq<int>, invalid: bool)
    requires Piped(mws, items, 0).Some?
    ensures var out := ScrapeResponse(mws, Returned(items, None, invalid));
            out.end.Done? && Values(out.events) == Piped(mws, items, 0).value
  {
    hide Values;
    var s := CallbackStream(items, Done);
    CallbackValues(items);
    OutputYields(mws, s, 0);
    ChainOfNone(1, ProcessOutput(mws, s, 0));
  }

  /** The first handler behind `j` that does not pass `e` on, and what it returns. */
  ghost predicate RecoversWith(mws: seq<Middleware>, e: Error, j: nat, h: nat, items: seq<int>) {
    && j <= h < |mws| && !e.invalid && (forall k | j <= k < h :: Passes(mws, k, e))
    && mws[h].handler.Some? && exists invalid :: mws[h].handler.value(e.code) == Iterable(items, None, invalid)
  }

  /** What a handler returns for an exception comes out as what the stages behind that handler make
      of it. */
  lemma HandlerYields(mws: seq<Middleware>, e: Error, j: nat, at: nat, h: nat, items: seq<int>)
    requires at <= j && RecoversWith(mws, e, j, h, items) && Piped(mws, items, h + 1).Some?
    ensures j <= |mws| && var r := ProcessException(mws, e, j, at);
            r.Handled? && r.stream.end.Done? && Values(r.stream.events) == Piped(mws, items, h + 1).value
  {
    hide Values;
    assert !Passes(mws, h, e);
    FirstHandlerDecides(mws, e, j, at, h);
    var a := mws[h].handler.value(e.code);
    HandlerValues(h, items, a.invalid);
    OutputYields(mws, HandlerStream(h, items, None, a.invalid), h + 1);
  }

  /** So for a callback that raises at once: the values are those of the first handler's answer. */
  lemma RaisedYields(mws: seq<Middleware>, code: int, h: nat, items: seq<int>)
    requires RecoversWith(mws, Error(code, false, Callback), 0, h, items) && Piped(mws, items, h + 1).Some?
    ensures var out := ScrapeResponse(mws, Raised(code, false));
            out.end.Done? && Values(out.events) == Piped(mws, items, h + 1).value
  {
    hide Values;
    var e := Error(code, false, Callback);
    HandlerYields(mws, e, 0, 0, h, items);
    ExceptionAt(mws, e, 0, 0);
    var r := ProcessException(mws, e, 0, 0);
    ValuesCat(r.offers, r.stream.events);
    OffersHaveNoValues(r.offers);
    assert [] + Values(r.stream.events) == Values(r.stream.events);
  }

  lemma OffersHaveNoValues(offers: seq<Event>)
    requires Silent(offers)
    ensures Values(offers) == []
  {
    SilentHasNoItems(offers);
  }

  /** And for a callback that fails after `items`: first what the stages make of these, then what
      those behind the handler make of its answer, unless a stage had stopped reading before. */
  lemma FailureYields(mws: seq<Middleware>, items: seq<int>, code: int, h: nat, answer: seq<int>)
    requires RecoversWith(mws, Error(code, false, Callback), 0, h, answer)
    requires Piped(mws, items, 0).Some? && Piped(mws, answer, h + 1).Some?
    ensures var out := ScrapeResponse(mws, Returned(items, Some(code), false));
            && out.end.Done?
            && Values(out.events) == Piped(mws, items, 0).value
             + if Carried(mws, CallbackStream(items, Done).events, 0).Some? then Piped(mws, answer, h + 1).value else []
  {
    hide Items, ValuesOf, Piped, Carried, RecoversWith, ProcessException, ProcessCallbackOutput;
    var e := Error(code, false, Callback);
    HandlerYields(mws, e, 0, 0, h, answer);
    ScrapeYields(mws, items, false);
    RecoveryComposes(mws, items, e);
    var out := ProcessCallbackOutput(mws, CallbackStream(items, Done)).events;
    ValuesOfCat(Items(out), Items(ProcessException(mws, e, 0, 0).stream.events));
  }

  lemma ValuesOfCat(a: seq<Item>, b: seq<Item>)
    ensures ValuesOf(a + b) == ValuesOf(a) + ValuesOf(b)
    ensures ValuesOf(a) + [] == ValuesOf(a)
  {}

  /** A stage that adds one to each value. */
  function PlusOne(): Stage {
    Stage((h: seq<int>) => Reaction(if h == [] then [] else [h[|h| - 1] + 1], GoOn),
          (h: seq<int>, e: Option<int>) => EndReaction([], if e.None? then Finish else Rethrow))
  }

  /** With one such stage a callback that returns 1 and 5 leads to 2 and 6, in this order. */
  lemma OneStageExample() returns (mws: seq<Middleware>)
    ensures mws == [Middleware(Some(PlusOne()), None)]
    ensures Values(ScrapeResponse(mws, Returned([1, 5], None, false)).events) == [2, 6]
  {
    var g := PlusOne();
    mws := [Middleware(Some(g), None)];
    var input := Yield([1, 5], Ended);
    assert input.values[..2] == [1, 5] && input.values[..1] == [1] && input.values[..0] == [];
    assert Yielded(g, input, 2) == Yield([6], Ended);
    assert Yielded(g, input, 1) == Yield([2, 6], Ended);
    assert Yielded(g, input, 0) == Yield([2, 6], Ended);
    assert Piped(mws, [2, 6], 1) == Some([2, 6]);
    assert Piped(mws, [1, 5], 0) == Some([2, 6]);
    hide Values, ScrapeResponse, Piped;
    ScrapeYields(mws, [1, 5], false);
  }

  // ----- How often, and about what, a handler can be asked

  /** How often handler `g` is asked about an exception of the given kind, within recovered
      streams too. */
  function Asked(g: nat, kind: Error -> bool, events: seq<Event>): nat
    decreases events
  {
    if events == [] then 0 else AskedBy(g, kind, events[0]) + Asked(g, kind, events[1..])
  }

  function AskedBy(g: nat, kind: Error -> bool, ev: Event): nat
    decreases ev
  {
    match ev
    case Emit(_) => 0
    case Offer(h, e) => if h == g && kind(e) then 1 else 0
    case Recover(_, s) => Asked(g, kind, s.events)
  }

  lemma {:induction false} AskedCat(g: nat, kind: Error -> bool, a: seq<Event>, b: seq<Event>)
    ensures Asked(g, kind, a + b) == Asked(g, kind, a) + Asked(g, kind, b)
    decreases |a|
  {
    hide AskedBy;
    if a == [] {
      assert a + b == b;
    } else {
      assert (a + b)[1..] == a[1..] + b && (a + b)[0] == a[0];
      AskedCat(g, kind, a[1..], b);
    }
  }

  lemma AskedOf(g: nat, kind: Error -> bool, ev: Event)
    ensures Asked(g, kind, [ev]) == AskedBy(g, kind, ev)
  {
    assert [ev][1..] == [];
  }

  lemma {:induction false} ItemsAskNobody(g: nat, kind: Error -> bool, events: seq<Event>)
    requires forall k | 0 <= k < |events| :: events[k].Emit?
    ensures Asked(g, kind, events) == 0
    decreases |events|
  {
    if events != [] {
      ItemsAskNobody(g, kind, events[1..]);
    }
  }

  lemma {:induction false} StampIsItems(i: nat, cause: Option<Item>, out: seq<int>)
    ensures forall k | 0 <= k < |Stamp(i, cause, out)| :: Stamp(i, cause, out)[k].Emit?
    decreases |out|
  {
    if out != [] {
      StampIsItems(i, cause, out[1..]);
    }
  }

  lemma StampAsksNobody(g: nat, kind: Error -> bool, i: nat, cause: Option<Item>, out: seq<int>, events: seq<Event>)
    ensures Asked(g, kind, Stamp(i, cause, out) + events) == Asked(g, kind, events)
    ensures Asked(g, kind, Stamp(i, cause, out)) == 0
  {
    StampIsItems(i, cause, out);
    ItemsAskNobody(g, kind, Stamp(i, cause, out));
    AskedCat(g, kind, Stamp(i, cause, out), events);
  }

  /** A stage asks no handler itself, and may leave some unasked. */
  lemma {:induction false} FeedAsks(g: nat, kind: Error -> bool, i: nat, stage: Stage, history: seq<int>, input: Stream)
    ensures Asked(g, kind, Feed(i, stage, history, input).events) <= Asked(g, kind, input.events)
    decreases |input.events|
  {
    hide Stamp;
    if input.events == [] {
      var r := stage.onEnd(history, if input.end.Done? then None else Some(input.end.error.code));
      StampAsksNobody(g, kind, i, None, r.out, []);
    } else {
      var ev := input.events[0];
      var rest := Stream(input.events[1..], input.end);
      if ev.Emit? {
        var h := history + [ev.item.value];
        FeedAsks(g, kind, i, stage, h, rest);
        StampAsksNobody(g, kind, i, Some(ev.item), stage.onItem(h).out, Feed(i, stage, h, rest).events);
      } else {
        FeedAsks(g, kind, i, stage, history, rest);
        AskedCat(g, kind, [ev], Feed(i, stage, history, rest).events);
        AskedOf(g, kind, ev);
      }
    }
  }

  lemma ApplyAsks(g: nat, kind: Error -> bool, i: nat, stage: Stage, input: Stream)
    ensures Asked(g, kind, Apply(i, stage, input).events) <= Asked(g, kind, input.events)
  {
    hide Stamp, Feed, Asked;
    FeedAsks(g, kind, i, stage, [], input);
    StampAsksNobody(g, kind, i, None, stage.onItem([]).out, Feed(i, stage, [], input).events);
  }

  /** Nobody is asked again when the recovered streams are put in their place. */
  lemma {:induction false} MainAsks(g: nat, kind: Error -> bool, level: nat, events: seq<Event>)
    ensures Asked(g, kind, Main(level, events)) + Asked(g, kind, Recovered(level, events).events)
         <= Asked(g, kind, events)
    decreases |events|
  {
    if events != [] {
      MainAsks(g, kind, level, events[1..]);
      var ev := events[0];
      var main, rest := Main(level, events[1..]), Recovered(level, events[1..]);
      assert events == [ev] + events[1..];
      AskedCat(g, kind, [ev], events[1..]);
      AskedOf(g, kind, ev);
      if ev.Recover? && ev.level == level {
        AskedCat(g, kind, ev.stream.events, rest.events);
        assert [] + main == main;
      } else {
        AskedCat(g, kind, [ev], main);
      }
    }
  }

  lemma ChainAsks(g: nat, kind: Error -> bool, level: nat, s: Stream)
    ensures Asked(g, kind, Chain(level, s).events) <= Asked(g, kind, s.events)
  {
    hide Asked, Main, Recovered;
    MainAsks(g, kind, level, s.events);
    AskedCat(g, kind, Main(level, s.events), Recovered(level, s.events).events);
  }

  ghost predicate NoStageBefore(mws: seq<Middleware>, g: nat)
    requires g <= |mws|
  {
    forall i | 0 <= i < g :: mws[i].stage.None?
  }

  /** With no stage before handler `g`, the stages have it asked about nothing more. */
  lemma {:induction false} RunStagesAsks(mws: seq<Middleware>, g: nat, kind: Error -> bool, s: Stream, i: nat)
    requires i <= |mws| && g < |mws| && NoStageBefore(mws, g)
    ensures Asked(g, kind, RunStages(mws, s, i).events) <= Asked(g, kind, s.events)
    decreases |mws| - i, 1
  {
    hide Asked, Apply, Evaluate;
    if i < |mws| {
      if mws[i].stage.None? {
        RunStagesAsks(mws, g, kind, s, i + 1);
      } else {
        var out := Apply(i, mws[i].stage.value, s);
        ApplyAsks(g, kind, i, mws[i].stage.value, s);
        EvaluateAsks(mws, g, kind, out, i + 1, 0);
        RunStagesAsks(mws, g, kind, Evaluate(mws, out, i + 1, 0), i + 1);
      }
    }
  }

  function Once(b: bool): nat {
    if b then 1 else 0
  }

  lemma {:induction false} EvaluateAsks(mws: seq<Middleware>, g: nat, kind: Error -> bool, s: Stream, k: nat,
      level: nat)
    requires k <= |mws| && g < |mws| && NoStageBefore(mws, g)
    ensures Asked(g, kind, Evaluate(mws, s, k, level).events)
         <= Asked(g, kind, s.events) + Once(s.end.Failed? && k <= g && kind(s.end.error))
    decreases |mws| - k, 1
  {
    hide Asked, ProcessException;
    if s.end.Failed? {
      ExceptionAsks(mws, g, kind, s.end.error, k, k);
      var h := ProcessException(mws, s.end.error, k, k);
      AskedCat(g, kind, s.events, h.offers);
      if h.Handled? {
        AskedCat(g, kind, s.events + h.offers, [Recover(level, h.stream)]);
        AskedOf(g, kind, Recover(level, h.stream));
      }
    }
  }

  /** What an exception has handler `g` asked, its recovered stream included: itself, once. */
  lemma {:induction false} ExceptionAsks(mws: seq<Middleware>, g: nat, kind: Error -> bool, e: Error, j: nat, at: nat)
    requires at <= j <= |mws| && g < |mws| && NoStageBefore(mws, g)
    ensures var h := ProcessException(mws, e, j, at);
            Asked(g, kind, h.offers) + (if h.Handled? then Asked(g, kind, h.stream.events) else 0)
            <= Once(j <= g && kind(e))
    decreases |mws| - j, 0
  {
    hide Asked, RunStages;
    ItemsAskNobody(g, kind, []);
    if !e.invalid && j < |mws| {
      AskedOf(g, kind, Offer(j, e));
      if mws[j].handler.None? {
        ExceptionAsks(mws, g, kind, e, j + 1, at);
      } else {
        match mws[j].handler.value(e.code)
        case Pass =>
          ExceptionAsks(mws, g, kind, e, j + 1, at);
          AskedCat(g, kind, [Offer(j, e)], ProcessException(mws, e, j + 1, at).offers);
        case Iterable(items, fails, invalid) =>
          var s := HandlerStream(j, items, fails, invalid);
          ItemsAskNobody(g, kind, s.events);
          RunStagesAsks(mws, g, kind, s, j + 1);
          ChainAsks(g, kind, 0, RunStages(mws, s, j + 1));
        case NotIterable =>
        case Raises(_, _) =>
      }
    }
  }

  /** What the callback raised, before or while what it returned was iterated over. */
  function CallbackError(c: CallbackResult): Option<Error> {
    match c
    case Raised(code, invalid) => Some(Error(code, invalid, Callback))
    case Returned(_, fails, invalid) => if fails.None? then None else Some(Error(fails.value, invalid, Callback))
  }

  /** With no stage before it, a handler is asked about what the callback raised, if it raised
      anything, once at most, and about nothing else. */
  lemma OnlyTheCallbacksException(mws: seq<Middleware>, g: nat, kind: Error -> bool, c: CallbackResult)
    requires g < |mws| && NoStageBefore(mws, g)
    ensures Asked(g, kind, ScrapeResponse(mws, c).events)
         <= Once(CallbackError(c).Some? && kind(CallbackError(c).value))
  {
    hide Asked, ProcessException, RunStages, Evaluate, Chain;
    match c {
    case Raised(code, invalid) =>
      var e := Error(code, invalid, Callback);
      ExceptionAsks(mws, g, kind, e, 0, 0);
      var h := ProcessException(mws, e, 0, 0);
      if h.Handled? {
        AskedCat(g, kind, h.offers, h.stream.events);
      }
    case Returned(items, fails, invalid) =>
      var s := CallbackStream(items, if fails.None? then Done else Failed(Error(fails.value, invalid, Callback)));
      ItemsAskNobody(g, kind, s.events);
      EvaluateAsks(mws, g, kind, s, 0, 1);
      var evaluated := Evaluate(mws, s, 0, 1);
      RunStagesAsks(mws, g, kind, evaluated, 0);
      ChainAsks(g, kind, 0, RunStages(mws, evaluated, 0));
      ChainAsks(g, kind, 1, ProcessOutput(mws, evaluated, 0));
    }
  }

  /** Managers with stages and handlers at the same places. */
  predicate SameShape(mws: seq<Middleware>, other: seq<Middleware>) {
    && |mws| == |other|
    && forall i | 0 <= i < |mws| ::
         (mws[i].stage.Some? <==> other[i].stage.Some?) && (mws[i].handler.Some? <==> other[i].handler.Some?)
  }

  /** A handler that passes on everything, or everything but 7. */
  function Relay(raising: bool): int -> Answer {
    (code: int) => if raising && code == 7 then Raises(8, false) else Pass
  }

  /** The manager of this shape whose stages and handlers pass everything on, except that
      handler `h` replaces the exception 7. */
  function Relays(mws: seq<Middleware>, h: nat): (relays: seq<Middleware>)
    ensures SameShape(mws, relays)
    ensures forall i | 0 <= i < |mws| ::
              && relays[i].stage == (if mws[i].stage.None? then None else Some(PassOn()))
              && relays[i].handler == if mws[i].handler.None? then None else Some(Relay(i == h))
  {
    seq(|mws|, i requires 0 <= i < |mws| =>
      Middleware(if mws[i].stage.None? then None else Some(PassOn()),
                 if mws[i].handler.None? then None else Some(Relay(i == h))))
  }

  /** What such a manager does with an exception: the handlers pass it on up to `h`, which
      replaces 7, or to the end. */
  lemma {:induction false} RelayedException(mws: seq<Middleware>, g: nat, kind: Error -> bool, h: nat, e: Error,
      j: nat, at: nat)
    requires at <= j <= |mws| && g < |mws| && mws[g].handler.Some? && h < |mws| && mws[h].handler.Some?
    requires !e.invalid
    ensures var replaced := e.code == 7 && j <= h;
            var r := ProcessException(Relays(mws, h), e, j, at);
            && r.Unhandled?
            && r.error == (if replaced then Error(8, false, RaisedBy(h, at)) else e)
            && Asked(g, kind, r.offers) == Once(j <= g && (replaced ==> g <= h) && kind(e))
    decreases |mws| - j
  {
    hide Asked, Relays, ProcessOutput;
    var relays := Relays(mws, h);
    ItemsAskNobody(g, kind, []);
    if j < |mws| {
      AskedOf(g, kind, Offer(j, e));
      if j != h || e.code != 7 {
        RelayedException(mws, g, kind, h, e, j + 1, at);
        AskedCat(g, kind, [Offer(j, e)], ProcessException(relays, e, j + 1, at).offers);
      }
    }
  }

  lemma {:induction false} StagesFrom(mws: seq<Middleware>, lo: nat, hi: nat)
    requires lo < hi <= |mws|
    ensures Stages(mws, lo, hi) == (if mws[lo].stage.Some? then [lo] else []) + Stages(mws, lo + 1, hi)
    decreases hi
  {
    if lo + 1 < hi {
      StagesFrom(mws, lo, hi - 1);
    }
  }

  ghost predicate OnlyOffers(events: seq<Event>) {
    forall k | 0 <= k < |events| :: events[k].Offer?
  }

  /** Each stage before handler `g` has it asked about `e` once more. */
  lemma {:induction false} RelayedByStages(mws: seq<Middleware>, g: nat, kind: Error -> bool, h: nat, s: Stream,
      e: Error, i: nat)
    requires i <= |mws| && g < |mws| && mws[g].handler.Some? && h < |mws| && mws[h].handler.Some?
    requires OnlyOffers(s.events) && s.end == Failed(e) && !e.invalid && e.code != 7
    ensures var out := RunStages(Relays(mws, h), s, i);
            && OnlyOffers(out.events) && out.end == s.end
            && Asked(g, kind, out.events)
            == Asked(g, kind, s.events) + if kind(e) then |Stages(mws, i, g)| else 0
    decreases |mws| - i
  {
    hide Asked, Relays, Apply, ProcessException;
    var relays := Relays(mws, h);
    if i < g {
      StagesFrom(mws, i, g);
    } else {
      NoStages(mws, i, g);
      if i < |mws| {
        NoStages(mws, i + 1, g);
      }
    }
    if i < |mws| {
      if mws[i].stage.None? {
        RelayedByStages(mws, g, kind, h, s, e, i + 1);
      } else {
        PassedOn(i, s);
        RelayedException(mws, g, kind, h, e, i + 1, i + 1);
        ExceptionAt(relays, e, i + 1, i + 1);
        var offers := ProcessException(relays, e, i + 1, i + 1).offers;
        AskedCat(g, kind, s.events, offers);
        var next := Stream(s.events + offers, s.end);
        assert Evaluate(relays, s, i + 1, 0) == next;
        RelayedByStages(mws, g, kind, h, next, e, i + 1);
      }
    }
  }

  /** A callback that fails with 7, and what comes of it: handler `g` is asked about that if it
      is not behind `h`, and about what `h` raised once for each stage before `g`. */
  lemma RelayedRun(mws: seq<Middleware>, g: nat, kind: Error -> bool, h: nat)
    requires g < |mws| && mws[g].handler.Some? && h < |mws| && mws[h].handler.Some?
    ensures Asked(g, kind, ScrapeResponse(Relays(mws, h), Returned([], Some(7), false)).events)
         == Once(g <= h && kind(Error(7, false, Callback)))
          + if kind(Error(8, false, RaisedBy(h, 0))) then |Stages(mws, 0, g)| else 0
  {
    hide Asked, Relays, ProcessException, RunStages, Chain;
    var first, second := Error(7, false, Callback), Error(8, false, RaisedBy(h, 0));
    var relays := Relays(mws, h);
    RelayedException(mws, g, kind, h, first, 0, 0);
    ExceptionAt(relays, first, 0, 0);
    var s := Stream(ProcessException(relays, first, 0, 0).offers, Failed(second));
    assert CallbackStream([], Failed(first)).events == [];
    assert [] + s.events == s.events;
    assert Evaluate(relays, CallbackStream([], Failed(first)), 0, 1) == s;
    RelayedByStages(mws, g, kind, h, s, second, 0);
    var out := RunStages(relays, s, 0);
    ChainOfNone(0, out);
    ChainOfNone(1, out);
  }

  predicate Anything(e: Error) {
    true
  }

  predicate RaisedByHandler(h: nat, e: Error) {
    e.origin.RaisedBy? && e.origin.h == h
  }

  lemma {:induction false} SomeStage(mws: seq<Middleware>, g: nat)
    requires g <= |mws| && !NoStageBefore(mws, g)
    ensures |Stages(mws, 0, g)| > 0
    decreases g
  {
    if mws[g - 1].stage.None? {
      SomeStage(mws, g - 1);
    }
  }

  /** A handler is asked once at most, whatever the stages, the handlers and the callback do, if
      and only if there is no stage before it. */
  lemma AskedOnce(mws: seq<Middleware>, g: nat)
    requires g < |mws| && mws[g].handler.Some?
    ensures (forall other, c | SameShape(mws, other) :: Asked(g, Anything, ScrapeResponse(other, c).events) <= 1)
       <==> NoStageBefore(mws, g)
  {
    hide Asked, ScrapeResponse, Relays;
    if NoStageBefore(mws, g) {
      forall other, c | SameShape(mws, other) ensures Asked(g, Anything, ScrapeResponse(other, c).events) <= 1 {
        OnlyTheCallbacksException(other, g, Anything, c);
      }
    } else {
      RelayedRun(mws, g, Anything, g);
      SomeStage(mws, g);
    }
  }

  /** Handler `g`, be it before `h`, behind it or `h` itself, is never asked about what handler
      `h` raised if and only if there is no stage before `g`. */
  lemma NeverAskedAboutHandlers(mws: seq<Middleware>, g: nat, h: nat)
    requires g < |mws| && mws[g].handler.Some? && h < |mws| && mws[h].handler.Some?
    ensures (forall other, c | SameShape(mws, other) ::
               Asked(g, (e: Error) => RaisedByHandler(h, e), ScrapeResponse(other, c).events) == 0)
       <==> NoStageBefore(mws, g)
  {
    hide Asked, ScrapeResponse, Relays;
    var kind := (e: Error) => RaisedByHandler(h, e);
    if NoStageBefore(mws, g) {
      forall other, c | SameShape(mws, other) ensures Asked(g, kind, ScrapeResponse(other, c).events) == 0 {
        OnlyTheCallbacksException(other, g, kind, c);
      }
    } else {
      RelayedRun(mws, g, kind, h);
      SomeStage(mws, g);
    }
  }

  // ----- A handler that recovers the callback's failure makes the run look as if the callback
  // ----- had ended normally, with the recovered items behind everything else

  /** Where a stage is after pulling `events`: what it has passed on and which items it has
      seen, or nothing if it stopped before the end of them. */
  function Pulled(i: nat, g: Stage, history: seq<int>, events: seq<Event>): Option<(seq<Event>, seq<int>)>
    decreases |events|
  {
    if events == [] then Some(([], history)) else
    if !events[0].Emit? then
      match Pulled(i, g, history, events[1..])
      case None => None
      case Some(p) => Some(([events[0]] + p.0, p.1))
    else
      var h := history + [events[0].item.value];
      var r := g.onItem(h);
      if !r.control.GoOn? then None else
      match Pulled(i, g, h, events[1..])
      case None => None
      case Some(p) => Some((Stamp(i, Some(events[0].item), r.out) + p.0, p.1))
  }

  /** What stage `i` has passed on after `a`, if it is still reading then. */
  function Passed(i: nat, g: Stage, a: seq<Event>): Option<seq<Event>> {
    var first := g.onItem([]);
    if !first.control.GoOn? then None else
    match Pulled(i, g, [], a)
    case None => None
    case Some(p) => Some(Stamp(i, None, first.out) + p.0)
  }

  /** What has passed all stages from `i` on once `events` have entered, if every one of these
      stages is still reading then. */
  function Carried(mws: seq<Middleware>, events: seq<Event>, i: nat): Option<seq<Event>>
    requires i <= |mws|
    decreases |mws| - i
  {
    if i == |mws| then Some(events)
    else if mws[i].stage.None? then Carried(mws, events, i + 1)
    else
      match Passed(i, mws[i].stage.value, events)
      case None => None
      case Some(out) => Carried(mws, out, i + 1)
  }

  predicate Silent(events: seq<Event>) {
    forall k | 0 <= k < |events| :: !events[k].Emit?
  }

  function Items(events: seq<Event>): seq<Item> {
    if events == [] then [] else
    (if events[0].Emit? then [events[0].item] else []) + Items(events[1..])
  }

  /** A stage that stops within `a` behaves the same whatever comes after. */
  lemma {:induction false} FeedSplit(i: nat, g: Stage, history: seq<int>, a: seq<Event>, b: seq<Event>, end: End)
    ensures match Pulled(i, g, history, a)
            case Some(p) => Feed(i, g, history, Stream(a + b, end)) == Prepend(p.0, Feed(i, g, p.1, Stream(b, end)))
            case None => Feed(i, g, history, Stream(a + b, end)) == Feed(i, g, history, Stream(a, Done))
    decreases |a|
  {
    if a == [] {
      assert a + b == b;
      var rest := Feed(i, g, history, Stream(b, end));
      assert [] + rest.events == rest.events;
    } else {
      var h := if a[0].Emit? then history + [a[0].item.value] else history;
      assert (a + b)[1..] == a[1..] + b && (a + b)[0] == a[0];
      FeedSplit(i, g, h, a[1..], b, end);
      var front := if a[0].Emit? then Stamp(i, Some(a[0].item), g.onItem(h).out) else [a[0]];
      if p: (seq<Event>, seq<int>) :| Pulled(i, g, h, a[1..]) == Some(p) {
        var rest := Feed(i, g, p.1, Stream(b, end));
        assert front + (p.0 + rest.events) == (front + p.0) + rest.events;
      }
    }
  }

  lemma {:induction false} SilentPulled(i: nat, g: Stage, history: seq<int>, quiet: seq<Event>)
    requires Silent(quiet)
    ensures Pulled(i, g, history, quiet) == Some((quiet, history))
    decreases |quiet|
  {
    if quiet != [] {
      SilentPulled(i, g, history, quiet[1..]);
      assert [quiet[0]] + quiet[1..] == quiet;
    }
  }

  /** `Stream(a + quiet + b, end)` as one stage sees it, against the same stream without
      `quiet`. */
  lemma ApplySplit(i: nat, g: Stage, a: seq<Event>, quiet: seq<Event>, b: seq<Event>, end: End) returns (rest: Stream)
    requires Silent(quiet)
    ensures var with := Apply(i, g, Stream(a + quiet + b, end));
            var without := Apply(i, g, Stream(a + b, end));
            match Passed(i, g, a)
            case None => with == without
            case Some(a') =>
              && with == Stream(a' + quiet + rest.events, rest.end)
              && without == Stream(a' + rest.events, rest.end)
  {
    hide Feed, Pulled, Stamp;
    rest := Stream([], Done);
    FeedSplit(i, g, [], a, quiet + b, end);
    assert a + (quiet + b) == a + quiet + b;
    FeedSplit(i, g, [], a, b, end);
    if p: (seq<Event>, seq<int>) :| Pulled(i, g, [], a) == Some(p) {
      SilentPulled(i, g, p.1, quiet);
      FeedSplit(i, g, p.1, quiet, b, end);
      rest := Feed(i, g, p.1, Stream(b, end));
      var first := Stamp(i, None, g.onItem([]).out);
      assert first + (p.0 + (quiet + rest.events)) == (first + p.0) + quiet + rest.events;
      assert first + (p.0 + rest.events) == (first + p.0) + rest.events;
    }
  }

  lemma EvaluateSplit(mws: seq<Middleware>, a: seq<Event>, quiet: seq<Event>, rest: Stream, k: nat)
      returns (b: seq<Event>)
    requires k <= |mws|
    ensures var with := Evaluate(mws, Stream(a + quiet + rest.events, rest.end), k, 0);
            var without := Evaluate(mws, Stream(a + rest.events, rest.end), k, 0);
            with == Stream(a + quiet + b, without.end) && without.events == a + b
  {
    hide ProcessException;
    b := rest.events;
    if rest.end.Failed? {
      var h := ProcessException(mws, rest.end.error, k, k);
      var more := h.offers + if h.Handled? then [Recover(0, h.stream)] else [];
      b := rest.events + more;
      var without := Evaluate(mws, Stream(a + rest.events, rest.end), k, 0);
      assert without.events == a + b;
      assert Evaluate(mws, Stream(a + quiet + rest.events, rest.end), k, 0).events == a + quiet + b;
    }
  }

  /** The same for all stages from `i` on: either one of them stops before reaching `quiet`,
      and nothing differs, or `quiet` comes out behind what `a` became. */
  lemma {:induction false} RunStagesSplit(mws: seq<Middleware>, a: seq<Event>, quiet: seq<Event>, b: seq<Event>,
      end: End, i: nat)
      returns (b': seq<Event>)
    requires i <= |mws| && Silent(quiet)
    ensures var with := RunStages(mws, Stream(a + quiet + b, end), i);
            var without := RunStages(mws, Stream(a + b, end), i);
            match Carried(mws, a, i)
            case None => with == without
            case Some(a') => with == Stream(a' + quiet + b', without.end) && without.events == a' + b'
    decreases |mws| - i
  {
    hide Apply, Evaluate, Passed;
    b' := b;
    if i < |mws| {
      if mws[i].stage.None? {
        b' := RunStagesSplit(mws, a, quiet, b, end, i + 1);
      } else {
        var g := mws[i].stage.value;
        var rest := ApplySplit(i, g, a, quiet, b, end);
        if a1: seq<Event> :| Passed(i, g, a) == Some(a1) {
          var b1 := EvaluateSplit(mws, a1, quiet, rest, i + 1);
          var without := Evaluate(mws, Stream(a1 + rest.events, rest.end), i + 1, 0);
          b' := RunStagesSplit(mws, a1, quiet, b1, without.end, i + 1);
        }
      }
    }
  }

  /** A stage that fails with `e`, and a handler behind it that recovers `e`: the handlers from
      the next index on are asked at the point of the failure and the recovered stream is queued
      there; all the rest is as if the stage had ended normally. If a later stage stops reading
      before that point, nobody is asked and nothing is recovered. */
  lemma StageFailureIsRecovered(mws: seq<Middleware>, s: Stream, i: nat, e: Error) returns (b: seq<Event>)
    requires i < |mws| && mws[i].stage.Some? && Apply(i, mws[i].stage.value, s).end == Failed(e)
    requires ProcessException(mws, e, i + 1, i + 1).Handled?
    ensures var h := ProcessException(mws, e, i + 1, i + 1);
            var a := Apply(i, mws[i].stage.value, s).events;
            var with := RunStages(mws, s, i);
            var without := RunStages(mws, Stream(a, Done), i + 1);
            match Carried(mws, a, i + 1)
            case None => with == without
            case Some(a') =>
              with == Stream(a' + (h.offers + [Recover(0, h.stream)]) + b, without.end) && without.events == a' + b
  {
    hide Apply, Passed;
    var h := ProcessException(mws, e, i + 1, i + 1);
    var a := Apply(i, mws[i].stage.value, s).events;
    ExceptionAt(mws, e, i + 1, i + 1);
    var quiet := h.offers + [Recover(0, h.stream)];
    assert a + h.offers + [Recover(0, h.stream)] == a + quiet + [] && a + [] == a;
    b := RunStagesSplit(mws, a, quiet, [], Done, i + 1);
  }

  lemma {:induction false} ItemsCat(a: seq<Event>, b: seq<Event>)
    ensures Items(a + b) == Items(a) + Items(b)
    decreases |a|
  {
    if a == [] {
      assert a + b == b;
    } else {
      assert (a + b)[1..] == a[1..] + b && (a + b)[0] == a[0];
      ItemsCat(a[1..], b);
      var x := if a[0].Emit? then [a[0].item] else [];
      assert x + (Items(a[1..]) + Items(b)) == (x + Items(a[1..])) + Items(b);
    }
  }

  lemma ThenAssociates(a: Stream, b: Stream, c: Stream)
    ensures Then(a, Then(b, c)) == Then(Then(a, b), c)
  {
    assert a.events + (b.events + c.events) == (a.events + b.events) + c.events;
  }

  lemma {:induction false} MainCat(level: nat, a: seq<Event>, b: seq<Event>)
    ensures Main(level, a + b) == Main(level, a) + Main(level, b)
    ensures Recovered(level, a + b) == Then(Recovered(level, a), Recovered(level, b))
    decreases |a|
  {
    if a == [] {
      assert a + b == b;
      var r := Recovered(level, b);
      assert [] + r.events == r.events;
    } else {
      assert (a + b)[1..] == a[1..] + b && (a + b)[0] == a[0];
      MainCat(level, a[1..], b);
      var here := a[0].Recover? && a[0].level == level;
      var front := if here then [] else [a[0]];
      assert front + (Main(level, a[1..]) + Main(level, b)) == (front + Main(level, a[1..])) + Main(level, b);
      if here {
        ThenAssociates(a[0].stream, Recovered(level, a[1..]), Recovered(level, b));
      }
    }
  }

  lemma {:induction false} NothingRecovered(level: nat, events: seq<Event>)
    requires NoneAt(level, events)
    ensures Main(level, events) == events && Recovered(level, events) == Stream([], Done)
    decreases |events|
  {
    if events != [] {
      NothingRecovered(level, events[1..]);
    }
  }

  lemma {:induction false} SilentHasNoItems(quiet: seq<Event>)
    requires Silent(quiet)
    ensures Items(quiet) == []
    decreases |quiet|
  {
    if quiet != [] {
      SilentHasNoItems(quiet[1..]);
    }
  }

  /** Take the callback that yields `items` and fails with `e`, and let a handler recover `e`
      into the stream `r`. Its run has the items of the run in which the callback ends normally
      after `items`, and behind all of them the items of `r`: they are there if and only if
      every stage, given the items that came before the failure, is still reading, and the
      stages end without an exception of their own. */
  lemma RecoveryComposes(mws: seq<Middleware>, items: seq<int>, e: Error)
    requires e.origin == Callback && ProcessException(mws, e, 0, 0).Handled?
    ensures var r := ProcessException(mws, e, 0, 0).stream;
            var with := ProcessCallbackOutput(mws, CallbackStream(items, Failed(e)));
            var without := ProcessCallbackOutput(mws, CallbackStream(items, Done));
            if Carried(mws, CallbackStream(items, Done).events, 0).Some? && without.end.Done?
            then Items(with.events) == Items(without.events) + Items(r.events) && with.end == r.end
            else Items(with.events) == Items(without.events) && with.end == without.end
  {
    var plain := CallbackStream(items, Done);
    var a := plain.events;
    var h := ProcessException(mws, e, 0, 0);
    var quiet := h.offers + [Recover(1, h.stream)];
    ExceptionAt(mws, e, 0, 0);
    assert Silent(quiet);
    var failing := Evaluate(mws, CallbackStream(items, Failed(e)), 0, 1);
    assert failing == Stream(a + quiet + [], Done) by {
      assert a + h.offers + [Recover(1, h.stream)] == a + quiet + [];
    }
    assert Evaluate(mws, plain, 0, 1) == plain == Stream(a + [], Done);
    var b := RunStagesSplit(mws, a, quiet, [], Done, 0);
    var x := RunStages(mws, plain, 0);
    var out := ProcessOutput(mws, plain, 0);
    PlainOutput(mws, items);
    NothingRecovered(1, out.events);
    assert ProcessCallbackOutput(mws, plain) == out by {
      assert out.events + [] == out.events;
    }
    if a': seq<Event> :| Carried(mws, a, 0) == Some(a') {
      InsertedOutput(a', h.offers, h.stream, b, x.end);
      SilentHasNoItems(h.offers);
    }
  }

  ghost predicate SameItems(a: Stream, b: Stream) {
    Items(a.events) == Items(b.events) && a.end == b.end
  }

  lemma SameItemsThen(a: Stream, b: Stream, c: Stream)
    requires SameItems(a, b)
    ensures SameItems(Then(a, c), Then(b, c))
  {
    hide Items;
    ItemsCat(a.events, c.events);
    ItemsCat(b.events, c.events);
  }

  /** The same for a stage that fails with `e`: with the handler that recovers `e` the output has
      the items of the output in which the stage ends normally, and those of the recovered stream
      `r` behind the main stream and the streams `x` recovered upstream of the failure, ahead of
      the streams `y` recovered after it. Any of these that fails cuts off what is behind it. */
  lemma StageRecoveryComposes(mws: seq<Middleware>, s: Stream, i: nat, e: Error) returns (y: Stream)
    requires i < |mws| && mws[i].stage.Some? && Apply(i, mws[i].stage.value, s).end == Failed(e)
    requires ProcessException(mws, e, i + 1, i + 1).Handled?
    ensures var r := ProcessException(mws, e, i + 1, i + 1).stream;
            var plain := Stream(Apply(i, mws[i].stage.value, s).events, Done);
            var with := ProcessOutput(mws, s, i);
            var without := ProcessOutput(mws, plain, i + 1);
            var last := RunStages(mws, plain, i + 1);
            var main := Stream(Main(0, last.events), last.end);
            match Carried(mws, plain.events, i + 1)
            case None => with == without
            case Some(a) =>
              var x := Recovered(0, a);
              without == Then(main, Then(x, y)) && SameItems(with, Then(main, Then(x, Then(r, y))))
  {
    hide Apply, RunStages, ProcessException;
    var h := ProcessException(mws, e, i + 1, i + 1);
    var plain := Stream(Apply(i, mws[i].stage.value, s).events, Done);
    y := Stream([], Done);
    var b := StageFailureIsRecovered(mws, s, i, e);
    if a: seq<Event> :| Carried(mws, plain.events, i + 1) == Some(a) {
      y := Recovered(0, b);
      MainCat(0, a, b);
      ExceptionAt(mws, e, i + 1, i + 1);
      QueuedItems(a, h.offers, h.stream, b, RunStages(mws, plain, i + 1).end);
    }
  }

  lemma QueuedItems(a: seq<Event>, offers: seq<Event>, r: Stream, b: seq<Event>, end: End)
    requires OnlyOffers(offers)
    ensures SameItems(Chain(0, Stream(a + (offers + [Recover(0, r)]) + b, end)),
                      Then(Stream(Main(0, a + b), end), Then(Recovered(0, a), Then(r, Recovered(0, b)))))
  {
    var quiet := offers + [Recover(0, r)];
    MainCat(0, a + quiet, b);
    MainCat(0, a, quiet);
    MainCat(0, offers, [Recover(0, r)]);
    MainCat(0, a, b);
    NothingRecovered(0, offers);
    assert Main(0, [Recover(0, r)]) == [] && Recovered(0, [Recover(0, r)]) == r by {
      assert r.events + [] == r.events;
    }
    hide Main, Recovered, Items;
    var x, y := Recovered(0, a), Recovered(0, b);
    assert Recovered(0, quiet) == r by {
      assert [] + r.events == r.events;
    }
    ThenAssociates(x, r, y);
    var with, without := Main(0, a) + offers + Main(0, b), Main(0, a) + Main(0, b);
    assert Main(0, a + quiet + b) == with by {
      assert offers + [] == offers;
    }
    assert Items(with) == Items(without) by {
      ItemsCat(Main(0, a) + offers, Main(0, b));
      ItemsCat(Main(0, a), offers);
      ItemsCat(Main(0, a), Main(0, b));
      SilentHasNoItems(offers);
      assert Items(Main(0, a)) + [] == Items(Main(0, a));
    }
    SameItemsThen(Stream(with, end), Stream(without, end), Then(x, Then(r, y)));
  }

  lemma PlainOutput(mws: seq<Middleware>, items: seq<int>)
    ensures NoneAt(1, ProcessOutput(mws, CallbackStream(items, Done), 0).events)
  {
    var s := CallbackStream(items, Done);
    forall k | 0 <= k < |s.events| ensures EventAt(mws, s.events[k], 0, 0) {
      NoStages(mws, 0, 0);
    }
    OutputAt(mws, s, 0, 0);
    var out := ProcessOutput(mws, s, 0).events;
    forall k | 0 <= k < |out| ensures !(out[k].Recover? && out[k].level == 1) {
      assert EventAt(mws, out[k], |mws|, 0);
    }
  }

  ghost predicate NoneAt(level: nat, events: seq<Event>) {
    forall k | 0 <= k < |events| :: !(events[k].Recover? && events[k].level == level)
  }

  /** A stream queued in the middle of an output comes out behind all of it. */
  lemma QueuedComesLast(level: nat, a: seq<Event>, offers: seq<Event>, r: Stream, b: seq<Event>, end: End)
    requires NoneAt(level, a) && NoneAt(level, offers) && NoneAt(level, b)
    ensures Chain(level, Stream(a + (offers + [Recover(level, r)]) + b, end))
         == Then(Stream(a + offers + b, end), r)
  {
    var quiet := offers + [Recover(level, r)];
    MainCat(level, a + quiet, b);
    MainCat(level, a, quiet);
    MainCat(level, offers, [Recover(level, r)]);
    NothingRecovered(level, a);
    NothingRecovered(level, offers);
    NothingRecovered(level, b);
    assert Main(level, [Recover(level, r)]) == [];
    assert Recovered(level, [Recover(level, r)]) == r by {
      assert r.events + [] == r.events;
    }
    assert r.events + [] == r.events == [] + r.events;
    assert offers + [] == offers;
  }

  lemma MainSplit(a: seq<Event>, quiet: seq<Event>, b: seq<Event>)
    requires NoneAt(0, quiet)
    ensures Main(0, a + quiet + b) == Main(0, a) + quiet + Main(0, b)
    ensures Main(0, a + b) == Main(0, a) + Main(0, b)
    ensures Recovered(0, a + quiet + b) == Recovered(0, a + b)
  {
    hide Main, Recovered;
    MainCat(0, a + quiet, b);
    MainCat(0, a, quiet);
    MainCat(0, a, b);
    NothingRecovered(0, quiet);
    var x := Recovered(0, a);
    assert x.events + [] == x.events;
  }

  lemma InsertedOutput(a: seq<Event>, offers: seq<Event>, r: Stream, b: seq<Event>, end: End)
    requires forall k | 0 <= k < |offers| :: offers[k].Offer?
    requires NoneAt(1, Chain(0, Stream(a + b, end)).events)
    ensures var without := Chain(0, Stream(a + b, end));
            var with := Chain(1, Chain(0, Stream(a + (offers + [Recover(1, r)]) + b, end)));
            && Items(with.events) == Items(without.events) + (if without.end.Done? then Items(r.events) else [])
            && with.end == if without.end.Done? then r.end else without.end
  {
    hide Main, Recovered, Items;
    var quiet := offers + [Recover(1, r)];
    MainSplit(a, quiet, b);
    var rec := Recovered(0, a + b);
    var a1 := Main(0, a);
    var b1 := Main(0, b) + if end.Done? then rec.events else [];
    var without := Chain(0, Stream(a + b, end));
    assert without.events == a1 + b1;
    assert Chain(0, Stream(a + quiet + b, end)) == Stream(a1 + quiet + b1, without.end) by {
      assert Main(0, a) + quiet + Main(0, b) + rec.events == a1 + quiet + (Main(0, b) + rec.events);
    }
    InsertedItems(a1, offers, r, b1, without.end);
  }

  lemma InsertedItems(a: seq<Event>, offers: seq<Event>, r: Stream, b: seq<Event>, end: End)
    requires forall k | 0 <= k < |offers| :: offers[k].Offer?
    requires NoneAt(1, a + b)
    ensures var with := Chain(1, Stream(a + (offers + [Recover(1, r)]) + b, end));
            && Items(with.events) == Items(a + b) + (if end.Done? then Items(r.events) else [])
            && with.end == if end.Done? then r.end else end
  {
    hide Chain, Items;
    assert NoneAt(1, a) && NoneAt(1, b) by {
      forall k | 0 <= k < |a| ensures !(a[k].Recover? && a[k].level == 1) {
        assert a[k] == (a + b)[k];
      }
      forall k | 0 <= k < |b| ensures !(b[k].Recover? && b[k].level == 1) {
        assert b[k] == (a + b)[|a| + k];
      }
    }
    QueuedComesLast(1, a, offers, r, b, end);
    ItemsCat(a + offers, b);
    ItemsCat(a, offers);
    ItemsCat(a, b);
    SilentHasNoItems(offers);
    assert Items(a) + [] == Items(a);
    ItemsCat(a + offers + b, r.events);
  }
}
