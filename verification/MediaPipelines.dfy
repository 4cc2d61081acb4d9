/** scrapy/pipelines/media.py: many items ask for the same media; one caller fetches it and all
    callers get the one result.

    A step is the code of one caller between two awaits. Firing a waiter can resume its caller
    at once, which can then ask for more media; so the firing of each waiter is a step of its
    own, and new calls may come in between. */
module MediaPipelines {
  import opened Requests

  /** The outcome of a fetch: file information or a failure. */
  datatype Result = Info(value: int) | Failure(code: int)

  /** Where a call of `_process_request` is: about to read the cached result, waiting for its
      deferred, fetching, or returned. */
  datatype Phase = Reading | Waiting | Fetching | Returned(outcome: Result)

  datatype Call = Call(fp: int, errback: Option<int -> Result>, phase: Phase)

  /** `firing`: the waiters taken from `waiting` whose deferred is still to be fired. `fetched`
      counts the fetches begun. */
  datatype State = State(
    downloading: set<int>,
    downloaded: map<int, Result>,
    waiting: map<int, seq<nat>>,
    firing: multiset<nat>,
    calls: seq<Call>,
    fetched: multiset<int>)

  const INIT := State({}, map[], map[], multiset{}, [], multiset{})

  datatype Step =
    | Ask(fp: int, errback: Option<int -> Result>)
    | Read(c: nat)
    | Finish(c: nat, result: Result)
    | Fire(c: nat)

  /** What a caller gets: its errback is asked about a failure. */
  function Outcome(errback: Option<int -> Result>, r: Result): Result {
    if r.Failure? && errback.Some? then errback.value(r.code) else r
  }

  function Answered(call: Call, r: Result): (answered: Call)
    ensures answered.fp == call.fp && answered.errback == call.errback && answered.phase.Returned?
  {
    call.(phase := Returned(Outcome(call.errback, r)))
  }

  predicate Enabled(s: State, step: Step) {
    match step
    case Ask(_, _) => true
    case Read(c) => c < |s.calls| && s.calls[c].phase.Reading?
    case Finish(c, _) => c < |s.calls| && s.calls[c].phase.Fetching?
    case Fire(c) => c in s.firing
  }

  /** What the code takes for granted: a cached result is still there, the fingerprint is among
      those downloading and has waiters, and the deferred has not been fired before. */
  predicate Safe(s: State, step: Step) {
    match step
    case Ask(_, _) => true
    case Read(c) => c < |s.calls| && s.calls[c].fp in s.downloaded
    case Finish(c, _) => c < |s.calls| && s.calls[c].fp in s.downloading && s.calls[c].fp in s.waiting
    case Fire(c) => c < |s.calls| && s.calls[c].phase.Waiting? && s.calls[c].fp in s.downloaded
  }

  function Next(s: State, step: Step): State
    requires Enabled(s, step) && Safe(s, step)
  {
    match step
    case Ask(fp, eb) =>
      if fp in s.downloaded then s.(calls := s.calls + [Call(fp, eb, Reading)]) else
      var waiting := s.waiting[fp := (if fp in s.waiting then s.waiting[fp] else []) + [|s.calls|]];
      if fp in s.downloading then
        s.(waiting := waiting, calls := s.calls + [Call(fp, eb, Waiting)])
      else
        s.(waiting := waiting, calls := s.calls + [Call(fp, eb, Fetching)],
           downloading := s.downloading + {fp}, fetched := s.fetched + multiset{fp})
    case Read(c) => Return(s, c)
    case Finish(c, r) =>
      var fp := s.calls[c].fp;
      s.(downloading := s.downloading - {fp}, downloaded := s.downloaded[fp := r],
         waiting := s.waiting - {fp}, firing := s.firing + multiset(s.waiting[fp]),
         calls := s.calls[c := s.calls[c].(phase := Waiting)])
    case Fire(c) => Return(s, c).(firing := s.firing - multiset{c})
  }

  function Return(s: State, c: nat): State
    requires c < |s.calls| && s.calls[c].fp in s.downloaded
  {
    s.(calls := s.calls[c := Answered(s.calls[c], s.downloaded[s.calls[c].fp])])
  }

  // ----- The invariant

  ghost predicate CallHolds(s: State, c: nat)
    requires c < |s.calls|
  {
    var call := s.calls[c];
    match call.phase
    case Reading => call.fp in s.downloaded && s.firing[c] == 0
    case Waiting =>
      if call.fp in s.downloaded then s.firing[c] == 1 else
      s.firing[c] == 0 && call.fp in s.waiting && multiset(s.waiting[call.fp])[c] == 1 && s.waiting[call.fp][0] != c
    case Fetching => s.firing[c] == 0 && call.fp in s.waiting && multiset(s.waiting[call.fp])[c] == 1
        && s.waiting[call.fp][0] == c
    case Returned(outcome) =>
      call.fp in s.downloaded && s.firing[c] == 0 && outcome == Outcome(call.errback, s.downloaded[call.fp])
  }

  ghost predicate WaitersHold(s: State, fp: int)
    requires fp in s.waiting
  {
    && s.waiting[fp] != [] && s.waiting[fp][0] < |s.calls| && s.calls[s.waiting[fp][0]].phase.Fetching?
    && forall c | c in s.waiting[fp] :: c < |s.calls| && s.calls[c].fp == fp
        && (s.calls[c].phase.Waiting? || s.calls[c].phase.Fetching?)
  }

  ghost predicate Inv(s: State) {
    && s.waiting.Keys == s.downloading && s.downloading !! s.downloaded.Keys
    && (forall c: nat | c < |s.calls| :: CallHolds(s, c))
    && (forall fp | fp in s.waiting :: WaitersHold(s, fp))
    && (forall c | c in s.firing :: c < |s.calls|)
    && (forall fp :: s.fetched[fp] == if fp in s.downloading || fp in s.downloaded then 1 else 0)
  }

  /** The code never finds what it takes for granted missing. */
  lemma StepIsSafe(s: State, step: Step)
    requires Inv(s) && Enabled(s, step)
    ensures Safe(s, step)
  {
    match step
    case Ask(_, _) =>
    case Read(c) => assert CallHolds(s, c);
    case Finish(c, _) => assert CallHolds(s, c);
    case Fire(c) => assert CallHolds(s, c);
  }

  lemma NewCaller(s: State, fp: int)
    requires Inv(s)
    ensures s.firing[|s.calls|] == 0
    ensures fp in s.waiting ==>
              && s.waiting[fp] != [] && s.waiting[fp][0] != |s.calls| && multiset(s.waiting[fp])[|s.calls|] == 0
              && multiset(s.waiting[fp] + [|s.calls|]) == multiset(s.waiting[fp]) + multiset{|s.calls|}
  {
    if fp in s.waiting {
      assert WaitersHold(s, fp);
      assert |s.calls| !in s.waiting[fp] && |s.calls| !in multiset(s.waiting[fp]);
    }
  }

  lemma AskOtherCalls(s: State, fp: int, eb: Option<int -> Result>, c: nat)
    requires Inv(s) && c < |s.calls|
    ensures CallHolds(Next(s, Ask(fp, eb)), c)
  {
    hide WaitersHold, Outcome;
    NewCaller(s, fp);
    assert CallHolds(s, c);
  }

  lemma AskCall(s: State, fp: int, eb: Option<int -> Result>)
    requires Inv(s)
    ensures CallHolds(Next(s, Ask(fp, eb)), |s.calls|)
  {
    hide WaitersHold, Outcome;
    NewCaller(s, fp);
  }

  lemma AskWaiters(s: State, fp: int, eb: Option<int -> Result>, f: int)
    requires Inv(s) && f in Next(s, Ask(fp, eb)).waiting
    ensures WaitersHold(Next(s, Ask(fp, eb)), f)
  {
    hide CallHolds;
    if f in s.waiting {
      assert WaitersHold(s, f);
    }
  }

  lemma AskKeeps(s: State, fp: int, eb: Option<int -> Result>)
    requires Inv(s)
    ensures Inv(Next(s, Ask(fp, eb)))
  {
    hide CallHolds, WaitersHold;
    var t := Next(s, Ask(fp, eb));
    forall c: nat | c < |t.calls| ensures CallHolds(t, c) {
      if c < |s.calls| {
        AskOtherCalls(s, fp, eb, c);
      } else {
        AskCall(s, fp, eb);
      }
    }
    forall f | f in t.waiting ensures WaitersHold(t, f) {
      AskWaiters(s, fp, eb, f);
    }
  }

  lemma ReturnKeeps(s: State, c: nat)
    requires Inv(s) && c < |s.calls| && s.calls[c].fp in s.downloaded
    ensures Inv(Return(s, c).(firing := s.firing - multiset{c}))
  {
    var t := Return(s, c).(firing := s.firing - multiset{c});
    forall d: nat | d < |t.calls| ensures CallHolds(t, d) {
      assert CallHolds(s, d);
    }
    forall f | f in t.waiting ensures WaitersHold(t, f) {
      assert WaitersHold(s, f);
    }
  }

  lemma FinishKeeps(s: State, c: nat, r: Result)
    requires Inv(s) && Enabled(s, Finish(c, r)) && Safe(s, Finish(c, r))
    ensures Inv(Next(s, Finish(c, r)))
  {
    var t, fp := Next(s, Finish(c, r)), s.calls[c].fp;
    assert WaitersHold(s, fp) && CallHolds(s, c);
    forall d: nat | d < |t.calls| ensures CallHolds(t, d) {
      assert CallHolds(s, d);
      assert d in s.waiting[fp] <==> d in multiset(s.waiting[fp]);
    }
    forall d | d in t.firing ensures d < |t.calls| {
      assert d in s.firing || d in s.waiting[fp];
    }
    forall f | f in t.waiting ensures WaitersHold(t, f) {
      assert WaitersHold(s, f);
    }
  }

  lemma StepKeeps(s: State, step: Step)
    requires Inv(s) && Enabled(s, step)
    ensures Safe(s, step) && Inv(Next(s, step))
  {
    StepIsSafe(s, step);
    match step
    case Ask(fp, eb) => AskKeeps(s, fp, eb);
    case Read(c) =>
      assert CallHolds(s, c);
      assert s.firing - multiset{c} == s.firing;
      ReturnKeeps(s, c);
    case Finish(c, r) => FinishKeeps(s, c, r);
    case Fire(c) => ReturnKeeps(s, c);
  }

  // ----- Runs

  ghost predicate Reaches(s: State, steps: seq<Step>, t: State)
    decreases |steps|
  {
    if steps == [] then s == t else
    Enabled(s, steps[0]) && Safe(s, steps[0]) && Reaches(Next(s, steps[0]), steps[1..], t)
  }

  /** What stays from `s` to `t`: the results, the calls, and what callers have returned. */
  ghost predicate Extends(s: State, t: State) {
    && (forall fp | fp in s.downloaded :: fp in t.downloaded && t.downloaded[fp] == s.downloaded[fp])
    && |s.calls| <= |t.calls|
    && (forall c: nat | c < |s.calls| :: SameCall(s.calls[c], t.calls[c]))
  }

  ghost predicate SameCall(before: Call, after: Call) {
    && after.fp == before.fp && after.errback == before.errback
    && (before.phase.Returned? ==> after == before)
  }

  lemma ExtendsFurther(s: State, t: State, u: State)
    requires Extends(s, t) && Extends(t, u)
    ensures Extends(s, u)
  {
    forall c: nat | c < |s.calls| ensures SameCall(s.calls[c], u.calls[c]) {
      assert SameCall(s.calls[c], t.calls[c]) && SameCall(t.calls[c], u.calls[c]);
    }
  }

  lemma StepExtends(s: State, step: Step)
    requires Inv(s) && Enabled(s, step) && Safe(s, step)
    ensures Extends(s, Next(s, step))
  {
    if step.Fire? {
      assert CallHolds(s, step.c);
    }
  }

  lemma {:induction false} RunKeeps(s: State, steps: seq<Step>, t: State)
    requires Inv(s) && Reaches(s, steps, t)
    ensures Inv(t) && Extends(s, t)
    decreases |steps|
  {
    if steps != [] {
      hide Inv, Enabled, Safe, Next, Extends;
      StepKeeps(s, steps[0]);
      StepExtends(s, steps[0]);
      RunKeeps(Next(s, steps[0]), steps[1..], t);
      ExtendsFurther(s, Next(s, steps[0]), t);
    }
  }

  /** Any two callers that ask for the same media, at any two times of a run, get the same
      result, each seen through its own errback; it is fetched once. */
  lemma SingleFlight(steps: seq<Step>, t: State, c: nat, d: nat)
    requires Reaches(INIT, steps, t)
    requires c < |t.calls| && d < |t.calls| && t.calls[c].fp == t.calls[d].fp
    requires t.calls[c].phase.Returned? && t.calls[d].phase.Returned?
    ensures var fp := t.calls[c].fp;
            && fp in t.downloaded && t.fetched[fp] == 1
            && forall x | x in {c, d} ::
                 match t.downloaded[fp]
                 case Info(_) => t.calls[x].phase.outcome == t.downloaded[fp]
                 case Failure(code) =>
                   if t.calls[x].errback.None? then t.calls[x].phase.outcome == t.downloaded[fp]
                   else t.calls[x].phase.outcome == t.calls[x].errback.value(code)
  {
    RunKeeps(INIT, steps, t);
    assert CallHolds(t, c) && CallHolds(t, d);
  }

  /** What is left to do, in steps of callers that have already asked. */
  function Left(calls: seq<Call>): nat {
    if calls == [] then 0 else
    Left(calls[..|calls| - 1]) + (match calls[|calls| - 1].phase case Returned(_) => 0 case Fetching => 2 case _ => 1)
  }

  lemma {:induction false} LeftChanged(calls: seq<Call>, c: nat, call: Call)
    requires c < |calls|
    ensures Left(calls[c := call]) + Left([calls[c]]) == Left(calls) + Left([call])
    decreases |calls|
  {
    var n := |calls| - 1;
    if c < n {
      LeftChanged(calls[..n], c, call);
      assert calls[c := call][..n] == calls[..n][c := call];
    } else {
      assert calls[c := call][..n] == calls[..n];
    }
  }

  /** Every step but a new call brings the callers closer to their return, and as long as one
      has not returned there is such a step: a fetch that ends releases all its waiters. */
  lemma CallersReturn(s: State, c: nat)
    requires Inv(s) && c < |s.calls| && !s.calls[c].phase.Returned?
    ensures exists step: Step :: !step.Ask? && Enabled(s, step)
  {
    assert CallHolds(s, c);
    match s.calls[c].phase
    case Reading => assert Enabled(s, Read(c));
    case Fetching => assert Enabled(s, Finish(c, Info(0)));
    case Waiting =>
      if s.calls[c].fp in s.downloaded {
        assert Enabled(s, Fire(c));
      } else {
        assert WaitersHold(s, s.calls[c].fp);
        assert Enabled(s, Finish(s.waiting[s.calls[c].fp][0], Info(0)));
      }
  }

  lemma StepMakesProgress(s: State, step: Step)
    requires Inv(s) && !step.Ask? && Enabled(s, step) && Safe(s, step)
    ensures Left(Next(s, step).calls) < Left(s.calls)
  {
    LeftChanged(s.calls, step.c, Next(s, step).calls[step.c]);
  }

  /** The waiters of a media that is being fetched are all its callers that have not returned. */
  lemma WaitersAre(s: State, fp: int)
    requires Inv(s) && fp in s.downloading
    ensures forall d: nat | d < |s.calls| :: d in s.waiting[fp] <==> s.calls[d].fp == fp && !s.calls[d].phase.Returned?
    ensures forall d | d in s.waiting[fp] :: d < |s.calls|
  {
    assert WaitersHold(s, fp);
    forall d: nat | d < |s.calls| ensures d in s.waiting[fp] <==> s.calls[d].fp == fp && !s.calls[d].phase.Returned? {
      assert CallHolds(s, d);
      assert d in s.waiting[fp] <==> d in multiset(s.waiting[fp]);
    }
  }

  lemma NotAnsweredYet(s: State, c: nat)
    requires Inv(s) && c in s.firing
    ensures c < |s.calls| && s.calls[c].phase.Waiting?
  {
    assert CallHolds(s, c);
  }

  lemma KeysApart(s: State)
    requires Inv(s)
    ensures s.downloading !! s.downloaded.Keys
  {}

  // ----- The pipeline itself

  class SpiderInfo {
    var downloading: set<int>
    var downloaded: map<int, Result>
    var waiting: map<int, seq<nat>>
    ghost var firing: multiset<nat>
    var calls: seq<Call>
    ghost var fetched: multiset<int>

    ghost function Now(): State
      reads this
    {
      State(downloading, downloaded, waiting, firing, calls, fetched)
    }

    constructor ()
      ensures Now() == INIT
    {
      downloading, downloaded, waiting, calls := {}, map[], map[], [];
      firing, fetched := multiset{}, multiset{};
    }

    /** `_process_request` up to its first await. */
    method ProcessRequest(fp: int, errback: Option<int -> Result>) returns (c: nat)
      requires Inv(Now())
      modifies this
      ensures c == |old(calls)| && Now() == Next(old(Now()), Ask(fp, errback)) && Inv(Now())
    {
      hide Inv;
      AskKeeps(Now(), fp, errback);
      c := |calls|;
      if fp in downloaded {
        calls := calls + [Call(fp, errback, Reading)];
        return;
      }
      var waiters := if fp in waiting then waiting[fp] else [];
      waiting := waiting[fp := waiters + [c]];
      if fp in downloading {
        calls := calls + [Call(fp, errback, Waiting)];
        return;
      }
      downloading := downloading + {fp};
      fetched := fetched + multiset{fp};
      calls := calls + [Call(fp, errback, Fetching)];
    }

    /** A waiter's deferred is fired and its caller resumes. */
    method Fire(c: nat, result: Result)
      requires Inv(Now()) && c in firing
      requires c < |calls| && calls[c].fp in downloaded && downloaded[calls[c].fp] == result
      modifies this`calls, this`firing
      ensures Inv(Now()) && firing == old(firing) - multiset{c}
      ensures old(calls[c].phase.Waiting?)
      ensures calls == old(calls)[c := Answered(old(calls[c]), result)]
      ensures calls[c].phase == Returned(if result.Failure? && calls[c].errback.Some?
                                         then calls[c].errback.value(result.code) else result)
    {
      StepKeeps(Now(), Step.Fire(c));
      hide Inv;
      var call := calls[c];
      var outcome := result;
      if result.Failure? && call.errback.Some? {
        outcome := call.errback.value(result.code);
      }
      calls := calls[c := call.(phase := Returned(outcome))];
      firing := firing - multiset{c};
    }

    /** Whatever a resumed caller asks for before it awaits again. */
    method ResumedCallerAsks()
      requires Inv(Now())
      modifies this
      ensures Inv(Now()) && firing == old(firing) && downloaded == old(downloaded) && old(calls) <= calls
      ensures old(downloading) <= downloading
    {
      hide Inv;
      var asks: int := *;
      while asks > 0
        invariant Inv(Now()) && firing == old(firing) && downloaded == old(downloaded) && old(calls) <= calls
        invariant old(downloading) <= downloading
        decreases asks
      {
        var fp: int := *;
        var errback: Option<int -> Result> := *;
        var _ := ProcessRequest(fp, errback);
        asks := asks - 1;
      }
    }

    method ResumeWaiter(d: nat, result: Result)
      requires Inv(Now()) && d in firing
      requires d < |calls| && calls[d].fp in downloaded && downloaded[calls[d].fp] == result
      modifies this
      ensures Inv(Now()) && firing == old(firing) - multiset{d} && downloaded == old(downloaded)
      ensures old(downloading) <= downloading && |calls| >= |old(calls)|
      ensures calls[..|old(calls)|] == old(calls)[d := Answered(old(calls)[d], result)]
    {
      hide Inv, Answered;
      Fire(d, result);
      ResumedCallerAsks();
    }

    /** Each of these callers has its answer, and the others of `before` are as they were. */
    static ghost predicate AllAnswered(before: seq<Call>, after: seq<Call>, waiters: seq<nat>, result: Result) {
      && |after| >= |before|
      && forall d: nat | d < |before| :: after[d] == if d in waiters then Answered(before[d], result) else before[d]
    }

    method ExecuteWaiters(waiters: seq<nat>, result: Result, ghost rest: multiset<nat>)
      requires Inv(Now()) && firing == rest + multiset(waiters)
      requires forall d | d in waiters :: d < |calls| && calls[d].fp in downloaded && downloaded[calls[d].fp] == result
      modifies this
      ensures Inv(Now()) && firing == rest && downloaded == old(downloaded) && old(downloading) <= downloading
      ensures AllAnswered(old(calls), calls, waiters, result)
    {
      hide Inv, Answered;
      for i := 0 to |waiters|
        invariant Inv(Now()) && downloaded == old(downloaded) && old(downloading) <= downloading
        invariant firing == rest + multiset(waiters[i..])
        invariant AllAnswered(old(calls), calls, waiters[..i], result)
      {
        var d := waiters[i];
        assert d in waiters;
        OneMoreAnswered(old(calls), calls, waiters, i, result);
        OneLess(rest, waiters, i);
        assert calls[d].fp == old(calls)[d].fp;
        NotAnsweredYet(Now(), d);
        hide AllAnswered;
        ResumeWaiter(d, result);
      }
      assert waiters[..|waiters|] == waiters;
    }

    static lemma OneLess(rest: multiset<nat>, waiters: seq<nat>, i: nat)
      requires i < |waiters|
      ensures waiters[i] in rest + multiset(waiters[i..])
      ensures rest + multiset(waiters[i..]) - multiset{waiters[i]} == rest + multiset(waiters[i + 1..])
    {
      assert waiters[i..] == [waiters[i]] + waiters[i + 1..];
    }

    static lemma OneMoreAnswered(before: seq<Call>, now: seq<Call>, waiters: seq<nat>, i: nat, result: Result)
      requires i < |waiters| && waiters[i] < |before| && AllAnswered(before, now, waiters[..i], result)
      ensures !now[waiters[i]].phase.Returned? ==>
                forall after: seq<Call> ::
                  |after| >= |now| && after[..|now|] == now[waiters[i] := Answered(now[waiters[i]], result)] ==>
                    AllAnswered(before, after, waiters[..i + 1], result)
    {
      assert waiters[..i + 1] == waiters[..i] + [waiters[i]];
      hide Outcome;
    }

    /** `_cache_result_and_execute_waiters`, whatever the waiters ask for while they are being
        resumed: the callers of this media that had not returned have returned with the result,
        each deferred fired once, and no caller that was there before is touched otherwise. */
    method CacheResultAndExecuteWaiters(c: nat, result: Result)
      requires Inv(Now()) && c < |calls| && calls[c].phase.Fetching?
      modifies this
      ensures Inv(Now()) && firing == old(firing) && |calls| >= |old(calls)|
      ensures var fp := old(calls[c].fp);
              && downloaded == old(downloaded)[fp := result]
              && fp !in downloading && old(downloading) - {fp} <= downloading
              && forall d: nat | d < |old(calls)| ::
                   calls[d] == if old(calls[d].fp == fp && !calls[d].phase.Returned?)
                               then Answered(old(calls[d]), result)
                               else old(calls[d])
    {
      StepKeeps(Now(), Step.Finish(c, result));
      WaitersAre(Now(), calls[c].fp);
      hide Inv, Answered;
      var fp := calls[c].fp;
      downloading := downloading - {fp};
      downloaded := downloaded[fp := result];
      var waiters := waiting[fp];
      waiting := waiting - {fp};
      firing := firing + multiset(waiters);
      calls := calls[c := calls[c].(phase := Waiting)];
      ExecuteWaiters(waiters, result, old(firing));
      KeysApart(Now());
    }
  }
}
