/** scrapy/downloadermiddlewares/robotstxt.py: the first request to a site fetches its
    robots.txt, the requests that come meanwhile wait for it, later ones find it; a failure is
    remembered as "no rules".

    All requests that wait for one site await one deferred, which gives its result to the first
    of them only (see Deferreds). The others get None, which means no rules.

    A step is the code between two awaits. */
module Robots {
  import opened Requests
  import opened Deferreds

  /** `_parsers`: a deferred while the file is being fetched, then a parser or nothing. */
  datatype Entry = Pending | Known(parser: Option<int>)

  /** Whether a caller of `robot_parser` came first, while the file was pending, or later. */
  datatype Role = Fetcher | Waiter | Late

  /** `answer` is what `robot_parser` returns, once that is settled. */
  datatype Call = Call(site: int, role: Role, answer: Option<Option<int>>)

  /** `waiters` holds the callers that awaited the deferred of a site, in order. */
  datatype State = State(parsers: map<int, Entry>, waiters: map<int, seq<nat>>, fetchers: map<int, nat>,
      calls: seq<Call>)

  const INIT := State(map[], map[], map[], [])

  datatype Step = Ask(site: int) | Finish(c: nat, parser: Option<int>)

  predicate Enabled(s: State, step: Step) {
    step.Finish? ==> step.c < |s.calls| && s.calls[step.c].role.Fetcher? && s.calls[step.c].answer.None?
  }

  /** What the code takes for granted: an entry that is pending has a deferred to await, and
      when a fetch ends the entry still is that deferred, which has not been fired. */
  predicate Safe(s: State, step: Step) {
    match step
    case Ask(site) => site in s.parsers ==> site in s.waiters
    case Finish(c, _) =>
      && c < |s.calls|
      && var site := s.calls[c].site;
         && site in s.parsers && s.parsers[site].Pending? && site in s.waiters
         && forall k | 0 <= k < |s.waiters[site]| :: s.waiters[site][k] < |s.calls|
  }

  /** Callbacks run in order, each with what the one before it returned. */
  function FireAll(calls: seq<Call>, waiters: seq<nat>, result: Option<int>): (after: seq<Call>)
    requires forall k | 0 <= k < |waiters| :: waiters[k] < |calls|
    ensures |after| == |calls|
    decreases |waiters|
  {
    if waiters == [] then calls else
    FireAll(calls[waiters[0] := calls[waiters[0]].(answer := Some(result))], waiters[1..], None)
  }

  function Next(s: State, step: Step): State
    requires Enabled(s, step) && Safe(s, step)
  {
    match step
    case Ask(site) =>
      var n := |s.calls|;
      if site !in s.parsers then
        s.(parsers := s.parsers[site := Pending], waiters := s.waiters[site := []], fetchers := s.fetchers[site := n],
           calls := s.calls + [Call(site, Fetcher, None)])
      else if s.parsers[site].Pending? then
        s.(waiters := s.waiters[site := s.waiters[site] + [n]], calls := s.calls + [Call(site, Waiter, None)])
      else
        s.(calls := s.calls + [Call(site, Late, Some(s.parsers[site].parser))])
    case Finish(c, parser) =>
      var site := s.calls[c].site;
      s.(parsers := s.parsers[site := Known(parser)],
         calls := FireAll(s.calls, s.waiters[site], parser)[c := Call(site, Fetcher, Some(parser))])
  }

  /** The `k`-th waiter gets what the deferred still has for it. */
  lemma {:induction false} FireAllAnswers(calls: seq<Call>, waiters: seq<nat>, result: Option<int>)
    requires forall k | 0 <= k < |waiters| :: waiters[k] < |calls|
    requires forall i, j | 0 <= i < j < |waiters| :: waiters[i] < waiters[j]
    ensures var after := FireAll(calls, waiters, result);
            && (forall k | 0 <= k < |waiters| ::
                  after[waiters[k]] == calls[waiters[k]].(answer := Some(Awaited(result, k))))
            && (forall c: nat | c < |calls| && c !in waiters :: after[c] == calls[c])
    decreases |waiters|
  {
    if waiters != [] {
      var w := waiters[0];
      var next := calls[w := calls[w].(answer := Some(result))];
      FireAllAnswers(next, waiters[1..], None);
      var after := FireAll(calls, waiters, result);
      assert w !in waiters[1..];
      forall k | 0 <= k < |waiters|
        ensures after[waiters[k]] == calls[waiters[k]].(answer := Some(Awaited(result, k)))
      {
        if k > 0 {
          assert waiters[k] == waiters[1..][k - 1];
        }
      }
    }
  }

  // ----- What every step keeps

  ghost predicate CallHolds(s: State, c: nat)
    requires c < |s.calls|
  {
    var Call(site, role, answer) := s.calls[c];
    && site in s.parsers && site in s.waiters && site in s.fetchers
    && var entry := s.parsers[site];
       match role
       case Fetcher => c == s.fetchers[site] && answer == (if entry.Pending? then None else Some(entry.parser))
       case Waiter => c in s.waiters[site] && (entry.Pending? ==> answer.None?)
       case Late => entry.Known? && answer == Some(entry.parser)
  }

  ghost predicate SiteHolds(s: State, site: int)
    requires site in s.parsers && site in s.waiters && site in s.fetchers
  {
    var fetcher, waiters := s.fetchers[site], s.waiters[site];
    && fetcher < |s.calls| && s.calls[fetcher].site == site && s.calls[fetcher].role.Fetcher?
    && (forall i, j | 0 <= i < j < |waiters| :: waiters[i] < waiters[j])
    && (forall k | 0 <= k < |waiters| ::
          && waiters[k] < |s.calls| && s.calls[waiters[k]].site == site && s.calls[waiters[k]].role.Waiter?
          && (s.parsers[site].Known? ==>
                s.calls[waiters[k]].answer == Some(Awaited(s.parsers[site].parser, k))))
  }

  ghost predicate Inv(s: State) {
    && s.parsers.Keys == s.waiters.Keys == s.fetchers.Keys
    && (forall c: nat | c < |s.calls| :: CallHolds(s, c))
    && (forall site | site in s.parsers :: SiteHolds(s, site))
  }

  lemma StepIsSafe(s: State, step: Step)
    requires Inv(s) && Enabled(s, step)
    ensures Safe(s, step)
  {
    if step.Finish? {
      assert CallHolds(s, step.c);
      assert SiteHolds(s, s.calls[step.c].site);
    }
  }

  lemma AskKeepsCall(s: State, site: int, c: nat)
    requires Inv(s) && c <= |s.calls|
    ensures c < |Next(s, Ask(site)).calls| && CallHolds(Next(s, Ask(site)), c)
  {
    hide SiteHolds;
    if c < |s.calls| {
      assert CallHolds(s, c);
    }
  }

  lemma AskKeepsSite(s: State, site: int, x: int)
    requires Inv(s) && x in Next(s, Ask(site)).parsers
    ensures var t := Next(s, Ask(site)); x in t.waiters && x in t.fetchers && SiteHolds(t, x)
  {
    hide CallHolds;
    if x in s.parsers {
      assert SiteHolds(s, x);
    }
  }

  lemma AskKeeps(s: State, site: int)
    requires Inv(s)
    ensures Safe(s, Ask(site)) && Inv(Next(s, Ask(site)))
  {
    hide CallHolds, SiteHolds;
    var t := Next(s, Ask(site));
    forall c: nat | c < |t.calls| ensures CallHolds(t, c) {
      AskKeepsCall(s, site, c);
    }
    forall x | x in t.parsers ensures SiteHolds(t, x) {
      AskKeepsSite(s, site, x);
    }
  }

  /** The end of a fetch, call by call. */
  lemma FinishAnswers(s: State, c: nat, parser: Option<int>)
    requires Inv(s) && Enabled(s, Finish(c, parser)) && Safe(s, Finish(c, parser))
    ensures var t, waiters := Next(s, Finish(c, parser)), s.waiters[s.calls[c].site];
            && |t.calls| == |s.calls| && t.calls[c] == s.calls[c].(answer := Some(parser))
            && (forall k | 0 <= k < |waiters| ::
                  t.calls[waiters[k]] == s.calls[waiters[k]].(answer := Some(Awaited(parser, k))))
            && (forall d: nat | d < |s.calls| && d != c && d !in waiters :: t.calls[d] == s.calls[d])
  {
    var site := s.calls[c].site;
    assert SiteHolds(s, site);
    FireAllAnswers(s.calls, s.waiters[site], parser);
    hide FireAll, CallHolds;
    forall k | 0 <= k < |s.waiters[site]| ensures s.waiters[site][k] != c {
      assert s.calls[s.waiters[site][k]].role.Waiter?;
    }
  }

  lemma FinishKeepsCall(s: State, c: nat, parser: Option<int>, d: nat)
    requires Inv(s) && Enabled(s, Finish(c, parser)) && Safe(s, Finish(c, parser)) && d < |s.calls|
    ensures d < |Next(s, Finish(c, parser)).calls| && CallHolds(Next(s, Finish(c, parser)), d)
  {
    FinishAnswers(s, c, parser);
    assert CallHolds(s, c) && CallHolds(s, d);
    hide FireAll, SiteHolds;
    var waiters := s.waiters[s.calls[c].site];
    if d in waiters {
      assert SiteHolds(s, s.calls[c].site);
      var k :| 0 <= k < |waiters| && waiters[k] == d;
    }
  }

  lemma FinishKeepsSite(s: State, c: nat, parser: Option<int>, site: int)
    requires Inv(s) && Enabled(s, Finish(c, parser)) && Safe(s, Finish(c, parser)) && site in s.parsers
    ensures SiteHolds(Next(s, Finish(c, parser)), site)
  {
    FinishAnswers(s, c, parser);
    assert SiteHolds(s, site) && SiteHolds(s, s.calls[c].site);
    hide FireAll, CallHolds;
    if site != s.calls[c].site {
      forall k | 0 <= k < |s.waiters[site]| ensures s.waiters[site][k] !in s.waiters[s.calls[c].site] {
        assert s.calls[s.waiters[site][k]].site == site;
      }
    }
  }

  lemma FinishKeeps(s: State, c: nat, parser: Option<int>)
    requires Inv(s) && Enabled(s, Finish(c, parser)) && Safe(s, Finish(c, parser))
    ensures Inv(Next(s, Finish(c, parser)))
  {
    hide CallHolds, SiteHolds;
    var t := Next(s, Finish(c, parser));
    forall d: nat | d < |t.calls| ensures CallHolds(t, d) {
      FinishKeepsCall(s, c, parser, d);
    }
    forall site | site in t.parsers ensures SiteHolds(t, site) {
      FinishKeepsSite(s, c, parser, site);
    }
  }

  lemma StepKeeps(s: State, step: Step)
    requires Inv(s) && Enabled(s, step)
    ensures Safe(s, step) && Inv(Next(s, step))
  {
    StepIsSafe(s, step);
    match step
    case Ask(site) => AskKeeps(s, site);
    case Finish(c, parser) => FinishKeeps(s, c, parser);
  }

  // ----- Runs

  ghost predicate Reaches(s: State, steps: seq<Step>, t: State)
    decreases |steps|
  {
    if steps == [] then s == t else
    Enabled(s, steps[0]) && Safe(s, steps[0]) && Reaches(Next(s, steps[0]), steps[1..], t)
  }

  lemma {:induction false} RunKeeps(s: State, steps: seq<Step>, t: State)
    requires Inv(s) && Reaches(s, steps, t)
    ensures Inv(t)
    decreases |steps|
  {
    if steps != [] {
      StepKeeps(s, steps[0]);
      RunKeeps(Next(s, steps[0]), steps[1..], t);
    }
  }

  function FetchesOf(calls: seq<Call>, site: int): nat {
    if calls == [] then 0 else
    var last := calls[|calls| - 1];
    FetchesOf(calls[..|calls| - 1], site) + if last.site == site && last.role.Fetcher? then 1 else 0
  }

  lemma {:induction false} FetchesCounted(calls: seq<Call>, site: int, fetcher: nat)
    requires forall c: nat | c < |calls| && calls[c].site == site && calls[c].role.Fetcher? :: c == fetcher
    ensures FetchesOf(calls, site)
         == if fetcher < |calls| && calls[fetcher].site == site && calls[fetcher].role.Fetcher? then 1 else 0
  {
    if calls != [] {
      FetchesCounted(calls[..|calls| - 1], site, fetcher);
    }
  }

  /** A site is fetched once, however many requests ask. */
  lemma FetchedOnce(steps: seq<Step>, t: State, site: int)
    requires Reaches(INIT, steps, t)
    ensures FetchesOf(t.calls, site) == if site in t.parsers then 1 else 0
  {
    RunKeeps(INIT, steps, t);
    forall c: nat | c < |t.calls| && t.calls[c].site == site ensures site in t.parsers {
      assert CallHolds(t, c);
    }
    if site in t.parsers {
      assert SiteHolds(t, site);
      forall c: nat | c < |t.calls| && t.calls[c].site == site && t.calls[c].role.Fetcher?
        ensures c == t.fetchers[site]
      {
        assert CallHolds(t, c);
      }
      FetchesCounted(t.calls, site, t.fetchers[site]);
    } else {
      FetchesCounted(t.calls, site, 0);
    }
  }

  /** The answers about a site whose fetch has ended: the parser for the caller that fetched it,
      for the first that waited and for all that came later; nothing for the other waiters. */
  lemma AnswersAre(steps: seq<Step>, t: State, c: nat)
    requires Reaches(INIT, steps, t) && c < |t.calls|
    ensures var Call(site, role, answer) := t.calls[c];
            && site in t.parsers && site in t.waiters
            && (t.parsers[site].Known? ==>
                  var first := t.waiters[site] != [] && c == t.waiters[site][0];
                  answer == Some(if role.Waiter? && !first then None else t.parsers[site].parser))
  {
    RunKeeps(INIT, steps, t);
    assert CallHolds(t, c);
    var site := t.calls[c].site;
    assert SiteHolds(t, site);
    if t.calls[c].role.Waiter? {
      var k :| 0 <= k < |t.waiters[site]| && t.waiters[site][k] == c;
      assert k > 0 ==> t.waiters[site][0] < c;
    }
  }

  ghost predicate AllAgree(calls: seq<Call>, site: int) {
    forall c: nat, d: nat | c < |calls| && d < |calls| && calls[c].site == calls[d].site == site ::
      calls[c].answer == calls[d].answer
  }

  /** All callers of a site whose fetch has ended have the same answer if and only if there are
      no rules anyway, or at most one caller had to wait. */
  lemma SameAnswers(steps: seq<Step>, t: State, site: int)
    requires Reaches(INIT, steps, t) && site in t.parsers && t.parsers[site].Known?
    ensures site in t.waiters && (AllAgree(t.calls, site) <==> t.parsers[site].parser.None? || |t.waiters[site]| <= 1)
  {
    RunKeeps(INIT, steps, t);
    assert SiteHolds(t, site);
    var waiters, parser := t.waiters[site], t.parsers[site].parser;
    if parser.None? || |waiters| <= 1 {
      forall c: nat | c < |t.calls| && t.calls[c].site == site ensures t.calls[c].answer == Some(parser) {
        AnswersAre(steps, t, c);
        assert CallHolds(t, c);
      }
    } else {
      assert t.calls[waiters[0]].answer == Some(parser) && t.calls[waiters[1]].answer == Some(None);
    }
  }

  /** Three requests to a site before its robots.txt arrives: the third is let through without
      a look at the rules. */
  lemma ThirdCallerSkipsRules(site: int, rules: int) returns (steps: seq<Step>, t: State)
    ensures Reaches(INIT, steps, t)
    ensures site in t.parsers && t.parsers[site] == Known(Some(rules)) && |t.calls| == 3
    ensures t.calls[0].answer == t.calls[1].answer == Some(Some(rules)) && t.calls[2].answer == Some(None)
  {
    var s1 := Next(INIT, Ask(site));
    var s2 := Next(s1, Ask(site));
    var s3 := Next(s2, Ask(site));
    assert s3.waiters[site] == [1, 2];
    t := Next(s3, Finish(0, Some(rules)));
    FireAllAnswers(s3.calls, [1, 2], Some(rules));
    hide Next, FireAll;
    steps := [Finish(0, Some(rules))];
    assert Reaches(t, [], t) && Reaches(s3, steps, t);
    ReachesFrom(s2, Ask(site), steps, t);
    ReachesFrom(s1, Ask(site), [Ask(site)] + steps, t);
    ReachesFrom(INIT, Ask(site), [Ask(site)] + ([Ask(site)] + steps), t);
    steps := [Ask(site)] + ([Ask(site)] + ([Ask(site)] + steps));
  }

  lemma ReachesFrom(s: State, step: Step, steps: seq<Step>, t: State)
    requires Enabled(s, step) && Safe(s, step) && Reaches(Next(s, step), steps, t)
    ensures Reaches(s, [step] + steps, t)
  {
    assert ([step] + steps)[1..] == steps;
  }

  /** A caller that has no answer yet can go on, or exactly one other caller is fetching the
      file it waits for. */
  lemma NobodyIsForgotten(steps: seq<Step>, t: State, c: nat)
    requires Reaches(INIT, steps, t) && c < |t.calls| && t.calls[c].answer.None?
    ensures exists f: nat :: && f < |t.calls| && t.calls[f] == Call(t.calls[c].site, Fetcher, None)
                             && (forall p :: Enabled(t, Finish(f, p)))
                             && (forall g: nat | g < |t.calls| && t.calls[g] == t.calls[f] :: g == f)
  {
    RunKeeps(INIT, steps, t);
    var site := t.calls[c].site;
    assert CallHolds(t, c);
    assert SiteHolds(t, site);
    var f := t.fetchers[site];
    if t.parsers[site].Known? {
      AnswersAre(steps, t, c);
      assert false;
    }
    assert CallHolds(t, f);
    forall g: nat | g < |t.calls| && t.calls[g] == t.calls[f] ensures g == f {
      assert CallHolds(t, g);
    }
  }

  class RobotsTxtMiddleware {
    var parsers: map<int, Entry>
    var waiters: map<int, seq<nat>>
    ghost var fetchers: map<int, nat>
    var calls: seq<Call>

    ghost function Now(): State
      reads this
    {
      State(parsers, waiters, fetchers, calls)
    }

    constructor ()
      ensures Now() == INIT && Inv(Now())
    {
      parsers, waiters, fetchers, calls := map[], map[], map[], [];
    }

    /** `robot_parser` up to its first await. */
    method RobotParser(site: int) returns (c: nat)
      requires Inv(Now())
      modifies this
      ensures c == |old(calls)| && Safe(old(Now()), Ask(site)) && Now() == Next(old(Now()), Ask(site)) && Inv(Now())
    {
      AskKeeps(Now(), site);
      c := |calls|;
      if site !in parsers {
        parsers := parsers[site := Pending];
        waiters := waiters[site := []];
        fetchers := fetchers[site := c];
        calls := calls + [Call(site, Fetcher, None)];
      } else if parsers[site].Pending? {
        waiters := waiters[site := waiters[site] + [c]];
        calls := calls + [Call(site, Waiter, None)];
      } else {
        calls := calls + [Call(site, Late, Some(parsers[site].parser))];
      }
    }

    /** The fetch ends: `_parse_robots` with a parser, or `_robots_error`. The deferred runs the
        callbacks of its waiters, and the fetching caller returns. */
    method FinishFetch(c: nat, parser: Option<int>)
      requires Inv(Now()) && c < |calls| && calls[c].role.Fetcher? && calls[c].answer.None?
      modifies this`parsers, this`calls
      ensures Safe(old(Now()), Finish(c, parser)) && Now() == Next(old(Now()), Finish(c, parser)) && Inv(Now())
    {
      StepKeeps(Now(), Finish(c, parser));
      var site := calls[c].site;
      hide Inv, FireAll;
      parsers := parsers[site := Known(parser)];
      FireDeferred(waiters[site], parser);
      calls := calls[c := Call(site, Fetcher, Some(parser))];
    }

    /** Each callback takes the result and leaves None to the next. */
    method FireDeferred(callbacks: seq<nat>, outcome: Option<int>)
      requires forall k | 0 <= k < |callbacks| :: callbacks[k] < |calls|
      modifies this`calls
      ensures calls == FireAll(old(calls), callbacks, outcome)
    {
      var result := outcome;
      assert callbacks[0..] == callbacks;
      for i := 0 to |callbacks|
        invariant |calls| == |old(calls)|
        invariant FireAll(calls, callbacks[i..], result) == FireAll(old(calls), callbacks, outcome)
      {
        assert callbacks[i..][1..] == callbacks[i + 1..];
        calls := calls[callbacks[i] := calls[callbacks[i]].(answer := Some(result))];
        result := None;
      }
      assert callbacks[|callbacks|..] == [];
    }
  }
}
