/** scrapy/downloadermiddlewares/redirect.py, scrapy/downloadermiddlewares/retry.py and the loop
    of `download_async` in scrapy/core/engine.py: how long a chain of retries and redirects can
    become, and what it leaves in the meta of the last request. */
module RetryRedirect {
  import opened Requests

  /** The keys of `meta` these middlewares read; `maxRetryTimes` stands for a number under that
      key, since no key and a None mean the same. */
  datatype Meta = Meta(
    retryTimes: Option<int>,
    maxRetryTimes: Option<int>,
    dontRetry: bool,
    priorityAdjust: Option<int>,
    redirectTimes: Option<int>,
    redirectTtl: Option<int>,
    redirectUrls: Option<seq<int>>,
    redirectReasons: Option<seq<int>>)

  const NO_META := Meta(None, None, false, None, None, None, None, None)

  datatype Values = Values(url: int, priority: int, dontFilter: bool, meta: Meta)

  datatype Settings = Settings(retryTimes: int, retryPriorityAdjust: int, maxRedirectTimes: int,
      redirectPriorityAdjust: int)

  function OrElse<T>(o: Option<T>, default: T): T {
    if o.Some? then o.value else default
  }

  // ----- The budgets

  function Times(r: Values): int { OrElse(r.meta.redirectTimes, 0) }
  function Ttl(r: Values, s: Settings): int { OrElse(r.meta.redirectTtl, s.maxRedirectTimes) }
  function Urls(r: Values): seq<int> { OrElse(r.meta.redirectUrls, []) }
  function Reasons(r: Values): seq<int> { OrElse(r.meta.redirectReasons, []) }
  function RetryTimes(r: Values): int { OrElse(r.meta.retryTimes, 0) }
  function MaxRetryTimes(r: Values, s: Settings): int { OrElse(r.meta.maxRetryTimes, s.retryTimes) }

  function AtLeastZero(n: int): nat { if n < 0 then 0 else n }

  /** How often the request and its successors can still be redirected. A negative time to live
      in the meta is no limit, for only zero counts as used up. */
  function RedirectBudget(r: Values, s: Settings): nat {
    var times := AtLeastZero(s.maxRedirectTimes - Times(r));
    if 0 <= Ttl(r, s) < times then Ttl(r, s) else times
  }

  function RetryBudget(r: Values, s: Settings): nat {
    if r.meta.dontRetry then 0 else AtLeastZero(MaxRetryTimes(r, s) - RetryTimes(r))
  }

  // ----- One link of a chain

  datatype Link = Redirect(url: int, reason: int) | Retry

  /** The request that follows, or none: the redirect is refused with IgnoreRequest, or the
      response is kept because there are no more retries. */
  function Follow(r: Values, link: Link, s: Settings): Option<Values> {
    match link
    case Redirect(url, reason) =>
      if Ttl(r, s) != 0 && Times(r) + 1 <= s.maxRedirectTimes then
        Some(Values(url, r.priority + s.redirectPriorityAdjust, r.dontFilter,
                    r.meta.(redirectTimes := Some(Times(r) + 1), redirectTtl := Some(Ttl(r, s) - 1),
                            redirectUrls := Some(Urls(r) + [r.url]), redirectReasons := Some(Reasons(r) + [reason]))))
      else None
    case Retry =>
      if !r.meta.dontRetry && RetryTimes(r) + 1 <= MaxRetryTimes(r, s) then
        Some(r.(priority := r.priority + OrElse(r.meta.priorityAdjust, s.retryPriorityAdjust), dontFilter := true,
                meta := r.meta.(retryTimes := Some(RetryTimes(r) + 1))))
      else None
  }

  /** A link is refused exactly when its budget is used up, takes one from it, and leaves the
      other budget alone. */
  lemma LinkSpendsOne(r: Values, link: Link, s: Settings)
    ensures Follow(r, link, s).Some? <==> (if link.Redirect? then RedirectBudget(r, s) else RetryBudget(r, s)) > 0
    ensures Follow(r, link, s).Some? ==>
              && RedirectBudget(Follow(r, link, s).value, s) == RedirectBudget(r, s) - (if link.Redirect? then 1 else 0)
              && RetryBudget(Follow(r, link, s).value, s) == RetryBudget(r, s) - (if link.Retry? then 1 else 0)
  {
  }

  // ----- Chains

  function FollowAll(r: Values, links: seq<Link>, s: Settings): Option<Values>
    decreases |links|
  {
    if links == [] then Some(r) else
    match Follow(r, links[0], s)
    case None => None
    case Some(next) => FollowAll(next, links[1..], s)
  }

  function Redirects(links: seq<Link>): nat {
    if links == [] then 0 else (if links[0].Redirect? then 1 else 0) + Redirects(links[1..])
  }

  function Retries(links: seq<Link>): (n: nat)
    ensures n == |links| - Redirects(links)
  {
    if links == [] then 0 else (if links[0].Retry? then 1 else 0) + Retries(links[1..])
  }

  /** The URLs redirected from, which retries do not change. */
  function Visited(url: int, links: seq<Link>): seq<int>
    decreases |links|
  {
    if links == [] then [] else
    match links[0]
    case Redirect(next, _) => [url] + Visited(next, links[1..])
    case Retry => Visited(url, links[1..])
  }

  function ReasonsOf(links: seq<Link>): seq<int> {
    if links == [] then [] else
    (if links[0].Redirect? then [links[0].reason] else []) + ReasonsOf(links[1..])
  }

  /** Any interleaving of redirects and retries goes through if and only if there are no more
      of each than its own budget allows, in whatever order they come. */
  lemma {:induction false} ChainFits(r: Values, links: seq<Link>, s: Settings)
    ensures FollowAll(r, links, s).Some? <==>
        Redirects(links) <= RedirectBudget(r, s) && Retries(links) <= RetryBudget(r, s)
    decreases |links|
  {
    if links != [] {
      LinkSpendsOne(r, links[0], s);
      if next: Values :| Follow(r, links[0], s) == Some(next) {
        ChainFits(next, links[1..], s);
      }
    }
  }

  /** So for retries alone: a `max_retry_times` in the meta goes before the setting, and one retry is
      too many once `retry_times` has reached it. */
  lemma RetriesFit(r: Values, n: nat, s: Settings)
    ensures FollowAll(r, seq(n, _ => Retry), s).Some? <==>
        || n == 0
        || (!r.meta.dontRetry
            && (if r.meta.retryTimes.Some? then r.meta.retryTimes.value else 0) + n
               <= if r.meta.maxRetryTimes.Some? then r.meta.maxRetryTimes.value else s.retryTimes)
  {
    CountedRetries(n);
    ChainFits(r, seq(n, _ => Retry), s);
  }

  lemma {:induction false} CountedRetries(n: nat)
    ensures var links: seq<Link> := seq(n, _ => Retry); Redirects(links) == 0 && Retries(links) == n
  {
    if n > 0 {
      CountedRetries(n - 1);
      var links: seq<Link> := seq(n, _ => Retry);
      assert links[1..] == seq(n - 1, _ => Retry);
    }
  }

  /** And for redirects alone: at most as many as the setting allows beyond `redirect_times`, and as
      the time to live in the meta allows, if there is one; a negative one is no limit. */
  lemma RedirectsFit(r: Values, url: int, reason: int, n: nat, s: Settings)
    ensures FollowAll(r, seq(n, _ => Redirect(url, reason)), s).Some? <==>
        || n == 0
        || (&& (if r.meta.redirectTimes.Some? then r.meta.redirectTimes.value else 0) + n <= s.maxRedirectTimes
            && var ttl := if r.meta.redirectTtl.Some? then r.meta.redirectTtl.value else s.maxRedirectTimes;
               ttl < 0 || n <= ttl)
  {
    CountedRedirects(url, reason, n);
    ChainFits(r, seq(n, _ => Redirect(url, reason)), s);
  }

  lemma {:induction false} CountedRedirects(url: int, reason: int, n: nat)
    ensures var links := seq(n, _ => Redirect(url, reason)); Redirects(links) == n && Retries(links) == 0
  {
    if n > 0 {
      CountedRedirects(url, reason, n - 1);
      var links := seq(n, _ => Redirect(url, reason));
      assert links[1..] == seq(n - 1, _ => Redirect(url, reason));
    }
  }

  /** What the last request of a chain remembers: the URLs and the reasons of the redirects in
      order. */
  lemma {:induction false} ChainRemembers(r: Values, links: seq<Link>, s: Settings)
    requires FollowAll(r, links, s).Some?
    ensures var last := FollowAll(r, links, s).value;
            Urls(last) == Urls(r) + Visited(r.url, links) && Reasons(last) == Reasons(r) + ReasonsOf(links)
    decreases |links|
  {
    if links != [] {
      var next := Follow(r, links[0], s).value;
      ChainRemembers(next, links[1..], s);
      if links[0].Redirect? {
        assert Urls(next) == Urls(r) + [r.url] && Reasons(next) == Reasons(r) + [links[0].reason];
        assert Urls(r) + [r.url] + Visited(next.url, links[1..]) == Urls(r) + Visited(r.url, links);
      } else {
        assert Urls(next) == Urls(r) && Reasons(next) == Reasons(r);
      }
    }
  }

  /** The number of redirects, which with the time to live makes a constant, and of retries. */
  lemma {:induction false} ChainCounts(r: Values, links: seq<Link>, s: Settings)
    requires FollowAll(r, links, s).Some?
    ensures var last := FollowAll(r, links, s).value;
            && Times(last) == Times(r) + Redirects(links)
            && RetryTimes(last) == RetryTimes(r) + Retries(links)
            && Ttl(last, s) + Times(last) == Ttl(r, s) + Times(r)
            && last.dontFilter == (r.dontFilter || Retries(links) > 0)
    decreases |links|
  {
    if links != [] {
      ChainCounts(Follow(r, links[0], s).value, links[1..], s);
    }
  }

  function RetryAdjust(r: Values, s: Settings): int {
    OrElse(r.meta.priorityAdjust, s.retryPriorityAdjust)
  }

  /** Each link moves the priority once. */
  lemma {:induction false} ChainPriority(r: Values, links: seq<Link>, s: Settings)
    requires FollowAll(r, links, s).Some?
    ensures FollowAll(r, links, s).value.priority
         == r.priority + Redirects(links) * s.redirectPriorityAdjust
          + Retries(links) * if r.meta.priorityAdjust.Some? then r.meta.priorityAdjust.value else s.retryPriorityAdjust
    decreases |links|
  {
    if links != [] {
      var next := Follow(r, links[0], s).value;
      hide RedirectBudget, RetryBudget;
      ChainPriority(next, links[1..], s);
      var i, j, p, q := Redirects(links[1..]), Retries(links[1..]), s.redirectPriorityAdjust, RetryAdjust(r, s);
      if links[0].Redirect? {
        assert next.priority == r.priority + p && RetryAdjust(next, s) == q;
        OneMore(i, p);
      } else {
        assert next.priority == r.priority + q && RetryAdjust(next, s) == q;
        OneMore(j, q);
      }
    }
  }

  lemma OneMore(n: nat, p: int)
    ensures (n + 1) * p == n * p + p
  {}

  lemma {:induction false} VisitedLength(url: int, links: seq<Link>)
    ensures |Visited(url, links)| == |ReasonsOf(links)| == Redirects(links)
    decreases |links|
  {
    if links != [] {
      VisitedLength(if links[0].Redirect? then links[0].url else url, links[1..]);
    }
  }

  /** From a request without any of these keys: no chain is longer than both limits together,
      and the two lists are as long as the number of redirects says. */
  lemma FreshChain(r: Values, links: seq<Link>, s: Settings)
    requires r.meta == NO_META && FollowAll(r, links, s).Some?
    ensures |links| <= AtLeastZero(s.maxRedirectTimes) + AtLeastZero(s.retryTimes)
    ensures var last := FollowAll(r, links, s).value;
            |Urls(last)| == |Reasons(last)| == Times(last) && Ttl(last, s) + Times(last) == s.maxRedirectTimes
  {
    ChainFits(r, links, s);
    ChainRemembers(r, links, s);
    ChainCounts(r, links, s);
    VisitedLength(r.url, links);
  }

  // ----- The middlewares and the download loop

  class Request {
    var url: int
    var priority: int
    var dontFilter: bool
    var meta: Meta

    function Now(): Values
      reads this
    {
      Values(url, priority, dontFilter, meta)
    }

    constructor (u: int, p: int, d: bool, m: Meta)
      ensures Now() == Values(u, p, d, m)
    {
      url, priority, dontFilter, meta := u, p, d, m;
    }
  }

  /** `setdefault` of the time to live. */
  function WithTtl(r: Values, s: Settings): Values {
    r.(meta := r.meta.(redirectTtl := Some(Ttl(r, s))))
  }

  /** `_redirect` on the request built for the new location. The old request gets a time to
      live if it has none, also when the redirect is refused. */
  method RedirectRequest(redirected: Request, request: Request, reason: int, s: Settings) returns (ok: bool)
    requires redirected != request && redirected.meta == request.meta && redirected.dontFilter == request.dontFilter
    modifies redirected, request
    ensures ok == Follow(old(request.Now()), Redirect(old(redirected.url), reason), s).Some?
    ensures ok ==> Some(redirected.Now()) == Follow(old(request.Now()), Redirect(old(redirected.url), reason), s)
    ensures !ok ==> redirected.Now() == old(redirected.Now())
    ensures request.Now() == WithTtl(old(request.Now()), s)
  {
    if request.meta.redirectTtl.None? {
      request.meta := request.meta.(redirectTtl := Some(s.maxRedirectTimes));
    }
    var ttl := request.meta.redirectTtl.value;
    var redirects := OrElse(request.meta.redirectTimes, 0) + 1;
    ok := ttl != 0 && redirects <= s.maxRedirectTimes;
    if ok {
      redirected.meta := redirected.meta.(redirectTimes := Some(redirects), redirectTtl := Some(ttl - 1));
      redirected.meta := redirected.meta.(
        redirectUrls := Some(OrElse(request.meta.redirectUrls, []) + [request.url]),
        redirectReasons := Some(OrElse(request.meta.redirectReasons, []) + [reason]));
      redirected.dontFilter := request.dontFilter;
      redirected.priority := request.priority + s.redirectPriorityAdjust;
    }
  }

  /** `get_retry_request`, as the middleware calls it: a changed copy, or none. */
  method RetryRequest(request: Request, s: Settings) returns (retry: Request?)
    requires !request.meta.dontRetry
    ensures retry == null <==> Follow(request.Now(), Retry, s).None?
    ensures retry != null ==> fresh(retry) && Some(retry.Now()) == Follow(request.Now(), Retry, s)
  {
    var retryTimes := OrElse(request.meta.retryTimes, 0) + 1;
    if retryTimes > OrElse(request.meta.maxRetryTimes, s.retryTimes) {
      return null;
    }
    retry := new Request(request.url, request.priority, request.dontFilter, request.meta);
    retry.meta := retry.meta.(retryTimes := Some(retryTimes));
    retry.dontFilter := true;
    retry.priority := request.priority + OrElse(request.meta.priorityAdjust, s.retryPriorityAdjust);
  }

  datatype Fetched = Response | Ignored

  /** The loop of `download_async` when only these middlewares answer with requests. `site(n)` is
      what fetch `n` ends with: a redirect, something to be retried, or neither. Whatever it is,
      the loop follows as many links as the budgets allow, in order, and ends at the first fetch
      that calls for none or for one that is refused; a refused redirect is an IgnoreRequest. */
  method DownloadAsync(first: Request, site: nat -> Option<Link>, s: Settings)
      returns (result: Fetched, last: Request, ghost links: seq<Link>)
    modifies first
    ensures fresh(last) || last == first
    ensures forall n | 0 <= n < |links| :: site(n) == Some(links[n])
    ensures var end, reached := site(|links|), FollowAll(old(first.Now()), links, s);
            && reached.Some?
            && (end.Some? ==> Follow(reached.value, end.value, s).None?)
            && (result.Ignored? <==> end.Some? && end.value.Redirect?)
            && last.Now() == if result.Ignored? then WithTtl(reached.value, s) else reached.value
    ensures Redirects(links) <= RedirectBudget(old(first.Now()), s)
        && Retries(links) <= RetryBudget(old(first.Now()), s)
    ensures result.Ignored? ==> Redirects(links) == RedirectBudget(old(first.Now()), s)
  {
    last, links := first, [];
    var n := 0;
    ghost var start := first.Now();
    while true
      invariant fresh(last) || last == first
      invariant n == |links| && forall k | 0 <= k < n :: site(k) == Some(links[k])
      invariant FollowAll(start, links, s) == Some(last.Now())
      decreases RedirectBudget(last.Now(), s) + RetryBudget(last.Now(), s)
    {
      ChainFits(start, links, s);
      if site(n).None? {
        return Response, last, links;
      }
      var link := site(n).value;
      LinkSpendsOne(last.Now(), link, s);
      FollowOneMore(start, links, link, s);
      match link {
        case Redirect(url, reason) =>
          var redirected := new Request(url, last.priority, last.dontFilter, last.meta);
          var ok := RedirectRequest(redirected, last, reason, s);
          if !ok {
            BudgetSpent(start, links, s);
            return Ignored, last, links;
          }
          last := redirected;
        case Retry =>
          if last.meta.dontRetry {
            return Response, last, links;
          }
          var retry := RetryRequest(last, s);
          if retry == null {
            return Response, last, links;
          }
          last := retry;
      }
      links, n := links + [link], n + 1;
    }
  }

  lemma {:induction false} FollowOneMore(r: Values, links: seq<Link>, link: Link, s: Settings)
    requires FollowAll(r, links, s).Some?
    ensures FollowAll(r, links + [link], s) == Follow(FollowAll(r, links, s).value, link, s)
    decreases |links|
  {
    if links == [] {
      assert links + [link] == [link];
    } else {
      assert (links + [link])[1..] == links[1..] + [link];
      FollowOneMore(Follow(r, links[0], s).value, links[1..], link, s);
    }
  }

  lemma {:induction false} BudgetSpent(r: Values, links: seq<Link>, s: Settings)
    requires FollowAll(r, links, s).Some?
    ensures var last := FollowAll(r, links, s).value;
            && RedirectBudget(last, s) == RedirectBudget(r, s) - Redirects(links)
            && RetryBudget(last, s) == RetryBudget(r, s) - Retries(links)
    decreases |links|
  {
    if links != [] {
      LinkSpendsOne(r, links[0], s);
      BudgetSpent(Follow(r, links[0], s).value, links[1..], s);
    }
  }
}
