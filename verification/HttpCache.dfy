/** scrapy/extensions/httpcache.py, RFC2616Policy: when a stored response may be used, over real
    time. Headers appear as what the parsing helpers make of them. */
module HttpCache {
  import opened Reals
  import opened Requests

  /** A directive of Cache-Control: missing, without a value, or with a value that is a number
      or not. */
  datatype Directive = Absent | Valueless | Unparsable | Number(n: int)

  /** `None` stands for a date header that is missing or not a date, and for a missing header
      where its text is meant. */
  datatype Response = Response(
    status: int,
    noCache: bool,
    mustRevalidate: bool,
    maxAge: Directive,
    date: Option<int>,
    hasExpires: bool,
    expires: Option<int>,
    lastModified: Option<int>,
    age: Directive,
    lastModifiedText: Option<string>,
    etag: Option<string>)

  datatype Request = Request(noCache: bool, maxAge: Directive, maxStale: Directive)

  const MAXAGE: real := 31536000.0

  /** A request that says nothing. */
  const PLAIN := Request.Request(false, Absent, Absent)

  /** `int(None)` is a TypeError, which nobody catches. */
  datatype Answer = Fresh | Stale | TypeError

  function Max0(x: real): real { Max(0.0, x) }

  /** A date that counts: zero is taken for no date. */
  function Epoch(d: Option<int>): Option<real> {
    if d.Some? && d.value != 0 then Some(d.value as real) else None
  }

  function Date(r: Response, now: real): real {
    var d := Epoch(r.date);
    if d.Some? then d.value else now
  }

  /** `_compute_freshness_lifetime`, where max-age is not a directive without value. */
  function FreshnessLifetime(r: Response, now: real): real {
    if r.maxAge.Number? then Max0(r.maxAge.n as real) else
    var date := Date(r, now);
    if r.hasExpires then
      (if Epoch(r.expires).Some? then Max0(Epoch(r.expires).value - date) else 0.0)
    else
      var modified := Epoch(r.lastModified);
      if modified.Some? && modified.value <= date then (date - modified.value) / 10.0
      else if r.status in {300, 301, 308} then MAXAGE
      else 0.0
  }

  /** `_compute_current_age`. */
  function CurrentAge(r: Response, now: real): real {
    var date := Date(r, now);
    var apparent := if now > date then now - date else 0.0;
    if r.age.Number? && r.age.n as real > apparent then r.age.n as real else apparent
  }

  /** The freshness lifetime as limited by the request's max-age. */
  function Lifetime(r: Response, q: Request, now: real): real {
    var lifetime := FreshnessLifetime(r, now);
    if q.maxAge.Number? then Min(lifetime, Max0(q.maxAge.n as real)) else lifetime
  }

  /** `is_cached_response_fresh`. */
  function IsFresh(r: Response, q: Request, now: real): Answer {
    if r.noCache || q.noCache then Stale
    else if r.maxAge.Valueless? || q.maxAge.Valueless? then TypeError
    else if CurrentAge(r, now) < Lifetime(r, q, now) then Fresh
    else if q.maxStale.Absent? || r.mustRevalidate then Stale
    else if q.maxStale.Valueless? then Fresh
    else if q.maxStale.Number? && CurrentAge(r, now) < Lifetime(r, q, now) + Max0(q.maxStale.n as real) then Fresh
    else Stale
  }

  /** The headers of a request that ask the server whether a stored response is still good. */
  class Conditions {
    var ifModifiedSince: Option<string>
    var ifNoneMatch: Option<string>

    constructor ()
      ensures ifModifiedSince == ifNoneMatch == None
    {
      ifModifiedSince, ifNoneMatch := None, None;
    }

    /** `_set_conditional_validators`. */
    method SetValidators(r: Response)
      modifies this
      ensures ifModifiedSince == if r.lastModifiedText.Some? then r.lastModifiedText else old(ifModifiedSince)
      ensures ifNoneMatch == if r.etag.Some? then r.etag else old(ifNoneMatch)
    {
      if r.lastModifiedText.Some? {
        ifModifiedSince := r.lastModifiedText;
      }
      if r.etag.Some? {
        ifNoneMatch := r.etag;
      }
    }
  }

  /** The decision, and the validators: they are set exactly if the response is stale by its age,
      not if one of the two says no-cache. */
  method IsCachedResponseFresh(r: Response, q: Request, conditions: Conditions, now: real) returns (answer: Answer)
    modifies conditions
    ensures answer == IsFresh(r, q, now)
    ensures var asks := answer.Stale? && !r.noCache && !q.noCache;
            && conditions.ifModifiedSince
               == (if asks && r.lastModifiedText.Some? then r.lastModifiedText else old(conditions.ifModifiedSince))
            && conditions.ifNoneMatch == (if asks && r.etag.Some? then r.etag else old(conditions.ifNoneMatch))
  {
    if r.noCache || q.noCache {
      return Stale;
    }
    if r.maxAge.Valueless? {
      return TypeError;
    }
    var lifetime := FreshnessLifetime(r, now);
    var age := CurrentAge(r, now);
    if q.maxAge.Valueless? {
      return TypeError;
    }
    if q.maxAge.Number? {
      lifetime := Min(lifetime, Max0(q.maxAge.n as real));
    }
    if age < lifetime {
      return Fresh;
    }
    if !q.maxStale.Absent? && !r.mustRevalidate {
      if q.maxStale.Valueless? {
        return Fresh;
      }
      if q.maxStale.Number? && age < lifetime + Max0(q.maxStale.n as real) {
        return Fresh;
      }
    }
    conditions.SetValidators(r);
    return Stale;
  }

  // ----- Staleness over time

  ghost predicate StalenessIsPermanent(r: Response, q: Request) {
    forall now, later | now <= later && IsFresh(r, q, later).Fresh? :: IsFresh(r, q, now).Fresh?
  }

  /** How much staleness the request accepts, if it says how much. */
  function Slack(r: Response, q: Request): real {
    if q.maxStale.Number? && !r.mustRevalidate then Max0(q.maxStale.n as real) else 0.0
  }

  predicate AnyStaleness(r: Response, q: Request) {
    q.maxStale.Valueless? && !r.mustRevalidate
  }

  /** The two comparisons with the age are one. */
  lemma FreshByAge(r: Response, q: Request, now: real)
    requires !r.noCache && !q.noCache && !r.maxAge.Valueless? && !q.maxAge.Valueless?
    ensures IsFresh(r, q, now).Fresh? <==> AnyStaleness(r, q) || CurrentAge(r, now) < Lifetime(r, q, now) + Slack(r, q)
  {}

  /** Without a date of its own, and with nothing else to go by than when it was modified, a
      response is taken to stay fresh for a tenth of the time since then, counted up to now, so
      that it gets fresh again as time goes by. That shows when the Age is within what the
      request accepts at first, and not beyond what it accepts at all. */
  predicate GetsFreshAgain(r: Response, q: Request) {
    && !r.noCache && !q.noCache && !q.maxAge.Valueless? && !AnyStaleness(r, q)
    && Epoch(r.date).None? && !r.maxAge.Number? && !r.maxAge.Valueless? && !r.hasExpires && Epoch(r.lastModified).Some?
    && var age := if r.age.Number? then Max0(r.age.n as real) else 0.0;
       Slack(r, q) <= age && (q.maxAge.Number? ==> age < Slack(r, q) + Max0(q.maxAge.n as real))
  }

  lemma LifetimeShrinks(r: Response, q: Request, now: real, later: real)
    requires now <= later && (Epoch(r.date).Some? || r.maxAge.Number? || r.hasExpires || Epoch(r.lastModified).None?)
    ensures Lifetime(r, q, later) <= Lifetime(r, q, now) && CurrentAge(r, now) <= CurrentAge(r, later)
  {}

  /** For a stored response with a date, whatever else it and the request say: once stale it
      stays stale. Without a date that is so if and only if it does not get fresh again in the
      way described. */
  lemma StalenessOverTime(r: Response, q: Request)
    ensures StalenessIsPermanent(r, q) <==> !GetsFreshAgain(r, q)
    ensures Epoch(r.date).Some? ==> StalenessIsPermanent(r, q)
  {
    if GetsFreshAgain(r, q) {
      var modified, age := Epoch(r.lastModified).value, CurrentAge(r, 0.0);
      var later := modified + 10.0 * age + 1.0;
      FreshByAge(r, q, modified);
      FreshByAge(r, q, later);
      assert IsFresh(r, q, later).Fresh? && !IsFresh(r, q, modified).Fresh?;
    } else {
      forall now, later | now <= later && IsFresh(r, q, later).Fresh? ensures IsFresh(r, q, now).Fresh? {
        FreshByAge(r, q, now);
        FreshByAge(r, q, later);
        if Epoch(r.date).Some? || r.maxAge.Number? || r.hasExpires || Epoch(r.lastModified).None? {
          LifetimeShrinks(r, q, now, later);
        }
      }
    }
  }

  /** A response with an Age of a second and without a date, last modified at `modified`, is stale
      then and fresh eleven seconds later. */
  lemma StaleThenFresh(modified: int) returns (r: Response)
    requires modified != 0
    ensures r == Response(200, false, false, Absent, None, false, None, Some(modified), Number(1), None, None)
    ensures IsFresh(r, PLAIN, modified as real).Stale? && IsFresh(r, PLAIN, modified as real + 11.0).Fresh?
  {
    r := Response(200, false, false, Absent, None, false, None, Some(modified), Number(1), None, None);
    FreshByAge(r, PLAIN, modified as real);
    FreshByAge(r, PLAIN, modified as real + 11.0);
  }

  /** A response with a date is fresh up to a moment that does not depend on the clock, its date
      plus lifetime plus accepted staleness, if its Age is below the latter two. */
  lemma FreshUntil(r: Response, q: Request, now: real)
    requires !r.noCache && !q.noCache && !r.maxAge.Valueless? && !q.maxAge.Valueless? && !AnyStaleness(r, q)
    requires Epoch(r.date).Some?
    ensures var date, lifetime := Epoch(r.date).value, Lifetime(r, q, Epoch(r.date).value) + Slack(r, q);
            IsFresh(r, q, now).Fresh? <==>
              now < date + lifetime && lifetime > 0.0 && (r.age.Number? ==> r.age.n as real < lifetime)
  {
    FreshByAge(r, q, now);
  }

  /** What the headers say about that moment, for a request that says nothing: max-age counts
      from the date and goes first, Expires names the moment, and otherwise a tenth of the time
      from the last modification to the date is added to the date. */
  lemma FreshUntilWhen(r: Response, now: real)
    requires !r.noCache && !r.maxAge.Valueless? && r.age.Absent? && Epoch(r.date).Some?
    ensures var date, usable := Epoch(r.date).value, IsFresh(r, PLAIN, now).Fresh?;
            && (r.maxAge.Number? ==> (usable <==> r.maxAge.n > 0 && now < date + r.maxAge.n as real))
            && (!r.maxAge.Number? && r.hasExpires ==>
                  (usable <==> Epoch(r.expires).Some? && now < Epoch(r.expires).value && date < Epoch(r.expires).value))
            && (!r.maxAge.Number? && !r.hasExpires && Epoch(r.lastModified).Some? ==>
                  var modified := Epoch(r.lastModified).value;
                  modified <= date ==> (usable <==> modified < date && 10.0 * (now - date) < date - modified))
            && (!r.maxAge.Number? && !r.hasExpires
                && (Epoch(r.lastModified).Some? ==> Epoch(r.lastModified).value > date) ==>
                  (usable <==> (r.status == 300 || r.status == 301 || r.status == 308) && now < date + 31536000.0))
  {
    FreshUntil(r, PLAIN, now);
  }

  /** What the request says is taken off or added to that: its max-age is a limit to the lifetime,
      and its max-stale is what may be exceeded, unless the response must be revalidated. */
  lemma RequestDirectives(r: Response, maxAge: int, maxStale: int, now: real)
    requires !r.noCache && r.maxAge.Number? && r.age.Absent? && Epoch(r.date).Some?
    requires r.maxAge.n >= 0 && maxAge >= 0 && maxStale >= 0
    ensures var date := Epoch(r.date).value;
            var lifetime := if maxAge < r.maxAge.n then maxAge else r.maxAge.n;
            var accepted := if r.mustRevalidate then lifetime else lifetime + maxStale;
            IsFresh(r, Request.Request(false, Number(maxAge), Number(maxStale)), now).Fresh? <==>
              accepted > 0 && now < date + accepted as real
  {
    FreshUntil(r, Request.Request(false, Number(maxAge), Number(maxStale)), now);
  }

  /** no-cache, of either side, goes before all else; a max-stale without a value accepts any age,
      unless the response must be revalidated, and one that is no number accepts none. */
  lemma DirectivesGoFirst(r: Response, q: Request, now: real)
    ensures r.noCache || q.noCache ==> IsFresh(r, q, now) == Stale
    ensures !r.noCache && !q.noCache && !r.maxAge.Valueless? && !q.maxAge.Valueless? && q.maxStale.Valueless?
            && !r.mustRevalidate ==>
              IsFresh(r, q, now) == Fresh
    ensures q.maxStale.Unparsable? || r.mustRevalidate ==>
              IsFresh(r, q, now) == IsFresh(r, q.(maxStale := Absent), now)
    ensures q.maxAge.Unparsable? ==> IsFresh(r, q, now) == IsFresh(r, q.(maxAge := Absent), now)
  {}

  /** The beginning of 1970 is taken for no date, wherever it stands. */
  lemma ZeroIsNoDate(r: Response, q: Request, now: real)
    ensures r.date == Some(0) ==> IsFresh(r, q, now) == IsFresh(r.(date := None), q, now)
    ensures r.expires == Some(0) ==> IsFresh(r, q, now) == IsFresh(r.(expires := None), q, now)
    ensures r.lastModified == Some(0) ==> IsFresh(r, q, now) == IsFresh(r.(lastModified := None), q, now)
  {}

  /** The policy gives no answer at all exactly when a max-age without a value is looked at. */
  lemma FailsOnValuelessMaxAge(r: Response, q: Request, now: real)
    ensures IsFresh(r, q, now).TypeError? <==> !r.noCache && !q.noCache && (r.maxAge.Valueless? || q.maxAge.Valueless?)
  {}
}
