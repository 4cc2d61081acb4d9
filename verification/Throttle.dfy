/** scrapy/extensions/throttle.py: how the delay of a download slot follows the latency of the
    site, over reals. */
module Throttle {
  import opened Reals

  class Slot {
    var delay: real

    constructor (d: real)
      ensures delay == d
    {
      delay := d;
    }
  }

  class AutoThrottle {
    const mindelay: real
    const maxdelay: real
    const targetConcurrency: real

    constructor (low: real, high: real, concurrency: real)
      requires concurrency > 0.0
      ensures mindelay == low && maxdelay == high && targetConcurrency == concurrency
    {
      mindelay, maxdelay, targetConcurrency := low, high, concurrency;
    }

    method AdjustDelay(slot: Slot, latency: real, status: int)
      requires targetConcurrency > 0.0
      modifies slot
      ensures slot.delay == Adjusted(old(slot.delay), latency / targetConcurrency, status, mindelay, maxdelay)
    {
      var targetDelay := latency / targetConcurrency;
      var newDelay := (slot.delay + targetDelay) / 2.0;
      newDelay := if targetDelay > newDelay then targetDelay else newDelay;
      newDelay := if mindelay > newDelay then mindelay else newDelay;
      newDelay := if maxdelay < newDelay then maxdelay else newDelay;
      if status != 200 && newDelay <= slot.delay {
        return;
      }
      slot.delay := newDelay;
    }
  }

  function Adjusted(delay: real, target: real, status: int, low: real, high: real): real {
    var next := Min(Max(low, Max(target, (delay + target) / 2.0)), high);
    if status != 200 && next <= delay then delay else next
  }

  /** An update that is applied lands between the limits, one that is not leaves the delay as it
      was, and a response other than 200 never lowers it. */
  lemma AdjustedStaysInRange(delay: real, target: real, status: int, low: real, high: real)
    requires low <= high
    ensures var next := Adjusted(delay, target, status, low, high);
            && (low <= next <= high || (next == delay && status != 200))
            && (status == 200 ==> low <= next <= high)
            && (low <= delay <= high ==> low <= next <= high)
            && (status != 200 ==> next >= delay)
  {}

  /** The delay after responses with these targets and statuses. */
  function Run(delay: real, targets: seq<real>, statuses: seq<int>, low: real, high: real): real
    requires |targets| == |statuses|
    decreases |targets|
  {
    if targets == [] then delay else
    Run(Adjusted(delay, targets[0], statuses[0], low, high), targets[1..], statuses[1..], low, high)
  }

  function Successes(statuses: seq<int>): nat {
    if statuses == [] then 0 else (if statuses[0] == 200 then 1 else 0) + Successes(statuses[1..])
  }

  function Halved(x: real, k: nat): real
    decreases k
  {
    if k == 0 then x else Halved(x / 2.0, k - 1)
  }

  ghost predicate All(targets: seq<real>, t: real) {
    forall i | 0 <= i < |targets| :: targets[i] == t
  }

  /** A constant target between the limits, and a delay at or above it: each response 200 halves
      the excess over the target, exactly; other responses change nothing. */
  lemma {:induction false} ExcessHalves(delay: real, t: real, targets: seq<real>, statuses: seq<int>, low: real,
      high: real)
    requires |targets| == |statuses| && All(targets, t) && low <= t <= delay <= high
    ensures Run(delay, targets, statuses, low, high) - t == Halved(delay - t, Successes(statuses))
    decreases |targets|
  {
    if targets != [] {
      var next := Adjusted(delay, targets[0], statuses[0], low, high);
      assert next == if statuses[0] == 200 then (delay + t) / 2.0 else delay;
      ExcessHalves(next, t, targets[1..], statuses[1..], low, high);
    }
  }

  /** The target, or the limit next to it. */
  function Within(t: real, low: real, high: real): real {
    if t < low then low else if t > high then high else t
  }

  /** One response, wherever delay and target are: up to the target at once and down by half of
      the way at most, in both directions no further than the limits; and not down at all for
      another status than 200. */
  lemma AdjustedByCases(delay: real, target: real, status: int, low: real, high: real)
    requires low <= high
    ensures var next := Adjusted(delay, target, status, low, high);
            && (target > high ==> next == if status != 200 && delay >= high then delay else high)
            && (target <= low && delay <= low ==> next == if status != 200 && delay == low then delay else low)
            && (low <= target <= high && delay <= target ==> next == target)
            && (low <= target <= high && target < delay <= high && status == 200 ==> next == (delay + target) / 2.0)
            && (target < low < delay <= high && status == 200 ==>
                  next == if delay - low > low - target then (delay + target) / 2.0 else low)
            && (status != 200 && target < delay && low <= delay ==> next == delay)
  {}

  /** From any delay and for any constant target, both inside, below or above the limits: the
      excess over the target, or over the limit next to it, is never more than what halving once
      per response 200 makes of the first excess, and not negative; and a delay below has none
      left after one response of any status. */
  lemma {:induction false} Converges(delay: real, t: real, targets: seq<real>, statuses: seq<int>, low: real,
      high: real)
    requires |targets| == |statuses| > 0 && All(targets, t) && low <= high
    ensures var goal := Within(t, low, high);
            var excess := Run(delay, targets, statuses, low, high) - goal;
            0.0 <= excess <= Halved(Max(delay - goal, 0.0), Successes(statuses)) && (delay <= goal ==> excess == 0.0)
    decreases |targets|
  {
    var goal := Within(t, low, high);
    var next := Adjusted(delay, targets[0], statuses[0], low, high);
    var first := Max(delay - goal, 0.0);
    var k := Successes(statuses[1..]);
    OneResponse(delay, t, statuses[0], low, high);
    if |targets| > 1 {
      Converges(next, t, targets[1..], statuses[1..], low, high);
    } else {
      assert Run(delay, targets, statuses, low, high) == next;
    }
    if statuses[0] == 200 {
      HalvedMonotone(next - goal, first / 2.0, k);
    } else {
      HalvedMonotone(next - goal, first, k);
    }
    HalvedZero(k);
    HalvedZero(Successes(statuses));
  }

  lemma OneResponse(delay: real, t: real, status: int, low: real, high: real)
    requires low <= high
    ensures var goal, next := Within(t, low, high), Adjusted(delay, t, status, low, high);
            && 0.0 <= next - goal <= (if status == 200 then Max(delay - goal, 0.0) / 2.0 else Max(delay - goal, 0.0))
            && (delay <= goal ==> next == goal)
  {}

  lemma {:induction false} HalvedZero(k: nat)
    ensures Halved(0.0, k) == 0.0
    decreases k
  {
    if k > 0 {
      HalvedZero(k - 1);
    }
  }

  lemma {:induction false} HalvedMonotone(x: real, y: real, k: nat)
    requires 0.0 <= x <= y
    ensures 0.0 <= Halved(x, k) <= Halved(y, k)
    decreases k
  {
    if k > 0 {
      HalvedMonotone(x / 2.0, y / 2.0, k - 1);
    }
  }

  /** Halving gets below any bound: `k` halvings of `x` times `k + 1` are at most `x`. */
  lemma {:induction false} HalvedShrinks(x: real, k: nat)
    requires x >= 0.0
    ensures Halved(x, k) * (k as real + 1.0) <= x && Halved(x, k) >= 0.0
    decreases k
  {
    if k > 0 {
      HalvedShrinks(x / 2.0, k - 1);
      var h := Halved(x, k);
      assert h * (k as real) <= x / 2.0;
      HalvedMonotone(0.0, x / 2.0, k - 1);
      Doubles(x / 2.0, k - 1);
      assert h * (k as real + 1.0) == h * (k as real) + h;
    }
  }

  lemma {:induction false} Doubles(x: real, k: nat)
    requires x >= 0.0
    ensures 0.0 <= Halved(x, k) <= x
    decreases k
  {
    if k > 0 {
      Doubles(x / 2.0, k - 1);
    }
  }

  /** Targets that vary between two bounds within the limits keep the delay between them. */
  lemma {:induction false} BracketHolds(delay: real, targets: seq<real>, statuses: seq<int>, low: real, high: real,
      a: real, b: real)
    requires |targets| == |statuses| && low <= a <= delay <= b <= high
    requires forall i | 0 <= i < |targets| :: a <= targets[i] <= b
    ensures a <= Run(delay, targets, statuses, low, high) <= b
    decreases |targets|
  {
    if targets != [] {
      BracketHolds(Adjusted(delay, targets[0], statuses[0], low, high), targets[1..], statuses[1..], low, high, a, b);
    }
  }
}
