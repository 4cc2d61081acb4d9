/** scrapy/utils/asyncio.py: one producer and `count` workers share a bounded queue; `None` on
    the queue stops one worker.

    A step is the code of one coroutine between two awaits: the producer puts, a worker gets,
    a call finishes. The elements the producer still has to put are the rest of the iterable
    followed by `count` times `None`. */
module WorkerPool {
  import opened Requests

  datatype Worker<T> = Idle | Busy(item: T) | Stopped

  datatype State<T> = State(
    pending: seq<Option<T>>,
    queue: seq<Option<T>>,
    workers: seq<Worker<T>>,
    got: seq<Option<T>>,
    finished: multiset<T>)

  datatype Step = Put | Get(w: nat) | Finish(w: nat)

  function Stops<T>(n: nat): (s: seq<Option<T>>)
    ensures |s| == n && forall k | 0 <= k < n :: s[k] == None
  {
    seq(n, _ => None)
  }

  function Init<T>(xs: seq<Option<T>>, count: nat): State<T> {
    State(xs + Stops(count), [], seq(count, _ => Idle), [], multiset{})
  }

  /** `asyncio.Queue(2 * count)`, which has no limit if that is not positive. */
  predicate HasRoom(queued: nat, count: nat) {
    count == 0 || queued < 2 * count
  }

  predicate Enabled<T>(s: State<T>, step: Step) {
    match step
    case Put => s.pending != [] && HasRoom(|s.queue|, |s.workers|)
    case Get(w) => w < |s.workers| && s.workers[w].Idle? && s.queue != []
    case Finish(w) => w < |s.workers| && s.workers[w].Busy?
  }

  function Next<T>(s: State<T>, step: Step): State<T>
    requires Enabled(s, step)
  {
    match step
    case Put => s.(pending := s.pending[1..], queue := s.queue + [s.pending[0]])
    case Get(w) =>
      s.(queue := s.queue[1..], got := s.got + [s.queue[0]],
         workers := s.workers[w := if s.queue[0].None? then Stopped else Busy(s.queue[0].value)])
    case Finish(w) =>
      s.(workers := s.workers[w := Idle], finished := s.finished + multiset{s.workers[w].item})
  }

  // ----- What a sequence of elements holds

  function Items<T>(xs: seq<Option<T>>): (s: seq<T>)
    ensures |s| + Nones(xs) == |xs|
  {
    if xs == [] then [] else
    Items(xs[..|xs| - 1]) + (if xs[|xs| - 1].Some? then [xs[|xs| - 1].value] else [])
  }

  function Nones<T>(xs: seq<Option<T>>): nat {
    if xs == [] then 0 else Nones(xs[..|xs| - 1]) + (if xs[|xs| - 1].None? then 1 else 0)
  }

  function StoppedCount<T>(ws: seq<Worker<T>>): nat {
    if ws == [] then 0 else StoppedCount(ws[..|ws| - 1]) + (if ws[|ws| - 1].Stopped? then 1 else 0)
  }

  function Hand<T>(w: Worker<T>): multiset<T> {
    if w.Busy? then multiset{w.item} else multiset{}
  }

  function InHand<T>(ws: seq<Worker<T>>): multiset<T> {
    if ws == [] then multiset{} else InHand(ws[..|ws| - 1]) + Hand(ws[|ws| - 1])
  }

  lemma {:induction false} NonesCat<T>(a: seq<Option<T>>, b: seq<Option<T>>)
    ensures Nones(a + b) == Nones(a) + Nones(b)
    ensures Items(a + b) == Items(a) + Items(b)
    decreases |b|
  {
    if b == [] {
      assert a + b == a;
    } else {
      var n := |b| - 1;
      assert (a + b)[..|a + b| - 1] == a + b[..n] && (a + b)[|a + b| - 1] == b[n];
      NonesCat(a, b[..n]);
    }
  }

  lemma {:induction false} NonesOfStops<T>(n: nat)
    ensures Nones<T>(Stops(n)) == n && Items<T>(Stops(n)) == []
  {
    if n > 0 {
      NonesOfStops<T>(n - 1);
      assert Stops<T>(n)[..n - 1] == Stops(n - 1);
    }
  }

  lemma Swap<T>(a: multiset<T>, x: multiset<T>, b: multiset<T>, y: multiset<T>, z: multiset<T>)
    requires a + x == b + y
    ensures (a + z) + x == (b + z) + y
  {
    assert (a + z) + x == (a + x) + z;
    assert (b + z) + y == (b + y) + z;
  }

  lemma {:induction false} StoppedChanged<T>(ws: seq<Worker<T>>, w: nat, to: Worker<T>)
    requires w < |ws|
    ensures StoppedCount(ws[w := to]) + (if ws[w].Stopped? then 1 else 0)
         == StoppedCount(ws) + (if to.Stopped? then 1 else 0)
    decreases |ws|
  {
    var n := |ws| - 1;
    if w < n {
      StoppedChanged(ws[..n], w, to);
      assert ws[w := to][..n] == ws[..n][w := to];
    } else {
      assert ws[w := to][..n] == ws[..n];
    }
  }

  lemma {:induction false} HandsChanged<T>(ws: seq<Worker<T>>, w: nat, to: Worker<T>)
    requires w < |ws|
    ensures InHand(ws[w := to]) + Hand(ws[w]) == InHand(ws) + Hand(to)
    decreases |ws|
  {
    hide Hand;
    var n := |ws| - 1;
    if w < n {
      HandsChanged(ws[..n], w, to);
      assert ws[w := to][..n] == ws[..n][w := to];
      Swap(InHand(ws[..n][w := to]), Hand(ws[w]), InHand(ws[..n]), Hand(to), Hand(ws[n]));
    } else {
      assert ws[w := to][..n] == ws[..n];
      Swap(InHand(ws[..n]), Hand(ws[n]), InHand(ws[..n]), Hand(ws[n]), Hand(to));
    }
  }

  /** Changing worker `w` changes the counts by what `w` was and is now. */
  lemma WorkerChanged<T>(ws: seq<Worker<T>>, w: nat, to: Worker<T>)
    requires w < |ws|
    ensures StoppedCount(ws[w := to]) + (if ws[w].Stopped? then 1 else 0)
        == StoppedCount(ws) + (if to.Stopped? then 1 else 0)
    ensures InHand(ws[w := to]) + Hand(ws[w]) == InHand(ws) + Hand(to)
    ensures |InHand(ws[w := to])| + |Hand(ws[w])| == |InHand(ws)| + |Hand(to)|
  {
    StoppedChanged(ws, w, to);
    HandsChanged(ws, w, to);
    assert |InHand(ws[w := to]) + Hand(ws[w])| == |InHand(ws) + Hand(to)|;
  }

  lemma {:induction false} CountsBounded<T>(ws: seq<Worker<T>>)
    ensures StoppedCount(ws) + |InHand(ws)| <= |ws|
    ensures StoppedCount(ws) == |ws| ==> forall w | 0 <= w < |ws| :: ws[w].Stopped?
    ensures (forall w | 0 <= w < |ws| :: ws[w].Stopped?) ==> StoppedCount(ws) == |ws|
    ensures (forall w | 0 <= w < |ws| :: !ws[w].Busy?) ==> InHand(ws) == multiset{}
    ensures (forall w | 0 <= w < |ws| :: ws[w].Idle?) ==> StoppedCount(ws) == 0
    decreases |ws|
  {
    if ws != [] {
      CountsBounded(ws[..|ws| - 1]);
    }
  }

  // ----- What every step keeps

  /** What was put comes out in order; a worker stops for each `None` it got; what was got is
      finished or in hand; and no element is got once all workers have stopped. */
  ghost predicate Inv<T>(s: State<T>, xs: seq<Option<T>>, count: nat) {
    && |s.workers| == count
    && s.got + s.queue + s.pending == xs + Stops(count)
    && (count > 0 ==> |s.queue| <= 2 * count)
    && StoppedCount(s.workers) == Nones(s.got)
    && multiset(Items(s.got)) == s.finished + InHand(s.workers)
    && (s.got != [] ==> Nones(s.got[..|s.got| - 1]) < count)
  }

  lemma InitHolds<T>(xs: seq<Option<T>>, count: nat)
    ensures Inv(Init(xs, count), xs, count)
  {
    CountsBounded(Init(xs, count).workers);
  }

  lemma GotOne<T>(got: seq<Option<T>>, x: Option<T>)
    ensures Nones(got + [x]) == Nones(got) + if x.None? then 1 else 0
    ensures multiset(Items(got + [x])) == multiset(Items(got)) + if x.Some? then multiset{x.value} else multiset{}
  {
    assert (got + [x])[..|got|] == got;
  }

  lemma PutKeeps<T>(s: State<T>, xs: seq<Option<T>>, count: nat)
    requires Inv(s, xs, count) && Enabled(s, Put)
    ensures Inv(Next(s, Put), xs, count)
  {
    hide InHand, StoppedCount, Items, Nones;
    assert s.got + (s.queue + [s.pending[0]]) + s.pending[1..] == s.got + s.queue + s.pending;
  }

  /** The item a worker gets moves from the queue into its hand. */
  lemma Taken<T>(s: State<T>, w: nat)
    requires Enabled(s, Get(w)) && multiset(Items(s.got)) == s.finished + InHand(s.workers)
    ensures var t := Next(s, Get(w)); multiset(Items(t.got)) == t.finished + InHand(t.workers)
  {
    hide InHand, StoppedCount, Items, Nones;
    var t := Next(s, Get(w));
    WorkerChanged(s.workers, w, t.workers[w]);
    GotOne(s.got, s.queue[0]);
    assert Hand(s.workers[w]) == multiset{};
    assert InHand(t.workers) == InHand(s.workers) + Hand(t.workers[w]);
    assert multiset(Items(t.got)) == (s.finished + InHand(s.workers)) + Hand(t.workers[w]);
  }

  lemma GetKeeps<T>(s: State<T>, w: nat, xs: seq<Option<T>>, count: nat)
    requires Inv(s, xs, count) && Enabled(s, Get(w))
    ensures Inv(Next(s, Get(w)), xs, count)
  {
    hide InHand, StoppedCount, Items, Nones;
    var t, x := Next(s, Get(w)), s.queue[0];
    assert s.got + [x] + s.queue[1..] + s.pending == s.got + s.queue + s.pending;
    WorkerChanged(s.workers, w, t.workers[w]);
    assert t.got[..|t.got| - 1] == s.got;
    GotOne(s.got, x);
    CountsBounded(s.workers);
    Taken(s, w);
  }

  lemma FinishKeeps<T>(s: State<T>, w: nat, xs: seq<Option<T>>, count: nat)
    requires Inv(s, xs, count) && Enabled(s, Finish(w))
    ensures Inv(Next(s, Finish(w)), xs, count)
  {
    hide InHand, StoppedCount, Items, Nones;
    WorkerChanged(s.workers, w, Idle);
    assert InHand(s.workers[w := Idle]) + Hand(s.workers[w]) == InHand(s.workers);
  }

  lemma StepKeeps<T>(s: State<T>, step: Step, xs: seq<Option<T>>, count: nat)
    requires Inv(s, xs, count) && Enabled(s, step)
    ensures Inv(Next(s, step), xs, count)
  {
    hide Inv, Next, Enabled;
    match step
    case Put => PutKeeps(s, xs, count);
    case Get(w) => GetKeeps(s, w, xs, count);
    case Finish(w) => FinishKeeps(s, w, xs, count);
  }

  function Left<T>(s: State<T>): nat {
    3 * |s.pending| + 2 * |s.queue| + |InHand(s.workers)|
  }

  lemma StepMakesProgress<T>(s: State<T>, step: Step)
    requires Enabled(s, step)
    ensures Left(Next(s, step)) < Left(s)
  {
    match step
    case Put =>
    case Get(w) =>
      WorkerChanged(s.workers, w, Next(s, step).workers[w]);
    case Finish(w) =>
      WorkerChanged(s.workers, w, Idle);
  }

  /** A run: any interleaving of steps. */
  ghost predicate Reaches<T>(s: State<T>, steps: seq<Step>, t: State<T>)
    decreases |steps|
  {
    if steps == [] then s == t else Enabled(s, steps[0]) && Reaches(Next(s, steps[0]), steps[1..], t)
  }

  lemma {:induction false} RunKeeps<T>(s: State<T>, steps: seq<Step>, t: State<T>, xs: seq<Option<T>>, count: nat)
    requires Inv(s, xs, count) && Reaches(s, steps, t)
    ensures Inv(t, xs, count) && Left(t) + |steps| <= Left(s)
    decreases |steps|
  {
    if steps != [] {
      StepKeeps(s, steps[0], xs, count);
      StepMakesProgress(s, steps[0]);
      RunKeeps(Next(s, steps[0]), steps[1..], t, xs, count);
    }
  }

  lemma {:induction false} ReachesOneMore<T>(s: State<T>, steps: seq<Step>, t: State<T>, step: Step)
    requires Reaches(s, steps, t) && Enabled(t, step)
    ensures Reaches(s, steps + [step], Next(t, step))
    decreases |steps|
  {
    if steps == [] {
      assert Reaches(Next(t, step), [], Next(t, step));
    } else {
      assert (steps + [step])[1..] == steps[1..] + [step];
      ReachesOneMore(Next(s, steps[0]), steps[1..], t, step);
    }
  }

  ghost predicate Blocked<T>(s: State<T>) {
    forall step: Step :: !Enabled(s, step)
  }

  // ----- The elements the workers get: those up to the `count`-th None

  /** `cut` is the part of the elements up to and including the `count`-th None. */
  ghost predicate IsCut<T>(all: seq<Option<T>>, count: nat, cut: nat) {
    cut <= |all| && Nones(all[..cut]) == count && (cut > 0 ==> Nones(all[..cut - 1]) < count)
  }

  lemma {:induction false} NonesOfPrefix<T>(all: seq<Option<T>>, i: nat, j: nat)
    requires i <= j <= |all|
    ensures Nones(all[..i]) <= Nones(all[..j])
  {
    assert all[..i] + all[i..j] == all[..j];
    NonesCat(all[..i], all[i..j]);
  }

  /** There are always that many, for the producer adds them. */
  lemma CutExists<T>(xs: seq<Option<T>>, count: nat) returns (cut: nat)
    ensures IsCut(xs + Stops(count), count, cut)
  {
    NonesCat(xs, Stops(count));
    NonesOfStops<T>(count);
    cut := FindCut(xs + Stops(count), count);
  }

  lemma {:induction false} FindCut<T>(all: seq<Option<T>>, count: nat) returns (cut: nat)
    requires Nones(all) >= count
    ensures IsCut(all, count, cut)
    decreases |all|
  {
    if count == 0 {
      cut := 0;
    } else if Nones(all[..|all| - 1]) < count {
      cut := |all|;
      assert all[..cut] == all;
    } else {
      cut := FindCut(all[..|all| - 1], count);
      assert all[..|all| - 1][..cut] == all[..cut];
      assert cut > 0 ==> all[..|all| - 1][..cut - 1] == all[..cut - 1];
    }
  }

  lemma CutIsUnique<T>(all: seq<Option<T>>, count: nat, a: nat, b: nat)
    requires IsCut(all, count, a) && IsCut(all, count, b)
    ensures a == b
  {
    if a < b {
      NonesOfPrefix(all, a, b - 1);
    } else if b < a {
      NonesOfPrefix(all, b, a - 1);
    }
  }

  lemma BlockedMeansStopped<T>(t: State<T>, xs: seq<Option<T>>, count: nat)
    requires Inv(t, xs, count) && Blocked(t)
    ensures forall w | 0 <= w < count :: t.workers[w].Stopped?
    ensures StoppedCount(t.workers) == count && InHand(t.workers) == multiset{}
    ensures t.pending == [] || (count > 0 && |t.queue| == 2 * count)
  {
    hide Nones, Items, StoppedCount, InHand;
    assert !Enabled(t, Put);
    forall w | 0 <= w < count ensures !t.workers[w].Busy? && (t.workers[w].Idle? ==> t.queue == []) {
      assert !Enabled(t, Finish(w)) && !Enabled(t, Get(w));
    }
    CountsBounded(t.workers);
    if t.queue == [] {
      assert t.got + t.queue + t.pending == t.got;
      NonesCat(xs, Stops(count));
      NonesOfStops<T>(count);
    }
  }

  /** Any run from the start, once nothing can move: all workers have stopped; they have
      finished exactly the items up to the `count`-th None, each once; and the producer is
      through, so that the wait ends, if and only if at most `2 * count` elements follow, or the
      queue has no limit. No run is longer than three steps for each element put. */
  lemma RunEnds<T>(xs: seq<Option<T>>, count: nat, steps: seq<Step>, t: State<T>, cut: nat)
    requires Reaches(Init(xs, count), steps, t) && Blocked(t)
    requires IsCut(xs + Stops(count), count, cut)
    ensures |steps| <= 3 * (|xs| + count)
    ensures |t.workers| == count && forall w | 0 <= w < count :: t.workers[w].Stopped?
    ensures t.got == (xs + Stops(count))[..cut] && t.finished == multiset(Items(t.got))
    ensures t.pending == [] <==> count == 0 || |xs| + count - cut <= 2 * count
  {
    hide Nones, Items, StoppedCount, InHand, Next, Enabled;
    InitHolds(xs, count);
    RunKeeps(Init(xs, count), steps, t, xs, count);
    CountsBounded(Init(xs, count).workers);
    BlockedMeansStopped(t, xs, count);
    var all := xs + Stops(count);
    assert all[..|t.got|] == t.got;
    assert t.got != [] ==> all[..|t.got| - 1] == t.got[..|t.got| - 1];
    CutIsUnique(all, count, |t.got|, cut);
  }

  /** No more than `2 * count` elements are queued, if there are workers at all, and no more than
      `count` calls run at any time; calls are started in the order of the iterable. */
  lemma RunIsBounded<T>(xs: seq<Option<T>>, count: nat, steps: seq<Step>, t: State<T>)
    requires Reaches(Init(xs, count), steps, t)
    ensures (count > 0 ==> |t.queue| <= 2 * count) && |InHand(t.workers)| <= count
    ensures Items(t.got) <= Items(xs)
  {
    hide Nones, Items, StoppedCount, InHand, Next, Enabled;
    InitHolds(xs, count);
    RunKeeps(Init(xs, count), steps, t, xs, count);
    CountsBounded(t.workers);
    NonesCat(t.got, t.queue + t.pending);
    assert t.got + (t.queue + t.pending) == xs + Stops(count);
    NonesCat(xs, Stops(count));
    NonesOfStops<T>(count);
    assert Items(xs) + [] == Items(xs);
  }

  lemma CutOfFewNones<T>(xs: seq<Option<T>>, count: nat) returns (cut: nat)
    requires Nones(xs) < count
    ensures IsCut(xs + Stops(count), count, cut) && Items((xs + Stops(count))[..cut]) == Items(xs)
    ensures |xs| + count - cut < count
  {
    hide Nones, Items;
    var all, more := xs + Stops<T>(count), count - Nones(xs);
    cut := |xs| + more;
    assert all[..cut] == xs + Stops(more) && all[..cut - 1] == xs + Stops(more - 1);
    NonesCat(xs, Stops(more));
    NonesCat(xs, Stops(more - 1));
    NonesOfStops<T>(more);
    NonesOfStops<T>(more - 1);
    assert Items(xs) + [] == Items(xs);
  }

  /** Fewer than `count` Nones among the elements do no harm: every item is finished, each
      once, and the wait ends. */
  lemma FewNonesAreHarmless<T>(xs: seq<Option<T>>, count: nat, steps: seq<Step>, t: State<T>)
    requires Nones(xs) < count && Reaches(Init(xs, count), steps, t) && Blocked(t)
    ensures t.finished == multiset(Items(xs)) && t.pending == []
    ensures |t.workers| == count && forall w | 0 <= w < count :: t.workers[w].Stopped?
  {
    hide Nones, Items, Reaches, Blocked, IsCut, Init;
    var cut := CutOfFewNones(xs, count);
    RunEnds(xs, count, steps, t, cut);
  }

  lemma SplitItems<T>(xs: seq<Option<T>>, cut: nat)
    requires cut <= |xs|
    ensures multiset(Items(xs[..cut])) == multiset(Items(xs)) <==> Items(xs[cut..]) == []
  {
    assert xs == xs[..cut] + xs[cut..];
    NonesCat(xs[..cut], xs[cut..]);
    hide Items, Nones;
    var early, late := Items(xs[..cut]), Items(xs[cut..]);
    assert |multiset(early + late)| == |early| + |late| && |multiset(early)| == |early|;
    if late == [] {
      assert early + late == early;
    }
  }

  /** With `count` Nones or more the workers stop early, without workers before the first
      element: an item behind the `count`-th None is never finished. */
  lemma ManyNonesLoseItems<T>(xs: seq<Option<T>>, count: nat, steps: seq<Step>, t: State<T>, cut: nat)
    requires Reaches(Init(xs, count), steps, t) && Blocked(t)
    requires cut <= |xs| && IsCut(xs, count, cut)
    ensures t.finished == multiset(Items(xs[..cut]))
    ensures t.finished == multiset(Items(xs)) <==> Items(xs[cut..]) == []
    ensures t.pending == [] <==> count == 0 || |xs| - cut <= count
  {
    hide Items, Nones, Reaches, Blocked, Init;
    var all := xs + Stops(count);
    assert all[..cut] == xs[..cut] && (cut > 0 ==> all[..cut - 1] == xs[..cut - 1]);
    RunEnds(xs, count, steps, t, cut);
    SplitItems(xs, cut);
  }

  /** Without workers the wait ends although not one item has been worked on. */
  lemma NoWorkersLoseAll<T>(xs: seq<Option<T>>, steps: seq<Step>, t: State<T>)
    requires Reaches(Init(xs, 0), steps, t) && Blocked(t)
    ensures t.finished == multiset{} && t.pending == []
  {
    assert xs[..0] == [];
    ManyNonesLoseItems(xs, 0, steps, t, 0);
  }

  /** One worker and one None in front of one item are enough: the wait ends and the item has not
      been worked on. */
  lemma ItemBehindNoneIsLost<T>(x: T) returns (steps: seq<Step>, t: State<T>)
    ensures Reaches(Init([None, Some(x)], 1), steps, t) && Blocked(t) && t.pending == []
    ensures t.finished == multiset{} && Items([None, Some(x)]) == [x]
  {
    hide Items, Nones;
    assert Items([None, Some(x)]) == [x] by { OneItem(x); }
    var s := Init([None, Some(x)], 1);
    assert s.pending == [None, Some(x), None] && s.workers == [Idle];
    var s1 := Next(s, Put);
    assert s1.pending == [Some(x), None] && s1.queue == [None];
    var s2 := Next(s1, Get(0));
    assert s2.workers == [Stopped] && s2.queue == [];
    var s3 := Next(s2, Put);
    assert s3.pending == [None] && s3.queue == [Some(x)];
    t := Next(s3, Put);
    assert t.pending == [];
    steps := [Put];
    ReachesOneMore(s, [], s, Put);
    assert [] + [Put] == steps;
    ReachesOneMore(s, steps, s1, Get(0));
    steps := steps + [Get(0)];
    ReachesOneMore(s, steps, s2, Put);
    steps := steps + [Put];
    ReachesOneMore(s, steps, s3, Put);
    steps := steps + [Put];
  }

  lemma OneItem<T>(x: T)
    ensures Items([None, Some(x)]) == [x]
  {
    assert [None, Some(x)][..1] == [None] && [None, Some(x)][..1][..0] == [];
  }

  // ----- The coroutines themselves

  class Pool<T(==)> {
    const count: nat
    ghost const elements: seq<Option<T>>
    var pending: seq<Option<T>>
    var queue: seq<Option<T>>
    var workers: seq<Worker<T>>
    ghost var got: seq<Option<T>>
    var finished: multiset<T>

    ghost function Now(): State<T>
      reads this
    {
      State(pending, queue, workers, got, finished)
    }

    /** A negative number of workers is like none: both loops over it are empty, and the queue has
        no limit. */
    constructor (xs: seq<Option<T>>, n: int)
      ensures count == (if n > 0 then n else 0) && elements == xs && Now() == Init(xs, count)
    {
      var workers: nat := if n > 0 then n else 0;
      count, elements := workers, xs;
      pending, queue, this.workers := xs + Stops(workers), [], seq(workers, _ => Idle);
      got, finished := [], multiset{};
    }

    method Put()
      requires Enabled(Now(), Step.Put)
      modifies this
      ensures Now() == Next(old(Now()), Step.Put)
    {
      queue, pending := queue + [pending[0]], pending[1..];
    }

    method Get(w: nat)
      requires Enabled(Now(), Step.Get(w))
      modifies this
      ensures Now() == Next(old(Now()), Step.Get(w))
    {
      var item := queue[0];
      queue, got := queue[1..], got + [item];
      if item.None? {
        workers := workers[w := Stopped];
      } else {
        workers := workers[w := Busy(item.value)];
      }
    }

    method Finish(w: nat)
      requires Enabled(Now(), Step.Finish(w))
      modifies this
      ensures Now() == Next(old(Now()), Step.Finish(w))
    {
      finished := finished + multiset{workers[w].item};
      workers := workers[w := Idle];
    }

    /** The event loop picks any coroutine that can move, until none can. */
    method Run()
      requires Now() == Init(elements, count)
      modifies this
      ensures Blocked(Now())
      ensures Nones(elements) < count ==>
                && pending == [] && finished == multiset(Items(elements))
                && |workers| == count && forall w | 0 <= w < count :: workers[w].Stopped?
    {
      ghost var steps: seq<Step> := [];
      ghost var start := Now();
      while
        invariant Reaches(start, steps, Now())
        decreases Left(Now())
      {
        case pending != [] && HasRoom(|queue|, |workers|) =>
          StepMakesProgress(Now(), Step.Put);
          ReachesOneMore(start, steps, Now(), Step.Put);
          steps := steps + [Step.Put];
          Put();
        case exists w | 0 <= w < |workers| :: workers[w].Idle? && queue != [] =>
          var w :| 0 <= w < |workers| && workers[w].Idle? && queue != [];
          StepMakesProgress(Now(), Step.Get(w));
          ReachesOneMore(start, steps, Now(), Step.Get(w));
          steps := steps + [Step.Get(w)];
          Get(w);
        case exists w | 0 <= w < |workers| :: workers[w].Busy? =>
          var w :| 0 <= w < |workers| && workers[w].Busy?;
          StepMakesProgress(Now(), Step.Finish(w));
          ReachesOneMore(start, steps, Now(), Step.Finish(w));
          steps := steps + [Step.Finish(w)];
          Finish(w);
      }
      if Nones(elements) < count {
        FewNonesAreHarmless(elements, count, steps, Now());
      }
    }
  }
}
