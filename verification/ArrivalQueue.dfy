/** The reference a priority queue is measured against: one sequence of requests in order
    of arrival. The request served next is chosen by comparing all stored requests; there
    are no buckets and no cached priority. */
module ArrivalQueue {
  import opened Requests

  datatype Order = Fifo | Lifo

  /** `startOrder` is None when no separate queue class for start requests is configured.
      Pushing into a persistent queue serializes the request, which may fail. */
  datatype Config = Config(persistent: bool, order: Order, startOrder: Option<Order>)

  datatype Key = Key(prio: int, start: bool)

  function KeyOf(c: Config, r: Request): Key {
    Key(-r.priority, r.isStart && c.startOrder.Some?)
  }

  function OrderOf(c: Config, k: Key): Order {
    if k.start && c.startOrder.Some? then c.startOrder.value else c.order
  }

  predicate Before(a: Key, b: Key) {
    a.prio < b.prio || (a.prio == b.prio && !a.start && b.start)
  }

  /** Request `i` is served ahead of every other stored request: its priority number is the
      least, regular requests go before start requests, and ties follow the queue order. */
  predicate Served(c: Config, a: seq<Request>, i: nat) {
    && i < |a|
    && forall j | 0 <= j < |a| && j != i ::
         || Before(KeyOf(c, a[i]), KeyOf(c, a[j]))
         || (KeyOf(c, a[i]) == KeyOf(c, a[j])
             && if OrderOf(c, KeyOf(c, a[i])) == Fifo then i < j else j < i)
  }

  lemma {:induction false} SomeoneIsServed(c: Config, a: seq<Request>) returns (i: nat)
    requires a != []
    ensures Served(c, a, i)
  {
    var last := |a| - 1;
    i := last;
    if last > 0 {
      var best := SomeoneIsServed(c, a[..last]);
      assert forall j | 0 <= j < last :: a[..last][j] == a[j];
      if !Before(KeyOf(c, a[last]), KeyOf(c, a[best]))
         && (KeyOf(c, a[last]) == KeyOf(c, a[best]) ==> OrderOf(c, KeyOf(c, a[best])) == Fifo) {
        i := best;
      }
    }
  }

  ghost function NextIndex(c: Config, a: seq<Request>): (i: nat)
    requires a != []
    ensures Served(c, a, i)
  {
    assert exists i: nat :: Served(c, a, i) by { var i := SomeoneIsServed(c, a); }
    var i: nat :| Served(c, a, i);
    i
  }

  lemma ServedUnique(c: Config, a: seq<Request>, i: nat, j: nat)
    requires Served(c, a, i) && Served(c, a, j)
    ensures i == j
  {
    var atI, atJ := KeyOf(c, a[i]), KeyOf(c, a[j]);
  }

  function RemoveAt<T>(a: seq<T>, i: nat): seq<T>
    requires i < |a|
  {
    a[..i] + a[i + 1..]
  }

  /** What stays stored once the queue answered `r`: nothing changes if it answered nothing. */
  ghost function Remaining(c: Config, a: seq<Request>, r: Option<Request>): seq<Request> {
    if r.None? || a == [] then a else RemoveAt(a, NextIndex(c, a))
  }

  lemma RemainingMembers(c: Config, a: seq<Request>, r: Option<Request>)
    ensures forall x | x in Remaining(c, a, r) :: x in a
  {}

  /** The stored requests with key `k`, oldest first. */
  ghost function Bucket(c: Config, a: seq<Request>, k: Key): seq<Request> {
    if a == [] then [] else
    var last := a[|a| - 1];
    var rest := Bucket(c, a[..|a| - 1], k);
    if KeyOf(c, last) == k then rest + [last] else rest
  }

  lemma {:induction false} BucketConcat(c: Config, a: seq<Request>, b: seq<Request>, k: Key)
    ensures Bucket(c, a + b, k) == Bucket(c, a, k) + Bucket(c, b, k)
    decreases |b|
  {
    if b == [] {
      assert a + b == a;
    } else {
      var n := |b| - 1;
      BucketConcat(c, a, b[..n], k);
      assert (a + b)[..|a + b| - 1] == a + b[..n];
    }
  }

  lemma BucketSingle(c: Config, r: Request, k: Key)
    ensures Bucket(c, [r], k) == if KeyOf(c, r) == k then [r] else []
  {
    assert [r][..0] == [];
  }

  lemma BucketPush(c: Config, a: seq<Request>, r: Request, k: Key)
    ensures Bucket(c, a + [r], k) == if KeyOf(c, r) == k then Bucket(c, a, k) + [r] else Bucket(c, a, k)
  {
    assert (a + [r])[..|a|] == a;
  }

  lemma {:induction false} BucketMembers(c: Config, a: seq<Request>, k: Key)
    ensures forall r :: r in Bucket(c, a, k) <==> r in a && KeyOf(c, r) == k
  {
    if a != [] {
      BucketMembers(c, a[..|a| - 1], k);
      assert a == a[..|a| - 1] + [a[|a| - 1]];
    }
  }

  /** The position inside a bucket that a downstream queue pops. */
  function Head(o: Order, n: nat): nat
    requires n > 0
  {
    if o == Fifo then 0 else n - 1
  }

  lemma BucketEmptyIfNoKey(c: Config, a: seq<Request>, k: Key)
    requires forall r | r in a :: KeyOf(c, r) != k
    ensures Bucket(c, a, k) == []
  {
    if a != [] {
      BucketEmptyIfNoKey(c, a[..|a| - 1], k);
    }
  }

  /** No earlier request of a FIFO bucket, and no later one of a LIFO bucket, shares the key
      of the request served next. */
  lemma ServedIsExtreme(c: Config, a: seq<Request>, i: nat)
    requires Served(c, a, i)
    ensures var k := KeyOf(c, a[i]);
            Bucket(c, if OrderOf(c, k) == Fifo then a[..i] else a[i + 1..], k) == []
  {
    var k := KeyOf(c, a[i]);
    var side := if OrderOf(c, k) == Fifo then a[..i] else a[i + 1..];
    forall r | r in side ensures KeyOf(c, r) != k {
      var j :| 0 <= j < |side| && side[j] == r;
      assert r == a[if OrderOf(c, k) == Fifo then j else i + 1 + j];
    }
    BucketEmptyIfNoKey(c, side, k);
  }

  lemma BucketAround(c: Config, a: seq<Request>, i: nat, k: Key)
    requires i < |a|
    ensures Bucket(c, a, k) ==
            Bucket(c, a[..i], k) + (if KeyOf(c, a[i]) == k then [a[i]] else []) + Bucket(c, a[i + 1..], k)
    ensures Bucket(c, RemoveAt(a, i), k) == Bucket(c, a[..i], k) + Bucket(c, a[i + 1..], k)
  {
    assert a == a[..i] + [a[i]] + a[i + 1..];
    BucketConcat(c, a[..i] + [a[i]], a[i + 1..], k);
    BucketPush(c, a[..i], a[i], k);
    BucketConcat(c, a[..i], a[i + 1..], k);
  }

  lemma HeadRemoved<T>(before: seq<T>, x: T, after: seq<T>, o: Order)
    requires if o == Fifo then before == [] else after == []
    ensures var q := before + [x] + after;
            q[Head(o, |q|)] == x && RemoveAt(q, Head(o, |q|)) == before + after
  {}

  /** Serving request `i` pops the head of its bucket and touches no other bucket. */
  lemma ServeBucket(c: Config, a: seq<Request>, i: nat, k: Key)
    requires Served(c, a, i)
    ensures KeyOf(c, a[i]) != k ==> Bucket(c, RemoveAt(a, i), k) == Bucket(c, a, k)
    ensures KeyOf(c, a[i]) == k ==>
              var q := Bucket(c, a, k);
              && q != []
              && q[Head(OrderOf(c, k), |q|)] == a[i]
              && Bucket(c, RemoveAt(a, i), k) == RemoveAt(q, Head(OrderOf(c, k), |q|))
  {
    hide Bucket;
    BucketAround(c, a, i, k);
    if KeyOf(c, a[i]) == k {
      ServedIsExtreme(c, a, i);
      HeadRemoved(Bucket(c, a[..i], k), a[i], Bucket(c, a[i + 1..], k), OrderOf(c, k));
    }
  }

  /** Two arrival orders that agree inside every bucket. Interleavings across buckets may differ. */
  ghost predicate SameBuckets(c: Config, a: seq<Request>, b: seq<Request>) {
    forall k :: Bucket(c, a, k) == Bucket(c, b, k)
  }

  /** Agreement inside the buckets is enough: both orders serve the same request, and what
      is left agrees again. */
  lemma SameBucketsServeAlike(c: Config, a: seq<Request>, b: seq<Request>)
    requires SameBuckets(c, a, b) && a != []
    ensures b != []
    ensures a[NextIndex(c, a)] == b[NextIndex(c, b)]
    ensures SameBuckets(c, RemoveAt(a, NextIndex(c, a)), RemoveAt(b, NextIndex(c, b)))
  {
    var i := NextIndex(c, a);
    var k := KeyOf(c, a[i]);
    BucketMembers(c, a, k);
    BucketMembers(c, b, k);
    assert a[i] in Bucket(c, b, k);
    var j := NextIndex(c, b);
    var kb := KeyOf(c, b[j]);
    BucketMembers(c, a, kb);
    BucketMembers(c, b, kb);
    assert b[j] in Bucket(c, a, kb);
    assert exists m: nat :: m < |a| && a[m] == b[j];
    assert exists m: nat :: m < |b| && b[m] == a[i];
    assert k == kb;
    ServeBucket(c, a, i, k);
    ServeBucket(c, b, j, k);
    forall x ensures Bucket(c, RemoveAt(a, i), x) == Bucket(c, RemoveAt(b, j), x) {
      ServeBucket(c, a, i, x);
      ServeBucket(c, b, j, x);
    }
  }

  /** All requests in the order an undisturbed queue hands them out. */
  ghost function Drain(c: Config, a: seq<Request>): seq<Request>
    decreases |a|
  {
    if a == [] then [] else [a[NextIndex(c, a)]] + Drain(c, RemoveAt(a, NextIndex(c, a)))
  }

  lemma {:induction false} DrainAlike(c: Config, a: seq<Request>, b: seq<Request>)
    requires SameBuckets(c, a, b)
    ensures Drain(c, a) == Drain(c, b)
    ensures |a| == |b|
    decreases |a|
  {
    if a == [] {
      if b != [] {
        SameBucketsServeAlike(c, b, a);
      }
    } else {
      SameBucketsServeAlike(c, a, b);
      DrainAlike(c, RemoveAt(a, NextIndex(c, a)), RemoveAt(b, NextIndex(c, b)));
    }
  }

  lemma RemoveMultiset<T>(a: seq<T>, i: nat)
    requires i < |a|
    ensures multiset(a) == multiset(RemoveAt(a, i)) + multiset{a[i]}
  {
    assert a == a[..i] + [a[i]] + a[i + 1..];
  }

  lemma {:induction false} DrainIsPermutation(c: Config, a: seq<Request>)
    ensures multiset(Drain(c, a)) == multiset(a)
    decreases |a|
  {
    if a != [] {
      var i := NextIndex(c, a);
      DrainIsPermutation(c, RemoveAt(a, i));
      RemoveMultiset(a, i);
    }
  }

  lemma DrainMember(c: Config, a: seq<Request>, n: nat)
    requires n < |Drain(c, a)|
    ensures Drain(c, a)[n] in a
  {
    DrainIsPermutation(c, a);
    assert Drain(c, a)[n] in multiset(Drain(c, a));
  }

  /** Draining never hands out a request while a more urgent one is stored. */
  lemma {:induction false} DrainIsSorted(c: Config, a: seq<Request>, m: nat, n: nat)
    requires m < n < |Drain(c, a)|
    ensures var x, y := Drain(c, a)[m], Drain(c, a)[n];
            && x.priority >= y.priority
            && (c.startOrder.Some? && x.priority == y.priority && x.isStart ==> y.isStart)
    decreases |a|
  {
    var i := NextIndex(c, a);
    var rest := RemoveAt(a, i);
    if m > 0 {
      DrainIsSorted(c, rest, m - 1, n - 1);
    } else {
      DrainMember(c, rest, n - 1);
      var x := Drain(c, rest)[n - 1];
      var j :| 0 <= j < |rest| && rest[j] == x;
      assert x == a[if j < i then j else j + 1];
    }
  }

  function Reverse<T>(s: seq<T>): seq<T> {
    if s == [] then [] else Reverse(s[1..]) + [s[0]]
  }

  lemma {:induction false} ReverseSnoc<T>(s: seq<T>, x: T)
    ensures Reverse(s + [x]) == [x] + Reverse(s)
  {
    if s == [] {
      assert Reverse([x]) == [x];
    } else {
      ReverseSnoc(s[1..], x);
      assert (s + [x])[1..] == s[1..] + [x];
    }
  }

  lemma ReverseDropsLast<T>(q: seq<T>)
    requires q != []
    ensures Reverse(q) == [q[|q| - 1]] + Reverse(RemoveAt(q, |q| - 1))
  {
    var n := |q| - 1;
    assert RemoveAt(q, n) == q[..n] && q == q[..n] + [q[n]];
    ReverseSnoc(q[..n], q[n]);
  }

  /** A queue in the order in which it is popped is its head and the rest in that order. */
  lemma PutBack<T>(q: seq<T>, o: Order)
    requires q != []
    ensures var h := Head(o, |q|);
            (if o == Fifo then q else Reverse(q))
            == [q[h]] + if o == Fifo then RemoveAt(q, h) else Reverse(RemoveAt(q, h))
  {
    if o == Lifo {
      ReverseDropsLast(q);
    }
  }

  /** Among requests of one bucket, draining keeps the arrival order, or reverses it for LIFO. */
  lemma {:induction false} DrainKeepsBucketOrder(c: Config, a: seq<Request>, k: Key)
    ensures Bucket(c, Drain(c, a), k) ==
            if OrderOf(c, k) == Fifo then Bucket(c, a, k) else Reverse(Bucket(c, a, k))
    decreases |a|
  {
    if a != [] {
      var i := NextIndex(c, a);
      var rest := RemoveAt(a, i);
      DrainKeepsBucketOrder(c, rest, k);
      assert Drain(c, a) == [a[i]] + Drain(c, rest);
      hide Bucket, Drain, NextIndex, Served;
      ServeBucket(c, a, i, k);
      BucketConcat(c, [a[i]], Drain(c, rest), k);
      BucketSingle(c, a[i], k);
      if KeyOf(c, a[i]) == k {
        PutBack(Bucket(c, a, k), OrderOf(c, k));
      } else {
        assert [] + Bucket(c, Drain(c, rest), k) == Bucket(c, Drain(c, rest), k);
      }
    }
  }

  /** The requests of one priority, in order; with `start` only the start requests or only the
      others. */
  function OfPriority(a: seq<Request>, p: int, start: Option<bool>): seq<Request> {
    if a == [] then [] else
    var r := a[|a| - 1];
    OfPriority(a[..|a| - 1], p, start)
    + if r.priority == p && (start.Some? ==> r.isStart == start.value) then [r] else []
  }

  lemma {:induction false} BucketOfPriority(c: Config, a: seq<Request>, k: Key)
    requires c.startOrder.Some? || !k.start
    ensures Bucket(c, a, k) == OfPriority(a, -k.prio, if c.startOrder.Some? then Some(k.start) else None)
    decreases |a|
  {
    if a != [] {
      BucketOfPriority(c, a[..|a| - 1], k);
    }
  }

  function InOrder(o: Order, s: seq<Request>): seq<Request> {
    match o
    case Fifo => s
    case Lifo => Reverse(s)
  }

  /** With a queue class of their own, start requests of one priority come out in the order of that
      class and the others in the order of the regular class; without, all in the latter. */
  lemma DrainFollowsOrders(c: Config, a: seq<Request>, p: int)
    ensures c.startOrder.Some? ==>
              && OfPriority(Drain(c, a), p, Some(true)) == InOrder(c.startOrder.value, OfPriority(a, p, Some(true)))
              && OfPriority(Drain(c, a), p, Some(false)) == InOrder(c.order, OfPriority(a, p, Some(false)))
    ensures c.startOrder.None? ==> OfPriority(Drain(c, a), p, None) == InOrder(c.order, OfPriority(a, p, None))
  {
    hide Drain, Bucket, OfPriority;
    DrainKeepsBucketOrder(c, a, Key(-p, false));
    BucketOfPriority(c, a, Key(-p, false));
    BucketOfPriority(c, Drain(c, a), Key(-p, false));
    if c.startOrder.Some? {
      DrainKeepsBucketOrder(c, a, Key(-p, true));
      BucketOfPriority(c, a, Key(-p, true));
      BucketOfPriority(c, Drain(c, a), Key(-p, true));
    }
  }

  lemma {:induction false} ReverseAt<T>(s: seq<T>, k: nat)
    requires k < |s|
    ensures |Reverse(s)| == |s| && Reverse(s)[k] == s[|s| - 1 - k]
    decreases |s|
  {
    if |s| > 1 {
      ReverseAt(s[1..], if k < |s| - 1 then k else 0);
    }
  }
}
