/** scrapy/pqueues.py, ScrapyPriorityQueue: one internal queue per priority, a second tier
    for start requests, and a cached current priority. */
module PriorityQueues {
  import opened ArrivalQueue
  import opened Collections
  import opened Requests

  datatype PeekResult = Next(request: Option<Request>) | KeyError

  method MinOf(s: set<int>) returns (m: int)
    requires s != {}
    ensures m in s && forall x | x in s :: m <= x
  {
    m := Pick(s);
    var rest := s - {m};
    while rest != {}
      invariant rest <= s && m in s
      invariant forall x | x in s && x !in rest :: m <= x
      decreases rest
    {
      var x := Pick(rest);
      if x < m { m := x; }
      rest := rest - {x};
    }
  }

  /** When no stored request comes before `k` and some stored request has key `k`, the
      request served next has key `k`. */
  lemma LeastKeyIsServed(c: Config, a: seq<Request>, k: Key)
    requires Bucket(c, a, k) != []
    requires forall r | r in a :: !Before(KeyOf(c, r), k)
    ensures a != [] && KeyOf(c, a[NextIndex(c, a)]) == k
  {
    BucketMembers(c, a, k);
    var r := Bucket(c, a, k)[0];
    assert r in Bucket(c, a, k);
    var j :| 0 <= j < |a| && a[j] == r;
    var i := NextIndex(c, a);
    assert a[i] in a;
  }

  /** How many stored requests have a key in `s`. */
  ghost function CountIn(c: Config, a: seq<Request>, s: set<Key>): nat {
    if a == [] then 0 else
    CountIn(c, a[..|a| - 1], s) + if KeyOf(c, a[|a| - 1]) in s then 1 else 0
  }

  lemma {:induction false} CountInStep(c: Config, a: seq<Request>, s: set<Key>, k: Key)
    requires k !in s
    ensures CountIn(c, a, s + {k}) == CountIn(c, a, s) + |Bucket(c, a, k)|
  {
    if a != [] {
      CountInStep(c, a[..|a| - 1], s, k);
    }
  }

  lemma CountInNone(c: Config, a: seq<Request>)
    ensures CountIn(c, a, {}) == 0
  {}

  lemma EmptyIfNoBucket(c: Config, a: seq<Request>)
    requires forall k :: Bucket(c, a, k) == []
    ensures a == []
  {
    if a != [] {
      var b := Bucket(c, a, KeyOf(c, a[|a| - 1]));
    }
  }

  lemma {:induction false} CountInAll(c: Config, a: seq<Request>, s: set<Key>)
    requires forall k :: Bucket(c, a, k) != [] ==> k in s
    ensures CountIn(c, a, s) == |a|
  {
    if a != [] {
      var n := |a| - 1;
      BucketMembers(c, a, KeyOf(c, a[n]));
      assert a[n] in Bucket(c, a, KeyOf(c, a[n]));
      forall k ensures Bucket(c, a[..n], k) != [] ==> k in s {
        if Bucket(c, a[..n], k) != [] { assert Bucket(c, a, k) != []; }
      }
      CountInAll(c, a[..n], s);
    }
  }

  /** The files a closed persistent queue leaves behind, by bucket: each holds requests of
      that bucket only. */
  ghost predicate WellKeyed(c: Config, files: map<Key, seq<Request>>) {
    forall k, r | k in files && r in files[k] :: KeyOf(c, r) == k
  }

  /** The internal queues of one tier, by priority. */
  type Tier = map<int, seq<Request>>

  function At(m: Tier, p: int): seq<Request> {
    if p in m then m[p] else []
  }

  ghost function Empties(m: Tier): set<int> {
    set p | p in m && m[p] == []
  }

  lemma PushEmpties(m: Tier, p: int, added: seq<Request>)
    ensures added != [] ==> |Empties(m[p := At(m, p) + added])| <= |Empties(m)|
    ensures |Empties(m[p := At(m, p) + added])| <= |Empties(m)| + 1
  {
    var now := Empties(m[p := At(m, p) + added]);
    CardMonotone(now, Empties(m) + {p});
    if added != [] { CardMonotone(now, Empties(m)); }
  }

  /** A tier after one internal queue was popped: the queue goes when nothing is left in it. */
  function Popped(m: Tier, p: int, rest: seq<Request>): Tier {
    if rest == [] then m - {p} else m[p := rest]
  }

  lemma PoppedEmpties(m: Tier, p: int, rest: seq<Request>)
    requires p in m && (rest != [] ==> m[p] != [])
    ensures |Empties(Popped(m, p, rest))| == |Empties(m)| - if m[p] == [] then 1 else 0
  {
    assert Empties(Popped(m, p, rest)) == if m[p] == [] then Empties(m) - {p} else Empties(m);
  }

  /** The stored requests are what the files of the priorities `prios` hold. */
  ghost predicate HoldsFiles(c: Config, arrival: seq<Request>, prios: set<int>, files: map<Key, seq<Request>>) {
    forall k :: Bucket(c, arrival, k) ==
                (if k.prio in prios && k in files && (k.start ==> c.startOrder.Some?) then files[k] else [])
  }

  /** What a closed queue leaves behind: its priorities, and its non-empty buckets on disk. */
  ghost predicate Saved(c: Config, arrival: seq<Request>, prios: set<int>, files: map<Key, seq<Request>>) {
    && WellKeyed(c, files)
    && (forall k :: Bucket(c, arrival, k) == if k in files then files[k] else [])
    && (forall k | k in files :: files[k] != [] && k.prio in prios)
  }

  lemma SavedAndRestored(c: Config, before: seq<Request>, after: seq<Request>, prios: set<int>,
      files: map<Key, seq<Request>>)
    requires Saved(c, before, prios, files) && HoldsFiles(c, after, prios, files)
    ensures SameBuckets(c, after, before) && |after| == |before| && Drain(c, after) == Drain(c, before)
  {
    forall k ensures Bucket(c, after, k) == Bucket(c, before, k) {
      BucketMembers(c, before, k);
      if k in files { assert files[k][0] in Bucket(c, before, k); }
    }
    DrainAlike(c, after, before);
  }

  function Content(queues: Tier, startQueues: Tier, k: Key): seq<Request> {
    At(if k.start then startQueues else queues, k.prio)
  }

  /** Each internal queue holds the stored requests of its key, oldest first. */
  ghost predicate Consistent(c: Config, queues: Tier, startQueues: Tier, arrival: seq<Request>) {
    && (forall k :: Bucket(c, arrival, k) == Content(queues, startQueues, k))
    && (c.startOrder.None? ==> startQueues == map[])
  }

  /** All that holds of the cached priority: it may be stale, but never too high. */
  ghost predicate LowerBound(curprio: Option<int>, arrival: seq<Request>) {
    match curprio
    case None => arrival == []
    case Some(c) => forall r | r in arrival :: c <= -r.priority
  }

  /** The least priority number among the stored requests. */
  ghost function LeastPriority(c: Config, arrival: seq<Request>): Option<int> {
    if arrival == [] then None else Some(-arrival[NextIndex(c, arrival)].priority)
  }

  lemma LeastPriorityIs(c: Config, arrival: seq<Request>, m: int)
    requires exists r :: r in arrival && -r.priority == m
    requires forall r | r in arrival :: m <= -r.priority
    ensures LeastPriority(c, arrival) == Some(m)
  {
    var r :| r in arrival && -r.priority == m;
    var j :| 0 <= j < |arrival| && arrival[j] == r;
    var i := NextIndex(c, arrival);
    assert arrival[i] in arrival;
  }

  /** Appending `r` to its internal queue, or nothing if the push failed. */
  lemma PushConsistent(c: Config, queues: Tier, startQueues: Tier, arrival: seq<Request>, r: Request,
      added: seq<Request>)
    requires Consistent(c, queues, startQueues, arrival)
    requires added == [r] || added == []
    ensures var p := -r.priority;
            if KeyOf(c, r).start
                then Consistent(c, queues, startQueues[p := At(startQueues, p) + added], arrival + added)
            else Consistent(c, queues[p := At(queues, p) + added], startQueues, arrival + added)
  {
    assert arrival + [] == arrival;
    forall k ensures Bucket(c, arrival + added, k) ==
                     Content(queues, startQueues, k) + if k == KeyOf(c, r) then added else [] {
      BucketPush(c, arrival, r, k);
    }
  }

  lemma LoadConsistent(c: Config, queues: Tier, startQueues: Tier, arrival: seq<Request>, k: Key, content: seq<Request>)
    requires Consistent(c, queues, startQueues, arrival)
    requires Content(queues, startQueues, k) == [] && forall r | r in content :: KeyOf(c, r) == k
    requires k.start ==> c.startOrder.Some?
    ensures k.start ==> Consistent(c, queues, startQueues[k.prio := content], arrival + content)
    ensures !k.start ==> Consistent(c, queues[k.prio := content], startQueues, arrival + content)
  {
    forall x ensures Bucket(c, arrival + content, x) ==
                     Content(queues, startQueues, x) + if x == k then content else [] {
      BucketConcat(c, arrival, content, x);
      BucketOfOneKey(c, content, k, x);
    }
  }

  /** The non-empty queue `k` that nothing stored comes before holds the request served next at
      its head; popping it there and dropping it from the arrival order agree. */
  lemma ServedFrom(c: Config, queues: Tier, startQueues: Tier, arrival: seq<Request>, k: Key)
    requires Consistent(c, queues, startQueues, arrival)
    requires Content(queues, startQueues, k) != []
    requires forall r | r in arrival :: !Before(KeyOf(c, r), k)
    ensures arrival != []
    ensures var q, i := Content(queues, startQueues, k), NextIndex(c, arrival);
            var h := Head(OrderOf(c, k), |q|);
            && q[h] == arrival[i]
            && (k.start ==> Consistent(c, queues, Popped(startQueues, k.prio, RemoveAt(q, h)), RemoveAt(arrival, i)))
            && (!k.start ==> Consistent(c, Popped(queues, k.prio, RemoveAt(q, h)), startQueues, RemoveAt(arrival, i)))
  {
    LeastKeyIsServed(c, arrival, k);
    var i := NextIndex(c, arrival);
    hide Bucket, NextIndex, Served, Popped;
    ServeBucket(c, arrival, i, k);
    var q := Content(queues, startQueues, k);
    var rest := RemoveAt(q, Head(OrderOf(c, k), |q|));
    var left := RemoveAt(arrival, i);
    forall x ensures Bucket(c, left, x) == if x == k then rest else Content(queues, startQueues, x) {
      ServeBucket(c, arrival, i, x);
    }
    PoppedConsistent(c, queues, startQueues, arrival, left, k, rest);
  }

  /** Popping internal queue `k` and dropping a request of that key from the arrival order. */
  lemma PoppedConsistent(c: Config, queues: Tier, startQueues: Tier, arrival: seq<Request>, left: seq<Request>,
      k: Key, rest: seq<Request>)
    requires Consistent(c, queues, startQueues, arrival) && Content(queues, startQueues, k) != []
    requires forall x :: Bucket(c, left, x) == if x == k then rest else Content(queues, startQueues, x)
    ensures k.start ==> Consistent(c, queues, Popped(startQueues, k.prio, rest), left)
    ensures !k.start ==> Consistent(c, Popped(queues, k.prio, rest), startQueues, left)
  {
    hide Bucket;
  }

  /** The buckets with a priority in `done` are back from disk, and no others. */
  ghost predicate Restored(c: Config, queues: Tier, startQueues: Tier, done: set<int>, files: map<Key, seq<Request>>) {
    forall k :: Content(queues, startQueues, k) ==
                (if k.prio in done && k in files && (k.start ==> c.startOrder.Some?) then files[k] else [])
  }

  lemma RestoredPriorities(c: Config, queues: Tier, startQueues: Tier, arrival: seq<Request>, done: set<int>,
      files: map<Key, seq<Request>>)
    requires Consistent(c, queues, startQueues, arrival) && Restored(c, queues, startQueues, done, files)
    ensures forall r | r in arrival :: -r.priority in done
    ensures done == {} ==> arrival == []
    ensures HoldsFiles(c, arrival, done, files)
  {
    forall r | r in arrival ensures -r.priority in done {
      BucketMembers(c, arrival, KeyOf(c, r));
    }
    if done == {} { EmptyIfNoBucket(c, arrival); }
  }

  class ScrapyPriorityQueue {
    const config: Config
    var queues: Tier
    var startQueues: Tier
    var curprio: Option<int>
    /** The stored requests in order of arrival. */
    ghost var arrival: seq<Request>

    ghost predicate Valid()
      reads this
    {
      && Consistent(config, queues, startQueues, arrival)
      && LowerBound(curprio, arrival)
      && (!config.persistent ==> Clean())
    }

    /** The priority `Pop` looks at: the cached one if it names a bucket, else a fresh one. */
    ghost function LookedAt(): Option<int>
      reads this
    {
      if curprio.Some? && (curprio.value in queues || curprio.value in startQueues) then curprio
      else if curprio.None? then None else LeastPriority(config, arrival)
    }

    /** A failed push left an empty bucket exactly where `Pop` looks first. */
    ghost predicate Blocked()
      reads this
    {
      && LookedAt().Some?
      && var c := LookedAt().value;
         if c in queues then queues[c] == [] else c in startQueues && startQueues[c] == []
    }

    ghost function EmptyBuckets(): nat
      reads this
    {
      |Empties(queues)| + |Empties(startQueues)|
    }

    /** No bucket is empty: the state as long as every push succeeds. */
    ghost predicate Clean()
      reads this
    {
      (forall p | p in queues :: queues[p] != []) && (forall p | p in startQueues :: startQueues[p] != [])
    }

    ghost function Measure(): nat
      reads this
    {
      |arrival| + EmptyBuckets()
    }

    /** `Measure`, plus one for a queue that stores nothing. */
    ghost function Weight(): nat
      reads this
    {
      Measure() + if arrival == [] then 1 else 0
    }

    /** What `Pop` is due to return. */
    ghost function Due(): Option<Request>
      reads this
    {
      if Blocked() || arrival == [] then None else Some(arrival[NextIndex(config, arrival)])
    }

    lemma NoneEmpty()
      requires EmptyBuckets() == 0
      ensures Clean() && !Blocked()
    {
      assert Empties(queues) == {} && Empties(startQueues) == {};
      forall p | p in queues ensures queues[p] != [] {
        assert p !in Empties(queues);
      }
      forall p | p in startQueues ensures startQueues[p] != [] {
        assert p !in Empties(startQueues);
      }
    }

    constructor (config: Config)
      ensures Valid() && Clean() && this.config == config && arrival == [] && curprio == None
      ensures queues == map[] && startQueues == map[] && Weight() == 1
    {
      this.config := config;
      queues, startQueues, curprio, arrival := map[], map[], None, [];
      new;
      assert Empties(queues) == {} && Empties(startQueues) == {};
    }

    /** Reopens a queue from the priorities and the files a closed queue left. */
    constructor Open(config: Config, startprios: set<int>, files: map<Key, seq<Request>>)
      requires WellKeyed(config, files)
      ensures Valid() && Clean() && this.config == config
      ensures HoldsFiles(config, arrival, startprios, files)
      ensures startprios == {} ==> curprio == None
      ensures startprios != {} ==>
          curprio.Some? && curprio.value in startprios && forall p | p in startprios :: curprio.value <= p
    {
      this.config := config;
      queues, startQueues, curprio, arrival := map[], map[], None, [];
      new;
      var todo := startprios;
      while todo != {}
        invariant todo <= startprios
        invariant Clean() && Consistent(config, queues, startQueues, arrival) && curprio == None
        invariant Restored(config, queues, startQueues, startprios - todo, files)
        decreases todo
      {
        var p := Pick(todo);
        LoadPriority(p, startprios - todo, files);
        assert startprios - todo + {p} == startprios - (todo - {p});
        todo := todo - {p};
      }
      assert startprios - todo == startprios;
      RestoredPriorities(config, queues, startQueues, arrival, startprios, files);
      if startprios != {} {
        var m := MinOf(startprios);
        curprio := Some(m);
      }
    }

    method LoadPriority(p: int, done: set<int>, files: map<Key, seq<Request>>)
      requires Consistent(config, queues, startQueues, arrival) && Clean() && WellKeyed(config, files)
      requires Restored(config, queues, startQueues, done, files) && p !in done
      modifies this`queues, this`startQueues, this`arrival
      ensures Consistent(config, queues, startQueues, arrival) && Clean()
      ensures Restored(config, queues, startQueues, done + {p}, files)
    {
      hide Consistent;
      Load(Key(p, false), files);
      if config.startOrder.Some? {
        Load(Key(p, true), files);
      }
    }

    /** Keeps one bucket read back from disk, unless it is empty. */
    method Load(k: Key, files: map<Key, seq<Request>>)
      requires Consistent(config, queues, startQueues, arrival) && Clean()
      requires Content(queues, startQueues, k) == [] && WellKeyed(config, files)
      requires k.start ==> config.startOrder.Some?
      modifies this`queues, this`startQueues, this`arrival
      ensures Consistent(config, queues, startQueues, arrival) && Clean()
      ensures forall x :: Content(queues, startQueues, x) ==
                if x == k && k in files then files[k] else old(Content(queues, startQueues, x))
    {
      if k in files && files[k] != [] {
        var content := files[k];
        LoadConsistent(config, queues, startQueues, arrival, k, content);
        if k.start {
          startQueues := startQueues[k.prio := content];
        } else {
          queues := queues[k.prio := content];
        }
        arrival := arrival + content;
      }
    }

    /** The buckets of before, and one for `r`, which is there even if the push failed. */
    ghost predicate HasBucketFor(before: set<int>, startBefore: set<int>, r: Request)
      reads this
    {
      && queues.Keys == before + (if KeyOf(config, r).start then {} else {-r.priority})
      && startQueues.Keys == startBefore + (if KeyOf(config, r).start then {-r.priority} else {})
    }

    /** `ok` is false when serialization fails. An empty bucket may then stay behind, and the
        cached priority is not touched. */
    method Push(r: Request) returns (ok: bool)
      requires Valid()
      modifies this
      ensures Valid()
      ensures ok <==> !config.persistent || r.serializable
      ensures arrival == if ok then old(arrival) + [r] else old(arrival)
      ensures ok && old(Clean()) ==> Clean()
      ensures EmptyBuckets() <= old(EmptyBuckets()) + if ok then 0 else 1
      ensures !ok ==> curprio == old(curprio)
      ensures ok ==> curprio == Some(if old(curprio).None? || -r.priority < old(curprio).value then -r.priority
                                     else old(curprio).value)
      ensures HasBucketFor(old(queues.Keys), old(startQueues.Keys), r)
    {
      var priority := -r.priority;
      ok := !config.persistent || r.serializable;
      Place(r, if ok then [r] else []);
      if ok && (curprio.None? || priority < curprio.value) {
        curprio := Some(priority);
      }
    }

    /** Creates the internal queue for `r` if there is none, and appends what was serialized. */
    method Place(r: Request, added: seq<Request>)
      requires Consistent(config, queues, startQueues, arrival)
      requires added == [r] || added == []
      modifies this`queues, this`startQueues, this`arrival
      ensures Consistent(config, queues, startQueues, arrival)
      ensures arrival == old(arrival) + added
      ensures added != [] && old(Clean()) ==> Clean()
      ensures EmptyBuckets() <= old(EmptyBuckets()) + if added != [] then 0 else 1
      ensures HasBucketFor(old(queues.Keys), old(startQueues.Keys), r)
    {
      hide Consistent, Empties;
      var p := -r.priority;
      PushConsistent(config, queues, startQueues, arrival, r, added);
      assert queues.Keys + {} == queues.Keys && startQueues.Keys + {} == startQueues.Keys;
      arrival := arrival + added;
      if r.isStart && config.startOrder.Some? {
        PushEmpties(startQueues, p, added);
        startQueues := startQueues[p := At(startQueues, p) + added];
      } else {
        PushEmpties(queues, p, added);
        queues := queues[p := At(queues, p) + added];
      }
    }

    method UpdateCurprio()
      requires Consistent(config, queues, startQueues, arrival)
      modifies this`curprio
      ensures curprio == LeastPriority(config, arrival) && LowerBound(curprio, arrival)
    {
      var prios := (set p | p in queues && queues[p] != []) + (set p | p in startQueues && startQueues[p] != []);
      forall r | r in arrival ensures -r.priority in prios {
        BucketMembers(config, arrival, KeyOf(config, r));
      }
      if prios == {} {
        curprio := None;
        EmptyIfNoBucket(config, arrival);
      } else {
        var m := MinOf(prios);
        curprio := Some(m);
        ghost var k := Key(m, At(queues, m) == []);
        BucketMembers(config, arrival, k);
        assert Bucket(config, arrival, k)[0] in Bucket(config, arrival, k);
        LeastPriorityIs(config, arrival, m);
      }
    }

    lemma LeastIsABucket()
      requires Consistent(config, queues, startQueues, arrival) && arrival != []
      ensures var c := LeastPriority(config, arrival).value; c in queues || c in startQueues
    {
      var r := arrival[NextIndex(config, arrival)];
      BucketMembers(config, arrival, KeyOf(config, r));
    }

    /** Nothing stored comes before the tier `Pop` consults at the cached priority. */
    lemma NothingBefore(k: Key)
      requires Valid() && curprio == Some(k.prio)
      requires k.start ==> k.prio !in queues
      ensures forall r | r in arrival :: !Before(KeyOf(config, r), k)
    {
      forall r | r in arrival ensures !Before(KeyOf(config, r), k) {
        BucketMembers(config, arrival, KeyOf(config, r));
      }
    }

    /** Pops the internal queue with key `k`, and drops it when it is then empty. */
    method TakeFrom(k: Key) returns (r: Option<Request>)
      requires Valid() && curprio == Some(k.prio)
      requires if k.start then k.prio in startQueues && k.prio !in queues else k.prio in queues
      modifies this`queues, this`startQueues, this`arrival
      ensures Consistent(config, queues, startQueues, arrival)
      ensures forall x | x in arrival :: x in old(arrival)
      ensures r == old(Due()) && arrival == Remaining(config, old(arrival), r)
      ensures old(Clean()) ==> Clean()
      ensures Measure() == old(Measure()) - 1
    {
      var q := Content(queues, startQueues, k);
      var rest := q;
      if q == [] {
        r := None;
      } else {
        NothingBefore(k);
        ServedFrom(config, queues, startQueues, arrival, k);
        var h := Head(OrderOf(config, k), |q|);
        r := Some(q[h]);
        rest := RemoveAt(q, h);
        arrival := RemoveAt(arrival, NextIndex(config, arrival));
      }
      if k.start {
        PoppedEmpties(startQueues, k.prio, rest);
        startQueues := Popped(startQueues, k.prio, rest);
      } else {
        PoppedEmpties(queues, k.prio, rest);
        queues := Popped(queues, k.prio, rest);
      }
    }

    /** The cached priority after a pop that looked at priority `c`: refreshed when the bucket
        popped is gone, but for a regular one only if there are no start requests at all. */
    ghost function AfterPop(c: Option<int>, before: set<int>): Option<int>
      reads this
    {
      if c.None? then None
      else if c.value in before then
        if c.value in queues || startQueues != map[] then c else LeastPriority(config, arrival)
      else
        if c.value in startQueues then c else LeastPriority(config, arrival)
    }

    /** Returns the due request, or nothing when a leftover empty bucket stands first. Every
        call on a non-empty queue makes progress by exactly one. The loop runs at most twice. */
    method Pop() returns (r: Option<Request>)
      requires Valid()
      modifies this
      ensures Valid()
      ensures r == old(Due()) && arrival == Remaining(config, old(arrival), r)
      ensures r.Some? ==> old(arrival) != [] && r.value == old(arrival)[NextIndex(config, old(arrival))]
      ensures old(Clean()) ==> Clean() && (r.None? ==> old(arrival) == [])
      ensures old(arrival) != [] ==> Measure() == old(Measure()) - 1
      ensures old(Weight()) > 0 && (arrival != [] ==> Weight() < old(Weight()))
      ensures curprio == AfterPop(old(LookedAt()), old(queues.Keys))
    {
      ghost var rounds := 0;
      while curprio.Some?
        invariant Valid() && arrival == old(arrival) && queues == old(queues) && startQueues == old(startQueues)
        invariant rounds <= 1
        invariant rounds == 0 ==> curprio == old(curprio)
        invariant rounds > 0 ==> curprio == old(LookedAt()) == LookedAt()
        invariant rounds > 0 && curprio.Some? ==> curprio.value in queues || curprio.value in startQueues
        decreases 2 - rounds
      {
        var c := curprio.value;
        if c in queues {
          r := TakeFrom(Key(c, false));
          if c !in queues && startQueues == map[] {
            UpdateCurprio();
          }
          return;
        }
        if startQueues != map[] && c in startQueues {
          r := TakeFrom(Key(c, true));
          if c !in startQueues {
            UpdateCurprio();
          }
          return;
        }
        UpdateCurprio();
        if arrival != [] { LeastIsABucket(); }
        rounds := rounds + 1;
      }
      r := None;
    }

    /** The cached priority is absent, or is the priority of a bucket in one tier only (or in
        both, with nothing in either). */
    predicate PeekAgrees()
      reads this
    {
      curprio.Some? ==>
        var c := curprio.value;
        || (c in queues) != (c in startQueues)
        || (c in queues && c in startQueues && queues[c] == [] && startQueues[c] == [])
    }

    /** The cached priority names no bucket. */
    predicate PeekFails()
      reads this
    {
      curprio.Some? && curprio.value !in queues && curprio.value !in startQueues
    }

    /** `Peek` looks at start requests first and does not refresh the cached priority, so it
        names the request `Pop` is due to return under the condition above only. */
    method Peek() returns (p: PeekResult)
      requires Valid()
      ensures p == Next(Due()) <==> PeekAgrees()
      ensures p == KeyError <==> PeekFails()
      ensures curprio.Some? && curprio.value in startQueues ==> p == Next(FirstOf(Key(curprio.value, true)))
    {
      if curprio.None? {
        return Next(None);
      }
      var c := curprio.value;
      if c in startQueues {
        p := Next(FirstOf(Key(c, true)));
      } else if c in queues {
        p := Next(FirstOf(Key(c, false)));
      } else {
        return KeyError;
      }
      HeadIsDue(c);
    }

    function FirstOf(k: Key): Option<Request>
      reads this
    {
      var q := Content(queues, startQueues, k);
      if q == [] then None else Some(q[Head(OrderOf(config, k), |q|)])
    }

    lemma HeadIsDue(c: int)
      requires Valid() && curprio == Some(c) && (c in queues || c in startQueues)
      ensures Due() == FirstOf(Key(c, c !in queues))
      ensures FirstOf(Key(c, false)) == FirstOf(Key(c, true)) ==> FirstOf(Key(c, true)) == None
    {
      var k := Key(c, c !in queues);
      if Content(queues, startQueues, k) != [] {
        NothingBefore(k);
        ServedFrom(config, queues, startQueues, arrival, k);
      }
      BucketMembers(config, arrival, Key(c, false));
      BucketMembers(config, arrival, Key(c, true));
    }

    method Len() returns (n: nat)
      requires Valid()
      ensures n == |arrival|
    {
      n := 0;
      ghost var seen: set<Key> := {};
      CountInNone(config, arrival);
      var todo := queues.Keys;
      while todo != {}
        invariant todo <= queues.Keys
        invariant n == CountIn(config, arrival, seen)
        invariant forall k :: k in seen <==> !k.start && k.prio in queues && k.prio !in todo
        decreases todo
      {
        var p := Pick(todo);
        CountInStep(config, arrival, seen, Key(p, false));
        n := n + |queues[p]|;
        seen, todo := seen + {Key(p, false)}, todo - {p};
      }
      todo := startQueues.Keys;
      while todo != {}
        invariant todo <= startQueues.Keys
        invariant n == CountIn(config, arrival, seen)
        invariant forall k :: k in seen <==>
                    if k.start then k.prio in startQueues && k.prio !in todo else k.prio in queues
        decreases todo
      {
        var p := Pick(todo);
        CountInStep(config, arrival, seen, Key(p, true));
        n := n + |startQueues[p]|;
        seen, todo := seen + {Key(p, true)}, todo - {p};
      }
      CountInAll(config, arrival, seen);
    }

    /** Reports every bucket's priority, and leaves the non-empty buckets on disk. */
    method Close() returns (active: set<int>, files: map<Key, seq<Request>>)
      requires Valid()
      ensures active == queues.Keys + startQueues.Keys
      ensures Saved(config, arrival, active, files)
    {
      active := queues.Keys + startQueues.Keys;
      files := (map p | p in queues && queues[p] != [] :: Key(p, false) := queues[p])
             + (map p | p in startQueues && startQueues[p] != [] :: Key(p, true) := startQueues[p]);
      forall k, r | k in files && r in files[k] ensures KeyOf(config, r) == k {
        BucketMembers(config, arrival, k);
      }
    }

    /** Pops until nothing is left, ignoring empty answers on the way. Whatever pushes failed
        before, all stored requests come out in the undisturbed order. */
    method DrainAll() returns (out: seq<Request>)
      requires Valid()
      modifies this
      ensures Valid() && arrival == []
      ensures out == old(Drain(config, arrival))
    {
      out := [];
      var n := Len();
      while n > 0
        invariant Valid() && n == |arrival|
        invariant out + Drain(config, arrival) == old(Drain(config, arrival))
        decreases Measure()
      {
        if !Blocked() { DrainStep(config, out, arrival); }
        var r := Pop();
        if r.Some? {
          out := out + [r.value];
        }
        n := Len();
      }
    }
  }

  /** A bucket that is not empty is there, and with no empty buckets only such are. */
  lemma BucketsPresent(c: Config, queues: Tier, startQueues: Tier, arrival: seq<Request>, k: Key)
    requires Consistent(c, queues, startQueues, arrival)
    ensures Bucket(c, arrival, k) != [] ==> k.prio in if k.start then startQueues else queues
    ensures Content(queues, startQueues, k) == Bucket(c, arrival, k)
  {}

  lemma TwoRequests(c: Config, a: Request, b: Request)
    requires KeyOf(c, a) != KeyOf(c, b)
    ensures Bucket(c, [a, b], KeyOf(c, a)) == [a] && Bucket(c, [a, b], KeyOf(c, b)) == [b]
    ensures Before(KeyOf(c, a), KeyOf(c, b)) ==> NextIndex(c, [a, b]) == 0
  {
    assert [a, b] == [a] + [b];
    BucketConcat(c, [a], [b], KeyOf(c, a));
    BucketConcat(c, [a], [b], KeyOf(c, b));
    BucketSingle(c, a, KeyOf(c, a));
    BucketSingle(c, a, KeyOf(c, b));
    BucketSingle(c, b, KeyOf(c, a));
    BucketSingle(c, b, KeyOf(c, b));
    if Before(KeyOf(c, a), KeyOf(c, b)) {
      assert Served(c, [a, b], 0);
      ServedUnique(c, [a, b], 0, NextIndex(c, [a, b]));
    }
  }

  /** A regular and a start request of equal priority: peek names the one, pop returns the
      other. */
  method PeekMisleads(config: Config, regular: Request, start: Request)
      returns (peeked: PeekResult, popped: Option<Request>)
    requires config.startOrder.Some? && !regular.isStart && start.isStart && regular.priority == start.priority
    requires config.persistent ==> regular.serializable && start.serializable
    ensures peeked == Next(Some(start)) && popped == Some(regular)
  {
    var q := new ScrapyPriorityQueue(config);
    var _ := q.Push(regular);
    var _ := q.Push(start);
    assert q.arrival == [regular, start];
    TwoRequests(config, regular, start);
    BucketsPresent(config, q.queues, q.startQueues, q.arrival, KeyOf(config, regular));
    BucketsPresent(config, q.queues, q.startQueues, q.arrival, KeyOf(config, start));
    hide Consistent, Bucket;
    peeked := q.Peek();
    popped := q.Pop();
  }

  lemma OneRequest(c: Config, a: Request)
    ensures NextIndex(c, [a]) == 0
    ensures forall k :: Bucket(c, [a], k) == if KeyOf(c, a) == k then [a] else []
  {
    forall k ensures Bucket(c, [a], k) == if KeyOf(c, a) == k then [a] else [] {
      BucketSingle(c, a, k);
    }
  }

  lemma HoldsOne(c: Config, queues: Tier, startQueues: Tier, a: Request)
    requires Consistent(c, queues, startQueues, [a])
    ensures forall k | k != KeyOf(c, a) :: Content(queues, startQueues, k) == []
    ensures Content(queues, startQueues, KeyOf(c, a)) == [a]
    ensures NextIndex(c, [a]) == 0
  {
    OneRequest(c, a);
    hide Content;
  }

  method PopRegular(config: Config, regular: Request, start: Request) returns (q: ScrapyPriorityQueue)
    requires config.startOrder.Some? && !regular.isStart && start.isStart && regular.priority > start.priority
    requires config.persistent ==> regular.serializable && start.serializable
    ensures fresh(q) && q.Valid() && q.Clean() && q.config == config
    ensures q.arrival == [start] && q.curprio == Some(-regular.priority)
  {
    q := new ScrapyPriorityQueue(config);
    var _ := q.Push(regular);
    var _ := q.Push(start);
    assert q.arrival == [regular, start];
    TwoRequests(config, regular, start);
    BucketsPresent(config, q.queues, q.startQueues, q.arrival, KeyOf(config, regular));
    hide Consistent, Bucket;
    assert q.LookedAt() == Some(-regular.priority);
    var _ := q.Pop();
    assert q.arrival == [start];
    StartIsPresent(q, start);
  }

  lemma StartIsPresent(q: ScrapyPriorityQueue, start: Request)
    requires q.Valid() && q.arrival == [start] && KeyOf(q.config, start).start
    ensures q.startQueues != map[]
  {
    HoldsOne(q.config, q.queues, q.startQueues, start);
  }

  /** A regular request and a less urgent start request: once the first is popped, peek raises
      KeyError, although one request is pending. */
  method PeekRaisesKeyError(config: Config, regular: Request, start: Request)
      returns (peeked: PeekResult, popped: Option<Request>)
    requires config.startOrder.Some? && !regular.isStart && start.isStart && regular.priority > start.priority
    requires config.persistent ==> regular.serializable && start.serializable
    ensures peeked == KeyError && popped == Some(start)
  {
    var q := PopRegular(config, regular, start);
    HoldsOne(config, q.queues, q.startQueues, start);
    hide Consistent;
    var c := -regular.priority;
    assert Content(q.queues, q.startQueues, Key(c, false)) == []
        && Content(q.queues, q.startQueues, Key(c, true)) == [];
    peeked := q.Peek();
    popped := q.Pop();
  }

  /** Two regular requests, then two start requests, all of one priority. */
  lemma FourRequests(c: Config, a: Request, b: Request, x: Request, y: Request)
    requires c.order == Lifo && c.startOrder == Some(Fifo)
    requires !a.isStart && !b.isStart && x.isStart && y.isStart
    requires a.priority == b.priority == x.priority == y.priority
    ensures NextIndex(c, [a, b, x, y]) == 1 && NextIndex(c, [a, x, y]) == 0 && NextIndex(c, [x, y]) == 0
    ensures NextIndex(c, [y]) == 0
  {
    assert Served(c, [a, b, x, y], 1) && Served(c, [a, x, y], 0) && Served(c, [x, y], 0) && Served(c, [y], 0);
    ServedUnique(c, [a, b, x, y], 1, NextIndex(c, [a, b, x, y]));
    ServedUnique(c, [a, x, y], 0, NextIndex(c, [a, x, y]));
    ServedUnique(c, [x, y], 0, NextIndex(c, [x, y]));
    ServedUnique(c, [y], 0, NextIndex(c, [y]));
  }

  /** The default queue classes: regular requests leave last in, first out, and start requests
      after them, first in, first out. */
  method PopsInBothOrders(config: Config, a: Request, b: Request, x: Request, y: Request) returns (out: seq<Request>)
    requires config.order == Lifo && config.startOrder == Some(Fifo)
    requires !a.isStart && !b.isStart && x.isStart && y.isStart
    requires a.priority == b.priority == x.priority == y.priority
    requires config.persistent ==> a.serializable && b.serializable && x.serializable && y.serializable
    ensures out == [b, a, x, y]
  {
    var q := PushFour(config, a, b, x, y);
    FourRequests(config, a, b, x, y);
    hide ScrapyPriorityQueue.Valid, ScrapyPriorityQueue.Clean, ScrapyPriorityQueue.Due, ScrapyPriorityQueue.AfterPop,
         ScrapyPriorityQueue.Measure, ScrapyPriorityQueue.Weight, ScrapyPriorityQueue.LookedAt, NextIndex;
    var first := q.Pop();
    assert RemoveAt([a, b, x, y], 1) == [a, x, y];
    var second := q.Pop();
    assert RemoveAt([a, x, y], 0) == [x, y];
    var third := q.Pop();
    assert RemoveAt([x, y], 0) == [y];
    var fourth := q.Pop();
    out := [first.value, second.value, third.value, fourth.value];
  }

  method PushFour(config: Config, a: Request, b: Request, x: Request, y: Request) returns (q: ScrapyPriorityQueue)
    requires config.persistent ==> a.serializable && b.serializable && x.serializable && y.serializable
    ensures fresh(q) && q.Valid() && q.Clean() && q.config == config && q.arrival == [a, b, x, y]
  {
    hide ScrapyPriorityQueue.Valid, ScrapyPriorityQueue.Clean, ScrapyPriorityQueue.EmptyBuckets,
         ScrapyPriorityQueue.HasBucketFor, ScrapyPriorityQueue.Weight, KeyOf;
    q := new ScrapyPriorityQueue(config);
    var _ := q.Push(a);
    var _ := q.Push(b);
    var _ := q.Push(x);
    var _ := q.Push(y);
    assert [] + [a] + [b] + [x] + [y] == [a, b, x, y];
  }

  method PushBad(config: Config, bad: Request) returns (q: ScrapyPriorityQueue)
    requires config.persistent && !bad.isStart && !bad.serializable
    ensures fresh(q) && q.Valid() && q.config == config && q.arrival == [] && q.curprio.None?
    ensures q.queues.Keys == {-bad.priority} && q.EmptyBuckets() <= 1
  {
    q := new ScrapyPriorityQueue(config);
    assert q.EmptyBuckets() == 0 by {
      assert Empties(q.queues) == {} && Empties(q.startQueues) == {};
    }
    hide Consistent, ScrapyPriorityQueue.EmptyBuckets;
    var _ := q.Push(bad);
  }

  method PushBlocking(config: Config, bad: Request, good: Request) returns (q: ScrapyPriorityQueue)
    requires config.persistent && config.startOrder.Some?
    requires !bad.isStart && !bad.serializable && good.isStart && good.serializable && bad.priority == good.priority
    ensures fresh(q) && q.Valid() && q.Blocked() && q.config == config
    ensures q.arrival == [good] && q.EmptyBuckets() == 1
  {
    q := PushBad(config, bad);
    hide Consistent, ScrapyPriorityQueue.EmptyBuckets;
    var _ := q.Push(good);
    assert q.arrival == [good];
    BlockedBy(q, good, -bad.priority);
  }

  lemma BlockedBy(q: ScrapyPriorityQueue, good: Request, p: int)
    requires q.Valid() && q.arrival == [good] && p in q.queues && KeyOf(q.config, good) == Key(p, true)
        && q.curprio == Some(p)
    ensures q.Blocked() && q.EmptyBuckets() >= 1
  {
    HoldsOne(q.config, q.queues, q.startQueues, good);
    assert Content(q.queues, q.startQueues, Key(p, false)) == [];
    assert p in Empties(q.queues);
  }

  /** A regular request that cannot be serialized and a start request of equal priority that can:
      the first pop answers nothing, although a request is pending. */
  method PopAnswersNothing(config: Config, bad: Request, good: Request)
      returns (first: Option<Request>, second: Option<Request>)
    requires config.persistent && config.startOrder.Some?
    requires !bad.isStart && !bad.serializable && good.isStart && good.serializable && bad.priority == good.priority
    ensures first == None && second == Some(good)
  {
    var q := PushBlocking(config, bad, good);
    OneRequest(config, good);
    hide Consistent, Bucket, ScrapyPriorityQueue.Blocked, ScrapyPriorityQueue.EmptyBuckets;
    first := q.Pop();
    q.NoneEmpty();
    second := q.Pop();
  }

  lemma DrainStep(c: Config, out: seq<Request>, a: seq<Request>)
    requires a != []
    ensures out + Drain(c, a) == (out + [a[NextIndex(c, a)]]) + Drain(c, RemoveAt(a, NextIndex(c, a)))
  {}

  lemma {:induction false} BucketOfOneKey(c: Config, content: seq<Request>, k: Key, x: Key)
    requires forall r | r in content :: KeyOf(c, r) == k
    ensures Bucket(c, content, x) == if x == k then content else []
  {
    if content != [] {
      BucketOfOneKey(c, content[..|content| - 1], k, x);
    }
  }

  /** Closing a queue and opening it again from what was written keeps every bucket, hence
      (lemma DrainAlike) the number of requests and the order they later come out. */
  method Restart(q: ScrapyPriorityQueue) returns (again: ScrapyPriorityQueue)
    requires q.Valid()
    ensures fresh(again) && again.Valid() && again.Clean() && again.config == q.config
    ensures SameBuckets(q.config, again.arrival, q.arrival)
    ensures |again.arrival| == |q.arrival| && Drain(q.config, again.arrival) == Drain(q.config, q.arrival)
  {
    var active, files := q.Close();
    again := new ScrapyPriorityQueue.Open(q.config, active, files);
    SavedAndRestored(q.config, q.arrival, again.arrival, active, files);
  }
}
