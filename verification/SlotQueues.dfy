/** scrapy/pqueues.py, DownloaderAwarePriorityQueue: one ScrapyPriorityQueue per download
    slot; each pop serves the least busy slot, round robin among ties. */
module SlotQueues {
  import opened Requests
  import opened Collections
  import opened ArrivalQueue
  import opened PriorityQueues
  import opened SlotSelection

  /** A directory name for a slot: unsafe characters become underscores, and the MD5 digest of
      the name is appended. */
  function PathSafe(isAlnum: char -> bool, md5: string -> string, text: string): string {
    Sanitized(isAlnum, text) + "-" + md5(text)
  }

  function Sanitized(isAlnum: char -> bool, text: string): string {
    seq(|text|, i requires 0 <= i < |text| => if isAlnum(text[i]) || text[i] in "-._" then text[i] else '_')
  }

  /** Different slots get different directories, if the digest has no collision. */
  lemma PathSafeIsInjective(isAlnum: char -> bool, md5: string -> string, a: string, b: string)
    requires |md5(a)| == |md5(b)| && (md5(a) == md5(b) ==> a == b)
    requires PathSafe(isAlnum, md5, a) == PathSafe(isAlnum, md5, b)
    ensures a == b
  {
    var pa, pb := PathSafe(isAlnum, md5, a), PathSafe(isAlnum, md5, b);
    assert pa[|a| + 1..] == md5(a);
    assert pb[|b| + 1..] == md5(b);
  }

  /** Letters, digits, dashes, dots and underscores stay, and only they do: a name of these alone is
      what its directory name begins with. */
  lemma PathSafeKeeps(isAlnum: char -> bool, md5: string -> string, text: string, i: nat)
    requires i < |text|
    ensures var p, safe := PathSafe(isAlnum, md5, text), (c: char) => isAlnum(c) || c == '-' || c == '.' || c == '_';
            && (if safe(text[i]) then p[i] == text[i] else p[i] == '_')
            && ((forall c | c in text :: safe(c)) ==> text <= p)
  {
    var p := PathSafe(isAlnum, md5, text);
    assert p[..|text|] == Sanitized(isAlnum, text);
    if forall c | c in text :: isAlnum(c) || c == '-' || c == '.' || c == '_' {
      assert Sanitized(isAlnum, text) == text;
    }
  }

  function Active(downloads: map<string, nat>, slot: string): nat {
    if slot in downloads then downloads[slot] else 0
  }

  ghost function LeastActive(downloads: map<string, nat>, slots: set<string>): set<string> {
    set s | s in slots && forall t | t in slots :: Active(downloads, s) <= Active(downloads, t)
  }

  lemma AmongSlots(downloads: map<string, nat>, slots: set<string>, slot: string)
    requires slot in LeastActive(downloads, slots)
    ensures slot in slots
  {}

  /** The (active downloads, slot) pairs of all slots, in some order. */
  method Stats(downloads: map<string, nat>, slots: set<string>) returns (stats: seq<(nat, string)>)
    ensures Tied(stats) == LeastActive(downloads, slots)
    ensures stats == [] <==> slots == {}
  {
    stats := [];
    var todo := slots;
    while todo != {}
      invariant todo <= slots
      invariant stats == [] <==> todo == slots
      invariant forall i | 0 <= i < |stats| :: stats[i].1 in slots && stats[i].0 == Active(downloads, stats[i].1)
      invariant forall s | s in slots && s !in todo :: (Active(downloads, s), s) in stats
      decreases todo
    {
      var s := Pick(todo);
      stats, todo := stats + [(Active(downloads, s), s)], todo - {s};
    }
    forall s | s in LeastActive(downloads, slots) ensures s in Tied(stats) {
      var i :| 0 <= i < |stats| && stats[i] == (Active(downloads, s), s);
      assert forall j | 0 <= j < |stats| :: stats[i].0 <= stats[j].0;
    }
    forall s | s in Tied(stats) ensures s in LeastActive(downloads, slots) {
      var i :| 0 <= i < |stats| && stats[i].1 == s && forall j | 0 <= j < |stats| :: stats[i].0 <= stats[j].0;
      forall t | t in slots ensures Active(downloads, s) <= Active(downloads, t) {
        var j :| 0 <= j < |stats| && stats[j] == (Active(downloads, t), t);
        assert stats[i].0 <= stats[j].0;
      }
    }
  }

  /** The requests stored per slot, each in order of arrival. */
  type Stored = map<string, seq<Request>>

  function StoredAt(stored: Stored, slot: string): seq<Request> {
    if slot in stored then stored[slot] else []
  }

  /** After a push, failed if `added` is empty. */
  function Put(stored: Stored, r: Request, added: seq<Request>): Stored {
    stored[r.slot := StoredAt(stored, r.slot) + added]
  }

  /** A slot whose queue is empty after a pop goes away. */
  function AfterPop(stored: Stored, slot: string, left: seq<Request>): Stored {
    if left == [] then stored - {slot} else stored[slot := left]
  }

  /** What a closed queue leaves: per slot directory, the files of its buckets. */
  type Disk = map<string, map<Key, seq<Request>>>

  function FilesAt(disk: Disk, dir: string): map<Key, seq<Request>> {
    if dir in disk then disk[dir] else map[]
  }

  lemma FromFiles(c: Config, arrival: seq<Request>, prios: set<int>, files: map<Key, seq<Request>>)
    requires HoldsFiles(c, arrival, prios, files)
    ensures forall r | r in arrival :: exists k :: k in files && r in files[k]
  {
    forall r | r in arrival ensures exists k :: k in files && r in files[k] {
      BucketMembers(c, arrival, KeyOf(c, r));
    }
  }

  lemma InSaved(c: Config, arrival: seq<Request>, prios: set<int>, files: map<Key, seq<Request>>)
    requires Saved(c, arrival, prios, files)
    ensures WellKeyed(c, files)
    ensures forall k, r | k in files && r in files[k] :: r in arrival
  {
    forall k, r | k in files && r in files[k] ensures r in arrival {
      BucketMembers(c, arrival, k);
    }
  }

  ghost predicate Injective(f: string -> string) {
    forall a, b :: f(a) == f(b) ==> a == b
  }

  /** An answer is the next request stored, and is never missing from a queue in memory that
      stores one. */
  ghost predicate Answered(c: Config, content: seq<Request>, r: Option<Request>) {
    && (r.Some? ==> content != [] && r.value == content[NextIndex(c, content)])
    && (r.None? && !c.persistent ==> content == [])
  }

  /** One pop: `slot` is the round robin choice among the least busy slots, the answer is the next
      request of that slot's queue, or none, and nothing else is taken. */
  ghost predicate Picked(c: Config, last: Option<string>, downloads: map<string, nat>, before: Stored, after: Stored,
                         slot: string, r: Option<Request>)
  {
    && Selects(last, LeastActive(downloads, before.Keys), slot) && slot in before
    && Answered(c, before[slot], r)
    && after == AfterPop(before, slot, Remaining(c, before[slot], r))
  }

  /** No slot has fewer active downloads than the one that is served; one that is not in the
      downloader's count has none. */
  lemma LeastBusyIsServed(c: Config, last: Option<string>, downloads: map<string, nat>, before: Stored, after: Stored,
                          slot: string, r: Option<Request>, t: string)
    requires Picked(c, last, downloads, before, after, slot, r) && t in before
    ensures slot in before
    ensures t in downloads ==> (slot in downloads ==> downloads[slot] <= downloads[t])
    ensures t !in downloads ==> slot !in downloads || downloads[slot] == 0
  {
    SelectsTied(last, LeastActive(downloads, before.Keys), slot);
  }

  // ----- Runs of pushes and pops

  /** A call of the queue; `downloads` is the download activity at that moment. */
  datatype Call = PushCall(r: Request) | PopCall(downloads: map<string, nat>)

  function Pushes(calls: seq<Call>): nat {
    if calls == [] then 0 else Pushes(calls[..|calls| - 1]) + if calls[|calls| - 1].PushCall? then 1 else 0
  }

  /** The slots served, in order; a call that serves none has none. */
  function Chosen(picks: seq<Option<string>>): seq<string> {
    if picks == [] then [] else
    var n := |picks| - 1;
    Chosen(picks[..n]) + if picks[n].Some? then [picks[n].value] else []
  }

  /** One call, from the requests stored before to those stored after it, when `last` is the slot
      selected last: what a push adds, or a pop takes from the slot it picks. */
  ghost predicate Step(c: Config, last: Option<string>, call: Call, before: Stored, after: Stored, pick: Option<string>)
  {
    match call
    case PushCall(r) => pick == None && after == Put(before, r, if !c.persistent || r.serializable then [r] else [])
    case PopCall(downloads) =>
      if before == map[] then pick == None && after == before
      else pick.Some? && exists r :: Picked(c, last, downloads, before, after, pick.value, r)
  }

  /** `trace[n]` is stored before call `n`, and `trace[|calls|]` in the end. */
  ghost predicate Traced(c: Config, last: Option<string>, calls: seq<Call>, trace: seq<Stored>,
                         picks: seq<Option<string>>)
  {
    && |trace| == |calls| + 1 && |picks| == |calls|
    && forall n | 0 <= n < |calls| ::
         Step(c, LastOf(last, Chosen(picks[..n])), calls[n], trace[n], trace[n + 1], picks[n])
  }

  /** The slots tied for the fewest downloads at each pop that found any slot. */
  ghost function Ties(calls: seq<Call>, trace: seq<Stored>): seq<set<string>>
    requires |trace| == |calls| + 1
    decreases |calls|
  {
    if calls == [] then [] else
    var n := |calls| - 1;
    Ties(calls[..n], trace[..n + 1]) +
    if calls[n].PopCall? && trace[n] != map[] then [LeastActive(calls[n].downloads, trace[n].Keys)] else []
  }

  lemma TracedNone(c: Config, last: Option<string>, stored: Stored)
    ensures Traced(c, last, [], [stored], [])
  {}

  lemma ChosenOneMore(last: Option<string>, picks: seq<Option<string>>, pick: Option<string>)
    ensures LastOf(last, Chosen(picks + [pick])) == if pick.Some? then pick else LastOf(last, Chosen(picks))
    ensures |Chosen(picks + [pick])| == |Chosen(picks)| + if pick.Some? then 1 else 0
  {
    ChosenCat(picks, [pick]);
    assert Chosen([pick]) == if pick.Some? then [pick.value] else [];
  }

  lemma TracedOneMore(c: Config, last: Option<string>, calls: seq<Call>, trace: seq<Stored>,
                      picks: seq<Option<string>>, call: Call, after: Stored, pick: Option<string>)
    requires Traced(c, last, calls, trace, picks)
    requires Step(c, LastOf(last, Chosen(picks)), call, trace[|calls|], after, pick)
    ensures Traced(c, last, calls + [call], trace + [after], picks + [pick])
  {
    hide Step;
    var all := picks + [pick];
    forall n | 0 <= n <= |calls|
      ensures Step(c, LastOf(last, Chosen(all[..n])), (calls + [call])[n], (trace + [after])[n],
                   (trace + [after])[n + 1], all[n])
    {
      if n < |calls| {
        assert all[..n] == picks[..n];
      } else {
        assert all[..n] == picks;
      }
    }
  }

  lemma {:induction false} ChosenCat(a: seq<Option<string>>, b: seq<Option<string>>)
    ensures Chosen(a + b) == Chosen(a) + Chosen(b)
    decreases |b|
  {
    if b == [] {
      assert a + b == a;
    } else {
      var n := |b| - 1;
      assert (a + b)[..|a + b| - 1] == a + b[..n];
      ChosenCat(a, b[..n]);
    }
  }

  /** A run seen from call `i` to call `j` is a run of its own. */
  lemma TracedPart(c: Config, last: Option<string>, calls: seq<Call>, trace: seq<Stored>, picks: seq<Option<string>>,
                   i: nat, j: nat)
    requires Traced(c, last, calls, trace, picks) && i <= j <= |calls|
    ensures Traced(c, LastOf(last, Chosen(picks[..i])), calls[i..j], trace[i..j + 1], picks[i..j])
  {
    hide Step, Chosen, LastOf;
    forall n | 0 <= n < j - i
      ensures Step(c, LastOf(LastOf(last, Chosen(picks[..i])), Chosen(picks[i..j][..n])), calls[i..j][n],
                   trace[i..j + 1][n], trace[i..j + 1][n + 1], picks[i..j][n])
    {
      LastOfPart(last, picks, i, j, n);
    }
  }

  lemma LastOfPart(last: Option<string>, picks: seq<Option<string>>, i: nat, j: nat, n: nat)
    requires i + n <= j <= |picks|
    ensures LastOf(LastOf(last, Chosen(picks[..i])), Chosen(picks[i..j][..n])) == LastOf(last, Chosen(picks[..i + n]))
  {
    ChosenCat(picks[..i], picks[i..j][..n]);
    assert picks[..i] + picks[i..j][..n] == picks[..i + n];
  }

  /** All calls but the last, and the last one. */
  lemma TracedButLast(c: Config, last: Option<string>, calls: seq<Call>, trace: seq<Stored>,
                      picks: seq<Option<string>>)
    requires Traced(c, last, calls, trace, picks) && calls != []
    ensures var n := |calls| - 1;
            && Traced(c, last, calls[..n], trace[..n + 1], picks[..n])
            && Step(c, LastOf(last, Chosen(picks[..n])), calls[n], trace[n], trace[n + 1], picks[n])
  {
    hide Step, Chosen, LastOf;
    var n := |calls| - 1;
    forall k | 0 <= k < n
      ensures Step(c, LastOf(last, Chosen(picks[..n][..k])), calls[..n][k], trace[..n + 1][k],
                   trace[..n + 1][k + 1], picks[..n][k])
    {
      assert picks[..n][..k] == picks[..k];
    }
  }

  /** What a call adds to the choices and to the ties. */
  lemma StepChooses(c: Config, last: Option<string>, call: Call, before: Stored, after: Stored, pick: Option<string>)
    requires Step(c, last, call, before, after, pick)
    ensures pick.Some? <==> call.PopCall? && before != map[]
    ensures pick.Some? ==> Selects(last, LeastActive(call.downloads, before.Keys), pick.value)
  {
    hide Selects, LeastActive;
  }

  /** The choices of any run of calls are one run of the round robin among the slots that were
      tied for the fewest downloads in the queue itself. */
  lemma {:induction false} TracedIsRun(c: Config, last: Option<string>, calls: seq<Call>, trace: seq<Stored>,
                                       picks: seq<Option<string>>)
    requires Traced(c, last, calls, trace, picks)
    ensures Run(last, Ties(calls, trace), Chosen(picks))
    decreases |calls|
  {
    hide Run, Selects, LeastActive, Step;
    if calls == [] {
      NoChoices(last);
    } else {
      var n := |calls| - 1;
      TracedButLast(c, last, calls, trace, picks);
      TracedIsRun(c, last, calls[..n], trace[..n + 1], picks[..n]);
      StepChooses(c, LastOf(last, Chosen(picks[..n])), calls[n], trace[n], trace[n + 1], picks[n]);
      var ties, chosen := Ties(calls[..n], trace[..n + 1]), Chosen(picks[..n]);
      if picks[n].Some? {
        RunOneMore(last, ties, chosen, LeastActive(calls[n].downloads, trace[n].Keys), picks[n].value);
      } else {
        assert ties + [] == ties && chosen + [] == chosen;
      }
    }
  }

  lemma NoChoices(last: Option<string>)
    ensures Run(last, [], [])
  {}

  /** At every pop the slot `t` is among those with the fewest downloads and is not served. */
  ghost predicate PassedOver(calls: seq<Call>, trace: seq<Stored>, picks: seq<Option<string>>, t: string)
    requires |trace| == |calls| + 1 && |picks| == |calls|
  {
    forall n | 0 <= n < |calls| && calls[n].PopCall? ::
      t in LeastActive(calls[n].downloads, trace[n].Keys) && picks[n] != Some(t)
  }

  lemma {:induction false} TiedThroughout(c: Config, last: Option<string>, calls: seq<Call>, trace: seq<Stored>,
                                          picks: seq<Option<string>>, t: string)
    requires Traced(c, last, calls, trace, picks) && PassedOver(calls, trace, picks, t)
    ensures var ties, chosen := Ties(calls, trace), Chosen(picks);
            |ties| == |chosen| && forall k | 0 <= k < |chosen| :: t in ties[k] && chosen[k] != t
    decreases |calls|
  {
    if calls != [] {
      var n := |calls| - 1;
      TracedButLast(c, last, calls, trace, picks);
      assert PassedOver(calls[..n], trace[..n + 1], picks[..n], t) by { hide LeastActive, Traced; }
      hide Selects, LeastActive, Traced, Step;
      TiedThroughout(c, last, calls[..n], trace[..n + 1], picks[..n], t);
      StepChooses(c, LastOf(last, Chosen(picks[..n])), calls[n], trace[n], trace[n + 1], picks[n]);
    }
  }

  lemma ChosenAt(picks: seq<Option<string>>, m: nat)
    requires m < |picks| && picks[m].Some?
    ensures |Chosen(picks[..m])| < |Chosen(picks)| && Chosen(picks)[|Chosen(picks[..m])|] == picks[m].value
  {
    assert picks[..m + 1][..m] == picks[..m] && picks == picks[..m + 1] + picks[m + 1..];
    ChosenCat(picks[..m + 1], picks[m + 1..]);
  }

  lemma ServedOnce(c: Config, last: Option<string>, calls: seq<Call>, trace: seq<Stored>, picks: seq<Option<string>>,
                   t: string, m: nat, n: nat)
    requires Traced(c, last, calls, trace, picks) && PassedOver(calls, trace, picks, t)
    requires m < n < |picks| && picks[m].Some? && picks[n].Some?
    ensures picks[m] != picks[n]
  {
    hide Step, PassedOver, Run, Ties, Chosen;
    TracedIsRun(c, last, calls, trace, picks);
    TiedThroughout(c, last, calls, trace, picks, t);
    ChosenAt(picks, m);
    ChosenAt(picks, n);
    ChosenAt(picks[..n], m);
    assert picks[..n][..m] == picks[..m];
    BoundedBypass(last, Ties(calls, trace), Chosen(picks), t, |Chosen(picks[..m])|, |Chosen(picks[..n])|);
  }

  /** Bounded bypass of the queue itself: in any stretch of any run of pushes and pops, no slot is
      served twice while another stays tied for the fewest downloads and is not served. */
  lemma BypassIsBounded(c: Config, last: Option<string>, calls: seq<Call>, trace: seq<Stored>,
                        picks: seq<Option<string>>, i: nat, j: nat, t: string, m: nat, n: nat)
    requires Traced(c, last, calls, trace, picks) && i <= m < n < j <= |calls|
    requires PassedOver(calls[i..j], trace[i..j + 1], picks[i..j], t)
    requires picks[m].Some?
    ensures picks[m] != picks[n]
  {
    TracedPart(c, last, calls, trace, picks, i, j);
    var part := picks[i..j];
    assert part[m - i] == picks[m] && part[n - i] == picks[n];
    if picks[n].Some? {
      hide Traced, PassedOver;
      ServedOnce(c, LastOf(last, Chosen(picks[..i])), calls[i..j], trace[i..j + 1], part, t, m - i, n - i);
    }
  }

  /** No two slots share a queue object. */
  ghost predicate Separate(pqueues: map<string, ScrapyPriorityQueue>) {
    forall s, t | s in pqueues && t in pqueues && s != t :: pqueues[s] != pqueues[t]
  }

  /** The queue of one slot: it stores `content`, all of it requests of that slot. */
  ghost predicate SlotOk(c: Config, slot: string, q: ScrapyPriorityQueue, content: seq<Request>, weight: nat)
    reads q
  {
    && q.Valid() && q.config == c
    && q.arrival == content && q.Weight() == weight
    && forall r | r in content :: r.slot == slot
  }

  lemma SlotGives(c: Config, slot: string, q: ScrapyPriorityQueue, content: seq<Request>, weight: nat)
    requires SlotOk(c, slot, q, content, weight)
    ensures q.Valid() && q.config == c && q.arrival == content && q.Weight() == weight
    ensures forall r | r in content :: r.slot == slot
  {}

  lemma SlotIs(c: Config, slot: string, q: ScrapyPriorityQueue)
    requires q.Valid() && q.config == c && forall r | r in q.arrival :: r.slot == slot
    ensures SlotOk(c, slot, q, q.arrival, q.Weight())
  {}

  class DownloaderAwarePriorityQueue {
    const config: Config
    const dirOf: string -> string
    var pqueues: map<string, ScrapyPriorityQueue>
    var lastSelected: Option<string>
    /** The requests stored per slot. */
    ghost var contents: Stored
    ghost var weights: map<string, nat>
    ghost var Repr: set<object>

    ghost predicate Valid()
      reads this, Repr
      ensures Valid() ==> this in Repr
    {
      && this in Repr
      && contents.Keys == weights.Keys == pqueues.Keys
      && Separate(pqueues)
      && forall s | s in pqueues ::
           pqueues[s] in Repr && SlotOk(config, s, pqueues[s], contents[s], weights[s])
    }

    lemma Labelled()
      requires Valid()
      ensures forall s, r | s in contents && r in contents[s] :: r.slot == s
    {}

    /** Stored requests, leftover empty buckets and empty slots. */
    ghost function Progress(): nat
      reads this
    {
      Sum(weights)
    }

    constructor (config: Config, dirOf: string -> string)
      ensures Valid() && fresh(Repr) && this.config == config && this.dirOf == dirOf
      ensures pqueues == map[] && contents == map[] && lastSelected == None
    {
      this.config, this.dirOf := config, dirOf;
      pqueues, lastSelected := map[], None;
      contents, weights, Repr := map[], map[], {this};
    }

    /** Reopens the queue from the priorities per slot and the files that `Close` left. */
    constructor Open(config: Config, dirOf: string -> string, state: map<string, set<int>>, disk: Disk)
      requires forall s | s in state :: WellKeyed(config, FilesAt(disk, dirOf(s)))
      requires forall s, k, r | s in state && k in FilesAt(disk, dirOf(s)) && r in FilesAt(disk, dirOf(s))[k] ::
                 r.slot == s
      ensures Valid() && fresh(Repr) && this.config == config && this.dirOf == dirOf
      ensures contents.Keys == state.Keys && lastSelected == None
      ensures forall s | s in contents :: HoldsFiles(config, contents[s], state[s], FilesAt(disk, dirOf(s)))
    {
      this.config, this.dirOf := config, dirOf;
      pqueues, lastSelected := map[], None;
      contents, weights, Repr := map[], map[], {this};
      new;
      NoneShared();
      hide SlotOk, Separate, HoldsFiles, WellKeyed, ScrapyPriorityQueue.Valid, ScrapyPriorityQueue.Clean,
           ScrapyPriorityQueue.Weight;
      var todo := state.Keys;
      while todo != {}
        invariant todo <= state.Keys
        invariant Valid() && fresh(Repr)
        invariant pqueues.Keys == state.Keys - todo && lastSelected == None
        invariant forall s | s in contents :: HoldsFiles(config, contents[s], state[s], FilesAt(disk, dirOf(s)))
        decreases todo
      {
        var s := Pick(todo);
        todo := todo - {s};
        AddSaved(s, state[s], FilesAt(disk, dirOf(s)));
      }
    }

    /** The queue of one saved slot. */
    method AddSaved(slot: string, prios: set<int>, files: map<Key, seq<Request>>)
      requires Valid() && slot !in pqueues && WellKeyed(config, files)
      requires forall k, r | k in files && r in files[k] :: r.slot == slot
      modifies this
      ensures Valid() && fresh(Repr - old(Repr)) && lastSelected == old(lastSelected)
      ensures slot in contents && contents == old(contents)[slot := contents[slot]]
      ensures HoldsFiles(config, contents[slot], prios, files)
    {
      hide SlotOk, Separate, HoldsFiles, WellKeyed, ScrapyPriorityQueue.Valid, ScrapyPriorityQueue.Clean,
           ScrapyPriorityQueue.Weight;
      var q := new ScrapyPriorityQueue.Open(config, prios, files);
      FromFiles(config, q.arrival, prios, files);
      Add(slot, q);
    }

    /** Registers a queue object for a new slot. */
    method Add(slot: string, q: ScrapyPriorityQueue)
      requires Valid() && slot !in pqueues
      requires q !in Repr && q.Valid() && q.config == config
      requires forall r | r in q.arrival :: r.slot == slot
      modifies this
      ensures Valid() && Repr == old(Repr) + {q}
      ensures pqueues == old(pqueues)[slot := q] && contents == old(contents)[slot := q.arrival]
      ensures lastSelected == old(lastSelected) && Progress() == old(Progress()) + q.Weight()
    {
      hide SlotOk, Separate, Sum, ScrapyPriorityQueue.Valid, ScrapyPriorityQueue.Weight;
      SumUpdate(weights, slot, q.Weight());
      assert weights - {slot} == weights;
      SlotIs(config, slot, q);
      WithOneMore(pqueues, slot, q);
      pqueues := pqueues[slot := q];
      contents, weights, Repr := contents[slot := q.arrival], weights[slot := q.Weight()], Repr + {q};
    }

    /** A failed push may leave an empty slot, or an empty bucket in its slot. */
    method Push(r: Request) returns (ok: bool)
      requires Valid()
      modifies this, Repr
      ensures Valid() && fresh(Repr - old(Repr))
      ensures ok <==> !config.persistent || r.serializable
      ensures contents == Put(old(contents), r, if ok then [r] else [])
      ensures lastSelected == old(lastSelected) && Progress() <= old(Progress()) + 2
    {
      hide SlotOk, Separate, Sum, ScrapyPriorityQueue.Valid, ScrapyPriorityQueue.Weight;
      if r.slot !in pqueues {
        var created := new ScrapyPriorityQueue(config);
        Add(r.slot, created);
      }
      assert contents[r.slot] == StoredAt(old(contents), r.slot);
      ok := PushTo(r);
    }

    method PushTo(r: Request) returns (ok: bool)
      requires Valid() && r.slot in pqueues
      modifies this`contents, this`weights, pqueues[r.slot]
      ensures Valid()
      ensures ok <==> !config.persistent || r.serializable
      ensures contents == old(contents)[r.slot := old(contents)[r.slot] + if ok then [r] else []]
      ensures Progress() <= old(Progress()) + 1
    {
      hide SlotOk, Separate, Sum, ScrapyPriorityQueue.Valid, ScrapyPriorityQueue.Weight;
      OthersDiffer(pqueues, r.slot);
      SumRemove(weights, r.slot);
      ghost var content, weight;
      ok, content, weight := PushOnto(pqueues[r.slot], r, contents[r.slot], weights[r.slot]);
      SumUpdate(weights, r.slot, weight);
      contents, weights := contents[r.slot := content], weights[r.slot := weight];
    }

    /** A push onto the queue of the request's slot. */
    method PushOnto(q: ScrapyPriorityQueue, r: Request, ghost content: seq<Request>, ghost weight: nat)
        returns (ok: bool, ghost newContent: seq<Request>, ghost newWeight: nat)
      requires SlotOk(config, r.slot, q, content, weight)
      modifies q
      ensures ok <==> !config.persistent || r.serializable
      ensures newContent == content + (if ok then [r] else []) && SlotOk(config, r.slot, q, newContent, newWeight)
      ensures newWeight <= weight + 1
    {
      hide SlotOk, ScrapyPriorityQueue.Valid, ScrapyPriorityQueue.Clean,
           ScrapyPriorityQueue.EmptyBuckets, ScrapyPriorityQueue.HasBucketFor, KeyOf;
      SlotGives(config, r.slot, q, content, weight);
      ok := q.Push(r);
      newContent, newWeight := q.arrival, q.Weight();
      SlotIs(config, r.slot, q);
    }

    /** Serves the slot that round robin selects among the least busy ones. While any slot
        exists every call makes progress, whatever pushes failed before. */
    method Pop(downloads: map<string, nat>) returns (r: Option<Request>)
      requires Valid()
      modifies this, Repr
      ensures Valid() && Repr == old(Repr)
      ensures old(contents) == map[] ==> r == None && contents == map[] && lastSelected == old(lastSelected)
      ensures old(contents) != map[] ==>
                && lastSelected.Some?
                && var slot := lastSelected.value;
                && Picked(config, old(lastSelected), downloads, old(contents), contents, slot, r)
                && slot in old(pqueues) && (var q := old(pqueues)[slot]; r == old(q.Due()))
                && Progress() < old(Progress())
    {
      hide SlotOk, Separate, Tied, Selects, LeastActive, Sum, Remaining;
      var stats := Stats(downloads, pqueues.Keys);
      if stats == [] {
        return None;
      }
      var slot := NextSlot(lastSelected, stats);
      SelectsTied(lastSelected, Tied(stats), slot);
      AmongSlots(downloads, pqueues.Keys, slot);
      lastSelected := Some(slot);
      r := ServeSlot(slot);
    }

    /** Pops the queue of one slot, and drops the slot when nothing is left in it. */
    method ServeSlot(slot: string) returns (r: Option<Request>)
      requires Valid() && slot in pqueues
      modifies this`pqueues, this`contents, this`weights, pqueues[slot]
      ensures Valid()
      ensures var q := old(pqueues[slot]); r == old(q.Due())
      ensures Answered(config, old(contents)[slot], r)
      ensures contents == AfterPop(old(contents), slot, Remaining(config, old(contents)[slot], r))
      ensures Progress() < old(Progress())
    {
      hide SlotOk, Separate, Sum, Remaining, ScrapyPriorityQueue.Due;
      r := PopSlot(slot);
      SlotGives(config, slot, pqueues[slot], contents[slot], weights[slot]);
      var n := pqueues[slot].Len();
      if n == 0 {
        assert old(contents) - {slot} == contents - {slot};
        DropSlot(slot);
      }
    }

    method PopSlot(slot: string) returns (r: Option<Request>)
      requires Valid() && slot in pqueues
      modifies this`contents, this`weights, pqueues[slot]
      ensures Valid()
      ensures r == old(pqueues[slot].Due())
      ensures Answered(config, old(contents)[slot], r)
      ensures contents == old(contents)[slot := Remaining(config, old(contents)[slot], r)]
      ensures Progress() == old(Progress()) - old(weights)[slot] + weights[slot]
      ensures old(weights)[slot] > 0 && (contents[slot] != [] ==> weights[slot] < old(weights)[slot])
    {
      hide SlotOk, Separate, Sum, Remaining, ScrapyPriorityQueue.Valid, ScrapyPriorityQueue.Weight,
           ScrapyPriorityQueue.AfterPop, ScrapyPriorityQueue.LookedAt,
           ScrapyPriorityQueue.Due, ScrapyPriorityQueue.Clean, ScrapyPriorityQueue.EmptyBuckets;
      var q := pqueues[slot];
      OthersDiffer(pqueues, slot);
      SlotGives(config, slot, q, contents[slot], weights[slot]);
      SumRemove(weights, slot);
      r := q.Pop();
      RemainingMembers(config, old(contents)[slot], r);
      SlotIs(config, slot, q);
      SumUpdate(weights, slot, q.Weight());
      contents, weights := contents[slot := q.arrival], weights[slot := q.Weight()];
    }

    method DropSlot(slot: string)
      requires Valid() && slot in pqueues
      modifies this`pqueues, this`contents, this`weights
      ensures Valid()
      ensures contents == old(contents) - {slot}
      ensures Progress() == old(Progress()) - old(weights)[slot]
    {
      hide SlotOk, Separate, Sum;
      WithoutOne(pqueues, slot);
      SumRemove(weights, slot);
      pqueues, contents, weights := pqueues - {slot}, contents - {slot}, weights - {slot};
    }

    /** Looks into the slot `Pop` would serve, without moving the round robin on. */
    method Peek(downloads: map<string, nat>) returns (p: PeekResult)
      requires Valid()
      ensures pqueues == map[] ==> p == Next(None)
      ensures pqueues != map[] ==>
                exists slot :: slot in pqueues && Selects(lastSelected, LeastActive(downloads, pqueues.Keys), slot)
                            && (p == Next(pqueues[slot].Due()) <==> pqueues[slot].PeekAgrees())
                            && (p == KeyError <==> pqueues[slot].PeekFails())
    {
      hide Separate, Tied, Selects, LeastActive;
      var stats := Stats(downloads, pqueues.Keys);
      if stats == [] {
        return Next(None);
      }
      var slot := NextSlot(lastSelected, stats);
      SelectsTied(lastSelected, Tied(stats), slot);
      AmongSlots(downloads, pqueues.Keys, slot);
      p := pqueues[slot].Peek();
    }

    method Len() returns (n: nat)
      requires Valid()
      ensures n == Sum(Lengths(contents))
    {
      hide Separate, Sum, ScrapyPriorityQueue.Valid, ScrapyPriorityQueue.Weight;
      n := 0;
      SumEmpty<string>();
      ghost var counted: map<string, nat> := map[];
      var todo := pqueues.Keys;
      while todo != {}
        invariant todo <= pqueues.Keys
        invariant counted == Lengths(contents) - todo
        invariant n == Sum(counted)
        decreases todo
      {
        var s := Pick(todo);
        var m := pqueues[s].Len();
        n, todo := n + m, todo - {s};
        assert counted - {s} == counted;
        SumUpdate(counted, s, m);
        counted := counted[s := m];
      }
      assert counted == Lengths(contents);
    }

    /** The state to save per slot, and what is left on disk. */
    method Close() returns (state: map<string, set<int>>, disk: Disk)
      requires Valid() && Injective(dirOf)
      modifies this
      ensures Valid() && pqueues == map[]
      ensures state.Keys == old(contents).Keys
      ensures forall s | s in old(contents) ::
                dirOf(s) in disk && Saved(config, old(contents)[s], state[s], disk[dirOf(s)])
    {
      hide Saved, Separate, SlotOk, ScrapyPriorityQueue.Valid, ScrapyPriorityQueue.Weight;
      state, disk := map[], map[];
      var todo := pqueues.Keys;
      while todo != {}
        invariant Valid() && pqueues == old(pqueues) && contents == old(contents)
        invariant todo <= pqueues.Keys && state.Keys == pqueues.Keys - todo
        invariant forall s | s in state ::
                    dirOf(s) in disk && Saved(config, contents[s], state[s], disk[dirOf(s)])
        decreases todo
      {
        var s := Pick(todo);
        SlotGives(config, s, pqueues[s], contents[s], weights[s]);
        var active, files := pqueues[s].Close();
        state, disk, todo := state[s := active], disk[dirOf(s) := files], todo - {s};
      }
      NoneShared();
      pqueues, contents, weights := map[], map[], map[];
    }

    /** Any sequence of pushes and pops. `picks` tells which slot each call served, and `trace`
        what was stored before and after each. Each pop that serves a slot takes a request, an
        empty bucket or an empty slot away, of which a push adds two at most. */
    method Use(calls: seq<Call>) returns (picks: seq<Option<string>>, ghost trace: seq<Stored>)
      requires Valid()
      modifies this, Repr
      ensures Valid() && fresh(Repr - old(Repr))
      ensures Traced(config, old(lastSelected), calls, trace, picks)
      ensures trace[0] == old(contents) && trace[|calls|] == contents
      ensures lastSelected == LastOf(old(lastSelected), Chosen(picks))
      ensures Progress() + |Chosen(picks)| <= old(Progress()) + 2 * Pushes(calls)
      ensures Run(old(lastSelected), Ties(calls, trace), Chosen(picks))
    {
      hide Separate, SlotOk, Selects, LeastActive, Sum, Run, Ties, Picked, Put, Traced, Step, ScrapyPriorityQueue.Due,
           ScrapyPriorityQueue.Valid, ScrapyPriorityQueue.Weight;
      picks, trace := [], [contents];
      TracedNone(config, lastSelected, contents);
      for n := 0 to |calls|
        invariant Valid() && fresh(Repr - old(Repr))
        invariant |trace| == n + 1 && Traced(config, old(lastSelected), calls[..n], trace, picks)
        invariant trace[0] == old(contents) && trace[n] == contents
        invariant lastSelected == LastOf(old(lastSelected), Chosen(picks))
        invariant Progress() + |Chosen(picks)| <= old(Progress()) + 2 * Pushes(calls[..n])
      {
        ghost var before, last := contents, lastSelected;
        var pick := Make(calls[n]);
        TracedOneMore(config, old(lastSelected), calls[..n], trace, picks, calls[n], contents, pick);
        ChosenOneMore(old(lastSelected), picks, pick);
        assert calls[..n + 1] == calls[..n] + [calls[n]] && calls[..n + 1][..n] == calls[..n];
        picks, trace := picks + [pick], trace + [contents];
      }
      assert calls[..|calls|] == calls;
      TracedIsRun(config, old(lastSelected), calls, trace, picks);
    }

    method Make(call: Call) returns (pick: Option<string>)
      requires Valid()
      modifies this, Repr
      ensures Valid() && fresh(Repr - old(Repr))
      ensures Step(config, old(lastSelected), call, old(contents), contents, pick)
      ensures lastSelected == if pick.Some? then pick else old(lastSelected)
      ensures Progress() + (if pick.Some? then 1 else 0) <= old(Progress()) + if call.PushCall? then 2 else 0
    {
      hide Separate, SlotOk, Selects, LeastActive, Sum, Picked, Put, ScrapyPriorityQueue.Due,
           ScrapyPriorityQueue.Valid, ScrapyPriorityQueue.Weight;
      pick := None;
      match call
      case PushCall(r) =>
        var ok := Push(r);
      case PopCall(downloads) =>
        var found := pqueues != map[];
        var r := Pop(downloads);
        if found {
          pick := lastSelected;
          assert Picked(config, old(lastSelected), downloads, old(contents), contents, pick.value, r);
        }
    }

    /** Pops until no slot is left, with whatever download activity at each pop. The requests
        of each slot come out in the order an undisturbed queue of that slot serves them. */
    method DrainAll() returns (out: seq<Request>)
      requires Valid()
      modifies this, Repr
      ensures Valid() && contents == map[]
      ensures forall s :: OfSlot(out, s) == Drain(config, StoredAt(old(contents), s))
    {
      hide Separate, Selects, LeastActive, Drain, Sum, Remaining, ScrapyPriorityQueue.Valid, ScrapyPriorityQueue.Weight;
      out := [];
      while pqueues != map[]
        invariant Valid() && Repr == old(Repr)
        invariant forall s :: OfSlot(out, s) + Drain(config, StoredAt(contents, s)) ==
                              Drain(config, StoredAt(old(contents), s))
        decreases Progress()
      {
        var downloads: map<string, nat> := *;
        ghost var before, was := contents, out;
        var r := Pop(downloads);
        if r.Some? {
          out := out + [r.value];
        }
        SlotDrains(config, before, was, lastSelected.value, r);
      }
      DrainEmpty(config);
    }
  }

  function Lengths(contents: Stored): map<string, nat> {
    map s | s in contents :: |contents[s]|
  }

  lemma NoneShared()
    ensures Separate(map[])
  {}

  lemma OthersDiffer(pqueues: map<string, ScrapyPriorityQueue>, slot: string)
    requires Separate(pqueues) && slot in pqueues
    ensures forall t | t in pqueues && t != slot :: pqueues[t] != pqueues[slot]
  {}

  lemma WithOneMore(pqueues: map<string, ScrapyPriorityQueue>, slot: string, q: ScrapyPriorityQueue)
    requires Separate(pqueues) && forall t | t in pqueues :: pqueues[t] != q
    ensures Separate(pqueues[slot := q])
  {}

  lemma WithoutOne(pqueues: map<string, ScrapyPriorityQueue>, slot: string)
    requires Separate(pqueues)
    ensures Separate(pqueues - {slot})
  {}

  /** One pop moves at most one request, the next of its slot, from stored to handed out. */
  lemma SlotDrains(c: Config, before: Stored, out: seq<Request>, slot: string, r: Option<Request>)
    requires slot in before
    requires Answered(c, before[slot], r)
    requires r.Some? ==> r.value.slot == slot
    ensures var after := AfterPop(before, slot, Remaining(c, before[slot], r));
            var out' := if r.Some? then out + [r.value] else out;
            forall s :: OfSlot(out', s) + Drain(c, StoredAt(after, s)) == OfSlot(out, s) + Drain(c, StoredAt(before, s))
  {
    hide Drain, OfSlot;
    DrainEmpty(c);
    if r.Some? {
      forall s ensures OfSlot(out + [r.value], s) == OfSlot(out, s) + if s == slot then [r.value] else [] {
        OfSlotStep(out, r.value, s);
      }
      DrainStep(c, OfSlot(out, slot), before[slot]);
    }
  }

  lemma DrainEmpty(c: Config)
    ensures Drain(c, []) == []
  {}

  ghost function OfSlot(out: seq<Request>, slot: string): seq<Request> {
    if out == [] then [] else
    var last := out[|out| - 1];
    OfSlot(out[..|out| - 1], slot) + if last.slot == slot then [last] else []
  }

  lemma OfSlotStep(out: seq<Request>, r: Request, slot: string)
    ensures OfSlot(out + [r], slot) == OfSlot(out, slot) + if r.slot == slot then [r] else []
  {
    assert (out + [r])[..|out|] == out;
  }

  /** Closing and reopening keeps every slot's stored requests: the same number, and the same
      order when they later come out. */
  method Restart(q: DownloaderAwarePriorityQueue) returns (again: DownloaderAwarePriorityQueue)
    requires q.Valid() && Injective(q.dirOf)
    modifies q
    ensures fresh(again) && again.Valid() && again.config == q.config
    ensures again.contents.Keys == old(q.contents).Keys
    ensures forall s | s in again.contents ::
              var before, after := old(q.contents)[s], again.contents[s];
              SameBuckets(q.config, after, before) && |after| == |before|
                  && Drain(q.config, after) == Drain(q.config, before)
  {
    hide Saved, HoldsFiles, SameBuckets, WellKeyed, Drain, Separate;
    ghost var contents := q.contents;
    var state, disk := q.Close();
    forall s | s in state
      ensures WellKeyed(q.config, disk[q.dirOf(s)])
      ensures forall k, r: Request | k in disk[q.dirOf(s)] && r in disk[q.dirOf(s)][k] :: r.slot == s
    {
      InSaved(q.config, contents[s], state[s], disk[q.dirOf(s)]);
    }
    again := new DownloaderAwarePriorityQueue.Open(q.config, q.dirOf, state, disk);
    forall s | s in contents
      ensures var before, after := contents[s], again.contents[s];
              SameBuckets(q.config, after, before) && |after| == |before|
                  && Drain(q.config, after) == Drain(q.config, before)
    {
      SavedAndRestored(q.config, contents[s], again.contents[s], state[s], disk[q.dirOf(s)]);
    }
  }
}
