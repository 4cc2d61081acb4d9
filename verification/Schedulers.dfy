/** scrapy/core/scheduler.py, Scheduler: the duplicate filter in front of a memory queue and,
    with a job directory, a disk queue. */
module Schedulers {
  import opened Requests
  import opened Collections
  import opened ArrivalQueue
  import opened PriorityQueues
  import opened SlotSelection
  import opened SlotQueues
  import opened DupeFilters

  /** How often `r` is stored. */
  ghost function Count(contents: Stored, r: Request): nat {
    multiset(StoredAt(contents, r.slot))[r]
  }

  lemma CountedIsStored(contents: Stored, r: Request)
    ensures Count(contents, r) > 0 <==> r.slot in contents && r in contents[r.slot]
  {}

  ghost function Total(contents: Stored): nat {
    Sum(Lengths(contents))
  }

  lemma TotalUpdate(contents: Stored, slot: string, content: seq<Request>)
    ensures Total(contents[slot := content]) == Total(contents) - |StoredAt(contents, slot)| + |content|
    ensures slot in contents ==> Total(contents - {slot}) == Total(contents) - |contents[slot]|
  {
    var lengths := Lengths(contents);
    assert Lengths(contents[slot := content]) == lengths[slot := |content|];
    assert Lengths(contents - {slot}) == lengths - {slot};
    SumUpdate(lengths, slot, |content|);
    if slot in contents {
      SumRemove(lengths, slot);
    } else {
      assert lengths - {slot} == lengths;
    }
  }

  ghost predicate GrewBy(before: Stored, after: Stored, added: multiset<Request>) {
    && Total(after) == Total(before) + |added|
    && forall r :: Count(after, r) == Count(before, r) + added[r]
  }

  lemma PutGrows(contents: Stored, x: Request, added: seq<Request>)
    requires added == [x] || added == []
    ensures GrewBy(contents, Put(contents, x, added), multiset(added))
    ensures GrewBy(contents, contents, multiset{})
  {
    TotalUpdate(contents, x.slot, StoredAt(contents, x.slot) + added);
  }

  function Bag(r: Option<Request>): multiset<Request> {
    if r.Some? then multiset{r.value} else multiset{}
  }

  /** `answer` was taken out of `before`, and nothing else. */
  ghost predicate TakenOut(before: Stored, after: Stored, answer: Option<Request>) {
    && (answer.Some? ==> answer.value in StoredAt(before, answer.value.slot))
    && Total(before) == Total(after) + |Bag(answer)|
    && (forall r :: Count(before, r) == Count(after, r) + Bag(answer)[r])
    && (forall s, r | s in after && r in after[s] :: s in before && r in before[s])
  }

  lemma NothingTakenOut(contents: Stored)
    ensures TakenOut(contents, contents, None)
  {}

  lemma CountAfterPop(c: Config, contents: Stored, slot: string, answer: Option<Request>, r: Request)
    requires slot in contents && Answered(c, contents[slot], answer)
    requires forall x | x in contents[slot] :: x.slot == slot
    ensures var after := AfterPop(contents, slot, Remaining(c, contents[slot], answer));
            Count(contents, r) == Count(after, r) + Bag(answer)[r]
  {
    var left := Remaining(c, contents[slot], answer);
    if answer.Some? {
      RemoveMultiset(contents[slot], NextIndex(c, contents[slot]));
      assert answer.value in contents[slot];
    }
    hide Remaining, NextIndex, Answered;
    var after := AfterPop(contents, slot, left);
    assert StoredAt(after, slot) == left;
    if r.slot != slot {
      assert StoredAt(after, r.slot) == StoredAt(contents, r.slot);
    }
  }

  /** Popping takes out the request answered and nothing else. */
  lemma PopTakesOut(c: Config, contents: Stored, slot: string, answer: Option<Request>)
    requires slot in contents && Answered(c, contents[slot], answer)
    requires forall r | r in contents[slot] :: r.slot == slot
    ensures TakenOut(contents, AfterPop(contents, slot, Remaining(c, contents[slot], answer)), answer)
  {
    var left := Remaining(c, contents[slot], answer);
    RemainingMembers(c, contents[slot], answer);
    TotalUpdate(contents, slot, left);
    var after := AfterPop(contents, slot, left);
    forall r ensures Count(contents, r) == Count(after, r) + Bag(answer)[r] {
      CountAfterPop(c, contents, slot, answer, r);
    }
    assert answer.Some? ==> answer.value in contents[slot];
    hide Count, Total, NextIndex;
  }

  datatype Stat =
    | Enqueued | EnqueuedDisk | EnqueuedMemory
    | Dequeued | DequeuedDisk | DequeuedMemory
    | Unserializable

  type Stats = map<Stat, nat>

  function Value(stats: Stats, key: Stat): nat {
    if key in stats then stats[key] else 0
  }

  function Inc(stats: Stats, key: Stat): Stats {
    stats[key := Value(stats, key) + 1]
  }

  /** The totals agree with their parts, and with what was let in and handed out. */
  ghost predicate StatsAgree(stats: Stats, accepted: multiset<Request>, dequeued: multiset<Request>) {
    && Value(stats, Enqueued) == |accepted| == Value(stats, EnqueuedDisk) + Value(stats, EnqueuedMemory)
    && Value(stats, Dequeued) == |dequeued| == Value(stats, DequeuedDisk) + Value(stats, DequeuedMemory)
  }

  /** Nothing is lost and nothing is duplicated: what was there and what came in is what went
      out and what is stored, request by request and in number. */
  ghost predicate Conserved(initial: multiset<Request>, accepted: multiset<Request>, dequeued: multiset<Request>,
                            memory: Stored, disk: Stored) {
    && (forall r :: initial[r] + accepted[r] == dequeued[r] + Count(memory, r) + Count(disk, r))
    && |initial| + |accepted| == |dequeued| + Total(memory) + Total(disk)
  }

  lemma ConservedInitially(initial: multiset<Request>, disk: Stored)
    requires (forall r :: initial[r] == Count(disk, r)) && |initial| == Total(disk)
    ensures Conserved(initial, multiset{}, multiset{}, map[], disk)
  {
    SumEmpty<string>();
    assert Lengths(map[]) == map[];
  }

  lemma ConservedPut(initial: multiset<Request>, accepted: multiset<Request>, dequeued: multiset<Request>,
                     memory: Stored, disk: Stored, memory': Stored, disk': Stored, x: Request, m: multiset<Request>,
                         d: multiset<Request>)
    requires Conserved(initial, accepted, dequeued, memory, disk)
    requires GrewBy(memory, memory', m) && GrewBy(disk, disk', d)
    requires m + d == multiset{x}
    ensures Conserved(initial, accepted + multiset{x}, dequeued, memory', disk')
  {
    hide Count, Total;
    assert |m| + |d| == |m + d|;
    forall r ensures initial[r] + (accepted + multiset{x})[r] == dequeued[r] + Count(memory', r) + Count(disk', r) {
      assert (m + d)[r] == m[r] + d[r];
    }
  }

  lemma ConservedTake(initial: multiset<Request>, accepted: multiset<Request>, dequeued: multiset<Request>,
                      memory: Stored, disk: Stored, memory': Stored, disk': Stored, answer: Option<Request>)
    requires Conserved(initial, accepted, dequeued, memory, disk)
    requires || (TakenOut(memory, memory', answer) && disk' == disk)
             || (memory' == memory && TakenOut(disk, disk', answer))
    ensures Conserved(initial, accepted, dequeued + Bag(answer), memory', disk')
  {
    hide Count, Total;
  }

  /** These counters have grown by one each, and no other has changed. */
  ghost predicate Counted(before: Stats, after: Stats, keys: set<Stat>) {
    forall k :: Value(after, k) == Value(before, k) + if k in keys then 1 else 0
  }

  lemma CountedOnce(before: Stats, now: Stats, keys: set<Stat>, key: Stat)
    requires Counted(before, now, keys) && key !in keys
    ensures Counted(before, Inc(now, key), keys + {key})
  {}

  lemma NothingCounted(stats: Stats)
    ensures Counted(stats, stats, {})
  {}

  lemma StatsIn(stats: Stats, accepted: multiset<Request>, dequeued: multiset<Request>, disk: bool, x: Request)
    requires StatsAgree(stats, accepted, dequeued)
    ensures StatsAgree(Inc(Inc(stats, if disk then EnqueuedDisk else EnqueuedMemory), Enqueued),
                       accepted + multiset{x}, dequeued)
  {}

  lemma StatsOut(stats: Stats, accepted: multiset<Request>, dequeued: multiset<Request>, disk: bool, x: Request)
    requires StatsAgree(stats, accepted, dequeued)
    ensures StatsAgree(Inc(Inc(stats, if disk then DequeuedDisk else DequeuedMemory), Dequeued),
                       accepted, dequeued + multiset{x})
  {}

  lemma StatsSame(stats: Stats, stats': Stats, accepted: multiset<Request>, dequeued: multiset<Request>)
    requires StatsAgree(stats, accepted, dequeued)
    requires Counted(stats, stats', {}) || Counted(stats, stats', {Unserializable})
    ensures StatsAgree(stats', accepted, dequeued)
  {}

  lemma NothingStored()
    ensures StatsAgree(map[], multiset{}, multiset{}) && FilteredOnce([], []) && NoEmptySlot(map[])
    ensures forall seen :: FilteredOnce([], seen)
    ensures forall yes :: AllSerializable(map[], yes)
  {}

  /** The requests that went through the filter have different fingerprints, all recorded. */
  ghost predicate FilteredOnce(filtered: seq<Request>, seen: seq<string>) {
    && (forall i | 0 <= i < |filtered| :: filtered[i].fingerprint in seen)
    && (forall i, j | 0 <= i < j < |filtered| :: filtered[i].fingerprint != filtered[j].fingerprint)
  }

  lemma FilteredNew(filtered: seq<Request>, seen: seq<string>, r: Request)
    requires FilteredOnce(filtered, seen) && r.fingerprint !in seen
    ensures FilteredOnce(filtered + [r], seen + [r.fingerprint])
  {}

  ghost predicate AllSerializable(contents: Stored, yes: bool) {
    forall s, r | s in contents && r in contents[s] :: r.serializable == yes
  }

  ghost predicate NoEmptySlot(contents: Stored) {
    forall s | s in contents :: contents[s] != []
  }

  lemma PutKeeps(contents: Stored, x: Request, added: seq<Request>)
    requires added == [x] || added == []
    ensures NoEmptySlot(contents) && added != [] ==> NoEmptySlot(Put(contents, x, added))
    ensures AllSerializable(contents, x.serializable) ==> AllSerializable(Put(contents, x, added), x.serializable)
    ensures added == [] ==> forall yes :: AllSerializable(contents, yes) ==> AllSerializable(Put(contents, x, []), yes)
  {}

  lemma TakenKeeps(before: Stored, after: Stored, answer: Option<Request>)
    requires TakenOut(before, after, answer)
    ensures forall yes :: AllSerializable(before, yes) ==> AllSerializable(after, yes)
  {}

  class Scheduler {
    const df: RFPDupeFilter
    const mqs: DownloaderAwarePriorityQueue
    const dqs: DownloaderAwarePriorityQueue?
    var stats: Stats
    /** What the disk queue held when it was opened, and what went in and out since. */
    ghost var initial: multiset<Request>
    ghost var accepted: multiset<Request>
    ghost var dequeued: multiset<Request>
    /** The accepted requests that went through the duplicate filter. */
    ghost var filtered: seq<Request>
    ghost var Repr: set<object>

    ghost predicate Shape()
      reads this`Repr, Repr
    {
      && this !in Repr && {df, mqs} <= Repr && mqs in mqs.Repr && mqs.Repr <= Repr
      && df !in mqs.Repr
      && df.Valid() && mqs.Valid() && !mqs.config.persistent
      && (dqs != null ==>
            && dqs in Repr && dqs in dqs.Repr && dqs.Repr <= Repr && dqs.Repr !! mqs.Repr
            && df !in dqs.Repr
            && dqs.Valid() && dqs.config.persistent)
    }

    ghost function OnDisk(): Stored
      reads this, dqs
    {
      if dqs == null then map[] else dqs.contents
    }

    ghost function InMemory(): Stored
      reads this, mqs
    {
      mqs.contents
    }

    ghost predicate Valid()
      reads this, Repr
    {
      && Shape()
      && NoEmptySlot(InMemory())
      && (dqs != null ==> AllSerializable(InMemory(), false) && AllSerializable(OnDisk(), true))
      && Conserved(initial, accepted, dequeued, InMemory(), OnDisk())
      && StatsAgree(stats, accepted, dequeued)
      && FilteredOnce(filtered, df.accepted)
    }

    constructor (df: RFPDupeFilter, mqs: DownloaderAwarePriorityQueue, dqs: DownloaderAwarePriorityQueue?,
        ghost initial: multiset<Request>)
      requires df.Valid() && mqs.Valid() && !mqs.config.persistent && mqs.contents == map[]
      requires df !in mqs.Repr
      requires dqs != null ==>
                 && dqs.Valid() && dqs.config.persistent && AllSerializable(dqs.contents, true)
                 && dqs.Repr !! mqs.Repr && df !in dqs.Repr
      requires var disk: Stored := if dqs == null then map[] else dqs.contents;
               (forall r :: initial[r] == Count(disk, r)) && |initial| == Total(disk)
      ensures Valid() && this.df == df && this.mqs == mqs && this.dqs == dqs
      ensures accepted == dequeued == multiset{} && this.initial == initial
    {
      hide DownloaderAwarePriorityQueue.Valid, RFPDupeFilter.Valid, Conserved, AllSerializable, Count, Total,
          StatsAgree, FilteredOnce, NoEmptySlot;
      this.df, this.mqs, this.dqs, this.initial := df, mqs, dqs, initial;
      stats, accepted, dequeued, filtered := map[], multiset{}, multiset{}, [];
      Repr := {df, mqs} + mqs.Repr + if dqs == null then {} else dqs.Repr;
      new;
      NothingStored();
      ConservedInitially(initial, OnDisk());
    }

    /** No request is stored both in memory and on disk. */
    lemma OnePlace(r: Request)
      requires Valid()
      ensures Count(InMemory(), r) == 0 || Count(OnDisk(), r) == 0
    {
      CountedIsStored(InMemory(), r);
      CountedIsStored(OnDisk(), r);
    }

    lemma Apart()
      requires Shape()
      ensures mqs.Repr <= Repr && DiskRepr() <= Repr && df in Repr && this !in Repr
      ensures mqs in mqs.Repr && (dqs != null ==> dqs in DiskRepr())
      ensures mqs.Repr !! DiskRepr() && {df} !! mqs.Repr && {df} !! DiskRepr()
    {}

    /** Rejects what the duplicate filter has seen; else stores the request, on disk if there
        is a disk queue that can serialize it, in memory otherwise. */
    method EnqueueRequest(r: Request) returns (ok: bool)
      requires Valid()
      modifies this, Repr
      ensures Valid() && fresh(Repr - old(Repr))
      ensures ok <==> r.dontFilter || r.fingerprint !in old(df.fingerprints)
      ensures df.fingerprints == old(df.fingerprints) + if r.dontFilter then {} else {r.fingerprint}
      ensures accepted == old(accepted) + multiset(if ok then [r] else [])
      ensures dequeued == old(dequeued) && initial == old(initial)
      ensures filtered == if ok && !r.dontFilter then old(filtered) + [r] else old(filtered)
      ensures Counted(old(stats), stats,
                      if !ok then {} else if dqs == null then {Enqueued, EnqueuedMemory}
                      else if r.serializable then {Enqueued, EnqueuedDisk}
                      else {Enqueued, EnqueuedMemory, Unserializable})
      ensures InMemory()
           == if ok && !(dqs != null && r.serializable) then Put(old(InMemory()), r, [r]) else old(InMemory())
      ensures OnDisk()
           == if ok && dqs != null then Put(old(OnDisk()), r, if r.serializable then [r] else []) else old(OnDisk())
    {
      hide DownloaderAwarePriorityQueue.Valid, RFPDupeFilter.Valid,
           Conserved, AllSerializable, NoEmptySlot, StatsAgree, FilteredOnce, Value, Inc, Put, Counted;
      NothingCounted(stats);
      if !r.dontFilter {
        var seen := df.RequestSeen(r.fingerprint);
        if seen {
          return false;
        }
        FilteredNew(filtered, old(df.accepted), r);
        filtered := filtered + [r];
      }
      Store(r);
      ok := true;
    }

    /** The part of `EnqueueRequest` behind the duplicate filter. */
    method Store(r: Request)
      requires Valid()
      modifies this`stats, this`Repr, this`accepted, DiskRepr(), mqs.Repr
      ensures Valid() && fresh(Repr - old(Repr))
      ensures accepted == old(accepted) + multiset{r}
      ensures Counted(old(stats), stats,
                      if dqs == null then {Enqueued, EnqueuedMemory}
                      else if r.serializable then {Enqueued, EnqueuedDisk}
                      else {Enqueued, EnqueuedMemory, Unserializable})
      ensures InMemory() == if dqs != null && r.serializable then old(InMemory()) else Put(old(InMemory()), r, [r])
      ensures OnDisk()
          == if dqs != null then Put(old(OnDisk()), r, if r.serializable then [r] else []) else old(OnDisk())
    {
      hide DownloaderAwarePriorityQueue.Valid, RFPDupeFilter.Valid,
           Conserved, AllSerializable, NoEmptySlot, StatsAgree, FilteredOnce, Put, GrewBy, Counted;
      PutGrows(OnDisk(), r, if r.serializable then [r] else []);
      PutKeeps(OnDisk(), r, if r.serializable then [r] else []);
      PutGrows(InMemory(), r, [r]);
      PutKeeps(InMemory(), r, [r]);
      var onDisk := Place(r);
      ConservedPut(initial, accepted, dequeued, old(InMemory()), old(OnDisk()), InMemory(), OnDisk(), r,
                   if onDisk then multiset{} else multiset{r}, if onDisk then multiset{r} else multiset{});
      accepted := accepted + multiset{r};
    }

    /** Pushes to disk, falling back to memory, and counts. */
    method Place(r: Request) returns (onDisk: bool)
      requires Shape() && StatsAgree(stats, accepted, dequeued)
      modifies this`stats, this`Repr, DiskRepr(), mqs.Repr
      ensures Shape() && fresh(Repr - old(Repr)) && df.accepted == old(df.accepted)
      ensures StatsAgree(stats, accepted + multiset{r}, dequeued)
      ensures Counted(old(stats), stats,
                      if dqs == null then {Enqueued, EnqueuedMemory}
                      else if r.serializable then {Enqueued, EnqueuedDisk}
                      else {Enqueued, EnqueuedMemory, Unserializable})
      ensures onDisk <==> dqs != null && r.serializable
      ensures InMemory() == if onDisk then old(InMemory()) else Put(old(InMemory()), r, [r])
      ensures OnDisk()
          == if dqs != null then Put(old(OnDisk()), r, if r.serializable then [r] else []) else old(OnDisk())
    {
      hide DownloaderAwarePriorityQueue.Valid, RFPDupeFilter.Valid, Scheduler.Shape, StatsAgree, Value, Inc, Put,
           Counted;
      Apart();
      onDisk := DqPush(r);
      Apart();
      StatsSame(old(stats), stats, accepted, dequeued);
      StatsIn(stats, accepted, dequeued, onDisk, r);
      ghost var failed: set<Stat> := if dqs != null && !r.serializable then {Unserializable} else {};
      if onDisk {
        CountedOnce(old(stats), stats, failed, EnqueuedDisk);
        stats := Inc(stats, EnqueuedDisk);
      } else {
        MqPush(r);
        CountedOnce(old(stats), stats, failed, EnqueuedMemory);
        stats := Inc(stats, EnqueuedMemory);
      }
      Apart();
      CountedOnce(old(stats), stats, failed + {if onDisk then EnqueuedDisk else EnqueuedMemory}, Enqueued);
      assert failed + {if onDisk then EnqueuedDisk else EnqueuedMemory} + {Enqueued}
          == if dqs == null then {Enqueued, EnqueuedMemory}
             else if r.serializable then {Enqueued, EnqueuedDisk}
             else {Enqueued, EnqueuedMemory, Unserializable};
      stats := Inc(stats, Enqueued);
    }

    /** Memory first; the disk queue is asked only when memory holds nothing. */
    method NextRequest(downloads: map<string, nat>) returns (r: Option<Request>)
      requires Valid()
      modifies this, Repr
      ensures Valid() && fresh(Repr - old(Repr))
      ensures dequeued == old(dequeued) + Bag(r)
      ensures accepted == old(accepted) && initial == old(initial) && filtered == old(filtered)
      ensures Counted(old(stats), stats,
                      if r.None? then {} else if old(InMemory()) != map[] then {Dequeued, DequeuedMemory}
                      else {Dequeued, DequeuedDisk})
      ensures if old(InMemory()) != map[] then
                && r.Some? && TakenOut(old(InMemory()), InMemory(), r) && OnDisk() == old(OnDisk())
                && mqs.lastSelected.Some?
                && Picked(mqs.config, old(mqs.lastSelected), downloads, old(InMemory()), InMemory(),
                          mqs.lastSelected.value, r)
              else
                && InMemory() == map[] && TakenOut(old(OnDisk()), OnDisk(), r)
                && PickedFromDisk(old(DiskTurn()), downloads, old(OnDisk()), r)
    {
      hide DownloaderAwarePriorityQueue.Valid, RFPDupeFilter.Valid,
           Conserved, AllSerializable, NoEmptySlot, StatsAgree, FilteredOnce, TakenOut, Picked, Counted;
      r := Take(downloads);
      NothingTakenOut(old(InMemory()));
      NothingTakenOut(old(OnDisk()));
      TakenKeeps(old(InMemory()), InMemory(), if old(InMemory()) != map[] then r else None);
      TakenKeeps(old(OnDisk()), OnDisk(), if old(InMemory()) != map[] then None else r);
      ConservedTake(initial, accepted, dequeued, old(InMemory()), old(OnDisk()), InMemory(), OnDisk(), r);
      dequeued := dequeued + Bag(r);
    }

    /** Pops from memory, falling back to disk, and counts. */
    method Take(downloads: map<string, nat>) returns (r: Option<Request>)
      requires Shape() && StatsAgree(stats, accepted, dequeued) && NoEmptySlot(InMemory())
      modifies this`stats, DiskRepr(), mqs.Repr
      ensures Shape() && NoEmptySlot(InMemory()) && df.accepted == old(df.accepted)
      ensures StatsAgree(stats, accepted, dequeued + Bag(r))
      ensures Counted(old(stats), stats,
                      if r.None? then {} else if old(InMemory()) != map[] then {Dequeued, DequeuedMemory}
                      else {Dequeued, DequeuedDisk})
      ensures if old(InMemory()) != map[] then
                && r.Some? && TakenOut(old(InMemory()), InMemory(), r) && OnDisk() == old(OnDisk())
                && mqs.lastSelected.Some?
                && Picked(mqs.config, old(mqs.lastSelected), downloads, old(InMemory()), InMemory(),
                          mqs.lastSelected.value, r)
              else
                && InMemory() == map[] && TakenOut(old(OnDisk()), OnDisk(), r)
                && PickedFromDisk(old(DiskTurn()), downloads, old(OnDisk()), r)
    {
      hide DownloaderAwarePriorityQueue.Valid, RFPDupeFilter.Valid, Scheduler.Shape, NoEmptySlot, StatsAgree, Value,
          Inc, TakenOut, Picked, Counted;
      Apart();
      NothingCounted(stats);
      r := MqPop(downloads);
      if r.Some? {
        CountedOnce(old(stats), stats, {}, DequeuedMemory);
        stats := Inc(stats, DequeuedMemory);
      } else {
        Apart();
        r := DqPop(downloads);
        if r.Some? {
          CountedOnce(old(stats), stats, {}, DequeuedDisk);
          stats := Inc(stats, DequeuedDisk);
        }
      }
      Apart();
      assert dequeued + multiset{} == dequeued;
      if r.Some? {
        StatsOut(old(stats), accepted, dequeued, old(InMemory()) == map[], r.value);
        ghost var part := if old(InMemory()) != map[] then DequeuedMemory else DequeuedDisk;
        assert {} + {part} == {part} && {part} + {Dequeued} == {Dequeued, part};
        CountedOnce(old(stats), stats, {part}, Dequeued);
        stats := Inc(stats, Dequeued);
      }
    }

    /** The slot the disk queue served last. */
    ghost function DiskTurn(): Option<string>
      reads this, dqs
    {
      if dqs == null then None else dqs.lastSelected
    }

    /** What was taken from the disk queue is what its own pop selects. */
    ghost predicate PickedFromDisk(last: Option<string>, downloads: map<string, nat>, before: Stored,
        r: Option<Request>)
      reads this, dqs
    {
      if dqs == null || before == map[] then r == None && OnDisk() == before
      else DiskTurn().Some? && Picked(dqs.config, last, downloads, before, OnDisk(), DiskTurn().value, r)
    }

    /** Everything the disk queue owns. */
    ghost function DiskRepr(): set<object>
      reads this, dqs
    {
      if dqs == null then {} else dqs.Repr
    }

    /** False without a disk queue, and when serialization fails, which is counted. */
    method DqPush(r: Request) returns (ok: bool)
      requires Shape()
      modifies this`stats, this`Repr, DiskRepr()
      ensures Shape() && fresh(Repr - old(Repr))
      ensures ok <==> dqs != null && r.serializable
      ensures OnDisk() == if dqs == null then old(OnDisk()) else Put(old(OnDisk()), r, if ok then [r] else [])
      ensures Counted(old(stats), stats, if dqs != null && !r.serializable then {Unserializable} else {})
    {
      hide DownloaderAwarePriorityQueue.Valid, RFPDupeFilter.Valid, Put;
      if dqs == null {
        return false;
      }
      ok := dqs.Push(r);
      Repr := Repr + dqs.Repr;
      if !ok {
        stats := Inc(stats, Unserializable);
      }
    }

    method MqPush(r: Request)
      requires Shape()
      modifies this`Repr, mqs.Repr
      ensures Shape() && fresh(Repr - old(Repr))
      ensures InMemory() == Put(old(InMemory()), r, [r])
    {
      hide DownloaderAwarePriorityQueue.Valid, RFPDupeFilter.Valid;
      var ok := mqs.Push(r);
      Repr := Repr + mqs.Repr;
    }

    method MqPop(downloads: map<string, nat>) returns (r: Option<Request>)
      requires Shape() && NoEmptySlot(InMemory())
      modifies mqs.Repr
      ensures Shape() && NoEmptySlot(InMemory())
      ensures TakenOut(old(InMemory()), InMemory(), r)
      ensures r.None? <==> old(InMemory()) == map[]
      ensures r.None? ==> InMemory() == old(InMemory())
      ensures old(InMemory()) != map[] ==>
                && mqs.lastSelected.Some?
                && Picked(mqs.config, old(mqs.lastSelected), downloads, old(InMemory()), InMemory(),
                          mqs.lastSelected.value, r)
    {
      hide DownloaderAwarePriorityQueue.Valid, Selects, LeastActive, Remaining, TakenOut;
      mqs.Labelled();
      r := mqs.Pop(downloads);
      if old(InMemory()) != map[] {
        PopTakesOut(mqs.config, old(InMemory()), mqs.lastSelected.value, r);
      } else {
        NothingTakenOut(InMemory());
      }
    }

    method DqPop(downloads: map<string, nat>) returns (r: Option<Request>)
      requires Shape()
      modifies DiskRepr()
      ensures Shape()
      ensures TakenOut(old(OnDisk()), OnDisk(), r)
      ensures PickedFromDisk(old(DiskTurn()), downloads, old(OnDisk()), r)
    {
      hide DownloaderAwarePriorityQueue.Valid, Selects, LeastActive, Remaining, TakenOut;
      NothingTakenOut(OnDisk());
      if dqs == null {
        return None;
      }
      dqs.Labelled();
      r := dqs.Pop(downloads);
      if old(OnDisk()) != map[] {
        PopTakesOut(dqs.config, old(OnDisk()), dqs.lastSelected.value, r);
      } else {
        NothingTakenOut(OnDisk());
      }
    }

    method Len() returns (n: nat)
      requires Valid()
      ensures n == |initial| + |accepted| - |dequeued|
    {
      n := mqs.Len();
      if dqs != null {
        var m := dqs.Len();
        n := m + n;
      }
    }
  }

  ghost predicate AllLabelled(contents: Stored) {
    forall s, r | s in contents && r in contents[s] :: r.slot == s
  }

  ghost function Everything(contents: Stored): multiset<Request> {
    if contents == map[] then multiset{} else
    var s :| s in contents;
    multiset(contents[s]) + Everything(contents - {s})
  }

  lemma {:induction false} EverythingCounts(contents: Stored)
    requires AllLabelled(contents)
    ensures forall r :: Everything(contents)[r] == Count(contents, r)
    ensures |Everything(contents)| == Total(contents)
    decreases |contents|
  {
    if contents == map[] {
      SumEmpty<string>();
      assert Lengths(contents) == map[];
    } else {
      var s :| s in contents && Everything(contents) == multiset(contents[s]) + Everything(contents - {s});
      assert (contents - {s}).Keys == contents.Keys - {s};
      EverythingCounts(contents - {s});
      TotalUpdate(contents, s, []);
      forall r ensures Everything(contents)[r] == Count(contents, r) {
        assert Everything(contents - {s})[r] == Count(contents - {s}, r);
        if r.slot == s {
          assert StoredAt(contents - {s}, s) == [];
        } else {
          assert r !in contents[s];
          assert StoredAt(contents - {s}, r.slot) == StoredAt(contents, r.slot);
        }
      }
    }
  }

  lemma SameDrainSameCount(c: Config, before: Stored, after: Stored)
    requires before.Keys == after.Keys
    requires forall s | s in before :: Drain(c, after[s]) == Drain(c, before[s])
    ensures forall r :: Count(after, r) == Count(before, r)
    ensures forall yes :: AllSerializable(before, yes) ==> AllSerializable(after, yes)
  {
    forall s | s in before ensures multiset(after[s]) == multiset(before[s]) {
      DrainIsPermutation(c, before[s]);
      DrainIsPermutation(c, after[s]);
    }
    forall s, r | s in after && r in after[s] ensures r in before[s] {
      assert r in multiset(after[s]);
    }
  }

  /** Stopping a crawl and resuming it on the same job directory: what was on disk is pending
      again, slot by slot in the same order; what was in memory is gone; and the duplicate
      filter remembers everything if and only if all of it is plain, as hexadecimal digits are,
      and was written behind the end of a line. */
  method Resume(stopped: Scheduler) returns (again: Scheduler)
    requires stopped.Valid() && stopped.dqs != null && stopped.df.persistent && Injective(stopped.dqs.dirOf)
    modifies stopped.dqs
    ensures fresh(again) && again.Valid() && again.dqs != null
    ensures Intact(stopped.df.prior, old(stopped.df.accepted)) ==>
              forall fp | fp in old(stopped.df.fingerprints) && Plain(fp) :: fp in again.df.fingerprints
    ensures again.df.fingerprints == old(stopped.df.fingerprints) <==>
              && Intact(stopped.df.prior, old(stopped.df.accepted))
              && forall fp | fp in old(stopped.df.fingerprints) :: Plain(fp)
    ensures again.InMemory() == map[]
    ensures again.OnDisk().Keys == old(stopped.OnDisk()).Keys
    ensures forall s | s in again.OnDisk() ::
              Drain(again.dqs.config, again.OnDisk()[s]) == Drain(stopped.dqs.config, old(stopped.OnDisk())[s])
    ensures forall r :: again.initial[r] == old(Count(stopped.OnDisk(), r))
  {
    ghost var before := stopped.OnDisk();
    stopped.Apart();
    var dqs := SlotQueues.Restart(stopped.dqs);
    hide DownloaderAwarePriorityQueue.Valid, Drain, Count, Total, SameBuckets, Conserved, StatsAgree;
    SameDrainSameCount(dqs.config, before, dqs.contents);
    dqs.Labelled();
    EverythingCounts(dqs.contents);
    var df := Reopen(stopped.df);
    var mqs := new DownloaderAwarePriorityQueue(stopped.mqs.config, stopped.mqs.dirOf);
    again := new Scheduler(df, mqs, dqs, Everything(dqs.contents));
  }
}
