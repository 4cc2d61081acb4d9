/** scrapy/extensions/feedexport.py: the items of each feed, cut into batches.

    What the exporter writes is the sequence of items of the file. A slot is closed by a task of
    its own; the order in which these tasks get to store their files is arbitrary, and each may
    fail to. */
module FeedExport {

  datatype Batch = Batch(id: nat, items: seq<int>)

  /** The items of a batch, or 0 for one batch of any size. The setting is compared with the
      number of items after each item, so that less than 1 means 1. */
  function Size(batchItemCount: int): nat {
    if batchItemCount == 0 then 0 else if batchItemCount < 1 then 1 else batchItemCount
  }

  function Items(batches: seq<Batch>): seq<int> {
    if batches == [] then [] else Items(batches[..|batches| - 1]) + batches[|batches| - 1].items
  }

  /** Batches that are numbered from 1 on and hold exactly `size` items each. */
  ghost predicate FullBatches(batches: seq<Batch>, size: nat) {
    forall k | 0 <= k < |batches| :: batches[k].id == k + 1 && |batches[k].items| == size
  }

  lemma {:induction false} FullBatchesLength(batches: seq<Batch>, size: nat)
    requires FullBatches(batches, size)
    ensures |Items(batches)| == size * |batches|
  {
    if batches != [] {
      var n := |batches| - 1;
      FullBatchesLength(batches[..n], size);
      assert size * n + size == size * (n + 1);
    }
  }

  lemma AtLeast(size: nat, d: int)
    requires d >= 1
    ensures size * d >= size
  {
    assert size * d == size * (d - 1) + size;
    assert size * (d - 1) >= 0;
  }

  lemma DivMod(n: nat, size: nat, q: nat, r: nat)
    requires n == size * q + r && r < size
    ensures n / size == q && n % size == r
  {
    var q', r' := n / size, n % size;
    var d := q' - q;
    assert n == size * q' + r' && r' < size;
    assert size * d == size * q' - size * q;
    if d >= 1 {
      AtLeast(size, d);
    } else if d <= -1 {
      AtLeast(size, -d);
    }
  }

  /** The number of files in the end. */
  function Files(n: nat, size: nat, storeEmpty: bool): nat {
    if n == 0 then (if storeEmpty then 1 else 0)
    else if size == 0 then 1
    else n / size + (if n % size == 0 then 0 else 1)
  }

  /** After the items of `closed` and of `current`, in batches of `size`: where the open slot
      is, and how many files there will be. */
  lemma BatchesCounted(closed: seq<Batch>, current: seq<int>, size: nat, storeEmpty: bool)
    requires if size == 0 then closed == [] else FullBatches(closed, size) && |current| < size
    ensures var n := |Items(closed) + current|;
            && |closed| == (if size == 0 then 0 else n / size)
            && |current| == (if size == 0 then n else n % size)
            && Files(n, size, storeEmpty)
            == |closed| + if current != [] || (storeEmpty && closed == []) then 1 else 0
  {
    if size > 0 {
      FullBatchesLength(closed, size);
      DivMod(|Items(closed) + current|, size, |closed|, |current|);
      assert size * |closed| == 0 <==> closed == [];
    }
  }

  /** What closing a slot leads to: an empty file only for the first batch, and only if asked
      for. */
  function LastFile(id: nat, items: seq<int>, storeEmpty: bool): seq<Batch> {
    if items != [] || (storeEmpty && id == 1) then [Batch(id, items)] else []
  }

  /** Files that together hold `items` in order, numbered from 1, all but the last full, and as
      many as there should be. */
  ghost predicate GoodFiles(files: seq<Batch>, items: seq<int>, size: nat, storeEmpty: bool) {
    && Items(files) == items && (forall k | 0 <= k < |files| :: files[k].id == k + 1)
    && |files| == Files(|items|, size, storeEmpty)
    && (size > 0 ==>
          forall k | 0 <= k < |files| :: || |files[k].items| == size
                                         || (k == |files| - 1 && |files[k].items| < size))
  }

  lemma FilesAre(closed: seq<Batch>, current: seq<int>, size: nat, storeEmpty: bool)
    requires if size == 0 then closed == [] else FullBatches(closed, size) && |current| < size
    ensures GoodFiles(closed + LastFile(|closed| + 1, current, storeEmpty), Items(closed) + current, size, storeEmpty)
  {
    hide Files, Items;
    var last := LastFile(|closed| + 1, current, storeEmpty);
    FilesCounted(closed, current, size, storeEmpty);
    FilesItems(closed, current, storeEmpty);
    if size > 0 {
      FilesFull(closed, last, size);
    } else {
      assert closed + last == last;
    }
  }

  lemma FilesCounted(closed: seq<Batch>, current: seq<int>, size: nat, storeEmpty: bool)
    requires if size == 0 then closed == [] else FullBatches(closed, size) && |current| < size
    ensures |closed + LastFile(|closed| + 1, current, storeEmpty)| == Files(|Items(closed) + current|, size, storeEmpty)
  {
    BatchesCounted(closed, current, size, storeEmpty);
  }

  lemma FilesItems(closed: seq<Batch>, current: seq<int>, storeEmpty: bool)
    ensures Items(closed + LastFile(|closed| + 1, current, storeEmpty)) == Items(closed) + current
  {
    var last := LastFile(|closed| + 1, current, storeEmpty);
    if last == [] {
      assert closed + last == closed && Items(closed) + current == Items(closed);
    } else {
      assert last == [last[0]];
      ItemsOneMore(closed, last[0]);
    }
  }

  lemma ItemsOneMore(batches: seq<Batch>, batch: Batch)
    ensures Items(batches + [batch]) == Items(batches) + batch.items
  {
    assert (batches + [batch])[..|batches|] == batches;
  }

  lemma FilesFull(closed: seq<Batch>, last: seq<Batch>, size: nat)
    requires FullBatches(closed, size) && |last| <= 1
    requires forall b | b in last :: b.id == |closed| + 1 && |b.items| < size
    ensures var files := closed + last;
            && (forall k | 0 <= k < |files| :: files[k].id == k + 1)
            && (forall k | 0 <= k < |files| :: || |files[k].items| == size
                                               || (k == |files| - 1 && |files[k].items| < size))
  {
    var files := closed + last;
    forall k | 0 <= k < |files|
      ensures files[k].id == k + 1 && (|files[k].items| == size || (k == |files| - 1 && |files[k].items| < size))
    {
      if k < |closed| {
        assert files[k] == closed[k];
      } else {
        assert files[k] == last[0] && last[0] in last;
      }
    }
  }

  class FeedSlot {
    const batchId: nat
    var contents: seq<int>
    var itemcount: nat
    var exporting: bool
    var fileloaded: bool

    /** How often the file was opened and the exporter was started and finished. */
    ghost var opens: nat
    ghost var starts: nat
    ghost var finishes: nat

    ghost predicate Valid()
      reads this
    {
      && itemcount == |contents| && (exporting <==> itemcount > 0) && (fileloaded <==> itemcount > 0)
      && finishes == 0 && Once(fileloaded, opens) && Once(exporting, starts)
    }

    constructor (id: nat)
      ensures Valid() && batchId == id && contents == []
    {
      batchId, contents, itemcount, exporting, fileloaded := id, [], 0, false, false;
      opens, starts, finishes := 0, 0, 0;
    }

    /** Opens the file and starts the exporter unless that has been done. */
    method StartExporting()
      modifies this`exporting, this`fileloaded, this`opens, this`starts
      ensures exporting && fileloaded
      ensures opens == old(opens) + (if old(fileloaded) then 0 else 1)
      ensures starts == old(starts) + (if old(exporting) then 0 else 1)
    {
      if !fileloaded {
        fileloaded, opens := true, opens + 1;
      }
      if !exporting {
        exporting, starts := true, starts + 1;
      }
    }

    method FinishExporting()
      modifies this`exporting, this`finishes
      ensures !exporting && finishes == old(finishes) + (if old(exporting) then 1 else 0)
    {
      if exporting {
        exporting, finishes := false, finishes + 1;
      }
    }
  }

  predicate Once(done: bool, times: nat) {
    times == if done then 1 else 0
  }

  /** One feed: its options, its open slot, and the tasks and results of its closed slots. */
  class Feed {
    const batchItemCount: int
    const storeEmpty: bool
    const accepts: int -> bool
    var slot: FeedSlot
    var pending: seq<Batch>
    var stored: seq<Batch>
    var failed: seq<Batch>

    /** The items accepted so far, and the batches whose slot has been closed, in order. */
    ghost var accepted: seq<int>
    ghost var closed: seq<Batch>

    ghost predicate Valid()
      reads this, slot
    {
      && slot.Valid() && slot.batchId == |closed| + 1
      && accepted == Items(closed) + slot.contents
      && (if Size(batchItemCount) == 0 then closed == []
          else FullBatches(closed, Size(batchItemCount)) && |slot.contents| < Size(batchItemCount))
      && multiset(pending) + multiset(stored) + multiset(failed) == multiset(closed)
    }

    constructor (count: int, empty: bool, filter: int -> bool)
      ensures Valid() && accepted == [] && batchItemCount == count && storeEmpty == empty && accepts == filter
      ensures fresh(slot)
    {
      batchItemCount, storeEmpty, accepts := count, empty, filter;
      slot := new FeedSlot(1);
      pending, stored, failed, accepted, closed := [], [], [], [], [];
    }

    /** The open slot after `n` accepted items. */
    lemma SlotAfter()
      requires Valid()
      ensures var n, size := |accepted|, Size(batchItemCount);
              && slot.batchId == (if size == 0 then 1 else n / size + 1)
              && slot.itemcount == (if size == 0 then n else n % size)
    {
      BatchesCounted(closed, slot.contents, Size(batchItemCount), storeEmpty);
    }

    /** What the setting says of the batches: 0 means one batch of any size, a positive number is the
        number of items of each batch that has been closed, and a negative one is like 1. */
    lemma BatchesHold()
      requires Valid()
      ensures batchItemCount == 0 ==> closed == []
      ensures batchItemCount > 0 ==> forall b | b in closed :: |b.items| == batchItemCount
      ensures batchItemCount < 0 ==> forall b | b in closed :: |b.items| == 1
      ensures batchItemCount > 0 ==> slot.itemcount == |accepted| % batchItemCount
                                     && |closed| == |accepted| / batchItemCount
    {
      BatchesCounted(closed, slot.contents, Size(batchItemCount), storeEmpty);
    }

    /** `_close_slot` up to its await. The file of a slot that is stored was opened once, and the
        exporter was started and finished once; nothing was done for any other. */
    method CloseSlot()
      requires slot.Valid()
      modifies this`pending, slot`exporting, slot`fileloaded, slot`opens, slot`starts, slot`finishes
      ensures pending == old(pending) + LastFile(slot.batchId, slot.contents, storeEmpty)
      ensures slot.opens == slot.starts == slot.finishes == |pending| - |old(pending)|
    {
      if slot.itemcount > 0 {
        slot.FinishExporting();
      } else if storeEmpty && slot.batchId == 1 {
        slot.StartExporting();
        slot.FinishExporting();
      } else {
        return;
      }
      pending := pending + [Batch(slot.batchId, slot.contents)];
    }

    method ItemScraped(item: int)
      requires Valid()
      modifies this, slot
      ensures Valid() && (slot == old(slot) || fresh(slot))
      ensures accepted == old(accepted) + if accepts(item) then [item] else []
      ensures old(closed) <= closed && stored == old(stored) && failed == old(failed)
    {
      if !accepts(item) {
        assert accepted == old(accepted) + [];
        return;
      }
      slot.StartExporting();
      slot.contents := slot.contents + [item];
      slot.itemcount := slot.itemcount + 1;
      accepted := accepted + [item];
      assert accepted == Items(closed) + slot.contents;
      if batchItemCount != 0 && slot.itemcount >= batchItemCount {
        CloseBatch();
      }
    }

    /** A full slot is closed and the next one opened. */
    method CloseBatch()
      requires slot.Valid() && slot.itemcount > 0 && slot.itemcount == Size(batchItemCount)
          && slot.batchId == |closed| + 1
      requires FullBatches(closed, Size(batchItemCount)) && accepted == Items(closed) + slot.contents
      requires multiset(pending) + multiset(stored) + multiset(failed) == multiset(closed)
      modifies this`slot, this`pending, this`closed, slot
      ensures Valid() && fresh(slot) && old(closed) <= closed
    {
      ghost var batch := Batch(slot.batchId, slot.contents);
      CloseSlot();
      closed := closed + [batch];
      assert closed[..|closed| - 1] == old(closed);
      slot := new FeedSlot(slot.batchId + 1);
      assert accepted == Items(closed) + slot.contents by {
        assert Items(closed) + [] == Items(closed);
      }
    }

    /** One of the tasks gets to store its file, or fails to. */
    method Store(k: nat, ok: bool)
      requires Valid() && k < |pending|
      modifies this`pending, this`stored, this`failed
      ensures Valid() && |pending| == |old(pending)| - 1
      ensures if ok then stored == old(stored) + [old(pending)[k]] && failed == old(failed)
              else failed == old(failed) + [old(pending)[k]] && stored == old(stored)
    {
      StoreOne(k, ok);
    }

    /** The files together hold the accepted items in order, and each of them is still to be
        stored, or has been stored or has failed, once. */
    ghost predicate Closing(files: seq<Batch>)
      reads this
    {
      && multiset(pending) + multiset(stored) + multiset(failed) == multiset(files)
      && GoodFiles(files, accepted, Size(batchItemCount), storeEmpty)
    }

    /** The part of `close_spider` for this feed: its open slot is closed. */
    method CloseOpenSlot() returns (ghost files: seq<Batch>)
      requires Valid()
      modifies this`pending, slot
      ensures Closing(files)
    {
      hide Items, LastFile, GoodFiles;
      files := closed + LastFile(slot.batchId, slot.contents, storeEmpty);
      FilesAre(closed, slot.contents, Size(batchItemCount), storeEmpty);
      CloseSlot();
    }

    method StoreAny(ghost files: seq<Batch>)
      requires pending != [] && Closing(files)
      modifies this`pending, this`stored, this`failed
      ensures Closing(files) && |pending| == |old(pending)| - 1
    {
      var k: int := *;
      var ok: bool := *;
      StoreOne(if 0 <= k < |pending| then k else 0, ok);
    }

    method StoreOne(k: nat, ok: bool)
      requires k < |pending|
      modifies this`pending, this`stored, this`failed
      ensures |pending| == |old(pending)| - 1
      ensures multiset(pending) + multiset(stored) + multiset(failed)
           == old(multiset(pending) + multiset(stored) + multiset(failed))
      ensures if ok then stored == old(stored) + [old(pending)[k]] && failed == old(failed)
              else failed == old(failed) + [old(pending)[k]] && stored == old(stored)
    {
      var batch := pending[k];
      assert pending == pending[..k] + [batch] + pending[k + 1..];
      pending := pending[..k] + pending[k + 1..];
      if ok {
        stored := stored + [batch];
      } else {
        failed := failed + [batch];
      }
    }
  }

  /** The feeds, each with an open slot of its own; an item goes to all of them that accept it. */
  class FeedExporter {
    const feeds: seq<Feed>
    ghost var Repr: set<object>

    ghost predicate Valid()
      reads this, Repr
    {
      && this !in Repr
      && (forall i | 0 <= i < |feeds| :: feeds[i] in Repr && feeds[i].slot in Repr && feeds[i].Valid())
      && (forall i, j | 0 <= i < j < |feeds| :: feeds[i] != feeds[j] && feeds[i].slot != feeds[j].slot)
    }

    constructor (all: seq<Feed>)
      requires forall i | 0 <= i < |all| :: all[i].Valid()
      requires forall i, j | 0 <= i < j < |all| :: all[i] != all[j] && all[i].slot != all[j].slot
      ensures Valid() && feeds == all
    {
      feeds := all;
      Repr := (set i | 0 <= i < |all| :: all[i] as object) + (set i | 0 <= i < |all| :: all[i].slot as object);
    }

    method ItemScraped(item: int)
      requires Valid()
      modifies this, Repr
      ensures Valid() && fresh(Repr - old(Repr))
      ensures forall i | 0 <= i < |feeds| ::
                feeds[i].accepted == old(feeds[i].accepted) + if feeds[i].accepts(item) then [item] else []
    {
      hide Feed.Valid;
      for n := 0 to |feeds|
        invariant Valid() && fresh(Repr - old(Repr))
        invariant forall i | 0 <= i < n ::
                    feeds[i].accepted == old(feeds[i].accepted) + if feeds[i].accepts(item) then [item] else []
        invariant forall i | n <= i < |feeds| :: feeds[i].accepted == old(feeds[i].accepted)
      {
        feeds[n].ItemScraped(item);
        Repr := Repr + {feeds[n].slot};
      }
    }

    /** `close_spider` closes all open slots and then waits; the files of all feeds are stored, or
        fail to be, in any order. */
    method CloseSpider() returns (ghost files: seq<seq<Batch>>)
      requires Valid()
      modifies Repr
      ensures |files| == |feeds|
      ensures forall i | 0 <= i < |feeds| ::
                feeds[i].Closing(files[i]) && feeds[i].pending == [] && feeds[i].accepted == old(feeds[i].accepted)
    {
      hide Feed.Closing;
      files := CloseOpenSlots();
      WaitForStores(files);
    }

    method WaitForStores(ghost files: seq<seq<Batch>>)
      requires |files| == |feeds| && forall i | 0 <= i < |feeds| :: feeds[i].Closing(files[i])
      requires forall i, j | 0 <= i < j < |feeds| :: feeds[i] != feeds[j]
      modifies feeds
      ensures forall i | 0 <= i < |feeds| ::
                feeds[i].Closing(files[i]) && feeds[i].pending == [] && feeds[i].accepted == old(feeds[i].accepted)
    {
      hide Feed.Closing;
      ghost var left := seq(|feeds|, i requires 0 <= i < |feeds| reads feeds => |feeds[i].pending|);
      while exists i | 0 <= i < |feeds| :: feeds[i].pending != []
        invariant |left| == |feeds| && forall i | 0 <= i < |feeds| :: left[i] == |feeds[i].pending|
        invariant forall i | 0 <= i < |feeds| ::
                    feeds[i].Closing(files[i]) && feeds[i].accepted == old(feeds[i].accepted)
        decreases Total(left)
      {
        var i :| 0 <= i < |feeds| && feeds[i].pending != [];
        feeds[i].StoreAny(files[i]);
        TotalLess(left, i);
        left := left[i := left[i] - 1];
      }
    }

    method CloseOpenSlots() returns (ghost files: seq<seq<Batch>>)
      requires Valid()
      modifies Repr
      ensures |files| == |feeds|
      ensures forall i | 0 <= i < |feeds| :: feeds[i].Closing(files[i]) && feeds[i].accepted == old(feeds[i].accepted)
    {
      hide Feed.Valid, Feed.Closing;
      files := [];
      for n := 0 to |feeds|
        invariant |files| == n
        invariant forall i | 0 <= i < |feeds| ::
                    feeds[i].slot == old(feeds[i].slot) && feeds[i].accepted == old(feeds[i].accepted)
        invariant forall i | 0 <= i < n :: feeds[i].Closing(files[i])
        invariant forall i | n <= i < |feeds| :: feeds[i].Valid()
      {
        ghost var written := feeds[n].CloseOpenSlot();
        files := files + [written];
      }
    }
  }

  ghost function Total(left: seq<nat>): nat {
    if left == [] then 0 else Total(left[..|left| - 1]) + left[|left| - 1]
  }

  lemma {:induction false} TotalLess(left: seq<nat>, i: nat)
    requires i < |left| && left[i] > 0
    ensures Total(left[i := left[i] - 1]) < Total(left)
    decreases |left|
  {
    var n := |left| - 1;
    if i < n {
      TotalLess(left[..n], i);
      assert left[i := left[i] - 1][..n] == left[..n][i := left[i] - 1];
    } else {
      assert left[i := left[i] - 1][..n] == left[..n];
    }
  }
}
