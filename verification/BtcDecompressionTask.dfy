/**
 The decompression task: a dispatch loop that prepares one record per sub-task, and
 sub-tasks that copy by these records. The plan the dispatch loop leaves behind is the
 one whose schedules module ParallelCopy is about.
 */
module BtcDecompressionTask {
  import opened Bytes
  import opened Wrappers
  import opened Buffers
  import opened BtcTx
  import opened Partition
  import opened ParallelCopy
  import opened BtcCompression
  import opened BtcDecompression
  import opened Bulks
  import opened ShortIdLists

  /** The size of the original block, from the length field of its header; 32-bit arithmetic. */
  function OriginalBlockSize(b: seq<byte>): nat
    requires OFFSET_DIFF + BLOCK_LENGTH_OFFSET + 4 <= |b|
  {
    (FromLittleEndian(b[OFFSET_DIFF + BLOCK_LENGTH_OFFSET..OFFSET_DIFF + BLOCK_LENGTH_OFFSET + 4])
     + HDR_COMMON_OFFSET) % 0x1_0000_0000
  }

  /** The capacity the output buffer is prepared with. The requested size is cut to 32 bits. */
  function OutputCapacity(original: nat, capacity: nat, shared: bool): nat {
    var outputSize := Max(original, capacity) % 0x1_0000_0000;
    if shared then outputSize else Max(capacity, outputSize)
  }

  /**
   The prepared buffer holds a block of the announced size unless a buffer of four
   gigabytes or more is being replaced and the cut size is too small.
   */
  lemma OutputCapacitySuffices(original: nat, capacity: nat, shared: bool)
    requires original < 0x1_0000_0000
    ensures original <= OutputCapacity(original, capacity, shared)
            <==> !(shared && capacity >= 0x1_0000_0000 && capacity % 0x1_0000_0000 < original)
  {
  }

  /** The plan behind a set of task records. */
  function PlanOf(src: Source, items: seq<Item>, cuts: seq<nat>, start: nat): Plan
    requires src.Valid() && src.Fits(items) && OFFSET_DIFF <= start <= |src.b|
  {
    Plan(src.Chunks(items), start - OFFSET_DIFF, cuts, src.b[OFFSET_DIFF..start], true)
  }

  // ---------------------------------------------------------------- why a dispatch fails

  lemma {:induction false} ItemsPrefix(b: seq<byte>, start: nat, m: nat, n: nat)
    requires m <= n && Items(b, start, n).Some?
    ensures Items(b, start, m).Some? && |Items(b, start, n).value| == n
    ensures Items(b, start, m).value == Items(b, start, n).value[..m]
  {
    hide NextItem;
    if m < n {
      ItemsPrefix(b, start, m, n - 1);
    } else {
      ItemsLength(b, start, n);
    }
  }

  lemma {:induction false} ItemsLength(b: seq<byte>, start: nat, n: nat)
    requires Items(b, start, n).Some?
    ensures |Items(b, start, n).value| == n
  {
    hide NextItem;
    if n > 0 {
      ItemsLength(b, start, n - 1);
    }
  }

  lemma FailsOnItems(src: Source, h: Header, m: nat, capacity: nat)
    requires src.Valid() && OFFSET_DIFF <= h.start <= |src.b|
    requires m <= h.txCount && Items(src.b, h.start, m).None?
    ensures Layout(src, h, capacity) == None
  {
    ItemsStop(src.b, h.start, m, h.txCount);
  }

  lemma FailsOnSids(src: Source, h: Header, m: nat, capacity: nat)
    requires src.Valid() && OFFSET_DIFF <= h.start <= |src.b|
    requires m <= h.txCount && Items(src.b, h.start, m).Some?
    requires Shorts(Items(src.b, h.start, m).value) > |src.sids|
    ensures Layout(src, h, capacity) == None
  {
    if Items(src.b, h.start, h.txCount).Some? {
      ItemsPrefix(src.b, h.start, m, h.txCount);
      ShortsPrefix(Items(src.b, h.start, h.txCount).value, m, h.txCount);
    }
  }

  lemma FailsOnCapacity(src: Source, h: Header, m: nat, capacity: nat)
    requires src.Valid() && OFFSET_DIFF <= h.start <= |src.b|
    requires m <= h.txCount && Items(src.b, h.start, m).Some?
    requires src.Fits(Items(src.b, h.start, m).value)
    requires h.start - OFFSET_DIFF + |Flatten(src.Chunks(Items(src.b, h.start, m).value))| > capacity
    ensures Layout(src, h, capacity) == None
  {
    hide Items, Shorts, Flatten, Source.Chunks;
    if Items(src.b, h.start, h.txCount).Some? {
      var items := Items(src.b, h.start, h.txCount).value;
      ItemsPrefix(src.b, h.start, m, h.txCount);
      ItemsShape(src.b, h.start, h.txCount);
      if Shorts(items) <= |src.sids| {
        ChunksGrow(src, items, m);
      }
    }
  }

  // ---------------------------------------------------------------- the dispatched plan

  /** The records and the extended buffer make a valid plan, ready to run under any schedule. */
  lemma DispatchedReady(src: Source, items: seq<Item>, start: nat, cuts: seq<nat>, buf: Buffer)
    requires src.Valid() && src.Fits(items) && OFFSET_DIFF <= start <= |src.b|
    requires |cuts| >= 2 && Cuts(cuts, |cuts| - 1, |items|)
    requires buf.Valid() && buf.length == start - OFFSET_DIFF + |Flatten(src.Chunks(items))|
    ensures var p := PlanOf(src, items, cuts, start); p.Valid() && Inv(p, Dispatched(p, buf))
  {
    hide Flatten, Source.Chunks, Shorts;
    var p := PlanOf(src, items, cuts, start);
    assert p.chunks[..|p.chunks|] == p.chunks;
    DispatchedInv(p, buf);
  }

  /** The cuts make bulks of the items of a message that decompresses to a block. */
  ghost predicate CutsOf(b: seq<byte>, r: Receiver, capacity: nat, cuts: seq<nat>) {
    && Decompress(b, r, capacity).Block?
    && |cuts| >= 2 && Cuts(cuts, |cuts| - 1, ParseHeader(b).value.txCount)
  }

  /** The plan of the sub-tasks for a message, cut into bulks in whatever way. */
  ghost function PlanFor(b: seq<byte>, r: Receiver, capacity: nat, cuts: seq<nat>): (p: Plan)
    requires CutsOf(b, r, capacity, cuts)
    ensures p.Valid()
  {
    var h := ParseHeader(b).value;
    var src := Source(b, ShortIds(b, h.sidsOffset).value, r);
    VarintAdvances(b, OFFSET_DIFF + BLOCK_TX_COUNT_OFFSET);
    ItemsShape(b, h.start, h.txCount);
    PlanOf(src, Items(b, h.start, h.txCount).value, cuts, h.start)
  }

  /**
   Every schedule of the main thread and the sub-tasks, whatever the bulks and the stale
   bytes of the buffer, takes the same number of actions, can go on until it is done, and
   then has rebuilt the block that sequential decompression gives.
   */
  lemma AnySchedule(b: seq<byte>, r: Receiver, capacity: nat, cuts: seq<nat>, run: seq<State>)
    requires CutsOf(b, r, capacity, cuts) && Run(PlanFor(b, r, capacity, cuts), run)
    ensures var p, last := PlanFor(b, r, capacity, cuts), run[|run| - 1];
            && |run| <= Actions(p) + 1
            && (Done(p, last) <==> |run| == Actions(p) + 1)
            && (!Done(p, last) ==> CanAct(p, last))
            && (Done(p, last) ==> last.buf.Contents() == Decompress(b, r, capacity).bytes)
  {
    hide Done, Run, CanAct, Flatten, Shorts, Source.Chunks, GetVarint, At, Items, Receiver.KnowsAll;
    var p := PlanFor(b, r, capacity, cuts);
    LastValid(p, run);
    var last := run[|run| - 1];
    EverySchedule(p, run);
    if Done(p, last) {
      var h := ParseHeader(b).value;
      VarintAdvances(b, OFFSET_DIFF + BLOCK_TX_COUNT_OFFSET);
      assert p.chunks[..|p.chunks|] == p.chunks;
      ContentsOf(last.buf, p.header, Flatten(p.chunks));
    }
  }

  lemma LastValid(p: Plan, run: seq<State>)
    requires p.Valid() && Run(p, run)
    ensures run != [] && run[|run| - 1].buf.Valid()
  {
  }

  class DecompressionTask {
    const minimalTxCount: nat
    var outputBuffer: ByteArray
    var subTasks: seq<Record>

    ghost predicate Valid()
      reads this, outputBuffer
    {
      outputBuffer.Valid()
    }

    constructor (capacity: nat, minimalTxCount: nat)
      ensures Valid() && fresh(outputBuffer)
    {
      this.minimalTxCount := minimalTxCount;
      outputBuffer := new ByteArray(capacity);
      subTasks := [];
    }

    /** Prepares the output buffer for the block that is announced. */
    method Init(b: seq<byte>, shared: bool)
      requires Valid() && OFFSET_DIFF + BLOCK_LENGTH_OFFSET + 4 <= |b|
      modifies this`outputBuffer, outputBuffer
      ensures Valid() && outputBuffer.length == 0
      ensures outputBuffer.capacity == OutputCapacity(OriginalBlockSize(b), old(outputBuffer.capacity), shared)
      ensures if shared then fresh(outputBuffer) else outputBuffer == old(outputBuffer)
    {
      var outputSize := Max(OriginalBlockSize(b), outputBuffer.capacity) % 0x1_0000_0000;
      if shared {
        outputBuffer := new ByteArray(outputSize);
      } else {
        outputBuffer.Reserve(outputSize);
        outputBuffer.Reset();
      }
    }

    /** Records of earlier runs are cleared, and a growing pool gets new clear ones. */
    method InitSubTasks(poolSize: nat)
      modifies this`subTasks
      ensures subTasks == seq(Max(old(|subTasks|), poolSize), _ => CLEARED)
    {
      var size := |subTasks|;
      while |subTasks| < poolSize
        invariant |subTasks| == Max(size, |subTasks|) <= Max(size, poolSize)
        invariant forall k | size <= k < |subTasks| :: subTasks[k] == CLEARED
      {
        subTasks := subTasks + [CLEARED];
      }
      for idx := 0 to size
        invariant |subTasks| == Max(size, poolSize)
        invariant forall k | 0 <= k < |subTasks| :: k < idx || size <= k ==> subTasks[k] == CLEARED
      {
        subTasks := subTasks[idx := CLEARED];
      }
    }

    /** Makes room for the output so far. Fails when it exceeds the capacity. */
    method ExtendOutputBuffer(outputOffset: nat) returns (ok: bool)
      requires Valid()
      modifies outputBuffer
      ensures Valid() && ok == (outputOffset <= old(outputBuffer.capacity))
      ensures outputBuffer.capacity == old(outputBuffer.capacity) && outputBuffer.store == old(outputBuffer.store)
      ensures outputBuffer.length == if ok then outputOffset else old(outputBuffer.length)
    {
      if outputOffset > outputBuffer.capacity {
        return false;
      }
      outputBuffer.Resize(outputOffset);
      return true;
    }

    /**
     Walks over the compressed transactions and fills in the records. The transaction at
     which a new bulk begins still goes to the sub-task before. Fails when a transaction
     cannot be walked, when the short ids run out, or when the output outgrows the buffer.
     `extents` are the lengths the buffer had when the sub-tasks were enqueued: each time up
     to where the next sub-task begins.
     */
    method Dispatch(src: Source, h: Header, poolSize: nat)
      returns (ok: bool, lastIdx: nat, ghost cuts: seq<nat>, ghost extents: seq<nat>)
      requires Valid() && src.Valid() && poolSize >= 1 && OFFSET_DIFF <= h.start <= |src.b|
      requires outputBuffer.length == 0
      modifies this`subTasks, outputBuffer
      ensures Valid() && outputBuffer.capacity == old(outputBuffer.capacity)
      ensures ok == Layout(src, h, outputBuffer.capacity).Some?
      ensures ok ==>
                var items := Items(src.b, h.start, h.txCount).value;
                && src.Fits(items)
                && AllRight(src, items, h.start - OFFSET_DIFF, subTasks, cuts, lastIdx)
                && outputBuffer.length == h.start - OFFSET_DIFF + |Flatten(src.Chunks(items))|
                && |extents| == lastIdx + 1 && extents[lastIdx] == outputBuffer.length
                && forall k | 0 <= k < lastIdx :: extents[k] == subTasks[k + 1].outputOffset
    {
      hide Spreading, AllRight, Extended, NextItem, BulkSize, TaskIndex, Shorts, Flatten, Source.Chunks;
      InitSubTasks(poolSize);
      var base := h.start - OFFSET_DIFF;
      var bulkSize := BulkSize(h.txCount, poolSize, minimalTxCount);
      var offset, idx, prevIdx: nat := h.start, 0, 0;
      var shortIdsOffset: nat, outputOffset: nat, prevOutputOffset: nat := 0, base, base;
      ghost var items: seq<Item> := [];
      cuts, extents := [0], [];
      TaskIndexStart(bulkSize, poolSize);
      SpreadingStart(src, base, |subTasks|);
      for count := 0 to h.txCount
        invariant Valid() && outputBuffer.capacity == old(outputBuffer.capacity)
        invariant |subTasks| >= poolSize
        invariant Items(src.b, h.start, count) == Some(items) && offset == ItemsEnd(h.start, items)
        invariant src.Fits(items)
        invariant idx == prevIdx == if count == 0 then 0 else TaskIndex(count - 1, bulkSize, poolSize)
        invariant Spreading(src, base, items, cuts, Loop(subTasks, prevIdx, shortIdsOffset, prevOutputOffset, outputOffset))
        invariant Extended(extents, subTasks, prevIdx, prevOutputOffset)
      {
        idx := TaskIndex(count, bulkSize, poolSize);
        if count > 0 {
          TaskIndexNext(count, bulkSize, poolSize);
        } else {
          TaskIndexStart(bulkSize, poolSize);
        }
        hide Layout;
        ghost var l := Loop(subTasks, prevIdx, shortIdsOffset, prevOutputOffset, outputOffset);
        SpreadingNextSid(src, base, items, cuts, l);
        var item := NextItem(src.b, offset);
        if item.None? {
          FailsOnItems(src, h, count + 1, outputBuffer.capacity);
          return false, 0, [], [];
        }
        var tdata := subTasks[prevIdx];
        ghost var more := items + [item.value];
        ShortsSnoc(items, item.value);
        if item.value.short && shortIdsOffset + tdata.shortIdsLen >= |src.sids| {
          FailsOnSids(src, h, count + 1, outputBuffer.capacity);
          return false, 0, [], [];
        }
        FitsSnoc(src, h.start, count, items, item.value);
        outputOffset := outputOffset +
          if item.value.short then |src.receiver.Content(src.sids[shortIdsOffset + tdata.shortIdsLen])|
          else item.value.end - item.value.from;
        offset := item.value.end;
        tdata := Push(tdata, item.value);
        ExtendedStays(extents, subTasks, prevIdx, prevOutputOffset, tdata);
        subTasks := subTasks[prevIdx := tdata];
        SpreadingStays(src, base, items, cuts, l, item.value);
        items := more;
        if idx > prevIdx {
          ghost var l' := Loop(subTasks, prevIdx, shortIdsOffset, prevOutputOffset, outputOffset);
          SpreadingNextSid(src, base, items, cuts, l');
          SpreadingMoves(src, base, items, cuts, l');
          tdata := tdata.(outputOffset := prevOutputOffset, shortIdsOffset := shortIdsOffset);
          ExtendedMoves(extents, subTasks, prevIdx, prevOutputOffset, tdata, outputOffset);
          subTasks := subTasks[prevIdx := tdata];
          var fits := ExtendOutputBuffer(outputOffset);
          if !fits {
            FailsOnCapacity(src, h, count + 1, outputBuffer.capacity);
            return false, 0, [], [];
          }
          shortIdsOffset := shortIdsOffset + tdata.shortIdsLen;
          prevOutputOffset := outputOffset;
          cuts, extents := cuts + [|items|], extents + [outputOffset];
          assert Spreading(src, base, items, cuts, Loop(subTasks, idx, shortIdsOffset, prevOutputOffset, outputOffset));
        } else {
          assert Spreading(src, base, items, cuts, Loop(subTasks, idx, shortIdsOffset, prevOutputOffset, outputOffset));
        }
        prevIdx := idx;
      }
      ghost var l := Loop(subTasks, prevIdx, shortIdsOffset, prevOutputOffset, outputOffset);
      SpreadingNextSid(src, base, items, cuts, l);
      SpreadingClose(src, base, items, cuts, l);
      var tdata := subTasks[prevIdx].(outputOffset := prevOutputOffset, shortIdsOffset := shortIdsOffset);
      ExtendedCloses(extents, subTasks, prevIdx, prevOutputOffset, tdata);
      subTasks := subTasks[prevIdx := tdata];
      ok := ExtendOutputBuffer(outputOffset);
      if !ok {
        FailsOnCapacity(src, h, h.txCount, outputBuffer.capacity);
        return false, 0, [], [];
      }
      return true, prevIdx, cuts + [|items|], extents + [outputOffset];
    }

    /** Copies what one item stands for: contents of the receiver for a marker, else bytes of the message. */
    method CopyItem(src: Source, item: Item, shortIdIdx: nat, outputOffset: nat) returns (ok: bool, end: nat)
      requires Valid() && src.Valid() && item.from < item.end <= |src.b| && outputBuffer.length > 0
      requires item.short <==> item.end - item.from == 1
      requires item.short ==> shortIdIdx < |src.sids|
      modifies outputBuffer
      ensures Valid()
      ensures ok == (src.ChunkOf(item, shortIdIdx) != [])
      ensures end == outputOffset + |src.ChunkOf(item, shortIdIdx)|
      ensures ok ==> outputBuffer.State() == CopyChunk(old(outputBuffer.State()), outputOffset, src.ChunkOf(item, shortIdIdx))
      ensures !ok ==> outputBuffer.length == Max(old(outputBuffer.length), outputOffset)
    {
      var content := src.b[item.from..item.end];
      if item.end - item.from == 1 {
        content := src.receiver.Content(src.sids[shortIdIdx]);
      }
      ok, end := outputBuffer.CopyFromBuffer(content, outputOffset, 0, |content|);
    }

    /**
     One sub-task: copies its items by its record. Every copy is an action of the plan, so
     the sub-task may be interleaved with the others at each of them. Fails on empty contents.
     */
    method RunSubTask(src: Source, k: nat, ghost items: seq<Item>, ghost cuts: seq<nat>, ghost start: nat, ghost s: State)
      returns (ok: bool, ghost t: State)
      requires Valid() && src.Valid() && src.Fits(items) && MarkersAreSingle(items) && OFFSET_DIFF < start <= |src.b|
      requires PlanOf(src, items, cuts, start).Valid() && Inv(PlanOf(src, items, cuts, start), s)
      requires k < |subTasks| && BulkRight(src, items, start - OFFSET_DIFF, subTasks, cuts, k)
      requires k < s.enqueued <= |s.tasks| == |cuts| - 1 && s.tasks[k].next == cuts[k] && s.buf == outputBuffer.State() && s.buf.length > 0
      modifies outputBuffer
      ensures Valid() && outputBuffer.length == old(outputBuffer.length)
      ensures cuts[k + 1] <= |items| && ok == NonEmpty(src.Chunks(items), cuts[k], cuts[k + 1])
      ensures ok ==>
                && Inv(PlanOf(src, items, cuts, start), t) && t.buf == outputBuffer.State()
                && t.enqueued == s.enqueued && t.headerDone == s.headerDone && |t.tasks| == |s.tasks|
                && t.tasks == s.tasks[k := t.tasks[k]] && t.tasks[k].next == cuts[k + 1]
    {
      hide Inv, Flatten, Shorts, Source.Chunks;
      ghost var p := PlanOf(src, items, cuts, start);
      var data := subTasks[k];
      var shortIdIdx, outputOffset := data.shortIdsOffset, data.outputOffset;
      t := s;
      assert s.tasks[k].at == outputOffset by { CursorOf(p, s, k); }
      for i := 0 to |data.offsets|
        invariant Valid() && outputBuffer.length == old(outputBuffer.length)
        invariant Inv(p, t) && t.buf == outputBuffer.State()
        invariant t.enqueued == s.enqueued && t.headerDone == s.headerDone
        invariant |t.tasks| == |s.tasks| && t.tasks == s.tasks[k := Cursor(cuts[k] + i, outputOffset)]
        invariant shortIdIdx == Shorts(items[..cuts[k] + i])
        invariant NonEmpty(src.Chunks(items), cuts[k], cuts[k] + i)
      {
        var item := data.offsets[i];
        ghost var j := cuts[k] + i;
        assert item == items[j];
        src.ChunkAt(items, j);
        ShortsAt(items, j);
        ChunkRoom(p, t, k);
        ok, outputOffset := CopyItem(src, item, shortIdIdx, outputOffset);
        if !ok {
          return false, s;
        }
        if item.end - item.from == 1 {
          shortIdIdx := shortIdIdx + 1;
        }
        t := TakeStep(p, t, k);
      }
      return true, t;
    }

    /** Waits for the sub-tasks, here in the schedule that runs them one after the other. */
    method RunAll(src: Source, lastIdx: nat, ghost items: seq<Item>, ghost cuts: seq<nat>, ghost start: nat, ghost s: State)
      returns (ok: bool, ghost t: State)
      requires Valid() && src.Valid() && src.Fits(items) && MarkersAreSingle(items) && OFFSET_DIFF < start <= |src.b|
      requires AllRight(src, items, start - OFFSET_DIFF, subTasks, cuts, lastIdx)
      requires PlanOf(src, items, cuts, start).Valid() && Inv(PlanOf(src, items, cuts, start), s)
      requires s.enqueued == lastIdx + 1 == |s.tasks| && s.headerDone && s.buf == outputBuffer.State() && s.buf.length > 0
      requires forall k | 0 <= k <= lastIdx :: s.tasks[k].next == cuts[k]
      modifies outputBuffer
      ensures Valid()
      ensures ok == NonEmpty(src.Chunks(items), 0, |items|)
      ensures ok ==>
                && Inv(PlanOf(src, items, cuts, start), t) && t.buf == outputBuffer.State()
                && Done(PlanOf(src, items, cuts, start), t)
    {
      hide Inv, Flatten, Shorts, Source.Chunks, BulkRight;
      ghost var p := PlanOf(src, items, cuts, start);
      t := s;
      for idx := 0 to lastIdx + 1
        invariant Valid() && outputBuffer.length == old(outputBuffer.length)
        invariant Inv(p, t) && t.buf == outputBuffer.State()
        invariant t.enqueued == s.enqueued && t.headerDone && |t.tasks| == |s.tasks|
        invariant forall k | 0 <= k < idx :: t.tasks[k].next == cuts[k + 1]
        invariant forall k | idx <= k <= lastIdx :: t.tasks[k] == s.tasks[k]
        invariant NonEmpty(src.Chunks(items), 0, cuts[idx])
      {
        ok, t := RunSubTask(src, idx, items, cuts, start, t);
        if !ok {
          return false, s;
        }
      }
      return true, t;
    }

    /**
     Decompresses a message. Whatever the pool size, the minimal bulk and the stale bytes
     of the output buffer, the outcome is the sequential meaning of the message.
     */
    method Execute(b: seq<byte>, r: Receiver, poolSize: nat) returns (outcome: Outcome)
      requires Valid() && poolSize >= 1 && outputBuffer.length == 0
      modifies this`subTasks, outputBuffer
      ensures Valid()
      ensures outcome == Decompress(b, r, old(outputBuffer.capacity))
      ensures outcome.Block? ==> outputBuffer.Contents() == outcome.bytes
    {
      hide Items, Flatten, Shorts, Source.Chunks, Inv, AllRight, GetVarint;
      var header := ParseHeader(b);
      if header.None? {
        return Failed;
      }
      var h := header.value;
      VarintAdvances(b, OFFSET_DIFF + BLOCK_TX_COUNT_OFFSET);
      var shortIds := DeserializeShortIds(b, h.sidsOffset);
      if shortIds.None? {
        return Failed;
      }
      var success, hashes, sids := GetMissingTransactions(r, shortIds.value);
      if !success {
        return Missing(hashes, sids);
      }
      var src := Source(b, shortIds.value, r);
      var ok, lastIdx;
      ghost var cuts, s;
      ghost var extents;
      ok, lastIdx, cuts, extents := Dispatch(src, h, poolSize);
      if !ok {
        return Failed;
      }
      ItemsShape(b, h.start, h.txCount);
      ok, s := Finish(src, h, lastIdx, Items(b, h.start, h.txCount).value, cuts);
      if !ok {
        return Failed;
      }
      return Block(outputBuffer.Contents());
    }

    /** Copies the header and waits for the sub-tasks. */
    method Finish(src: Source, h: Header, lastIdx: nat, ghost items: seq<Item>, ghost cuts: seq<nat>)
      returns (ok: bool, ghost t: State)
      requires Valid() && src.Valid() && src.Fits(items) && MarkersAreSingle(items) && OFFSET_DIFF < h.start <= |src.b|
      requires AllRight(src, items, h.start - OFFSET_DIFF, subTasks, cuts, lastIdx)
      requires outputBuffer.length == h.start - OFFSET_DIFF + |Flatten(src.Chunks(items))|
      modifies outputBuffer
      ensures Valid()
      ensures ok == NonEmpty(src.Chunks(items), 0, |items|)
      ensures ok ==> outputBuffer.Contents() == src.b[OFFSET_DIFF..h.start] + Flatten(src.Chunks(items))
    {
      hide Inv, Flatten, Shorts, Source.Chunks, BulkRight, Done;
      ghost var p := PlanOf(src, items, cuts, h.start);
      DispatchedReady(src, items, h.start, cuts, outputBuffer.State());
      ghost var s0 := Dispatched(p, outputBuffer.State());
      var base := h.start - OFFSET_DIFF;
      var okCopy, _ := outputBuffer.CopyFromBuffer(src.b, 0, OFFSET_DIFF, base);
      assert p.header[0..base] == src.b[OFFSET_DIFF..OFFSET_DIFF + base];
      ghost var s := s0.(headerDone := true, buf := outputBuffer.State());
      assert HeaderStep(p, s0, s);
      HeaderInv(p, s0, s);
      ok, t := RunAll(src, lastIdx, items, cuts, h.start, s);
      if ok {
        DoneContents(p, t);
        assert p.chunks[..|p.chunks|] == p.chunks;
        ContentsOf(t.buf, p.header, Flatten(p.chunks));
      }
    }
  }

  lemma FitsSnoc(src: Source, start: nat, n: nat, items: seq<Item>, item: Item)
    requires src.Valid() && src.Fits(items) && Items(src.b, start, n + 1) == Some(items + [item])
    requires item.short ==> Shorts(items) < |src.sids|
    ensures src.Fits(items + [item]) && item.from < item.end <= |src.b|
  {
    ItemsShape(src.b, start, n + 1);
    assert (items + [item])[|items|] == item;
    ShortsSnoc(items, item);
  }
}
