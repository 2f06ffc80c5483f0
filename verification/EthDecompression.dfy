/**
 Ethereum block decompression: the markers of a compressed block are replaced by the
 transactions of the receiver and the frame is written anew around the result.
 */
module EthDecompression {
  import opened Bytes
  import opened Wrappers
  import opened Buffers
  import opened ShortIdLists
  import opened Partition
  import opened ParallelCopy
  import opened Bulks
  import opened Rlp
  import opened EthFraming
  import E = EthCompression

  const WORD := 8
  const DEFAULT_TX_COUNT := 200

  /** Where the parts of a message stand; the trailer goes up to the short ids. */
  datatype Parts = Parts(sidsOffset: nat, headerFrom: nat, headerEnd: nat, txnFrom: nat, txnEnd: nat)

  function ParseMessage(m: seq<byte>): Option<Parts> {
    match ReadUint(m, 0, WORD)
    case None => None
    case Some(sidsOffset) =>
      match Consume(m, WORD)
      case None => None
      case Some(Consumed(_, _, headerFrom)) =>
        match Consume(m, headerFrom)
        case None => None
        case Some(Consumed(headerLen, _, headerAt)) =>
          match Consume(m, headerAt + headerLen)
          case None => None
          case Some(Consumed(txsLen, _, txnFrom)) =>
            if txnFrom + txsLen <= sidsOffset <= |m|
            then Some(Parts(sidsOffset, headerFrom, headerAt + headerLen, txnFrom, txnFrom + txsLen))
            else None
  }

  lemma ParseMessageShape(m: seq<byte>)
    requires ParseMessage(m).Some?
    ensures var p := ParseMessage(m).value; p.headerFrom < p.headerEnd <= p.txnFrom <= p.txnEnd <= p.sidsOffset <= |m|
  {
    ConsumeAdvances(m, Consume(m, WORD).value.next);
  }

  /** Where the output leaves off room for the header and the prefixes, and the transactions begin. */
  function Origin(m: seq<byte>): nat
    requires ParseMessage(m).Some?
  {
    ParseMessageShape(m);
    2 * WORD + (ParseMessage(m).value.headerEnd - ParseMessage(m).value.headerFrom)
  }

  /** The transaction at an offset: a marker, or the place of its bytes; and the offset behind it. */
  function NextItem(m: seq<byte>, off: nat): Option<(Item, nat)> {
    match Consume(m, off)
    case None => None
    case Some(Consumed(length, _, from)) =>
      if from >= |m| then None
      else if m[from] == E.SHORT_ID_INDICATOR then Some((Item(from, from, true), from + length))
      else match Consume(m, from + 1)
        case None => None
        case Some(Consumed(contentLen, _, contentAt)) =>
          if contentAt + contentLen > |m| then None
          else Some((Item(contentAt, contentAt + contentLen, false), from + length))
  }

  lemma NextItemAdvances(m: seq<byte>, off: nat)
    requires NextItem(m, off).Some?
    ensures off < NextItem(m, off).value.1
    ensures var item := NextItem(m, off).value.0; item.from <= item.end <= |m|
  {
    ConsumeAdvances(m, off);
  }

  /** The transactions from an offset up to the end of the list. */
  function Items(m: seq<byte>, off: nat, end: nat): Option<seq<Item>>
    decreases end - off
  {
    if off >= end then Some([])
    else match NextItem(m, off)
      case None => None
      case Some((item, next)) =>
        NextItemAdvances(m, off);
        match Items(m, next, end)
        case None => None
        case Some(rest) => Some([item] + rest)
  }

  /** What `Items` comes to when `list` has been found before `off`. */
  function Found(list: seq<Item>, m: seq<byte>, off: nat, end: nat): Option<seq<Item>> {
    match Items(m, off, end)
    case None => None
    case Some(rest) => Some(list + rest)
  }

  lemma FoundNothing(m: seq<byte>, off: nat, end: nat)
    ensures Items(m, off, end) == Found([], m, off, end)
  {
    var items := Items(m, off, end);
    assert items.Some? ==> [] + items.value == items.value;
  }

  lemma FoundNext(list: seq<Item>, m: seq<byte>, off: nat, end: nat)
    requires off < end
    ensures NextItem(m, off).None? ==> Found(list, m, off, end) == None
    ensures NextItem(m, off).Some? ==>
              var (item, next) := NextItem(m, off).value;
              off < next && Found(list, m, off, end) == Found(list + [item], m, next, end)
  {
    hide NextItem;
    if NextItem(m, off).Some? {
      NextItemAdvances(m, off);
      var (item, next) := NextItem(m, off).value;
      var rest := Items(m, next, end);
      if rest.Some? {
        assert list + ([item] + rest.value) == (list + [item]) + rest.value;
      }
    }
  }

  lemma FoundAtEnd(list: seq<Item>, m: seq<byte>, off: nat, end: nat)
    requires off >= end
    ensures Found(list, m, off, end) == Found(list, m, end, end)
  {
  }

  lemma {:induction false} ItemsInside(m: seq<byte>, off: nat, end: nat)
    requires Items(m, off, end).Some?
    ensures forall item <- Items(m, off, end).value :: item.from <= item.end <= |m|
    decreases end - off
  {
    hide NextItem;
    if off < end {
      NextItemAdvances(m, off);
      ItemsInside(m, NextItem(m, off).value.1, end);
    }
  }

  /** The items of the block, provided there are short ids enough. */
  ghost function Layout(src: Source, p: Parts): (r: Option<seq<Item>>)
    ensures r.Some? ==> src.Fits(r.value)
  {
    match Items(src.b, p.txnFrom, p.txnEnd)
    case None => None
    case Some(items) =>
      ItemsInside(src.b, p.txnFrom, p.txnEnd);
      if Shorts(items) > |src.sids| then None else Some(items)
  }

  /** The transactions of the block, all markers replaced. */
  ghost function Txs(src: Source, p: Parts): seq<byte>
    requires src.Valid() && Layout(src, p).Some?
  {
    Flatten(src.Chunks(Layout(src, p).value))
  }

  /** The sequential meaning of a message. */
  ghost function Decompress(m: seq<byte>, r: Receiver): Outcome {
    match ParseMessage(m)
    case None => Failed
    case Some(p) =>
      match ShortIds(m, p.sidsOffset)
      case None => Failed
      case Some(sids) =>
        if !r.KnowsAll(sids) then Missing(UnknownHashes(r, sids), UnknownSids(r, sids))
        else if Layout(Source(m, sids, r), p).None? then Failed
        else
          ParseMessageShape(m);
          Block(Framed(m[p.headerFrom..p.headerEnd], Txs(Source(m, sids, r), p), m[p.txnEnd..p.sidsOffset]))
  }

  /** Where bulk `idx` begins: the transaction with which the index moves on still goes to the sub-task before. */
  function CutBehind(idx: nat, bulk: nat): nat {
    if idx == 0 then 0 else idx * bulk + 1
  }

  /** Where the last bulk of n transactions begins. The buffer is extended up to there. */
  function LastCut(n: nat, bulk: nat, poolSize: nat): (r: nat)
    requires bulk >= 1 && poolSize >= 1
    ensures r <= n
  {
    LastIndexBehind(n, bulk, poolSize);
    CutBehind(LastIndex(n, bulk, poolSize), bulk)
  }

  /** A transaction with which the index moves on is the first of its sub-task's share. */
  lemma LastIndexBehind(n: nat, bulk: nat, poolSize: nat)
    requires bulk >= 1 && poolSize >= 1
    ensures LastIndex(n, bulk, poolSize) > 0 ==> LastIndex(n, bulk, poolSize) * bulk < n
  {
    if n > 0 {
      var q := (n - 1) / bulk;
      assert n - 1 == bulk * q + (n - 1) % bulk;
      MulMonotone(LastIndex(n, bulk, poolSize), q, bulk);
    }
  }

  lemma LastCutGrows(m: nat, n: nat, bulk: nat, poolSize: nat)
    requires bulk >= 1 && poolSize >= 1 && m <= n
    ensures LastCut(m, bulk, poolSize) <= LastCut(n, bulk, poolSize)
  {
    if m > 0 {
      DivMonotone(m - 1, n - 1, bulk);
      MulMonotone(LastIndex(m, bulk, poolSize), LastIndex(n, bulk, poolSize), bulk);
    }
  }

  /** The buffer has the capacity for the room in front, and for all bulks but the last. */
  ghost predicate Extensible(src: Source, items: seq<Item>, base: nat, capacity: nat, bulk: nat, poolSize: nat)
    requires src.Valid() && src.Fits(items) && bulk >= 1 && poolSize >= 1
  {
    base <= capacity && base + |Flatten(src.Chunks(items)[..LastCut(|items|, bulk, poolSize)])| <= capacity
  }

  /**
   What decompression into a buffer of a given capacity comes to. It also fails when the
   buffer cannot be extended, and when the transactions reach four gigabytes, where their
   prefixes outgrow the room in front.
   */
  ghost function DecompressInto(m: seq<byte>, r: Receiver, capacity: nat, bulk: nat, poolSize: nat): Outcome
    requires bulk >= 1 && poolSize >= 1
  {
    var outcome := Decompress(m, r);
    if outcome.Block? && !HasRoom(m, r, capacity, bulk, poolSize) then Failed else outcome
  }

  ghost predicate HasRoom(m: seq<byte>, r: Receiver, capacity: nat, bulk: nat, poolSize: nat)
    requires bulk >= 1 && poolSize >= 1 && Decompress(m, r).Block?
  {
    var p := ParseMessage(m).value;
    var src := Source(m, ShortIds(m, p.sidsOffset).value, r);
    && Extensible(src, Layout(src, p).value, Origin(m), capacity, bulk, poolSize)
    && |Txs(src, p)| < 0x1_0000_0000
  }

  /** A buffer with the capacity for the room in front and the transactions has room. */
  lemma CapacitySuffices(m: seq<byte>, r: Receiver, capacity: nat, bulk: nat, poolSize: nat)
    requires bulk >= 1 && poolSize >= 1 && Decompress(m, r).Block?
    requires var p := ParseMessage(m).value;
             && Origin(m) + |Txs(Source(m, ShortIds(m, p.sidsOffset).value, r), p)| <= capacity
             && |Txs(Source(m, ShortIds(m, p.sidsOffset).value, r), p)| < 0x1_0000_0000
    ensures HasRoom(m, r, capacity, bulk, poolSize)
  {
    hide Flatten, Source.Chunks, ParseMessage, Layout, ShortIds, LastCut;
    var p := ParseMessage(m).value;
    var src := Source(m, ShortIds(m, p.sidsOffset).value, r);
    var chunks := src.Chunks(Layout(src, p).value);
    var cut := LastCut(|chunks|, bulk, poolSize);
    assert chunks == chunks[..cut] + chunks[cut..];
    FlattenAppend(chunks[..cut], chunks[cut..]);
  }

  /** The plan of the sub-tasks. The last bulk is not extended beforehand, and there is no header step. */
  function PlanOf(src: Source, items: seq<Item>, cuts: seq<nat>, base: nat): Plan
    requires src.Valid() && src.Fits(items)
  {
    Plan(src.Chunks(items), base, cuts, [], false)
  }

  /** More items than there are short ids for, or more output than fits, cannot be the beginning of a good layout. */
  lemma LayoutBegins(src: Source, p: Parts, items: seq<Item>, off: nat)
    requires src.Valid() && Items(src.b, p.txnFrom, p.txnEnd) == Found(items, src.b, off, p.txnEnd)
    requires Layout(src, p).Some?
    ensures Shorts(items) <= |src.sids| && src.Fits(items)
    ensures |Flatten(src.Chunks(items))| <= |Txs(src, p)|
  {
    hide Flatten, Shorts, Source.Chunks;
    var all := Layout(src, p).value;
    var n := |items|;
    assert all[..n] == items;
    ShortsPrefix(all, n, |all|);
    ChunksGrow(src, all, n);
  }

  lemma FitsSnoc(src: Source, items: seq<Item>, item: Item)
    requires src.Valid() && src.Fits(items) && item.from <= item.end <= |src.b|
    requires item.short ==> Shorts(items) < |src.sids|
    ensures src.Fits(items + [item])
  {
    ShortsSnoc(items, item);
  }

  class DecompressionTask {
    const minimalTxCount: nat
    var outputBuffer: ByteArray
    var subTasks: seq<Record>
    var startingOffset: nat
    var txnCount: nat

    ghost predicate Valid()
      reads this, outputBuffer
    {
      outputBuffer.Valid()
    }

    constructor (capacity: nat, minimalTxCount: nat)
      ensures Valid() && fresh(outputBuffer)
    {
      this.minimalTxCount := minimalTxCount;
      outputBuffer := new ByteArray(capacity);
      subTasks := [];
      startingOffset, txnCount := 0, 0;
    }

    /** Prepares the output buffer: of the same capacity, whatever block is announced. */
    method Init(shared: bool)
      requires Valid()
      modifies this, outputBuffer
      ensures Valid() && outputBuffer.length == 0 && txnCount == 0
      ensures outputBuffer.capacity == old(outputBuffer.capacity)
      ensures if shared then fresh(outputBuffer) else outputBuffer == old(outputBuffer)
    {
      if shared {
        outputBuffer := new ByteArray(outputBuffer.capacity);
      } else {
        outputBuffer.Reserve(outputBuffer.capacity);
        outputBuffer.Reset();
      }
      startingOffset, txnCount := 0, 0;
    }

    method InitSubTasks(poolSize: nat)
      modifies this`subTasks
      ensures subTasks == seq(Max(old(|subTasks|), poolSize), _ => CLEARED)
    {
      var size := |subTasks|;
      while |subTasks| < poolSize
        invariant |subTasks| == Max(size, |subTasks|) <= Max(size, poolSize)
        invariant forall k | size <= k < |subTasks| :: subTasks[k] == CLEARED
      {
        subTasks := subTasks + [CLEARED];
      }
      for idx := 0 to |subTasks|
        invariant |subTasks| == Max(size, poolSize)
        invariant forall k | 0 <= k < |subTasks| :: k < idx || size <= k ==> subTasks[k] == CLEARED
      {
        subTasks := subTasks[idx := CLEARED];
      }
    }

    method ExtendOutputBuffer(outputOffset: nat) returns (ok: bool)
      requires Valid()
      modifies outputBuffer
      ensures Valid() && ok == (outputOffset <= old(outputBuffer.capacity))
      ensures outputBuffer.capacity == old(outputBuffer.capacity) && outputBuffer.store == old(outputBuffer.store)
      ensures outputBuffer.length == if ok then outputOffset else old(outputBuffer.length)
    {
      if outputOffset > outputBuffer.capacity {
        return false;
      }
      outputBuffer.Resize(outputOffset);
      return true;
    }

    /** How many transactions make a bulk; the number in the block is not known beforehand. */
    function Bulk(poolSize: nat): (r: nat)
      requires poolSize >= 1
      ensures r >= 1
    {
      BulkSize(DEFAULT_TX_COUNT, poolSize, minimalTxCount)
    }

    /**
     Walks over the compressed transactions and fills in the records. `extents` are the
     lengths of the buffer when the sub-tasks were enqueued; the last one was not extended.
     */
    method Dispatch(src: Source, p: Parts, base: nat, poolSize: nat)
      returns (ok: bool, lastIdx: nat, outputOffset: nat, ghost cuts: seq<nat>, ghost extents: seq<nat>)
      requires Valid() && src.Valid() && poolSize >= 1 && txnCount == 0
      modifies this`subTasks, this`txnCount, outputBuffer
      ensures Valid() && outputBuffer.capacity == old(outputBuffer.capacity)
      ensures ok <==> && Layout(src, p).Some?
                      && Extensible(src, Layout(src, p).value, base, outputBuffer.capacity, Bulk(poolSize), poolSize)
      ensures ok ==>
                var items := Layout(src, p).value;
                && AllRight(src, items, base, subTasks, cuts, lastIdx)
                && txnCount == |items| && outputOffset == base + |Txs(src, p)|
                && |extents| == lastIdx + 1 && outputBuffer.length == extents[lastIdx]
                && (forall k | 0 <= k < lastIdx :: extents[k] == subTasks[k + 1].outputOffset)
                && extents[lastIdx] == subTasks[lastIdx].outputOffset
    {
      hide Spreading, AllRight, Extended, Shorts, Flatten, Source.Chunks, Layout, Found, Source.Fits, Txs, Cuts, Extensible,
        LastCut, CutBehind, Items;
      InitSubTasks(poolSize);
      ok := ExtendOutputBuffer(base);
      if !ok {
        NoRoomInFront(src, p, base, outputBuffer.capacity, Bulk(poolSize), poolSize);
        return false, 0, 0, [], [];
      }
      var prevIdx, shortIdsOffset, prevOutputOffset;
      ghost var items;
      ok, prevIdx, shortIdsOffset, prevOutputOffset, outputOffset, items, cuts, extents := Spread(src, p, base, poolSize);
      if !ok {
        return false, 0, 0, [], [];
      }
      ghost var l := Loop(subTasks, prevIdx, shortIdsOffset, prevOutputOffset, outputOffset);
      SpreadingNextSid(src, base, items, cuts, l);
      SpreadingClose(src, base, items, cuts, l);
      var tdata := subTasks[prevIdx].(outputOffset := prevOutputOffset, shortIdsOffset := shortIdsOffset);
      ExtendedCloses(extents, subTasks, prevIdx, prevOutputOffset, tdata);
      subTasks := subTasks[prevIdx := tdata];
      LayoutComplete(src, p, items, p.txnEnd);
      LongEnough(src, base, items, cuts, l, outputBuffer.State(), Bulk(poolSize), poolSize);
      return true, prevIdx, outputOffset, cuts + [|items|], extents + [prevOutputOffset];
    }

    /** The loop of the dispatch. */
    method Spread(src: Source, p: Parts, base: nat, poolSize: nat)
      returns (ok: bool, prevIdx: nat, shortIdsOffset: nat, prevOutputOffset: nat, outputOffset: nat,
               ghost items: seq<Item>, ghost cuts: seq<nat>, ghost extents: seq<nat>)
      requires Valid() && src.Valid() && poolSize >= 1 && txnCount == 0 && outputBuffer.length == base
      requires |subTasks| >= poolSize && subTasks == seq(|subTasks|, _ => CLEARED)
      modifies this`subTasks, this`txnCount, outputBuffer
      ensures Valid() && outputBuffer.capacity == old(outputBuffer.capacity)
      ensures !ok ==> Layout(src, p).Some? ==>
                !Extensible(src, Layout(src, p).value, base, outputBuffer.capacity, Bulk(poolSize), poolSize)
      ensures ok ==>
                && src.Fits(items) && txnCount == |items|
                && Items(src.b, p.txnFrom, p.txnEnd) == Found(items, src.b, p.txnEnd, p.txnEnd)
                && Spreading(src, base, items, cuts, Loop(subTasks, prevIdx, shortIdsOffset, prevOutputOffset, outputOffset))
                && prevIdx == LastIndex(|items|, Bulk(poolSize), poolSize) < |cuts|
                && cuts[prevIdx] == CutBehind(prevIdx, Bulk(poolSize))
                && outputBuffer.length == prevOutputOffset
                && Extended(extents, subTasks, prevIdx, prevOutputOffset)
    {
      hide Spreading, AllRight, Extended, NextItem, BulkSize, TaskIndex, Shorts, Flatten, Source.Chunks, Layout,
        Items, Found, Source.Fits, Txs, Cuts, Extensible, LastCut, Bulk;
      var bulkSize := Bulk(poolSize);
      var offset, idx := p.txnFrom, 0;
      prevIdx, shortIdsOffset, prevOutputOffset, outputOffset := 0, 0, base, base;
      items, cuts, extents := [], [0], [];
      TaskIndexStart(bulkSize, poolSize);
      SpreadingStart(src, base, |subTasks|);
      FoundNothing(src.b, p.txnFrom, p.txnEnd);
      assert CutBehind(0, bulkSize) == 0;
      hide CutBehind;
      while offset < p.txnEnd
        invariant Valid() && outputBuffer.capacity == old(outputBuffer.capacity)
        invariant |subTasks| >= poolSize && txnCount == |items|
        invariant Items(src.b, p.txnFrom, p.txnEnd) == Found(items, src.b, offset, p.txnEnd)
        invariant src.Fits(items)
        invariant idx == prevIdx == if txnCount == 0 then 0 else TaskIndex(txnCount - 1, bulkSize, poolSize)
        invariant Spreading(src, base, items, cuts, Loop(subTasks, prevIdx, shortIdsOffset, prevOutputOffset, outputOffset))
        invariant outputBuffer.length == prevOutputOffset && |cuts| == prevIdx + 1
        invariant cuts[prevIdx] == CutBehind(prevIdx, bulkSize)
        invariant Extended(extents, subTasks, prevIdx, prevOutputOffset)
        decreases p.txnEnd - offset
      {
        idx := TaskIndex(txnCount, bulkSize, poolSize);
        if txnCount > 0 {
          TaskIndexNext(txnCount, bulkSize, poolSize);
        } else {
          TaskIndexStart(bulkSize, poolSize);
        }
        ghost var l := Loop(subTasks, prevIdx, shortIdsOffset, prevOutputOffset, outputOffset);
        SpreadingNextSid(src, base, items, cuts, l);
        FoundNext(items, src.b, offset, p.txnEnd);
        var next := NextItem(src.b, offset);
        if next.None? {
          FailsOnItems(src, p);
          return false, 0, 0, 0, 0, [], [], [];
        }
        NextItemAdvances(src.b, offset);
        var item := next.value.0;
        offset := next.value.1;
        ghost var more := items + [item];
        var tdata := subTasks[prevIdx];
        ShortsSnoc(items, item);
        if item.short && shortIdsOffset + tdata.shortIdsLen >= |src.sids| {
          if Layout(src, p).Some? {
            LayoutBegins(src, p, more, offset);
          }
          return false, 0, 0, 0, 0, [], [], [];
        }
        FitsSnoc(src, items, item);
        outputOffset := outputOffset +
          if item.short then |src.receiver.Content(src.sids[shortIdsOffset + tdata.shortIdsLen])|
          else item.end - item.from;
        tdata := Push(tdata, item);
        ExtendedStays(extents, subTasks, prevIdx, prevOutputOffset, tdata);
        subTasks := subTasks[prevIdx := tdata];
        SpreadingStays(src, base, items, cuts, l, item);
        items := more;
        if idx > prevIdx {
          ghost var l' := Loop(subTasks, prevIdx, shortIdsOffset, prevOutputOffset, outputOffset);
          SpreadingNextSid(src, base, items, cuts, l');
          SpreadingMoves(src, base, items, cuts, l');
          tdata := tdata.(outputOffset := prevOutputOffset, shortIdsOffset := shortIdsOffset);
          ExtendedMoves(extents, subTasks, prevIdx, prevOutputOffset, tdata, outputOffset);
          subTasks := subTasks[prevIdx := tdata];
          CutAt(|more|, bulkSize, poolSize, idx);
          var fits := ExtendOutputBuffer(outputOffset);
          if !fits {
            if Layout(src, p).Some? {
              TooLong(src, p, more, offset, base, outputBuffer.capacity, bulkSize, poolSize);
            }
            return false, 0, 0, 0, 0, [], [], [];
          }
          shortIdsOffset := shortIdsOffset + tdata.shortIdsLen;
          prevOutputOffset := outputOffset;
          cuts, extents := cuts + [|items|], extents + [outputOffset];
          assert Spreading(src, base, items, cuts, Loop(subTasks, idx, shortIdsOffset, prevOutputOffset, outputOffset));
        } else {
          assert Spreading(src, base, items, cuts, Loop(subTasks, idx, shortIdsOffset, prevOutputOffset, outputOffset));
        }
        prevIdx := idx;
        txnCount := txnCount + 1;
      }
      FoundAtEnd(items, src.b, offset, p.txnEnd);
      ok := true;
    }

    /** One sub-task: copies its items by its record, as actions of the plan. Empty pieces are skipped. */
    method RunSubTask(src: Source, k: nat, ghost items: seq<Item>, ghost cuts: seq<nat>, ghost base: nat, ghost s: State)
      returns (ghost t: State)
      requires Valid() && src.Valid() && src.Fits(items)
      requires PlanOf(src, items, cuts, base).Valid() && Inv(PlanOf(src, items, cuts, base), s)
      requires k < |subTasks| && BulkRight(src, items, base, subTasks, cuts, k)
      requires k < s.enqueued <= |s.tasks| == |cuts| - 1 && s.tasks[k].next == cuts[k]
      requires s.buf == outputBuffer.State() && s.buf.length > 0
      modifies outputBuffer
      ensures Valid() && Inv(PlanOf(src, items, cuts, base), t) && t.buf == outputBuffer.State()
      ensures t.enqueued == s.enqueued && t.headerDone == s.headerDone && |t.tasks| == |s.tasks|
      ensures t.tasks == s.tasks[k := t.tasks[k]] && t.tasks[k].next == cuts[k + 1] && t.buf.length > 0
    {
      hide Inv, Flatten, Shorts, Source.Chunks, Source.Fits;
      ghost var p := PlanOf(src, items, cuts, base);
      var data := subTasks[k];
      var shortIdIdx, outputOffset := data.shortIdsOffset, data.outputOffset;
      t := s;
      CursorOf(p, s, k);
      for i := 0 to |data.offsets|
        invariant Valid() && Inv(p, t) && t.buf == outputBuffer.State() && t.buf.length > 0
        invariant t.enqueued == s.enqueued && t.headerDone == s.headerDone
        invariant |t.tasks| == |s.tasks| && t.tasks == s.tasks[k := Cursor(cuts[k] + i, outputOffset)]
        invariant shortIdIdx == Shorts(items[..cuts[k] + i])
      {
        var item := data.offsets[i];
        ghost var j := cuts[k] + i;
        assert item == items[j];
        ItemFits(src, items, j);
        src.ChunkAt(items, j);
        ShortsAt(items, j);
        outputOffset := CopyItem(src, item, shortIdIdx, outputOffset);
        if item.short {
          shortIdIdx := shortIdIdx + 1;
        }
        t := TakeStep(p, t, k);
      }
    }

    method CopyItem(src: Source, item: Item, shortIdIdx: nat, outputOffset: nat) returns (end: nat)
      requires Valid() && src.Valid() && item.from <= item.end <= |src.b| && outputBuffer.length > 0
      requires item.short ==> shortIdIdx < |src.sids|
      modifies outputBuffer
      ensures Valid() && outputBuffer.length >= old(outputBuffer.length)
      ensures end == outputOffset + |src.ChunkOf(item, shortIdIdx)|
      ensures outputBuffer.State() == CopyChunk(old(outputBuffer.State()), outputOffset, src.ChunkOf(item, shortIdIdx))
    {
      hide CopyChunk;
      if !item.short {
        end := CopyPiece(src.b, item.from, item.end - item.from, outputOffset);
      } else {
        var content := src.receiver.Content(src.sids[shortIdIdx]);
        assert content[0..|content|] == content;
        end := CopyPiece(content, 0, |content|, outputOffset);
      }
    }

    /** Copies a slice, unless it is empty. */
    method CopyPiece(piece: seq<byte>, from: nat, len: nat, outputOffset: nat) returns (end: nat)
      requires Valid() && from + len <= |piece| && outputBuffer.length > 0
      modifies outputBuffer
      ensures Valid() && outputBuffer.length >= old(outputBuffer.length) && end == outputOffset + len
      ensures outputBuffer.State() == CopyChunk(old(outputBuffer.State()), outputOffset, piece[from..from + len])
    {
      end := outputOffset;
      if len > 0 {
        CopyOfSlice(outputBuffer.State(), piece, outputOffset, from, len);
        var ok;
        ok, end := outputBuffer.CopyFromBuffer(piece, outputOffset, from, len);
      }
    }

    /** Waits for the sub-tasks, here in the schedule that runs them one after the other. */
    method RunAll(src: Source, lastIdx: nat, ghost items: seq<Item>, ghost cuts: seq<nat>, ghost base: nat, ghost s: State)
      returns (ghost t: State)
      requires Valid() && src.Valid() && src.Fits(items)
      requires AllRight(src, items, base, subTasks, cuts, lastIdx)
      requires PlanOf(src, items, cuts, base).Valid() && Inv(PlanOf(src, items, cuts, base), s)
      requires s.enqueued == lastIdx + 1 == |s.tasks| && s.headerDone && s.buf == outputBuffer.State() && s.buf.length > 0
      requires forall k | 0 <= k <= lastIdx :: s.tasks[k].next == cuts[k]
      modifies outputBuffer
      ensures Valid() && t.buf == outputBuffer.State()
      ensures Inv(PlanOf(src, items, cuts, base), t) && Done(PlanOf(src, items, cuts, base), t)
    {
      hide Inv, Flatten, Shorts, Source.Chunks, BulkRight, Source.Fits;
      ghost var p := PlanOf(src, items, cuts, base);
      t := s;
      for idx := 0 to lastIdx + 1
        invariant Valid() && Inv(p, t) && t.buf == outputBuffer.State() && t.buf.length > 0
        invariant t.enqueued == s.enqueued && t.headerDone && |t.tasks| == |s.tasks|
        invariant forall k | 0 <= k < idx :: t.tasks[k].next == cuts[k + 1]
        invariant forall k | idx <= k <= lastIdx :: t.tasks[k] == s.tasks[k]
      {
        t := RunSubTask(src, idx, items, cuts, base, t);
      }
    }

    /** Runs the sub-tasks on a dispatched buffer. */
    method Finish(src: Source, lastIdx: nat, base: nat, ghost items: seq<Item>, ghost cuts: seq<nat>)
      requires Valid() && src.Valid() && src.Fits(items) && base > 0
      requires AllRight(src, items, base, subTasks, cuts, lastIdx)
      requires outputBuffer.length == subTasks[lastIdx].outputOffset
      modifies outputBuffer
      ensures Valid() && At(outputBuffer.store, base, Flatten(src.Chunks(items)))
    {
      hide Inv, Flatten, Shorts, Source.Chunks, Source.Fits, Done, At;
      ghost var p := PlanOf(src, items, cuts, base);
      assert BulkRight(src, items, base, subTasks, cuts, lastIdx);
      DispatchedReady(src, items, base, cuts, outputBuffer.State());
      ghost var t := RunAll(src, lastIdx, items, cuts, base, Dispatched(p, outputBuffer.State()));
      DoneContents(p, t);
    }

    /**
     Writes the frame around transactions that stand behind the room for it, by whatever
     schedule they got there. Fails when the room does not suffice.
     */
    method SetOutputBuffer(header: seq<byte>, trailer: seq<byte>, outputOffset: nat, ghost txs: seq<byte>) returns (ok: bool)
      requires Valid() && header != [] && outputOffset == 2 * WORD + |header| + |txs|
      requires At(outputBuffer.store, 2 * WORD + |header|, txs)
      modifies this`startingOffset, outputBuffer
      ensures Valid() && ok == (|txs| < 0x1_0000_0000)
      ensures ok ==> startingOffset <= outputBuffer.length
                     && outputBuffer.Contents()[startingOffset..] == Framed(header, txs, trailer)
    {
      hide At, Placed, Framed, FramedPayload, BlockPrefix, TxsPrefix;
      var base := 2 * WORD + |header|;
      E.AtPlaced(outputBuffer.store, base, txs);
      E.PrefixSizes(header, txs, trailer);
      SlackExact(header, txs, trailer);
      var start, end;
      ok, start, end := BackFill(outputBuffer, header, trailer, txs, base, outputOffset);
      if ok {
        ResizeKeepsAt(outputBuffer.State(), end, start, Framed(header, txs, trailer));
        outputBuffer.Resize(end);
        startingOffset := start;
        E.AtEnd(outputBuffer.State(), start, Framed(header, txs, trailer));
      }
    }

    /**
     Decompresses a message. Whatever the pool size, the minimal bulk and the stale bytes
     of the buffer, what it holds from `startingOffset` on is the sequential meaning of the
     message, and the failures are those of a buffer that cannot be extended, of too many
     markers, and of transactions too long for their prefixes.
     */
    method Execute(m: seq<byte>, r: Receiver, poolSize: nat) returns (outcome: Outcome)
      requires Valid() && poolSize >= 1 && outputBuffer.length == 0 && txnCount == 0
      modifies this, outputBuffer
      ensures Valid() && outputBuffer == old(outputBuffer)
      ensures outcome == DecompressInto(m, r, old(outputBuffer.capacity), Bulk(poolSize), poolSize)
      ensures outcome.Block? ==> startingOffset <= outputBuffer.length
                                 && outputBuffer.Contents()[startingOffset..] == outcome.bytes
    {
      hide ParseMessage, Layout, Txs, Flatten, Source.Chunks, At, AllRight, Source.Fits, Framed, Extensible, Bulk;
      var parts := ParseMessage(m);
      if parts.None? {
        return Failed;
      }
      var p := parts.value;
      ParseMessageShape(m);
      var shortIds := DeserializeShortIds(m, p.sidsOffset);
      if shortIds.None? {
        return Failed;
      }
      var success, hashes, sids := GetMissingTransactions(r, shortIds.value);
      if !success {
        return Missing(hashes, sids);
      }
      var src := Source(m, shortIds.value, r);
      var header, trailer := m[p.headerFrom..p.headerEnd], m[p.txnEnd..p.sidsOffset];
      var base := 2 * WORD + |header|;
      var ok, lastIdx, outputOffset;
      ghost var cuts, extents;
      ok, lastIdx, outputOffset, cuts, extents := Dispatch(src, p, base, poolSize);
      if !ok {
        return Failed;
      }
      TxsOfLayout(src, p);
      Finish(src, lastIdx, base, Layout(src, p).value, cuts);
      ok := SetOutputBuffer(header, trailer, outputOffset, Txs(src, p));
      if !ok {
        return Failed;
      }
      return Block(outputBuffer.Contents()[startingOffset..]);
    }
  }

  lemma NoRoomInFront(src: Source, p: Parts, base: nat, capacity: nat, bulk: nat, poolSize: nat)
    requires src.Valid() && bulk >= 1 && poolSize >= 1 && base > capacity
    ensures Layout(src, p).Some? ==> !Extensible(src, Layout(src, p).value, base, capacity, bulk, poolSize)
  {
    hide LastCut, Flatten, Source.Chunks;
  }

  /** When the index has just moved on, the next bulk begins behind the last transaction. */
  lemma CutAt(n: nat, bulk: nat, poolSize: nat, idx: nat)
    requires bulk >= 1 && poolSize >= 1 && n > 0 && idx > 0
    requires idx == TaskIndex(n - 1, bulk, poolSize) && n - 1 == idx * bulk
    ensures CutBehind(idx, bulk) == n == LastCut(n, bulk, poolSize)
  {
  }

  /** Where the extension fails, the bulks before the last one outgrow the buffer. */
  lemma TooLong(src: Source, p: Parts, items: seq<Item>, off: nat, base: nat, capacity: nat, bulk: nat, poolSize: nat)
    requires src.Valid() && bulk >= 1 && poolSize >= 1
    requires Items(src.b, p.txnFrom, p.txnEnd) == Found(items, src.b, off, p.txnEnd) && Layout(src, p).Some?
    requires src.Fits(items) && LastCut(|items|, bulk, poolSize) == |items|
    requires base + |Flatten(src.Chunks(items))| > capacity
    ensures !Extensible(src, Layout(src, p).value, base, capacity, bulk, poolSize)
  {
    hide Flatten, Shorts, Source.Chunks, LastCut;
    var all := Layout(src, p).value;
    var n, cut := |items|, LastCut(|all|, bulk, poolSize);
    assert all[..n] == items;
    LastCutGrows(n, |all|, bulk, poolSize);
    ChunksPrefix(src, all, n);
    var chunks := src.Chunks(all);
    assert chunks[..cut] == chunks[..n] + chunks[n..cut];
    FlattenAppend(chunks[..n], chunks[n..cut]);
  }

  /** After the last transaction the buffer has been extended up to the last bulk. */
  lemma LongEnough(
    src: Source, base: nat, items: seq<Item>, cuts: seq<nat>, l: Loop, buf: Buffer, bulk: nat, poolSize: nat)
    requires src.Valid() && src.Fits(items) && bulk >= 1 && poolSize >= 1 && Spreading(src, base, items, cuts, l)
    requires l.prev == LastIndex(|items|, bulk, poolSize)
    requires l.prev < |cuts| && cuts[l.prev] == CutBehind(l.prev, bulk)
    requires buf.Valid() && buf.length == l.prevOutputOffset
    ensures Extensible(src, items, base, buf.capacity, bulk, poolSize)
  {
    hide Flatten, Shorts, Source.Chunks, BulkRight;
  }

  // ---------------------------------------------------------------- schedules

  /** The cuts make bulks of the items of a message that decompresses to a block. */
  ghost predicate CutsOf(m: seq<byte>, r: Receiver, cuts: seq<nat>) {
    && Decompress(m, r).Block? && |cuts| >= 2
    && var p := ParseMessage(m).value;
       Cuts(cuts, |cuts| - 1, |Layout(Source(m, ShortIds(m, p.sidsOffset).value, r), p).value|)
  }

  /** The plan of the sub-tasks for a message, cut into bulks in whatever way. */
  ghost function PlanFor(m: seq<byte>, r: Receiver, cuts: seq<nat>): (p: Plan)
    requires CutsOf(m, r, cuts)
    ensures p.Valid()
  {
    var p := ParseMessage(m).value;
    var src := Source(m, ShortIds(m, p.sidsOffset).value, r);
    PlanOf(src, Layout(src, p).value, cuts, Origin(m))
  }

  /**
   Every schedule, whatever the bulks and the stale bytes of the buffer, takes the same
   number of actions, can go on until it is done, and then has the transactions of the
   block behind the room for the frame, where `SetOutputBuffer` expects them.
   */
  lemma AnySchedule(m: seq<byte>, r: Receiver, cuts: seq<nat>, run: seq<State>)
    requires CutsOf(m, r, cuts) && Run(PlanFor(m, r, cuts), run)
    ensures var q, last := PlanFor(m, r, cuts), run[|run| - 1];
            var p := ParseMessage(m).value;
            var txs := Txs(Source(m, ShortIds(m, p.sidsOffset).value, r), p);
            && |run| <= Actions(q) + 1
            && (Done(q, last) <==> |run| == Actions(q) + 1)
            && (!Done(q, last) ==> CanAct(q, last))
            && (Done(q, last) ==>
                  At(last.buf.store, Origin(m), txs) && last.buf.length == Origin(m) + |txs|)
  {
    hide Done, Run, CanAct, Flatten, Source.Chunks, At, ParseMessage, Layout, ShortIds;
    var q := PlanFor(m, r, cuts);
    EverySchedule(q, run);
    assert q.chunks[..|q.chunks|] == q.chunks;
  }

  lemma TxsOfLayout(src: Source, p: Parts)
    requires src.Valid() && Layout(src, p).Some?
    ensures src.Fits(Layout(src, p).value) && Txs(src, p) == Flatten(src.Chunks(Layout(src, p).value))
  {
  }

  lemma ItemFits(src: Source, items: seq<Item>, j: nat)
    requires src.Fits(items) && j < |items|
    ensures items[j].from <= items[j].end <= |src.b|
  {
  }

  lemma CopyOfSlice(b: Buffer, src: seq<byte>, at: nat, from: nat, len: nat)
    requires b.Valid() && from + len <= |src| && len > 0
    ensures b.CopyFromBuffer(src, at, from, len) == CopyChunk(b, at, src[from..from + len])
  {
    var s := src[from..from + len];
    assert s[0..|s|] == s;
  }

  /** The records and the buffer, extended up to the last bulk, make a valid plan, ready to run under any schedule. */
  lemma DispatchedReady(src: Source, items: seq<Item>, base: nat, cuts: seq<nat>, buf: Buffer)
    requires src.Valid() && src.Fits(items)
    requires |cuts| >= 2 && Cuts(cuts, |cuts| - 1, |items|)
    requires buf.Valid() && buf.length == base + |Flatten(src.Chunks(items)[..cuts[|cuts| - 2]])|
    ensures var p := PlanOf(src, items, cuts, base); p.Valid() && Inv(p, Dispatched(p, buf))
  {
    hide Flatten, Source.Chunks, Shorts;
    var p := PlanOf(src, items, cuts, base);
    assert p.chunks[..|p.chunks|] == p.chunks;
    DispatchedInv(p, buf);
  }

  lemma FailsOnItems(src: Source, p: Parts)
    requires Items(src.b, p.txnFrom, p.txnEnd) == None
    ensures Layout(src, p) == None
  {
  }

  lemma LayoutComplete(src: Source, p: Parts, items: seq<Item>, off: nat)
    requires src.Valid() && src.Fits(items) && off >= p.txnEnd
    requires Items(src.b, p.txnFrom, p.txnEnd) == Found(items, src.b, off, p.txnEnd)
    ensures Layout(src, p) == Some(items) && Txs(src, p) == Flatten(src.Chunks(items))
  {
    hide Shorts, Flatten, Source.Chunks;
    assert items + [] == items;
  }
}
