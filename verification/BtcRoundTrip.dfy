/** Decompressing a compressed Bitcoin block gives the block back. */
module BtcRoundTrip {
  import opened Bytes
  import opened Wrappers
  import opened BtcTx
  import opened ParallelCopy
  import opened BtcCompression
  import opened BtcDecompression
  import opened Bulks
  import opened ShortIdLists
  import T = BtcDecompressionTask

  /** No transaction that stays in full begins with the marker byte. */
  ghost predicate NoMarkerClash(c: Context, ts: seq<TxOffsets>)
    requires c.Valid() && c.AllInside(ts)
  {
    forall i | 0 <= i < |ts| :: Inside(c.block, ts[i]) && (c.Choice(ts[i]).None? ==> Marked(c.block, ts[i].from) == false)
  }

  predicate Marked(b: seq<byte>, off: nat) {
    off < |b| && b[off] == SHORT_ID_INDICATOR
  }

  /** The receiver holds, for every short id that was used, the very bytes it replaces. */
  ghost predicate ReceiverHas(c: Context, r: Receiver, ts: seq<TxOffsets>)
    requires c.Valid() && c.AllInside(ts)
  {
    forall i | 0 <= i < |ts| :: Inside(c.block, ts[i]) && HasContent(c, r, ts[i])
  }

  ghost predicate HasContent(c: Context, r: Receiver, t: TxOffsets)
    requires c.Valid() && Inside(c.block, t)
  {
    c.Choice(t).Some? ==> r.Known(c.Choice(t).value) && t.from <= t.end
                          && r.Content(c.Choice(t).value) == c.block[t.from..t.end]
  }

  /**
   A transaction kept in full is recognized at its place in the message exactly when it
   does not begin with the marker byte.
   */
  lemma RawItemExact(block: seq<byte>, t: TxOffsets, m: seq<byte>, off: nat)
    requires Inside(block, t) && Walked(block, t) && At(m, off, block[t.from..t.end])
    ensures NextItem(m, off) == Some(Item(off, off + (t.end - t.from), false)) <==> !Marked(block, t.from)
  {
    hide ParseTx;
    AtFirst(m, off, block[t.from..t.end]);
    assert Agree(block, t.from, t.end, m, off);
    ParseTxLocal(block, t.from, m, off);
  }

  /** The pieces of a compressed message stand where its header says. */
  lemma MessageParts(c: Context, hdrEnd: nat, ts: seq<TxOffsets>)
    requires c.Valid() && c.AllInside(ts) && hdrEnd <= |c.block|
    ensures var m := c.Compressed(hdrEnd, ts);
            var start := OFFSET_DIFF + hdrEnd;
            var sidsAt := start + |c.Body(ts)|;
            && At(m, 0, LittleEndian(sidsAt, 8)) && At(m, OFFSET_DIFF, c.block[..hdrEnd])
            && At(m, start, c.Body(ts)) && At(m, sidsAt, LittleEndian(|c.Sids(ts)|, 4))
            && At(m, sidsAt + 4, EncodeSids(c.Sids(ts)))
            && |m| == sidsAt + 4 + 4 * |c.Sids(ts)|
  {
    hide Context.Body, Context.Sids, LittleEndian, EncodeSids, Inside, Context.Valid;
    var m := c.Compressed(hdrEnd, ts);
    var a, h, b := LittleEndian(OFFSET_DIFF + hdrEnd + |c.Body(ts)|, 8), c.block[..hdrEnd], c.Body(ts);
    var n, s := LittleEndian(|c.Sids(ts)|, 4), EncodeSids(c.Sids(ts));
    assert m[0..|m|] == m;
    assert At(m, 0, a + h + b + n + s);
    AtSplit(m, 0, a + h + b + n, s);
    AtSplit(m, 0, a + h + b, n);
    AtSplit(m, 0, a + h, b);
    AtSplit(m, 0, a, h);
  }

  lemma ChunkSize(c: Context, t: TxOffsets)
    requires c.Valid() && Inside(c.block, t)
    ensures 1 <= |c.Chunk(t)| <= t.end - t.from
  {
    hide Context.Choice;
  }

  /** Compression never makes a transaction longer, and takes one byte of it at least. */
  lemma {:induction false} BodySize(c: Context, start: nat, ts: seq<TxOffsets>)
    requires c.Valid() && c.AllInside(ts)
    requires forall i | 0 <= i < |ts| :: ts[i].from == EndOf(start, ts[..i])
    ensures start + |c.Body(ts)| <= EndOf(start, ts)
    ensures |c.Sids(ts)| <= |c.Body(ts)|
  {
    hide ParseTx, Context.Choice, Context.Chunk, Context.Valid, Inside;
    if ts != [] {
      var n := |ts| - 1;
      ChunkSize(c, ts[n]);
      forall i | 0 <= i < n
        ensures ts[..n][i].from == EndOf(start, ts[..n][..i])
      {
        assert ts[..n][..i] == ts[..i];
      }
      BodySize(c, start, ts[..n]);
    }
  }

  /** Chunk i of the body stands in the message behind the chunks before it. */
  lemma ChunkPlace(c: Context, ts: seq<TxOffsets>, m: seq<byte>, start: nat, i: nat)
    requires c.Valid() && c.AllInside(ts) && i < |ts| && At(m, start, c.Body(ts))
    ensures c.AllInside(ts[..i]) && Inside(c.block, ts[i]) && At(m, start + |c.Body(ts[..i])|, c.Chunk(ts[i]))
    ensures c.Body(ts[..i + 1]) == c.Body(ts[..i]) + c.Chunk(ts[i])
  {
    hide Inside, Context.Valid, Context.Chunk, At;
    assert ts[..i + 1][..i] == ts[..i];
    assert ts[..i + 1] + ts[i + 1..] == ts;
    c.BodyAppend(ts[..i + 1], ts[i + 1..]);
    AtSplit(m, start, c.Body(ts[..i + 1]), c.Body(ts[i + 1..]));
    AtSplit(m, start, c.Body(ts[..i]), c.Chunk(ts[i]));
  }

  /** The short id chosen for transaction i is the one the decompressor takes when it gets there. */
  lemma SidPlace(c: Context, ts: seq<TxOffsets>, i: nat)
    requires c.Valid() && c.AllInside(ts) && i < |ts|
    ensures c.AllInside(ts[..i]) && c.AllInside(ts[..i + 1]) && Inside(c.block, ts[i])
    ensures var k := |c.Sids(ts[..i])|;
            && |c.Sids(ts[..i + 1])| == k + (if c.Choice(ts[i]).Some? then 1 else 0) <= |c.Sids(ts)|
            && (c.Choice(ts[i]).Some? ==> k < |c.Sids(ts)| && c.Sids(ts)[k] == c.Choice(ts[i]).value)
  {
    hide Inside, Context.Valid, Context.Choice;
    assert ts[..i + 1][..i] == ts[..i];
    assert ts[..i + 1] + ts[i + 1..] == ts;
    c.SidsAppend(ts[..i + 1], ts[i + 1..]);
  }

  lemma {:induction false} UsedSidsKnown(c: Context, r: Receiver, ts: seq<TxOffsets>)
    requires c.Valid() && c.AllInside(ts) && ReceiverHas(c, r, ts)
    ensures r.KnowsAll(c.Sids(ts))
  {
    hide Inside, Context.Valid, Context.Choice;
    if ts != [] {
      var n := |ts| - 1;
      assert forall i | 0 <= i < n :: ts[..n][i] == ts[i];
      UsedSidsKnown(c, r, ts[..n]);
      assert HasContent(c, r, ts[n]);
    }
  }

  /** What the decompressor has seen after i transactions. */
  ghost predicate Rebuilt(c: Context, src: Source, hdrEnd: nat, ts: seq<TxOffsets>, i: nat)
    requires c.Valid() && c.AllInside(ts) && src.Valid() && i <= |ts|
  {
    var items := Items(src.b, OFFSET_DIFF + hdrEnd, i);
    && c.AllInside(ts[..i])
    && items.Some? && src.Fits(items.value)
    && ItemsEnd(OFFSET_DIFF + hdrEnd, items.value) == OFFSET_DIFF + hdrEnd + |c.Body(ts[..i])|
    && Shorts(items.value) == |c.Sids(ts[..i])|
    && hdrEnd <= EndOf(hdrEnd, ts[..i]) <= |c.block|
    && Flatten(src.Chunks(items.value)) == c.block[hdrEnd..EndOf(hdrEnd, ts[..i])]
    && NonEmpty(src.Chunks(items.value), 0, |items.value|)
  }

  /** The next item of the message is the marker or the transaction that compression put there. */
  lemma NextItemOf(c: Context, t: TxOffsets, m: seq<byte>, off: nat)
    requires c.Valid() && Inside(c.block, t) && Walked(c.block, t) && At(m, off, c.Chunk(t))
    requires c.Choice(t).None? ==> !Marked(c.block, t.from)
    ensures t.from < t.end <= |c.block|
    ensures NextItem(m, off) == Some(Item(off, off + |c.Chunk(t)|, c.Choice(t).Some?))
  {
    hide ParseTx, Context.Choice, Context.Valid;
    if c.Choice(t).Some? {
      AtFirst(m, off, c.Chunk(t));
    } else {
      RawItemExact(c.block, t, m, off);
    }
  }

  /** The item expands to the bytes of the transaction. */
  lemma ChunkOfItem(c: Context, src: Source, t: TxOffsets, off: nat, k: nat)
    requires c.Valid() && Inside(c.block, t) && At(src.b, off, c.Chunk(t)) && src.Valid()
    requires HasContent(c, src.receiver, t)
    requires c.Choice(t).Some? ==> k < |src.sids| && src.sids[k] == c.Choice(t).value
    requires t.from < t.end <= |c.block|
    ensures src.ChunkOf(Item(off, off + |c.Chunk(t)|, c.Choice(t).Some?), k) == c.block[t.from..t.end]
  {
    hide ParseTx, Context.Choice, Context.Valid;
  }

  /** One transaction further, seen from the item list. */
  lemma ItemStep(c: Context, src: Source, start: nat, ts: seq<TxOffsets>, i: nat, items: seq<Item>)
    returns (item: Item)
    requires c.Valid() && c.AllInside(ts) && src.Valid() && i < |ts| && Walked(c.block, ts[i])
    requires src.sids == c.Sids(ts) && At(src.b, start, c.Body(ts))
    requires NoMarkerClash(c, ts) && ReceiverHas(c, src.receiver, ts)
    requires c.AllInside(ts[..i]) && Items(src.b, start, i) == Some(items) && src.Fits(items)
    requires ItemsEnd(start, items) == start + |c.Body(ts[..i])| && Shorts(items) == |c.Sids(ts[..i])|
    ensures c.AllInside(ts[..i + 1])
    ensures Items(src.b, start, i + 1) == Some(items + [item]) && src.Fits(items + [item])
    ensures item.end == start + |c.Body(ts[..i + 1])| && Shorts(items + [item]) == |c.Sids(ts[..i + 1])|
    ensures (item.short ==> Shorts(items) < |src.sids|) && item.from <= item.end <= |src.b|
    ensures ts[i].from < ts[i].end <= |c.block|
    ensures src.ChunkOf(item, Shorts(items)) == c.block[ts[i].from..ts[i].end]
  {
    hide Inside, Context.Valid, Context.Choice, Context.Chunk, Context.Body, Context.Sids, At, NextItem,
      Shorts, Source.ChunkOf, Marked, HasContent;
    var t, off := ts[i], start + |c.Body(ts[..i])|;
    ChunkPlace(c, ts, src.b, start, i);
    SidPlace(c, ts, i);
    NextItemOf(c, t, src.b, off);
    item := Item(off, off + |c.Chunk(t)|, c.Choice(t).Some?);
    T.FitsSnoc(src, start, i, items, item);
    ShortsSnoc(items, item);
    assert HasContent(c, src.receiver, t);
    ChunkOfItem(c, src, t, off, Shorts(items));
  }

  lemma ChunksSnoc(src: Source, items: seq<Item>, item: Item)
    requires src.Valid() && src.Fits(items) && src.Fits(items + [item])
    ensures (item.short ==> Shorts(items) < |src.sids|) && item.from <= item.end <= |src.b|
    ensures src.Chunks(items + [item]) == src.Chunks(items) + [src.ChunkOf(item, Shorts(items))]
  {
    src.FitsPrefix(items + [item]);
    assert (items + [item])[..|items|] == items;
  }

  lemma RebuiltStep(c: Context, src: Source, hdrEnd: nat, ts: seq<TxOffsets>, i: nat)
    requires c.Valid() && c.AllInside(ts) && src.Valid() && i < |ts|
    requires src.sids == c.Sids(ts) && At(src.b, OFFSET_DIFF + hdrEnd, c.Body(ts))
    requires NoMarkerClash(c, ts) && ReceiverHas(c, src.receiver, ts)
    requires ts[i].from == EndOf(hdrEnd, ts[..i]) && Walked(c.block, ts[i])
    requires Rebuilt(c, src, hdrEnd, ts, i)
    ensures Rebuilt(c, src, hdrEnd, ts, i + 1)
  {
    hide Inside, Context.Valid, Context.AllInside, Walked, Context.Body, Context.Sids, At, Items, Source.Fits,
      Shorts, Source.ChunkOf, Source.Chunks, Flatten, ReceiverHas, NoMarkerClash;
    var start, t := OFFSET_DIFF + hdrEnd, ts[i];
    var items := Items(src.b, start, i).value;
    var item := ItemStep(c, src, start, ts, i, items);
    ChunksSnoc(src, items, item);
    var chunk := c.block[t.from..t.end];
    FlattenSnoc(src.Chunks(items), chunk);
    assert ts[..i + 1][i] == t;
    assert c.block[hdrEnd..t.end] == c.block[hdrEnd..t.from] + chunk;
  }

  lemma RebuiltStart(c: Context, src: Source, hdrEnd: nat, ts: seq<TxOffsets>)
    requires c.Valid() && c.AllInside(ts) && src.Valid() && hdrEnd <= |c.block|
    ensures Rebuilt(c, src, hdrEnd, ts, 0)
  {
    hide Inside, Context.Valid;
    assert ts[..0] == [];
  }

  lemma {:induction false} RebuiltAll(c: Context, src: Source, hdrEnd: nat, ts: seq<TxOffsets>, i: nat)
    requires c.Valid() && c.AllInside(ts) && src.Valid() && i <= |ts| && hdrEnd <= |c.block|
    requires src.sids == c.Sids(ts) && At(src.b, OFFSET_DIFF + hdrEnd, c.Body(ts))
    requires NoMarkerClash(c, ts) && ReceiverHas(c, src.receiver, ts)
    requires forall k | 0 <= k < |ts| :: ts[k].from == EndOf(hdrEnd, ts[..k]) && Walked(c.block, ts[k])
    ensures Rebuilt(c, src, hdrEnd, ts, i)
  {
    hide Rebuilt, NoMarkerClash, ReceiverHas, Context.Valid, Context.AllInside, Walked, Context.Body, Context.Sids, At;
    if i > 0 {
      RebuiltAll(c, src, hdrEnd, ts, i - 1);
      RebuiltStep(c, src, hdrEnd, ts, i - 1);
    } else {
      RebuiltStart(c, src, hdrEnd, ts);
    }
  }

  /** The header and the short id list are read back from the message. */
  lemma HeaderReadBack(c: Context, hdrEnd: nat, ts: seq<TxOffsets>)
    requires c.Valid() && c.AllInside(ts) && hdrEnd <= |c.block| < 0x1_0000_0000
    requires GetVarint(c.block, BLOCK_TX_COUNT_OFFSET) == Some(Read(|ts|, hdrEnd))
    requires |c.Sids(ts)| <= |c.Body(ts)| && hdrEnd + |c.Body(ts)| <= |c.block|
    ensures var m := c.Compressed(hdrEnd, ts);
            var sidsAt := OFFSET_DIFF + hdrEnd + |c.Body(ts)|;
            && ParseHeader(m) == Some(Header(sidsAt, |ts|, OFFSET_DIFF + hdrEnd))
            && ShortIds(m, sidsAt) == Some(c.Sids(ts))
  {
    hide Context.Body, Context.Sids, LittleEndian, EncodeSids, Inside, Context.Valid, GetVarint, Context.Compressed;
    var m := c.Compressed(hdrEnd, ts);
    var sidsAt := OFFSET_DIFF + hdrEnd + |c.Body(ts)|;
    MessageParts(c, hdrEnd, ts);
    PowerValues();
    LittleEndianRoundTrip(sidsAt, 8);
    assert c.block[0..hdrEnd] == c.block[..hdrEnd];
    VarintLocal(c.block, 0, hdrEnd, m, OFFSET_DIFF, BLOCK_TX_COUNT_OFFSET);
    SidListReadBack(m, sidsAt, c.Sids(ts));
  }

  /**
   The round trip. For every block whose transactions can be walked, decompressing its
   compression on a receiver that holds the replaced transactions yields the block up to
   the end of the last transaction, or fails if that does not fit. So the block is given
   back exactly if it ends there and the capacity suffices. Neither side depends on a pool
   size or a minimal bulk, and by the contracts of the two tasks no schedule and no stale
   buffer changes it.
   */
  lemma BtcRoundTrip(c: Context, r: Receiver, hdrEnd: nat, ts: seq<TxOffsets>, capacity: nat)
    requires c.Valid() && |c.block| < 0x1_0000_0000
    requires BlockBounds(c.block) == Some((hdrEnd, ts))
    requires c.AllInside(ts) && NoMarkerClash(c, ts) && ReceiverHas(c, r, ts)
    ensures hdrEnd <= EndOf(hdrEnd, ts) <= |c.block|
    ensures var result := Decompress(c.Compressed(hdrEnd, ts), r, capacity);
            && result == (if EndOf(hdrEnd, ts) <= capacity then Block(c.block[..EndOf(hdrEnd, ts)]) else Failed)
            && (result == Block(c.block) <==> EndOf(hdrEnd, ts) == |c.block| <= capacity)
  {
    hide GetVarint, TxBounds, Context.Valid, Context.AllInside, Walked, Context.Body, Context.Sids, Context.Compressed, At,
      NoMarkerClash, ReceiverHas, Receiver.KnowsAll, Items, Shorts, Flatten, Source.Chunks, Source.Fits, NonEmpty;
    BlockShape(c.block, hdrEnd, ts);
    BodySize(c, hdrEnd, ts);
    EndInside(c, hdrEnd, ts);
    HeaderReadBack(c, hdrEnd, ts);
    MessageParts(c, hdrEnd, ts);
    UsedSidsKnown(c, r, ts);
    var src := Source(c.Compressed(hdrEnd, ts), c.Sids(ts), r);
    RebuiltAll(c, src, hdrEnd, ts, |ts|);
    assert ts[..|ts|] == ts;
    ExpandRebuilt(c, src, hdrEnd, ts, capacity);
  }

  lemma EndInside(c: Context, hdrEnd: nat, ts: seq<TxOffsets>)
    requires c.AllInside(ts) && hdrEnd <= |c.block|
    ensures EndOf(hdrEnd, ts) <= |c.block|
  {
  }

  lemma BlockShape(block: seq<byte>, hdrEnd: nat, ts: seq<TxOffsets>)
    requires BlockBounds(block) == Some((hdrEnd, ts))
    ensures GetVarint(block, BLOCK_TX_COUNT_OFFSET) == Some(Read(|ts|, hdrEnd)) && hdrEnd <= |block|
    ensures forall k | 0 <= k < |ts| :: ts[k].from == EndOf(hdrEnd, ts[..k]) && Walked(block, ts[k])
  {
    hide TxBounds, GetVarint;
    VarintAdvances(block, BLOCK_TX_COUNT_OFFSET);
    TxBoundsShape(block, hdrEnd, GetVarint(block, BLOCK_TX_COUNT_OFFSET).value.value);
  }

  lemma ExpandRebuilt(c: Context, src: Source, hdrEnd: nat, ts: seq<TxOffsets>, capacity: nat)
    requires c.Valid() && c.AllInside(ts) && src.Valid() && src.sids == c.Sids(ts)
    requires Rebuilt(c, src, hdrEnd, ts, |ts|) && ts[..|ts|] == ts && At(src.b, OFFSET_DIFF, c.block[..hdrEnd])
    ensures hdrEnd <= EndOf(hdrEnd, ts) <= |c.block|
    ensures Expand(src, Header(OFFSET_DIFF + hdrEnd + |c.Body(ts)|, |ts|, OFFSET_DIFF + hdrEnd), capacity)
            == if EndOf(hdrEnd, ts) <= capacity then Block(c.block[..EndOf(hdrEnd, ts)]) else Failed
  {
    hide Context.Valid, Context.AllInside, Walked, Context.Body, Context.Sids, Items, Shorts, Flatten, Source.Chunks,
      Source.Fits, NonEmpty;
    ItemsShape(src.b, OFFSET_DIFF + hdrEnd, |ts|);
    BlockOfParts(c, src, hdrEnd, EndOf(hdrEnd, ts));
  }

  lemma BlockOfParts(c: Context, src: Source, hdrEnd: nat, end: nat)
    requires hdrEnd <= end <= |c.block| && At(src.b, OFFSET_DIFF, c.block[..hdrEnd])
    ensures src.b[OFFSET_DIFF..OFFSET_DIFF + hdrEnd] + c.block[hdrEnd..end] == c.block[..end]
  {
  }

  /**
   The same from the decompression task's initial state: if the length field of the block
   is right, a buffer of any earlier capacity is prepared so that it suffices, except when
   a buffer of four gigabytes or more is replaced.
   */
  lemma {:induction false} BtcRoundTripPrepared(
    c: Context, r: Receiver, hdrEnd: nat, ts: seq<TxOffsets>, earlier: nat, shared: bool)
    requires c.Valid() && |c.block| < 0x1_0000_0000 && hdrEnd <= |c.block|
    requires BlockBounds(c.block) == Some((hdrEnd, ts)) && EndOf(hdrEnd, ts) == |c.block|
    requires c.AllInside(ts) && NoMarkerClash(c, ts) && ReceiverHas(c, r, ts)
    requires FromLittleEndian(c.block[BLOCK_LENGTH_OFFSET..BLOCK_LENGTH_OFFSET + 4]) + HDR_COMMON_OFFSET == |c.block|
    requires !(shared && earlier >= 0x1_0000_0000 && earlier % 0x1_0000_0000 < |c.block|)
    ensures var m := c.Compressed(hdrEnd, ts);
            && |m| >= OFFSET_DIFF + BLOCK_LENGTH_OFFSET + 4
            && Decompress(m, r, T.OutputCapacity(T.OriginalBlockSize(m), earlier, shared)) == Block(c.block)
  {
    hide Context.Body, Context.Sids, Context.Compressed, Context.Valid, Inside, TxBounds, GetVarint, Decompress;
    var m := c.Compressed(hdrEnd, ts);
    MessageParts(c, hdrEnd, ts);
    VarintAdvances(c.block, BLOCK_TX_COUNT_OFFSET);
    LengthFieldCopied(c.block, hdrEnd, m);
    assert T.OriginalBlockSize(m) == |c.block|;
    T.OutputCapacitySuffices(|c.block|, earlier, shared);
    hide T.OutputCapacity, T.OriginalBlockSize;
    BtcRoundTrip(c, r, hdrEnd, ts, T.OutputCapacity(T.OriginalBlockSize(m), earlier, shared));
  }

  lemma LengthFieldCopied(block: seq<byte>, hdrEnd: nat, m: seq<byte>)
    requires BLOCK_TX_COUNT_OFFSET < hdrEnd <= |block| && At(m, OFFSET_DIFF, block[..hdrEnd])
    ensures |m| >= OFFSET_DIFF + BLOCK_LENGTH_OFFSET + 4
    ensures m[OFFSET_DIFF + BLOCK_LENGTH_OFFSET..OFFSET_DIFF + BLOCK_LENGTH_OFFSET + 4]
            == block[BLOCK_LENGTH_OFFSET..BLOCK_LENGTH_OFFSET + 4]
  {
    assert block[0..hdrEnd] == block[..hdrEnd];
    AgreeSlice(block, 0, hdrEnd, m, OFFSET_DIFF, BLOCK_LENGTH_OFFSET, BLOCK_LENGTH_OFFSET + 4);
  }
}
