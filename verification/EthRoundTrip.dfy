/** Decompressing a compressed Ethereum block gives the block back. */
module EthRoundTrip {
  import opened Bytes
  import opened Wrappers
  import opened Buffers
  import opened ShortIdLists
  import opened ParallelCopy
  import opened Bulks
  import opened Rlp
  import opened EthFraming
  import L = RlpLists
  import E = EthCompression
  import D = EthDecompression

  // ---------------------------------------------------------------- reading what was written

  /** A prefix is read from its own bytes and, for a short string, the first of the payload. */
  lemma ConsumeLocal(b: seq<byte>, lo: nat, hi: nat, c: seq<byte>, lo': nat, off: nat)
    requires Agree(b, lo, hi, c, lo') && lo <= off && Consume(b, off).Some?
    requires Consume(b, off).value.next + Consume(b, off).value.length <= hi
    ensures var Consumed(length, kind, next) := Consume(b, off).value;
            off <= next && Consume(c, off - lo + lo') == Some(Consumed(length, kind, next - lo + lo'))
  {
    hide FromBigEndian, Agree;
    assert off < hi <= |b| && lo' + (hi - lo) <= |c| by { AgreeBounds(b, lo, hi, c, lo'); }
    AgreeByte(b, lo, hi, c, lo', off);
    if off + 1 < hi {
      AgreeByte(b, lo, hi, c, lo', off + 1);
    }
    if Consume(b, off).value.length >= 56 {
      AgreeSlice(b, lo, hi, c, lo', off + 1, Consume(b, off).value.next);
    }
  }

  lemma AgreeBounds(b: seq<byte>, lo: nat, hi: nat, c: seq<byte>, lo': nat)
    requires Agree(b, lo, hi, c, lo')
    ensures lo <= hi <= |b| && lo' + (hi - lo) <= |c|
  {
  }

  lemma FullChunkParts(m: seq<byte>, off: nat, raw: seq<byte>)
    requires At(m, off, E.FullChunk(raw))
    ensures var prefix := Prefix(|raw|, RLP_STR_ENCODING_TYPE);
            var list := Prefix(1 + |prefix| + |raw|, RLP_LIST_ENCODING_TYPE);
            && At(m, off, list) && At(m, off + |list|, [E.FULL_TX_INDICATOR])
            && At(m, off + |list| + 1, prefix) && At(m, off + |list| + 1 + |prefix|, raw)
  {
    hide Prefix, At;
    var prefix := Prefix(|raw|, RLP_STR_ENCODING_TYPE);
    var list := Prefix(1 + |prefix| + |raw|, RLP_LIST_ENCODING_TYPE);
    var one := [E.FULL_TX_INDICATOR];
    AtSplit(m, off, list + one + prefix, raw);
    AtSplit(m, off, list + one, prefix);
    AtSplit(m, off, list, one);
  }

  /** A string of a transaction is read back, unless it is a single byte below 128. */
  lemma StringReadBack(m: seq<byte>, off: nat, raw: seq<byte>)
    requires raw != [] && |raw| < 0x1_0000_0000
    requires At(m, off, Prefix(|raw|, RLP_STR_ENCODING_TYPE)) && At(m, off + |Prefix(|raw|, RLP_STR_ENCODING_TYPE)|, raw)
    ensures Consume(m, off) ==
            if |raw| == 1 && raw[0] < 128 then None
            else Some(Consumed(|raw|, RlpString, off + |Prefix(|raw|, RLP_STR_ENCODING_TYPE)|))
  {
    var prefix := Prefix(|raw|, RLP_STR_ENCODING_TYPE);
    assert |raw| == 1 ==> |prefix| == 1;
    hide Prefix, Consume, At;
    PrefixReadBackExact(m, off, |raw|, RlpString);
    AtFirst(m, off + |prefix|, raw);
    if |raw| == 1 && raw[0] < 128 {
      PlainByteRejected(m, off);
    }
  }

  /**
   A transaction kept in full is found at its place in the message, unless it is a single
   byte below 128: the reader does not accept that as a prefixed string.
   */
  lemma FullItemExact(m: seq<byte>, off: nat, raw: seq<byte>)
    requires raw != [] && |E.FullChunk(raw)| < 0x1_0000_0000 && At(m, off, E.FullChunk(raw))
    ensures var end := off + |E.FullChunk(raw)|;
            D.NextItem(m, off) == if |raw| == 1 && raw[0] < 128 then None
                                  else Some((Item(end - |raw|, end, false), end))
  {
    hide Prefix, Consume, At;
    var prefix := Prefix(|raw|, RLP_STR_ENCODING_TYPE);
    var size := 1 + |prefix| + |raw|;
    var list := Prefix(size, RLP_LIST_ENCODING_TYPE);
    FullChunkParts(m, off, raw);
    PrefixReadBackExact(m, off, size, RlpList);
    AtFirst(m, off + |list|, [E.FULL_TX_INDICATOR]);
    StringReadBack(m, off + |list| + 1, raw);
    AtBytes(m, off + |list| + 1 + |prefix|, raw);
  }

  /** A string prefix for one byte is rejected in front of a byte below 128. */
  lemma PlainByteRejected(m: seq<byte>, off: nat)
    requires At(m, off, Prefix(1, RLP_STR_ENCODING_TYPE)) && off + 1 < |m| && m[off + 1] < 128
    ensures Consume(m, off) == None
  {
    AtFirst(m, off, Prefix(1, RLP_STR_ENCODING_TYPE));
  }

  lemma ShortItem(m: seq<byte>, off: nat)
    requires At(m, off, E.ShortChunk())
    ensures D.NextItem(m, off) == Some((Item(off + 1, off + 1, true), off + 3))
  {
    assert m[off..off + 3][0] == m[off] && m[off..off + 3][1] == m[off + 1];
  }

  /** The items of a split stand one behind the other. */
  lemma {:induction false} SplitConsecutive(b: seq<byte>, off: nat, end: nat)
    requires L.Split(b, off, end).Some?
    ensures var ts := L.Split(b, off, end).value;
            && (ts == [] <==> off >= end)
            && (ts != [] ==> ts[0].start == off)
            && (forall i | 0 < i < |ts| :: ts[i].start == E.SpanEnd(ts[i - 1]))
    decreases end - off
  {
    hide Consume;
    if off < end {
      ConsumeAdvances(b, off);
      var c := Consume(b, off).value;
      SplitConsecutive(b, c.next + c.length, end);
    }
  }

  function EndOf(start: nat, ts: seq<L.Item>): nat {
    if ts == [] then start else E.SpanEnd(ts[|ts| - 1])
  }

  // ---------------------------------------------------------------- hypotheses

  /** A transaction kept in full is not a single byte below 128. */
  ghost predicate NoPlainByte(c: E.Context, t: L.Item)
    requires c.Valid() && c.Inside(t)
  {
    c.Choice(t).None? ==> !(|c.Raw(t)| == 1 && c.Raw(t)[0] < 128)
  }

  /** The receiver holds, for the short id that was used, the transaction with its own prefix. */
  ghost predicate HasContent(c: E.Context, r: Receiver, t: L.Item)
    requires c.Valid() && c.Inside(t)
  {
    c.Choice(t).Some? ==> r.Known(c.Choice(t).value) && r.Content(c.Choice(t).value) == c.Raw(t)
  }

  // ---------------------------------------------------------------- the transactions

  lemma FullItemPayload(m: seq<byte>, off: nat, raw: seq<byte>)
    requires At(m, off, E.FullChunk(raw))
    ensures var end := off + |E.FullChunk(raw)|; end - |raw| <= end <= |m| && m[end - |raw|..end] == raw
  {
    hide Prefix;
    AtBytes(m, off, E.FullChunk(raw));
    LastPart(m, off, E.FullChunk(raw), raw);
  }

  /** The item found at the place of a chunk. */
  function ItemOf(c: E.Context, t: L.Item, off: nat): Item
    requires c.Valid() && c.Inside(t)
  {
    if c.Choice(t).Some? then Item(off + 1, off + 1, true)
    else
      var end := off + |E.FullChunk(c.Raw(t))|;
      Item(end - |c.Raw(t)|, end, false)
  }

  lemma NextItemOf(c: E.Context, t: L.Item, m: seq<byte>, off: nat)
    requires c.Valid() && c.Inside(t) && At(m, off, c.Chunk(t)) && |c.Chunk(t)| < 0x1_0000_0000
    ensures D.NextItem(m, off) == if NoPlainByte(c, t) then Some((ItemOf(c, t, off), off + |c.Chunk(t)|)) else None
    ensures var item := ItemOf(c, t, off);
            && item.from <= item.end <= |m|
            && (!item.short ==> m[item.from..item.end] == c.Raw(t))
  {
    hide D.NextItem, E.Context.Choice, E.FullChunk, E.Context.Raw, E.Context.Valid;
    if c.Choice(t).Some? {
      ShortItem(m, off);
    } else {
      hide At;
      FullItemExact(m, off, c.Raw(t));
      FullItemPayload(m, off, c.Raw(t));
    }
  }

  lemma LastPart(m: seq<byte>, off: nat, x: seq<byte>, tail: seq<byte>)
    requires off + |x| <= |m| && m[off..off + |x|] == x && |tail| <= |x| && x[|x| - |tail|..] == tail
    ensures m[off + |x| - |tail|..off + |x|] == tail
  {
    assert m[off + |x| - |tail|..off + |x|] == m[off..off + |x|][|x| - |tail|..];
  }

  /** Chunk i of the body stands behind the chunks before it, and its short id behind theirs. */
  lemma {:induction false} ChunkPlace(c: E.Context, ts: seq<L.Item>, m: seq<byte>, start: nat, i: nat)
    requires c.Valid() && c.AllInside(ts) && i < |ts| && At(m, start, c.Body(ts))
    ensures c.AllInside(ts[..i]) && c.AllInside(ts[..i + 1]) && c.Inside(ts[i])
    ensures At(m, start + |c.Body(ts[..i])|, c.Chunk(ts[i]))
    ensures c.Body(ts[..i + 1]) == c.Body(ts[..i]) + c.Chunk(ts[i])
    ensures |c.Body(ts[..i + 1])| <= |c.Body(ts)|
    ensures var k := |c.Sids(ts[..i])|;
            && |c.Sids(ts[..i + 1])| == k + (if c.Choice(ts[i]).Some? then 1 else 0)
            && c.Sids(ts[..i + 1]) <= c.Sids(ts)
            && (c.Choice(ts[i]).Some? ==> k < |c.Sids(ts)| && c.Sids(ts)[k] == c.Choice(ts[i]).value)
    decreases |ts| - i
  {
    hide E.Context.Inside, E.Context.Valid, E.Context.Choice, E.Context.Chunk, At;
    var n := |ts| - 1;
    assert ts[..i + 1] == ts[..i] + [ts[i]];
    c.BodySnoc(ts[..i], ts[i]);
    BodyPrefix(c, ts, i + 1);
    AtPrefix(m, start, c.Body(ts[..i + 1]), c.Body(ts));
    AtSplit(m, start, c.Body(ts[..i]), c.Chunk(ts[i]));
  }

  lemma AtPrefix(m: seq<byte>, off: nat, x: seq<byte>, y: seq<byte>)
    requires At(m, off, y) && x <= y
    ensures At(m, off, x)
  {
    assert y == x + y[|x|..];
    AtSplit(m, off, x, y[|x|..]);
  }

  lemma {:induction false} BodyPrefix(c: E.Context, ts: seq<L.Item>, i: nat)
    requires c.Valid() && c.AllInside(ts) && i <= |ts|
    ensures c.AllInside(ts[..i]) && c.Body(ts[..i]) <= c.Body(ts) && c.Sids(ts[..i]) <= c.Sids(ts)
  {
    hide E.Context.Inside, E.Context.Valid, E.Context.Choice, E.Context.Chunk;
    if i < |ts| {
      var n := |ts| - 1;
      BodyPrefix(c, ts[..n], i);
      assert ts[..n][..i] == ts[..i];
    } else {
      assert ts[..i] == ts;
    }
  }

  // ---------------------------------------------------------------- what the decompressor finds

  /** After i transactions: the items found, the short ids taken, and the bytes of the block they stand for. */
  ghost predicate Rebuilt(
    c: E.Context, src: Source, from: nat, start: nat, ts: seq<L.Item>, i: nat, items: seq<Item>)
    requires c.Valid() && c.AllInside(ts) && src.Valid() && i <= |ts|
  {
    && c.AllInside(ts[..i])
    && D.Items(src.b, start, start + |c.Body(ts)|)
       == D.Found(items, src.b, start + |c.Body(ts[..i])|, start + |c.Body(ts)|)
    && src.Fits(items) && Shorts(items) == |c.Sids(ts[..i])|
    && from <= EndOf(from, ts[..i]) <= |c.block|
    && Flatten(src.Chunks(items)) == c.block[from..EndOf(from, ts[..i])]
  }

  lemma RebuiltStart(c: E.Context, src: Source, from: nat, start: nat, ts: seq<L.Item>)
    requires c.Valid() && c.AllInside(ts) && src.Valid() && from <= |c.block|
    ensures Rebuilt(c, src, from, start, ts, 0, [])
  {
    hide E.Context.Inside, E.Context.Valid, E.Context.Choice, E.Context.Chunk, D.Items, D.Found;
    assert ts[..0] == [];
    D.FoundNothing(src.b, start, start + |c.Body(ts)|);
  }

  /** The item stands for the bytes of the transaction. */
  lemma ChunkOfItem(c: E.Context, src: Source, t: L.Item, item: Item, k: nat)
    requires c.Valid() && c.Inside(t) && src.Valid() && HasContent(c, src.receiver, t)
    requires item.from <= item.end <= |src.b| && item.short == c.Choice(t).Some?
    requires item.short ==> k < |src.sids| && src.sids[k] == c.Choice(t).value
    requires !item.short ==> src.b[item.from..item.end] == c.Raw(t)
    ensures src.ChunkOf(item, k) == c.Raw(t)
  {
    hide E.Context.Choice, E.Context.Valid, E.Context.Inside;
  }

  lemma ChunksSnoc(src: Source, items: seq<Item>, item: Item)
    requires src.Valid() && src.Fits(items) && src.Fits(items + [item])
    ensures (item.short ==> Shorts(items) < |src.sids|) && item.from <= item.end <= |src.b|
    ensures src.Chunks(items + [item]) == src.Chunks(items) + [src.ChunkOf(item, Shorts(items))]
  {
    src.FitsPrefix(items + [item]);
    assert (items + [item])[..|items|] == items;
  }

  lemma ChunkNotEmpty(c: E.Context, t: L.Item)
    requires c.Valid() && c.Inside(t)
    ensures c.Chunk(t) != []
  {
    hide E.Context.Choice, E.Context.Valid, Prefix;
  }

  /** The items and the short ids of one more transaction. */
  lemma ItemsStep(c: E.Context, src: Source, from: nat, start: nat, ts: seq<L.Item>, i: nat, items: seq<Item>)
    requires c.Valid() && c.AllInside(ts) && src.Valid() && i < |ts| && c.Inside(ts[i])
    requires src.sids == c.Sids(ts) && At(src.b, start, c.Body(ts)) && |c.Body(ts)| < 0x1_0000_0000
    requires NoPlainByte(c, ts[i]) && Rebuilt(c, src, from, start, ts, i, items)
    ensures c.AllInside(ts[..i]) && c.AllInside(ts[..i + 1])
    ensures var end := start + |c.Body(ts)|;
            var item := ItemOf(c, ts[i], start + |c.Body(ts[..i])|);
            && D.Items(src.b, start, end) == D.Found(items + [item], src.b, start + |c.Body(ts[..i + 1])|, end)
            && src.Fits(items + [item]) && Shorts(items + [item]) == |c.Sids(ts[..i + 1])|
            && item.from <= item.end <= |src.b| && item.short == c.Choice(ts[i]).Some?
            && (item.short ==> Shorts(items) < |src.sids| && src.sids[Shorts(items)] == c.Choice(ts[i]).value)
            && (!item.short ==> src.b[item.from..item.end] == c.Raw(ts[i]))
  {
    hide At, D.NextItem, D.Items, D.Found, Shorts, Source.Fits, Source.Chunks, Flatten, NoPlainByte,
      E.Context.Inside, E.Context.Valid, E.Context.Choice, E.Context.Body, E.Context.Sids, E.Context.Raw, E.FullChunk;
    var off, end := start + |c.Body(ts[..i])|, start + |c.Body(ts)|;
    ChunkPlace(c, ts, src.b, start, i);
    NextItemOf(c, ts[i], src.b, off);
    ChunkNotEmpty(c, ts[i]);
    D.FoundNext(items, src.b, off, end);
    D.FitsSnoc(src, items, ItemOf(c, ts[i], off));
    ShortsSnoc(items, ItemOf(c, ts[i], off));
  }

  lemma RebuiltStep(c: E.Context, src: Source, from: nat, start: nat, ts: seq<L.Item>, i: nat, items: seq<Item>)
    returns (more: seq<Item>)
    requires c.Valid() && c.AllInside(ts) && src.Valid() && i < |ts| && c.Inside(ts[i])
    requires src.sids == c.Sids(ts) && At(src.b, start, c.Body(ts)) && |c.Body(ts)| < 0x1_0000_0000
    requires NoPlainByte(c, ts[i]) && HasContent(c, src.receiver, ts[i])
    requires ts[i].start == EndOf(from, ts[..i]) && Rebuilt(c, src, from, start, ts, i, items)
    ensures Rebuilt(c, src, from, start, ts, i + 1, more)
  {
    hide At, D.NextItem, D.Items, D.Found, Shorts, Source.Fits, Source.Chunks, Source.ChunkOf, Flatten, NoPlainByte,
      HasContent, ItemOf, E.Context.Valid, E.Context.Choice, E.Context.Body, E.Context.Sids, E.FullChunk;
    ItemsStep(c, src, from, start, ts, i, items);
    var item := ItemOf(c, ts[i], start + |c.Body(ts[..i])|);
    ChunksSnoc(src, items, item);
    ChunkOfItem(c, src, ts[i], item, Shorts(items));
    FlattenSnoc(src.Chunks(items), c.Raw(ts[i]));
    assert ts[..i + 1][i] == ts[i];
    var at := ts[i].start;
    assert c.block[from..at] + c.block[at..E.SpanEnd(ts[i])] == c.block[from..E.SpanEnd(ts[i])];
    more := items + [item];
  }

  /** The hypotheses of the induction over the transactions. */
  ghost predicate Setting(c: E.Context, src: Source, from: nat, start: nat, ts: seq<L.Item>)
    requires c.Valid() && c.AllInside(ts)
  {
    && src.Valid() && from <= |c.block| && src.sids == c.Sids(ts) && At(src.b, start, c.Body(ts)) && |c.Body(ts)| < 0x1_0000_0000
    && (forall k | 0 <= k < |ts| :: ts[k].start == EndOf(from, ts[..k]))
    && (forall k | 0 <= k < |ts| :: c.Inside(ts[k]) && HasContent(c, src.receiver, ts[k]))
  }

  lemma {:induction false} RebuiltAll(c: E.Context, src: Source, from: nat, start: nat, ts: seq<L.Item>, i: nat)
    returns (items: seq<Item>)
    requires c.Valid() && c.AllInside(ts) && i <= |ts| && Setting(c, src, from, start, ts)
    requires forall k | 0 <= k < i :: c.Inside(ts[k]) && NoPlainByte(c, ts[k])
    ensures Rebuilt(c, src, from, start, ts, i, items)
  {
    hide Rebuilt, NoPlainByte, HasContent, E.Context.Valid, E.Context.Inside, E.Context.Body, E.Context.Sids, At;
    if i > 0 {
      items := RebuiltAll(c, src, from, start, ts, i - 1);
      items := RebuiltStep(c, src, from, start, ts, i - 1, items);
    } else {
      items := [];
      RebuiltStart(c, src, from, start, ts);
    }
  }

  /** The walk over the message stops at the first single byte below 128 that was kept in full. */
  lemma PlainByteStops(c: E.Context, src: Source, from: nat, start: nat, ts: seq<L.Item>, i: nat)
    requires c.Valid() && c.AllInside(ts) && i < |ts| && Setting(c, src, from, start, ts) && c.Inside(ts[i])
    requires forall k | 0 <= k < i :: c.Inside(ts[k]) && NoPlainByte(c, ts[k])
    requires !NoPlainByte(c, ts[i])
    ensures D.Items(src.b, start, start + |c.Body(ts)|) == None
  {
    hide At, D.NextItem, D.Items, D.Found, Shorts, Source.Fits, Source.Chunks, Flatten, NoPlainByte, HasContent,
      E.Context.Inside, E.Context.Valid, E.Context.Choice, E.Context.Body, E.Context.Sids, E.Context.Raw, E.FullChunk;
    var items := RebuiltAll(c, src, from, start, ts, i);
    ChunkPlace(c, ts, src.b, start, i);
    NextItemOf(c, ts[i], src.b, start + |c.Body(ts[..i])|);
    ChunkNotEmpty(c, ts[i]);
    D.FoundNext(items, src.b, start + |c.Body(ts[..i])|, start + |c.Body(ts)|);
  }

  // ---------------------------------------------------------------- the frame

  /** The pieces of a compressed message. */
  lemma MessageParts(c: E.Context, l: E.Layout, ts: seq<L.Item>)
    requires c.Valid() && c.AllInside(ts) && l.headerFrom <= l.headerEnd <= l.txnEnd <= |c.block|
    ensures var m := c.Compressed(l, ts);
            var header, body, trailer := E.HeaderOf(c.block, l), c.Body(ts), c.block[l.txnEnd..];
            var headerFrom := D.WORD + |BlockPrefix(header, body, trailer)|;
            var txnFrom := headerFrom + |header| + |TxsPrefix(body)|;
            var sidsAt := D.WORD + |Framed(header, body, trailer)|;
            && At(m, 0, LittleEndian(sidsAt, D.WORD)) && At(m, D.WORD, BlockPrefix(header, body, trailer))
            && At(m, headerFrom, header) && At(m, headerFrom + |header|, TxsPrefix(body))
            && At(m, txnFrom, body) && At(m, txnFrom + |body|, trailer)
            && txnFrom + |body| + |trailer| == sidsAt
            && At(m, sidsAt, LittleEndian(|c.Sids(ts)|, 4)) && At(m, sidsAt + 4, EncodeSids(c.Sids(ts)))
            && |m| == sidsAt + 4 + 4 * |c.Sids(ts)|
  {
    hide E.Context.Body, E.Context.Sids, E.Context.Valid, E.Context.Inside, LittleEndian, EncodeSids, At, Prefix;
    var m := c.Compressed(l, ts);
    var header, body, trailer := E.HeaderOf(c.block, l), c.Body(ts), c.block[l.txnEnd..];
    var word := LittleEndian(D.WORD + |Framed(header, body, trailer)|, D.WORD);
    var frame, count, sids := Framed(header, body, trailer), LittleEndian(|c.Sids(ts)|, 4), EncodeSids(c.Sids(ts));
    AtWhole(m);
    AtSplit(m, 0, word + frame + count, sids);
    AtSplit(m, 0, word + frame, count);
    AtSplit(m, 0, word, frame);
    AtSplit(m, D.WORD, BlockPrefix(header, body, trailer), FramedPayload(header, body, trailer));
    var headerFrom := D.WORD + |BlockPrefix(header, body, trailer)|;
    AtSplit(m, headerFrom, header + TxsPrefix(body) + body, trailer);
    AtSplit(m, headerFrom, header + TxsPrefix(body), body);
    AtSplit(m, headerFrom, header, TxsPrefix(body));
  }

  lemma AtWhole(m: seq<byte>)
    ensures At(m, 0, m)
  {
    assert m[0..|m|] == m;
  }

  lemma AgreesWithPart(b: seq<byte>, lo: nat, hi: nat, m: seq<byte>, off: nat)
    requires lo <= hi <= |b| && At(m, off, b[lo..hi])
    ensures Agree(b, lo, hi, m, off)
  {
  }

  /** A list prefix for 2^32 up to 2^56 starts its length with a zero and is rejected. */
  lemma WidePrefixRejected(m: seq<byte>, off: nat, length: nat)
    requires 0x1_0000_0000 <= length < 0x100_0000_0000_0000
    requires At(m, off, Prefix(length, RLP_LIST_ENCODING_TYPE))
    ensures Consume(m, off) == None
  {
    hide BigEndian, FromBigEndian, At;
    PowerValues();
    var s := BigEndian(length, 8);
    AtFirst(m, off, [192 + 55 + 8] + s);
    AtSplit(m, off, [192 + 55 + 8], s);
    AtFirst(m, off + 1, s);
    BigEndianRoundTrip(length, 8);
    BigEndianLeadingByte(s);
  }

  /** The header reads the same in the message. */
  lemma HeaderReadBack(c: E.Context, l: E.Layout, m: seq<byte>, at: nat)
    requires E.ParseBlock(c.block) == Some(l) && l.headerFrom < l.headerEnd <= |c.block|
    requires At(m, at, E.HeaderOf(c.block, l))
    ensures Consume(m, at).Some?
    ensures Consume(m, at).value.next + Consume(m, at).value.length == at + |E.HeaderOf(c.block, l)|
  {
    hide Consume, At, Agree;
    AgreesWithPart(c.block, l.headerFrom, l.headerEnd, m, at);
    ConsumeLocal(c.block, l.headerFrom, l.headerEnd, m, at, l.headerFrom);
  }

  lemma ParseCompressed(c: E.Context, l: E.Layout, ts: seq<L.Item>)
    requires c.Valid() && c.AllInside(ts) && E.ParseBlock(c.block) == Some(l)
    requires l.headerFrom < l.headerEnd <= l.txnEnd <= |c.block|
    requires |FramedPayload(E.HeaderOf(c.block, l), c.Body(ts), c.block[l.txnEnd..])| < 0x1_0000_0000
    ensures var m := c.Compressed(l, ts);
            var header, body, trailer := E.HeaderOf(c.block, l), c.Body(ts), c.block[l.txnEnd..];
            var headerFrom := D.WORD + |BlockPrefix(header, body, trailer)|;
            var txnFrom := headerFrom + |header| + |TxsPrefix(body)|;
            D.ParseMessage(m) == Some(D.Parts(D.WORD + |Framed(header, body, trailer)|, headerFrom,
                                              headerFrom + |header|, txnFrom, txnFrom + |body|))
  {
    hide E.Context.Body, E.Context.Sids, E.Context.Valid, E.Context.Inside, E.Context.Compressed,
      LittleEndian, FromLittleEndian, EncodeSids, At, Prefix, Consume, E.ParseBlock;
    var m := c.Compressed(l, ts);
    var header, body, trailer := E.HeaderOf(c.block, l), c.Body(ts), c.block[l.txnEnd..];
    var headerFrom := D.WORD + |BlockPrefix(header, body, trailer)|;
    var sidsAt := D.WORD + |Framed(header, body, trailer)|;
    MessageParts(c, l, ts);
    PowerValues();
    LittleEndianRoundTrip(sidsAt, D.WORD);
    AtBytes(m, 0, LittleEndian(sidsAt, D.WORD));
    PrefixReadBackExact(m, D.WORD, |FramedPayload(header, body, trailer)|, RlpList);
    HeaderReadBack(c, l, m, headerFrom);
    PrefixReadBackExact(m, headerFrom + |header|, |body|, RlpList);
  }

  lemma {:induction false} UsedSidsKnown(c: E.Context, r: Receiver, ts: seq<L.Item>)
    requires c.Valid() && c.AllInside(ts)
    requires forall k | 0 <= k < |ts| :: c.Inside(ts[k]) && HasContent(c, r, ts[k])
    ensures r.KnowsAll(c.Sids(ts))
  {
    hide E.Context.Valid, E.Context.Choice, E.Context.Inside;
    if ts != [] {
      var n := |ts| - 1;
      UsedSidsKnown(c, r, ts[..n]);
    }
  }

  lemma {:induction false} SidsFewer(c: E.Context, ts: seq<L.Item>)
    requires c.Valid() && c.AllInside(ts)
    ensures |c.Sids(ts)| <= |c.Body(ts)|
  {
    hide E.Context.Valid, E.Context.Choice, E.Context.Inside, E.Context.Chunk;
    if ts != [] {
      var n := |ts| - 1;
      SidsFewer(c, ts[..n]);
      ChunkNotEmpty(c, ts[n]);
    }
  }

  /** Where the transactions stand in the message, and what the receiver makes of its short id list. */
  lemma Arrived(c: E.Context, r: Receiver, l: E.Layout, ts: seq<L.Item>)
    requires c.Valid() && E.ParseBlock(c.block) == Some(l) && c.Txs(l) == Some(ts)
    requires l.headerFrom < l.headerEnd <= l.txnFrom <= l.txnEnd <= |c.block|
    requires |FramedPayload(E.HeaderOf(c.block, l), c.Body(ts), c.block[l.txnEnd..])| < 0x1_0000_0000
    requires forall k | 0 <= k < |ts| :: c.Inside(ts[k]) && HasContent(c, r, ts[k])
    ensures var m := c.Compressed(l, ts);
            && D.ParseMessage(m).Some?
            && var p := D.ParseMessage(m).value;
            && p.headerFrom <= p.headerEnd <= p.txnFrom <= p.txnEnd <= p.sidsOffset <= |m|
            && p.txnEnd == p.txnFrom + |c.Body(ts)|
            && m[p.headerFrom..p.headerEnd] == E.HeaderOf(c.block, l)
            && m[p.txnEnd..p.sidsOffset] == c.block[l.txnEnd..]
            && ShortIds(m, p.sidsOffset) == Some(c.Sids(ts)) && r.KnowsAll(c.Sids(ts))
            && Setting(c, Source(m, c.Sids(ts), r), l.txnFrom, p.txnFrom, ts)
  {
    hide E.Context.Body, E.Context.Sids, E.Context.Valid, E.Context.Inside, E.Context.Compressed,
      LittleEndian, FromLittleEndian, EncodeSids, At, Prefix, HasContent, Receiver.KnowsAll, D.ParseMessage, ShortIds;
    ParseCompressed(c, l, ts);
    MessageParts(c, l, ts);
    SidsFewer(c, ts);
    UsedSidsKnown(c, r, ts);
    SplitConsecutive(c.block, l.txnFrom, l.txnEnd);
    var m := c.Compressed(l, ts);
    var p := D.ParseMessage(m).value;
    D.ParseMessageShape(m);
    AtBytes(m, p.headerFrom, E.HeaderOf(c.block, l));
    AtBytes(m, p.txnEnd, c.block[l.txnEnd..]);
    SidListReadBack(m, p.sidsOffset, c.Sids(ts));
    LastOfPrefix(l.txnFrom, ts);
  }

  lemma LastOfPrefix(from: nat, ts: seq<L.Item>)
    requires ts != [] ==> ts[0].start == from
    requires forall i | 0 < i < |ts| :: ts[i].start == E.SpanEnd(ts[i - 1])
    ensures forall k | 0 <= k < |ts| :: ts[k].start == EndOf(from, ts[..k])
  {
  }

  // ---------------------------------------------------------------- the round trip

  /** What decompression comes to, once the frame has been read. */
  lemma DecompressArrived(c: E.Context, r: Receiver, l: E.Layout, ts: seq<L.Item>)
    requires c.Valid() && E.ParseBlock(c.block) == Some(l) && c.Txs(l) == Some(ts)
    requires l.headerFrom < l.headerEnd <= l.txnFrom <= l.txnEnd <= |c.block|
    requires |FramedPayload(E.HeaderOf(c.block, l), c.Body(ts), c.block[l.txnEnd..])| < 0x1_0000_0000
    requires forall k | 0 <= k < |ts| :: c.Inside(ts[k]) && HasContent(c, r, ts[k])
    ensures (forall k | 0 <= k < |ts| :: c.Inside(ts[k]) && NoPlainByte(c, ts[k])) ==>
              && EndOf(l.txnFrom, ts) >= l.txnFrom && EndOf(l.txnFrom, ts) <= |c.block|
              && D.Decompress(c.Compressed(l, ts), r)
                 == Block(Framed(E.HeaderOf(c.block, l), c.block[l.txnFrom..EndOf(l.txnFrom, ts)], c.block[l.txnEnd..]))
    ensures !(forall k | 0 <= k < |ts| :: c.Inside(ts[k]) && NoPlainByte(c, ts[k])) ==>
              D.Decompress(c.Compressed(l, ts), r) == Failed
  {
    hide E.Context.Body, E.Context.Sids, E.Context.Valid, E.Context.Inside, E.Context.Compressed, E.Context.Txs,
      HasContent, NoPlainByte, Receiver.KnowsAll, D.ParseMessage, D.Txs, D.Items, ShortIds, Setting, Framed, FramedPayload;
    Arrived(c, r, l, ts);
    var m := c.Compressed(l, ts);
    var p := D.ParseMessage(m).value;
    var src := Source(m, c.Sids(ts), r);
    if forall k | 0 <= k < |ts| :: c.Inside(ts[k]) && NoPlainByte(c, ts[k]) {
      AllRebuilt(c, src, l.txnFrom, p, ts);
    } else {
      var i := FirstPlainByte(c, ts);
      PlainByteStops(c, src, l.txnFrom, p.txnFrom, ts, i);
      D.FailsOnItems(src, p);
    }
  }

  lemma FirstPlainByte(c: E.Context, ts: seq<L.Item>) returns (i: nat)
    requires c.Valid() && c.AllInside(ts)
    requires !(forall k | 0 <= k < |ts| :: c.Inside(ts[k]) && NoPlainByte(c, ts[k]))
    ensures i < |ts| && c.Inside(ts[i]) && !NoPlainByte(c, ts[i])
    ensures forall k | 0 <= k < i :: c.Inside(ts[k]) && NoPlainByte(c, ts[k])
  {
    hide NoPlainByte, E.Context.Valid, E.Context.Inside;
    i := 0;
    while NoPlainByte(c, ts[i])
      invariant i < |ts| && c.Inside(ts[i])
      invariant forall k | 0 <= k < i :: c.Inside(ts[k]) && NoPlainByte(c, ts[k])
      decreases |ts| - i
    {
      i := i + 1;
    }
  }

  lemma AllRebuilt(c: E.Context, src: Source, from: nat, p: D.Parts, ts: seq<L.Item>)
    requires c.Valid() && c.AllInside(ts) && Setting(c, src, from, p.txnFrom, ts)
    requires forall k | 0 <= k < |ts| :: c.Inside(ts[k]) && NoPlainByte(c, ts[k])
    requires p.txnEnd == p.txnFrom + |c.Body(ts)|
    ensures src.Valid() && from <= EndOf(from, ts) <= |c.block|
    ensures D.Layout(src, p).Some? && D.Txs(src, p) == c.block[from..EndOf(from, ts)]
  {
    hide E.Context.Body, E.Context.Sids, E.Context.Valid, E.Context.Inside, NoPlainByte, HasContent,
      D.Items, D.Found, Source.Fits, Source.Chunks, Flatten, Shorts, At, D.Layout, D.Txs;
    var items := RebuiltAll(c, src, from, p.txnFrom, ts, |ts|);
    assert ts[..|ts|] == ts;
    D.LayoutComplete(src, p, items, p.txnEnd);
  }

  /** Prefixes do not get shorter with the length. */
  lemma PrefixGrows(n: nat, m: nat)
    requires n <= m
    ensures |Prefix(n, RLP_LIST_ENCODING_TYPE)| <= |Prefix(m, RLP_LIST_ENCODING_TYPE)|
  {
  }

  /** A frame tells the length of the transactions in it. */
  lemma FramedTxs(header: seq<byte>, x: seq<byte>, y: seq<byte>, trailer: seq<byte>)
    requires Framed(header, x, trailer) == Framed(header, y, trailer)
    ensures |x| == |y|
  {
    hide Prefix;
    if |x| < |y| {
      FrameGrows(header, x, y, trailer);
    } else if |y| < |x| {
      FrameGrows(header, y, x, trailer);
    }
  }

  lemma FrameGrows(header: seq<byte>, x: seq<byte>, y: seq<byte>, trailer: seq<byte>)
    requires |x| < |y|
    ensures |Framed(header, x, trailer)| < |Framed(header, y, trailer)|
  {
    hide Prefix;
    PrefixGrows(|x|, |y|);
    PrefixGrows(|FramedPayload(header, x, trailer)|, |FramedPayload(header, y, trailer)|);
  }

  /**
   The round trip. Decompressing the compression of a block, on a receiver that holds the
   replaced transactions, yields the block exactly when the compressed frame stays below
   four gigabytes, the transactions end where their list ends, and none that was kept in
   full is a single byte below 128.
   */
  lemma EthRoundTripExact(c: E.Context, r: Receiver, l: E.Layout, ts: seq<L.Item>)
    requires c.Valid() && E.ParseBlock(c.block) == Some(l) && c.Txs(l) == Some(ts)
    requires l.headerFrom < l.headerEnd <= l.txnFrom <= l.txnEnd <= |c.block| && E.Regular(c.block, l)
    requires forall k | 0 <= k < |ts| :: c.Inside(ts[k]) && HasContent(c, r, ts[k])
    requires |FramedPayload(E.HeaderOf(c.block, l), c.Body(ts), c.block[l.txnEnd..])| < 0x100_0000_0000_0000
    ensures D.Decompress(c.Compressed(l, ts), r) == Block(c.block)
            <==> && |FramedPayload(E.HeaderOf(c.block, l), c.Body(ts), c.block[l.txnEnd..])| < 0x1_0000_0000
                 && EndOf(l.txnFrom, ts) == l.txnEnd
                 && forall k | 0 <= k < |ts| :: c.Inside(ts[k]) && NoPlainByte(c, ts[k])
  {
    hide E.Context.Body, E.Context.Sids, E.Context.Valid, E.Context.Inside, E.Context.Compressed, E.Context.Txs,
      HasContent, NoPlainByte, Framed, FramedPayload, E.ParseBlock, D.Decompress, EndOf;
    var header, trailer := E.HeaderOf(c.block, l), c.block[l.txnEnd..];
    var payload := FramedPayload(header, c.Body(ts), trailer);
    if |payload| >= 0x1_0000_0000 {
      WideMessageFails(c, r, l, ts);
    } else {
      DecompressArrived(c, r, l, ts);
      var end := EndOf(l.txnFrom, ts);
      if (forall k | 0 <= k < |ts| :: c.Inside(ts[k]) && NoPlainByte(c, ts[k])) && end != l.txnEnd
         && Framed(header, c.block[l.txnFrom..end], trailer) == c.block {
        FramedTxs(header, c.block[l.txnFrom..end], c.block[l.txnFrom..l.txnEnd], trailer);
        assert false;
      }
    }
  }

  lemma WideMessageFails(c: E.Context, r: Receiver, l: E.Layout, ts: seq<L.Item>)
    requires c.Valid() && c.AllInside(ts) && l.headerFrom <= l.headerEnd <= l.txnEnd <= |c.block|
    requires 0x1_0000_0000 <= |FramedPayload(E.HeaderOf(c.block, l), c.Body(ts), c.block[l.txnEnd..])| < 0x100_0000_0000_0000
    ensures D.Decompress(c.Compressed(l, ts), r) == Failed
  {
    hide E.Context.Body, E.Context.Sids, E.Context.Valid, E.Context.Inside, E.Context.Compressed, LittleEndian, EncodeSids,
      FramedPayload, Prefix, At, D.Layout, D.Txs, Consume;
    MessageParts(c, l, ts);
    WidePrefixRejected(c.Compressed(l, ts), D.WORD, |FramedPayload(E.HeaderOf(c.block, l), c.Body(ts), c.block[l.txnEnd..])|);
  }

  lemma ChunkGrowth(c: E.Context, t: L.Item)
    requires c.Valid() && c.Inside(t)
    ensures |c.Chunk(t)| <= 4 * (E.SpanEnd(t) - t.start)
  {
    hide E.Context.Choice, E.Context.Valid;
    var n := E.SpanEnd(t) - t.start;
    assert n < 50 ==> |Prefix(n, RLP_STR_ENCODING_TYPE)| == 1 && |Prefix(2 + n, RLP_LIST_ENCODING_TYPE)| == 1;
  }

  /** Compression takes at most four bytes for one. */
  lemma {:induction false} BodyGrowth(c: E.Context, from: nat, ts: seq<L.Item>)
    requires c.Valid() && c.AllInside(ts)
    requires forall k | 0 <= k < |ts| :: ts[k].start == EndOf(from, ts[..k])
    ensures EndOf(from, ts) >= from && |c.Body(ts)| <= 4 * (EndOf(from, ts) - from)
  {
    hide E.Context.Valid, E.Context.Choice, E.Context.Chunk;
    if ts != [] {
      var n := |ts| - 1;
      forall k | 0 <= k < n
        ensures ts[..n][k].start == EndOf(from, ts[..n][..k])
      {
        assert ts[..n][..k] == ts[..k];
      }
      BodyGrowth(c, from, ts[..n]);
      assert c.Inside(ts[n]);
      ChunkGrowth(c, ts[n]);
    }
  }

  lemma PayloadGrowth(c: E.Context, l: E.Layout, ts: seq<L.Item>)
    requires c.Valid() && c.Txs(l) == Some(ts)
    requires l.headerFrom < l.headerEnd <= l.txnFrom <= l.txnEnd <= |c.block| && E.Regular(c.block, l)
    requires EndOf(l.txnFrom, ts) == l.txnEnd
    ensures |FramedPayload(E.HeaderOf(c.block, l), c.Body(ts), c.block[l.txnEnd..])| <= 4 * |c.block|
  {
    hide E.Context.Body, E.Context.Valid, E.Context.Inside, Prefix, EndOf;
    SplitConsecutive(c.block, l.txnFrom, l.txnEnd);
    LastOfPrefix(l.txnFrom, ts);
    BodyGrowth(c, l.txnFrom, ts);
    FourPrefixes(|c.Body(ts)|, l.txnEnd - l.txnFrom);
  }

  lemma FourPrefixes(n: nat, m: nat)
    requires n <= 4 * m
    ensures |Prefix(n, RLP_LIST_ENCODING_TYPE)| <= 4 * |Prefix(m, RLP_LIST_ENCODING_TYPE)|
  {
  }

  /** When nothing else is in the way, exactly the regular blocks are given back; others get canonical prefixes. */
  lemma EthRegularExact(c: E.Context, r: Receiver, l: E.Layout, ts: seq<L.Item>)
    requires c.Valid() && E.ParseBlock(c.block) == Some(l) && c.Txs(l) == Some(ts)
    requires l.headerFrom < l.headerEnd <= l.txnFrom <= l.txnEnd <= |c.block|
    requires forall k | 0 <= k < |ts| :: c.Inside(ts[k]) && HasContent(c, r, ts[k]) && NoPlainByte(c, ts[k])
    requires EndOf(l.txnFrom, ts) == l.txnEnd
    requires |FramedPayload(E.HeaderOf(c.block, l), c.Body(ts), c.block[l.txnEnd..])| < 0x1_0000_0000
    ensures D.Decompress(c.Compressed(l, ts), r) == Block(c.block) <==> E.Regular(c.block, l)
  {
    hide E.Context.Body, E.Context.Sids, E.Context.Valid, E.Context.Inside, E.Context.Compressed, E.Context.Txs,
      HasContent, NoPlainByte, Framed, FramedPayload, E.ParseBlock, D.Decompress, EndOf;
    DecompressArrived(c, r, l, ts);
  }

  /** A regular block that can be read, of a size that can be at all, is below four gigabytes. */
  lemma RegularBelow(block: seq<byte>, l: E.Layout)
    requires E.ParseBlock(block) == Some(l) && |block| < 0x100_0000_0000_0000
    requires l.headerFrom <= l.headerEnd <= l.txnFrom <= l.txnEnd <= |block| && E.Regular(block, l)
    ensures |FramedPayload(E.HeaderOf(block, l), block[l.txnFrom..l.txnEnd], block[l.txnEnd..])| < 0x1_0000_0000
    ensures |block| < 0x1_0000_0000 + 9
  {
    hide Prefix, Consume, FramedPayload;
    var header, txs, trailer := E.HeaderOf(block, l), block[l.txnFrom..l.txnEnd], block[l.txnEnd..];
    var payload := FramedPayload(header, txs, trailer);
    if |payload| >= 0x1_0000_0000 {
      AtWhole(block);
      AtSplit(block, 0, BlockPrefix(header, txs, trailer), payload);
      WidePrefixRejected(block, 0, |payload|);
    }
  }

  /**
   The round trip on both sides at once: for every regular block whose compressed frame
   stays below four gigabytes, compression has the room for its prefixes, and a receiver
   that holds the replaced transactions and whose buffer has the capacity for the block and
   two words gives the block back, for any pool size and bulk.
   */
  lemma EthRoundTrip(
    c: E.Context, r: Receiver, l: E.Layout, ts: seq<L.Item>, capacity: nat, bulk: nat, poolSize: nat)
    requires c.Valid() && E.ParseBlock(c.block) == Some(l) && c.Txs(l) == Some(ts)
    requires l.headerFrom < l.headerEnd <= l.txnFrom <= l.txnEnd <= |c.block| && E.Regular(c.block, l)
    requires forall k | 0 <= k < |ts| :: c.Inside(ts[k]) && HasContent(c, r, ts[k]) && NoPlainByte(c, ts[k])
    requires EndOf(l.txnFrom, ts) == l.txnEnd
    requires |FramedPayload(E.HeaderOf(c.block, l), c.Body(ts), c.block[l.txnEnd..])| < 0x1_0000_0000
    requires |c.block| < 0x100_0000_0000_0000 && 2 * D.WORD + |c.block| <= capacity && bulk >= 1 && poolSize >= 1
    ensures |c.Body(ts)| < 0x1_0000_0000
    ensures D.DecompressInto(c.Compressed(l, ts), r, capacity, bulk, poolSize) == Block(c.block)
  {
    hide E.Context.Body, E.Context.Sids, E.Context.Valid, E.Context.Inside, E.Context.Compressed, E.Context.Txs,
      HasContent, NoPlainByte, Framed, E.ParseBlock, EndOf, D.HasRoom, D.Decompress, Prefix, E.Regular;
    EthRoundTripExact(c, r, l, ts);
    RegularBelow(c.block, l);
    RoomEnough(c.Compressed(l, ts), r, c.block, l, capacity, bulk, poolSize);
  }

  /** A message that decompresses to a regular block needs no more room than the block and two words. */
  lemma RoomEnough(m: seq<byte>, r: Receiver, block: seq<byte>, l: E.Layout, capacity: nat, bulk: nat, poolSize: nat)
    requires D.Decompress(m, r) == Block(block) && bulk >= 1 && poolSize >= 1
    requires |block| < 0x1_0000_0000 + 9 && 2 * D.WORD + |block| <= capacity
    ensures D.HasRoom(m, r, capacity, bulk, poolSize)
  {
    hide Prefix, D.ParseMessage, ShortIds, D.Layout, D.Txs, Receiver.KnowsAll, D.HasRoom;
    D.ParseMessageShape(m);
    var p := D.ParseMessage(m).value;
    var txs := D.Txs(Source(m, ShortIds(m, p.sidsOffset).value, r), p);
    FrameSize(m[p.headerFrom..p.headerEnd], txs, m[p.txnEnd..p.sidsOffset]);
    D.CapacitySuffices(m, r, capacity, bulk, poolSize);
  }

  lemma FrameSize(header: seq<byte>, txs: seq<byte>, trailer: seq<byte>)
    ensures |Framed(header, txs, trailer)| >= 2 + |header| + |txs|
    ensures |txs| >= 0x1_0000_0000 ==> |Framed(header, txs, trailer)| >= 0x1_0000_0000 + 18
  {
  }

  /** Blocks below one gigabyte have such a frame, whatever is replaced. */
  lemma SmallBlocks(c: E.Context, l: E.Layout, ts: seq<L.Item>)
    requires c.Valid() && c.Txs(l) == Some(ts)
    requires l.headerFrom < l.headerEnd <= l.txnFrom <= l.txnEnd <= |c.block| && E.Regular(c.block, l)
    requires EndOf(l.txnFrom, ts) == l.txnEnd && |c.block| < 0x4000_0000
    ensures |FramedPayload(E.HeaderOf(c.block, l), c.Body(ts), c.block[l.txnEnd..])| < 0x1_0000_0000
  {
    hide FramedPayload, E.Context.Body, E.Regular, EndOf, E.Context.Txs;
    PayloadGrowth(c, l, ts);
  }
}
