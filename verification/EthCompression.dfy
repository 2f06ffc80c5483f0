/**
 Ethereum block compression: each transaction becomes a two-element list, of the empty
 string and the empty string for one whose short id is known, and of a one and the
 transaction as a string for the others.
 */
module EthCompression {
  import opened Bytes
  import opened Wrappers
  import opened Buffers
  import opened ShortIdLists
  import opened Rlp
  import opened EthFraming
  import L = RlpLists

  const FULL_TX_INDICATOR: byte := 0x01
  const SHORT_ID_INDICATOR: byte := 0x80
  const RLP_OF_SHORT_TX: byte := 0xc2
  const WORD := 8

  // ---------------------------------------------------------------- the block

  datatype Layout = Layout(headerFrom: nat, headerEnd: nat, txnFrom: nat, txnEnd: nat)

  /** Where the parts of a block stand. None when the source rejects it or reads outside it. */
  function ParseBlock(b: seq<byte>): Option<Layout> {
    match Consume(b, 0)
    case None => None
    case Some(Consumed(_, _, headerFrom)) =>
      match Consume(b, headerFrom)
      case None => None
      case Some(Consumed(headerLen, _, headerAt)) =>
        var prev := Consume(b, headerAt);
        if prev.None? || prev.value.next + 32 > |b| then None
        else match Consume(b, headerAt + headerLen)
          case None => None
          case Some(Consumed(txsLen, _, txnFrom)) =>
            if txnFrom + txsLen > |b| then None
            else Some(Layout(headerFrom, headerAt + headerLen, txnFrom, txnFrom + txsLen))
  }

  lemma ParseBlockShape(b: seq<byte>)
    requires ParseBlock(b).Some?
    ensures var l := ParseBlock(b).value; l.headerFrom < l.headerEnd <= l.txnFrom <= l.txnEnd <= |b|
  {
    ConsumeAdvances(b, Consume(b, 0).value.next);
  }

  function HeaderOf(b: seq<byte>, l: Layout): seq<byte>
    requires l.headerFrom <= l.headerEnd <= |b|
  {
    b[l.headerFrom..l.headerEnd]
  }

  /** The block is the canonical frame around its parts. */
  predicate Regular(b: seq<byte>, l: Layout)
    requires l.headerFrom <= l.headerEnd <= l.txnFrom <= l.txnEnd <= |b|
  {
    b == Framed(HeaderOf(b, l), b[l.txnFrom..l.txnEnd], b[l.txnEnd..])
  }

  lemma FramedParts(b: seq<byte>, l: Layout)
    requires l.headerFrom <= l.headerEnd <= l.txnFrom <= l.txnEnd <= |b|
    requires b[..l.headerFrom] == Prefix(|b| - l.headerFrom, RLP_LIST_ENCODING_TYPE)
    requires b[l.headerEnd..l.txnFrom] == Prefix(l.txnEnd - l.txnFrom, RLP_LIST_ENCODING_TYPE)
    ensures Regular(b, l)
  {
    hide Prefix;
    var payload := FramedPayload(HeaderOf(b, l), b[l.txnFrom..l.txnEnd], b[l.txnEnd..]);
    assert payload == b[l.headerFrom..];
    assert b == b[..l.headerFrom] + b[l.headerFrom..];
  }

  /** A list that spans the block and holds a list of transactions has the canonical prefixes. */
  lemma RegularBlock(b: seq<byte>)
    requires ParseBlock(b).Some? && |b| < 0x1_0000_0000
    requires var c := Consume(b, 0).value; c.kind == RlpList && c.next + c.length == |b|
    requires Consume(b, ParseBlock(b).value.headerEnd).value.kind == RlpList
    ensures var l := ParseBlock(b).value;
            l.headerFrom < l.headerEnd <= l.txnFrom <= l.txnEnd <= |b| && Regular(b, l)
  {
    hide Consume, Prefix;
    var l := ParseBlock(b).value;
    ParseBlockShape(b);
    PrefixWrittenBack(b, 0);
    PrefixWrittenBack(b, l.headerEnd);
    assert b[0..l.headerFrom] == b[..l.headerFrom];
    FramedParts(b, l);
  }

  /** The outer item is a list that spans the block, and the transactions are a list. */
  predicate ListsSpan(b: seq<byte>, l: Layout) {
    && Consume(b, 0).Some? && Consume(b, 0).value.kind == RlpList
    && Consume(b, 0).value.next + Consume(b, 0).value.length == |b|
    && Consume(b, l.headerEnd).Some? && Consume(b, l.headerEnd).value.kind == RlpList
  }

  lemma {:induction false} RegularListsRead(b: seq<byte>, l: Layout)
    requires ParseBlock(b) == Some(l) && |b| < 0x1_0000_0000
    requires l.headerFrom <= l.headerEnd <= l.txnFrom <= l.txnEnd <= |b| && Regular(b, l)
    ensures ListsSpan(b, l)
  {
    hide Consume, Prefix;
    var header, txs, trailer := HeaderOf(b, l), b[l.txnFrom..l.txnEnd], b[l.txnEnd..];
    var outer, inner := BlockPrefix(header, txs, trailer), TxsPrefix(txs);
    assert b == outer + (header + (inner + (txs + trailer)));
    assert b[0..|b|] == b;
    AtSplit(b, 0, outer, header + (inner + (txs + trailer)));
    PrefixReadBackExact(b, 0, |FramedPayload(header, txs, trailer)|, RlpList);
    AtSplit(b, |outer|, header, inner + (txs + trailer));
    AtSplit(b, |outer| + |header|, inner, txs + trailer);
    PrefixReadBackExact(b, |outer| + |header|, |txs|, RlpList);
  }

  /**
   A block below four gigabytes is the canonical frame around its parts exactly if its
   outer item is a list that spans it and its transactions are a list.
   */
  lemma RegularExact(b: seq<byte>)
    requires ParseBlock(b).Some? && |b| < 0x1_0000_0000
    ensures var l := ParseBlock(b).value; l.headerFrom < l.headerEnd <= l.txnFrom <= l.txnEnd <= |b|
    ensures Regular(b, ParseBlock(b).value) <==> ListsSpan(b, ParseBlock(b).value)
  {
    hide Consume, Regular;
    var l := ParseBlock(b).value;
    ParseBlockShape(b);
    if Regular(b, l) {
      RegularListsRead(b, l);
    } else if ListsSpan(b, l) {
      RegularBlock(b);
    }
  }

  // ---------------------------------------------------------------- what compression writes

  function SpanEnd(t: L.Item): nat {
    t.start + t.valOffset + t.length
  }

  datatype Context = Context(
    block: seq<byte>,
    hashToSids: map<Sha256, set<ShortId>>,
    assignTime: map<ShortId, real>,
    pick: set<ShortId> -> ShortId,
    txHash: seq<byte> -> Sha256,
    enabled: bool,
    maxTimestamp: real)
  {
    ghost predicate Valid() {
      forall h | h in hashToSids :: pick(hashToSids[h]) in hashToSids[h] && pick(hashToSids[h]) in assignTime
    }

    /** The transaction lies in the block and takes at least a byte. */
    predicate Inside(t: L.Item) {
      t.start < SpanEnd(t) <= |block|
    }

    ghost predicate AllInside(ts: seq<L.Item>) {
      forall i | 0 <= i < |ts| :: Inside(ts[i])
    }

    function Raw(t: L.Item): (r: seq<byte>)
      requires Inside(t)
      ensures r != []
    {
      block[t.start..SpanEnd(t)]
    }

    /** A list is hashed as a whole; of a string only the payload. */
    function TxId(t: L.Item): Sha256
      requires Inside(t)
    {
      if t.kind == RlpList then txHash(Raw(t)) else txHash(block[t.start + t.valOffset..SpanEnd(t)])
    }

    function Choice(t: L.Item): Option<ShortId>
      requires Valid() && Inside(t)
    {
      var sha := TxId(t);
      if sha !in hashToSids || !enabled || assignTime[pick(hashToSids[sha])] > maxTimestamp then None
      else Some(pick(hashToSids[sha]))
    }

    function Chunk(t: L.Item): seq<byte>
      requires Valid() && Inside(t)
    {
      if Choice(t).Some? then ShortChunk() else FullChunk(Raw(t))
    }

    function Body(ts: seq<L.Item>): seq<byte>
      requires Valid() && AllInside(ts)
    {
      if ts == [] then [] else Body(ts[..|ts| - 1]) + Chunk(ts[|ts| - 1])
    }

    function Sids(ts: seq<L.Item>): seq<ShortId>
      requires Valid() && AllInside(ts)
    {
      if ts == [] then []
      else
        var last := Choice(ts[|ts| - 1]);
        Sids(ts[..|ts| - 1]) + if last.Some? then [last.value] else []
    }

    lemma BodySnoc(ts: seq<L.Item>, t: L.Item)
      requires Valid() && AllInside(ts) && Inside(t)
      ensures AllInside(ts + [t])
      ensures Body(ts + [t]) == Body(ts) + Chunk(t)
      ensures Sids(ts + [t]) == Sids(ts) + if Choice(t).Some? then [Choice(t).value] else []
    {
      hide Chunk, Choice, Inside, Valid;
      assert (ts + [t])[..|ts|] == ts;
    }

    lemma NothingYet()
      requires Valid()
      ensures AllInside([]) && Body([]) == [] && Sids([]) == []
    {
    }

    /** The transactions of the block. None when one is rejected or not inside the block. */
    ghost function Txs(l: Layout): (r: Option<seq<L.Item>>)
      ensures r.Some? ==> AllInside(r.value)
    {
      var split := L.Split(block, l.txnFrom, l.txnEnd);
      if split.Some? && AllInside(split.value) then split else None
    }

    lemma OutsideFails(l: Layout, ts: seq<L.Item>, t: L.Item, next: nat)
      requires L.Split(block, l.txnFrom, l.txnEnd) == L.Found(ts + [t], block, next, l.txnEnd)
      requires !Inside(t)
      ensures Txs(l) == None
    {
      var split := L.Split(block, l.txnFrom, l.txnEnd);
      if split.Some? {
        assert split.value[|ts|] == t;
      }
    }

    /** The message from its length word on. */
    function Compressed(l: Layout, ts: seq<L.Item>): seq<byte>
      requires Valid() && AllInside(ts) && l.headerFrom <= l.headerEnd <= l.txnEnd <= |block|
    {
      var frame := Framed(HeaderOf(block, l), Body(ts), block[l.txnEnd..]);
      LittleEndian(WORD + |frame|, WORD) + frame + LittleEndian(|Sids(ts)|, 4) + EncodeSids(Sids(ts))
    }
  }

  lemma PrefixSizes(header: seq<byte>, txs: seq<byte>, trailer: seq<byte>)
    ensures |BlockPrefix(header, txs, trailer)| <= 9 && |TxsPrefix(txs)| <= 9
  {
  }

  function ShortChunk(): seq<byte> {
    [RLP_OF_SHORT_TX, SHORT_ID_INDICATOR, SHORT_ID_INDICATOR]
  }

  function FullChunk(raw: seq<byte>): seq<byte> {
    var prefix := Prefix(|raw|, RLP_STR_ENCODING_TYPE);
    Prefix(1 + |prefix| + |raw|, RLP_LIST_ENCODING_TYPE) + [FULL_TX_INDICATOR] + prefix + raw
  }

  // ---------------------------------------------------------------- the task

  /** One more piece at the end of what stands at `origin`. */
  method AppendArray(out: ByteArray, piece: seq<byte>, at: nat, ghost origin: nat, ghost x: seq<byte>) returns (end: nat)
    requires out.Valid() && Placed(out.store, origin, x) && at == origin + |x|
    modifies out
    ensures out.Valid() && end == at + |piece| && out.length == end
    ensures At(out.store, origin, x + piece)
  {
    hide At, Placed;
    assert piece[0..|piece|] == piece;
    CopyKeepsPlaced(out.State(), piece, at, |piece|, origin, x);
    end := out.CopyFromArray(piece, at, 0, |piece|);
    PlacedJoin(out.store, origin, x, piece);
  }

  method AppendPrefix(out: ByteArray, piece: seq<byte>, at: nat, ghost origin: nat, ghost x: seq<byte>) returns (end: nat)
    requires out.Valid() && Placed(out.store, origin, x) && at == origin + |x| && out.length <= at
    modifies out
    ensures out.Valid() && end == at + |piece| && out.length == end
    ensures At(out.store, origin, x + piece)
  {
    hide At, Placed;
    PutKeepsPlaced(out.State(), piece, at, origin, x);
    end := out.Put(piece, at);
    PlacedJoin(out.store, origin, x, piece);
  }

  method AppendView(out: ByteArray, src: seq<byte>, from: nat, len: nat, at: nat, ghost origin: nat, ghost x: seq<byte>)
    returns (end: nat)
    requires out.Valid() && At(out.store, origin, x) && at == origin + |x| && out.length == at
    requires len > 0 && from + len <= |src|
    modifies out
    ensures out.Valid() && end == at + len && out.length == end
    ensures At(out.store, origin, x + src[from..from + len])
  {
    hide At;
    CopyElsewhere(out.State(), src, at, from, len, origin, origin + |x|);
    AtStays(out.store, out.State().CopyFromBuffer(src, at, from, len).store, origin, x);
    var ok;
    ok, end := out.CopyFromBuffer(src, at, from, len);
    AtJoin(out.store, origin, x, src[from..from + len]);
  }

  lemma AtStays(s: seq<byte>, s': seq<byte>, off: nat, x: seq<byte>)
    requires At(s, off, x) && |s| <= |s'| && s'[off..off + |x|] == s[off..off + |x|]
    ensures At(s', off, x)
  {
  }

  lemma AtEnd(b: Buffer, off: nat, x: seq<byte>)
    requires b.Valid() && At(b.store, off, x) && b.length == off + |x|
    ensures b.Contents()[off..] == x
  {
  }

  lemma NothingPlaced(store: seq<byte>, off: nat)
    ensures Placed(store, off, [])
  {
  }

  lemma AtPlaced(store: seq<byte>, off: nat, x: seq<byte>)
    requires At(store, off, x)
    ensures Placed(store, off, x)
  {
  }

  class CompressionTask {
    var outputBuffer: ByteArray
    var shortIds: seq<ShortId>
    var startingOffset: nat
    var txnCount: nat

    ghost predicate Valid()
      reads this, outputBuffer
    {
      outputBuffer.Valid()
    }

    constructor (capacity: nat)
      ensures Valid() && fresh(outputBuffer)
    {
      outputBuffer := new ByteArray(capacity);
      shortIds := [];
      startingOffset, txnCount := 0, 0;
    }

    method Init(blockSize: nat, shared: bool)
      requires Valid()
      modifies this, outputBuffer
      ensures Valid() && outputBuffer.length == 0 && shortIds == [] && txnCount == 0
      ensures if shared then fresh(outputBuffer) else outputBuffer == old(outputBuffer)
    {
      if shared {
        outputBuffer := new ByteArray(blockSize);
      } else {
        outputBuffer.Reserve(blockSize);
        outputBuffer.Reset();
      }
      shortIds := [];
      startingOffset, txnCount := 0, 0;
    }

    /** Writes one transaction behind the ones written so far. */
    method Emit(c: Context, t: L.Item, outputOffset: nat, ghost origin: nat, ghost x: seq<byte>) returns (end: nat)
      requires Valid() && c.Valid() && c.Inside(t)
      requires Placed(outputBuffer.store, origin, x) && outputOffset == origin + |x| && outputBuffer.length <= outputOffset
      modifies this`shortIds, outputBuffer
      ensures Valid() && end == outputOffset + |c.Chunk(t)| && outputBuffer.length == end
      ensures At(outputBuffer.store, origin, x + c.Chunk(t))
      ensures shortIds == old(shortIds) + if c.Choice(t).Some? then [c.Choice(t).value] else []
    {
      hide At, Prefix, Context.TxId;
      var sha := c.TxId(t);
      if sha !in c.hashToSids || !c.enabled || c.assignTime[c.pick(c.hashToSids[sha])] > c.maxTimestamp {
        var size := SpanEnd(t) - t.start;
        var prefix := Prefix(size, RLP_STR_ENCODING_TYPE);
        var list := Prefix(1 + |prefix| + size, RLP_LIST_ENCODING_TYPE);
        end := AppendPrefix(outputBuffer, list, outputOffset, origin, x);
        end := AppendArray(outputBuffer, [FULL_TX_INDICATOR], end, origin, x + list);
        end := AppendArray(outputBuffer, prefix, end, origin, x + list + [FULL_TX_INDICATOR]);
        end := AppendView(outputBuffer, c.block, t.start, size, end, origin, x + list + [FULL_TX_INDICATOR] + prefix);
        assert x + list + [FULL_TX_INDICATOR] + prefix + c.Raw(t) == x + (list + [FULL_TX_INDICATOR] + prefix + c.Raw(t));
      } else {
        shortIds := shortIds + [c.pick(c.hashToSids[sha])];
        end := AppendArray(outputBuffer, ShortChunk(), outputOffset, origin, x);
      }
    }

    /** Walks over the transactions and writes each. Fails on one that is rejected or not inside the block. */
    method WriteTxs(c: Context, l: Layout, origin: nat) returns (ok: bool, outputOffset: nat)
      requires Valid() && c.Valid() && outputBuffer.length == 0 && shortIds == []
      modifies this`shortIds, this`txnCount, outputBuffer
      ensures Valid() && ok == c.Txs(l).Some?
      ensures ok ==>
                var ts := c.Txs(l).value;
                && Placed(outputBuffer.store, origin, c.Body(ts)) && outputOffset == origin + |c.Body(ts)|
                && shortIds == c.Sids(ts) && txnCount == old(txnCount) + |ts|
    {
      hide At, Placed, Context.Body, Context.Sids, Consume, Context.Chunk, Context.Choice;
      var txFrom := l.txnFrom;
      outputOffset := origin;
      ghost var ts: seq<L.Item> := [];
      L.FoundNothing(c.block, l.txnFrom, l.txnEnd);
      c.NothingYet();
      NothingPlaced(outputBuffer.store, origin);
      while txFrom < l.txnEnd
        invariant Valid() && c.AllInside(ts)
        invariant L.Split(c.block, l.txnFrom, l.txnEnd) == L.Found(ts, c.block, txFrom, l.txnEnd)
        invariant Placed(outputBuffer.store, origin, c.Body(ts)) && outputOffset == origin + |c.Body(ts)|
        invariant outputBuffer.length <= outputOffset
        invariant shortIds == c.Sids(ts) && txnCount == old(txnCount) + |ts|
        decreases l.txnEnd - txFrom
      {
        var consumed := Consume(c.block, txFrom);
        if consumed.None? {
          return false, 0;
        }
        L.FoundNext(ts, c.block, txFrom, l.txnEnd);
        var t := L.Item(c.block, consumed.value.length, consumed.value.next - txFrom, txFrom, consumed.value.kind);
        var txOffset := consumed.value.next + consumed.value.length;
        if txOffset > |c.block| {
          c.OutsideFails(l, ts, t, txOffset);
          return false, 0;
        }
        c.BodySnoc(ts, t);
        outputOffset := Emit(c, t, outputOffset, origin, c.Body(ts));
        AtPlaced(outputBuffer.store, origin, c.Body(ts) + c.Chunk(t));
        ts := ts + [t];
        txFrom := txOffset;
        txnCount := txnCount + 1;
      }
      assert ts + [] == ts;
      return true, outputOffset;
    }

    /**
     Compresses a block. From `startingOffset` on, the buffer holds the message: length
     word, frame with filled-in prefixes, short ids. The transactions may grow; fails when
     they reach four gigabytes, where the prefixes outgrow the room left for them and the
     source's offset wraps around.
     */
    method Execute(c: Context) returns (ok: bool)
      requires Valid() && c.Valid() && outputBuffer.length == 0 && shortIds == []
      modifies this, outputBuffer
      ensures Valid() && outputBuffer == old(outputBuffer)
      ensures ok <==> && ParseBlock(c.block).Some? && c.Txs(ParseBlock(c.block).value).Some?
                      && |c.Body(c.Txs(ParseBlock(c.block).value).value)| < 0x1_0000_0000
      ensures ok ==>
                var l := ParseBlock(c.block).value;
                var ts := c.Txs(l).value;
                && l.headerFrom <= l.headerEnd <= l.txnEnd <= |c.block|
                && startingOffset <= outputBuffer.length
                && outputBuffer.Contents()[startingOffset..] == c.Compressed(l, ts)
                && shortIds == c.Sids(ts)
    {
      hide At, Placed, Context.Body, Context.Sids, Consume, Context.Txs, Framed, FramedPayload, BlockPrefix, TxsPrefix, ParseBlock, EncodeSids;
      var layout := ParseBlock(c.block);
      if layout.None? {
        return false;
      }
      var l := layout.value;
      ParseBlockShape(c.block);
      var header, trailer := HeaderOf(c.block, l), c.block[l.txnEnd..];
      outputBuffer.Reserve(|c.block| * 11 / 10);
      var outputOffset;
      ok, outputOffset := WriteTxs(c, l, 3 * WORD + |header|);
      if !ok {
        return false;
      }
      ghost var body := c.Body(c.Txs(l).value);
      PrefixSizes(header, body, trailer);
      SlackExact(header, body, trailer);
      var start, end;
      ok, start, end := BackFill(outputBuffer, header, trailer, body, 3 * WORD + |header|, outputOffset);
      if start < WORD {
        return false;
      }
      startingOffset := start - WORD;
      Seal(start, end, Framed(header, body, trailer));
      return true;
    }

    /** Writes the length word in front of the frame and the short ids behind it. */
    method Seal(start: nat, end: nat, ghost frame: seq<byte>)
      requires Valid() && WORD <= start <= outputBuffer.length <= end && startingOffset == start - WORD
      requires At(outputBuffer.store, start, frame) && end == start + |frame|
      modifies outputBuffer
      ensures Valid() && startingOffset <= outputBuffer.length
      ensures outputBuffer.Contents()[startingOffset..] ==
              LittleEndian(WORD + |frame|, WORD) + frame + LittleEndian(|shortIds|, 4) + EncodeSids(shortIds)
    {
      hide At, LittleEndian, EncodeSids, Placed, Buffer.Put;
      var word := LittleEndian(end - startingOffset, WORD);
      PutKeepsAt(outputBuffer.State(), word, startingOffset, start, frame);
      var _ := outputBuffer.Put(word, startingOffset);
      AtJoin(outputBuffer.store, startingOffset, word, frame);
      var count := LittleEndian(|shortIds|, 4);
      PutKeepsAt(outputBuffer.State(), count, end, startingOffset, word + frame);
      var sidsAt := outputBuffer.Put(count, end);
      AtJoin(outputBuffer.store, startingOffset, word + frame, count);
      var sids := EncodeSids(shortIds);
      PutKeepsAt(outputBuffer.State(), sids, sidsAt, startingOffset, word + frame + count);
      outputBuffer.Extend(sids);
      AtJoin(outputBuffer.store, startingOffset, word + frame + count, sids);
      AtEnd(outputBuffer.State(), startingOffset, word + frame + count + sids);
    }
  }
}
