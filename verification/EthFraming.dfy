/**
 The frame of an Ethereum block: a list of the header, the list of transactions and a
 trailer. Both tasks write the transactions first, behind room for the header and the
 two list prefixes, and fill in what is in front of them once the lengths are known.
 */
module EthFraming {
  import opened Bytes
  import opened Wrappers
  import opened Buffers
  import opened Rlp

  function TxsPrefix(txs: seq<byte>): seq<byte> {
    Prefix(|txs|, RLP_LIST_ENCODING_TYPE)
  }

  /** What the outer list holds. */
  function FramedPayload(header: seq<byte>, txs: seq<byte>, trailer: seq<byte>): seq<byte> {
    header + TxsPrefix(txs) + txs + trailer
  }

  function BlockPrefix(header: seq<byte>, txs: seq<byte>, trailer: seq<byte>): seq<byte> {
    Prefix(|FramedPayload(header, txs, trailer)|, RLP_LIST_ENCODING_TYPE)
  }

  function Framed(header: seq<byte>, txs: seq<byte>, trailer: seq<byte>): seq<byte> {
    BlockPrefix(header, txs, trailer) + FramedPayload(header, txs, trailer)
  }

  /** Sixteen bytes hold the two prefixes exactly when the transactions take less than four gigabytes. */
  lemma SlackExact(header: seq<byte>, txs: seq<byte>, trailer: seq<byte>)
    ensures |BlockPrefix(header, txs, trailer)| + |TxsPrefix(txs)| <= 16 <==> |txs| < 0x1_0000_0000
  {
  }

  /** Puts a piece directly in front of `x`, by an operation that shrinks the length to where `x` begins. */
  method PutInFront(out: ByteArray, piece: seq<byte>, at: nat, ghost x: seq<byte>) returns (start: nat)
    requires out.Valid() && |piece| <= at && Placed(out.store, at, x)
    modifies out
    ensures out.Valid() && start == at - |piece| && out.length == at
    ensures At(out.store, start, piece + x)
  {
    start := at - |piece|;
    assert piece[0..|piece|] == piece;
    CopyKeepsPlaced(out.State(), piece, start, |piece|, at, x);
    var _ := out.CopyFromArray(piece, start, 0, |piece|);
    if x == [] {
      assert piece + x == piece;
    } else {
      AtJoin(out.store, start, piece, x);
    }
  }

  /** Puts the header directly in front of `x`; the length is already behind it. */
  method PutHeader(out: ByteArray, header: seq<byte>, at: nat, ghost x: seq<byte>)
    requires out.Valid() && header != [] && |header| <= at <= out.length && At(out.store, at, x)
    modifies out
    ensures out.Valid() && out.length == old(out.length)
    ensures At(out.store, at - |header|, header + x)
  {
    hide At;
    assert header[0..|header|] == header;
    CopyKeepsAt(out.State(), header, at - |header|, |header|, at, x);
    var _, _ := out.CopyFromBuffer(header, at - |header|, 0, |header|);
    AtJoin(out.store, at - |header|, header, x);
  }

  /** Appends the trailer, if there is one, directly behind `x`. */
  method PutTrailer(out: ByteArray, trailer: seq<byte>, end: nat, ghost at: nat, ghost x: seq<byte>)
    requires out.Valid() && At(out.store, at, x) && end == at + |x| && at <= out.length
    modifies out
    ensures out.Valid() && at <= out.length
    ensures At(out.store, at, x + trailer)
  {
    hide At;
    if |trailer| > 0 {
      ResizeKeepsAt(out.State(), end, at, x);
      out.Resize(end);
      assert trailer[0..|trailer|] == trailer;
      CopyKeepsAt(out.State(), trailer, end, |trailer|, at, x);
      var _ := out.AppendView(trailer);
      AtJoin(out.store, at, x, trailer);
    } else {
      assert x + trailer == x;
    }
  }

  /**
   Fills in the frame around transactions that stand at `origin`. The trailer goes behind
   them, the prefix of their list, the header and the outer prefix in front. It needs
   nothing of the store in front and takes no more of it than the pieces are long. Fails
   when the room in front does not suffice; the source's offset wraps around then.
   */
  method BackFill(out: ByteArray, header: seq<byte>, trailer: seq<byte>, ghost txs: seq<byte>, origin: nat, end: nat)
    returns (ok: bool, start: nat, outputOffset: nat)
    requires out.Valid() && header != [] && origin <= end
    requires Placed(out.store, origin, txs) && |txs| == end - origin
    requires |header| + |TxsPrefix(txs)| <= origin
    modifies out
    ensures out.Valid() && ok == (|BlockPrefix(header, txs, trailer)| + |header| + |TxsPrefix(txs)| <= origin)
    ensures ok ==>
              && outputOffset == end + |trailer|
              && start == origin - |BlockPrefix(header, txs, trailer)| - |header| - |TxsPrefix(txs)|
              && At(out.store, start, Framed(header, txs, trailer)) && outputOffset == start + |Framed(header, txs, trailer)|
              && out.length == start + |BlockPrefix(header, txs, trailer)| > 0
  {
    hide Prefix, At;
    var prefix := Prefix(end - origin, RLP_LIST_ENCODING_TYPE);
    var txOrigin := PutInFront(out, prefix, origin, txs);
    PutTrailer(out, trailer, end, txOrigin, prefix + txs);
    outputOffset := end + |trailer|;
    var contentSize := outputOffset - txOrigin + |header|;
    ghost var inner := prefix + txs + trailer;
    PutHeader(out, header, txOrigin, inner);
    assert header + inner == FramedPayload(header, txs, trailer);
    var outer := Prefix(contentSize, RLP_LIST_ENCODING_TYPE);
    if |outer| > txOrigin - |header| {
      return false, 0, 0;
    }
    ok := true;
    start := PutInFront(out, outer, txOrigin - |header|, header + inner);
  }
}
