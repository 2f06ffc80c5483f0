/**
 The components together: a block that one service compresses is rebuilt by a service
 that started empty and was synchronized from the first.
 */
module EndToEnd {
  import opened Bytes
  import opened Wrappers
  import opened OrderedMaps
  import opened Bulks
  import opened EthFraming
  import S = ServiceState
  import I = ServiceIndex
  import X = TxSync
  import B = BtcCompression
  import D = BtcDecompression
  import R = BtcRoundTrip
  import L = RlpLists
  import E = EthCompression
  import F = EthDecompression
  import Q = EthRoundTrip

  /** The choice among the short ids of a hash is one of them. */
  ghost predicate Picks(pick: set<ShortId> -> ShortId) {
    forall s: set<ShortId> | s != {} :: pick(s) in s
  }

  /** The assignment times that compression looks up are those of the service. */
  ghost predicate SameTimes(c: S.Containers, assignTime: map<ShortId, real>) {
    forall s: ShortId :: Lookup(c.assignTime, s) == if s in assignTime then Some(assignTime[s]) else None
  }

  function ReceiverOf(c: S.Containers): Receiver {
    Receiver(c.sidToHash, c.contents.entries)
  }

  /** What the index promises is what compression needs for its look-ups. */
  lemma LookupsSafe(c: S.Containers, pick: set<ShortId> -> ShortId, assignTime: map<ShortId, real>, h: Sha256)
    requires I.Index(c) && Picks(pick) && SameTimes(c, assignTime) && h in c.hashToSids
    ensures var sid := pick(c.hashToSids[h]);
            sid in c.hashToSids[h] && sid in assignTime && sid in c.sidToHash && c.sidToHash[sid] == h && sid != NULL_TX_SID
  {
    assert c.hashToSids[h] != {};
    LookupAt(c.assignTime, pick(c.hashToSids[h]));
  }

  /** A replica knows every short id of a hash that the sender has contents for, with those contents. */
  lemma ReplicaKnows(a: S.Containers, b: S.Containers, h: Sha256, sid: ShortId)
    requires I.Index(a) && X.Replica(a, b, true)
    requires sid in a.sidToHash && a.sidToHash[sid] == h && a.HasContents(h)
    ensures ReceiverOf(b).Known(sid) && ReceiverOf(b).Content(sid) == a.contents.entries[h]
  {
  }

  // ---------------------------------------------------------------- Bitcoin

  /** The contents the sender has stored for the transactions it replaces are the bytes in the block. */
  ghost predicate BtcStored(a: S.Containers, c: B.Context, ts: seq<B.TxOffsets>)
    requires c.Valid() && c.AllInside(ts)
  {
    forall i | 0 <= i < |ts| :: BtcStoredAt(a, c, ts[i])
  }

  ghost predicate BtcStoredAt(a: S.Containers, c: B.Context, t: B.TxOffsets)
    requires c.Valid()
  {
    B.Inside(c.block, t)
    && (c.Choice(t).Some? ==> a.HasContents(c.TxId(t)) && t.from <= t.end
                              && a.contents.entries[c.TxId(t)] == c.block[t.from..t.end])
  }

  lemma BtcContextValid(a: S.Containers, c: B.Context)
    requires I.Index(a) && c.hashToSids == a.hashToSids && Picks(c.pick) && SameTimes(a, c.assignTime)
    ensures c.Valid()
  {
    forall h | h in c.hashToSids
      ensures c.pick(c.hashToSids[h]) in c.hashToSids[h] && c.pick(c.hashToSids[h]) in c.assignTime
    {
      LookupsSafe(a, c.pick, c.assignTime, h);
    }
  }

  lemma BtcReplicaHas(a: S.Containers, b: S.Containers, c: B.Context, ts: seq<B.TxOffsets>)
    requires I.Index(a) && X.Replica(a, b, true)
    requires c.hashToSids == a.hashToSids && Picks(c.pick) && SameTimes(a, c.assignTime) && c.Valid()
    requires c.AllInside(ts) && BtcStored(a, c, ts)
    ensures R.ReceiverHas(c, ReceiverOf(b), ts)
  {
    hide I.Index, X.Replica, Receiver.Known, Receiver.Content, B.Context.TxId, B.Inside, Picks, SameTimes;
    forall i | 0 <= i < |ts|
      ensures B.Inside(c.block, ts[i]) && R.HasContent(c, ReceiverOf(b), ts[i])
    {
      var t := ts[i];
      assert BtcStoredAt(a, c, t);
      if c.Choice(t).Some? {
        LookupsSafe(a, c.pick, c.assignTime, c.TxId(t));
        ReplicaKnows(a, b, c.TxId(t), c.Choice(t).value);
      }
    }
  }

  /**
   A service that started empty and took over the sync message of the sender rebuilds the
   Bitcoin block that the sender compressed.
   */
  lemma BtcSyncedRoundTrip(
    a: S.Containers, es: seq<X.TxEntry>, empty: S.Containers, header: seq<byte>, tail: seq<byte>, now: real,
    c: B.Context, hdrEnd: nat, ts: seq<B.TxOffsets>, capacity: nat)
    requires I.Index(a) && X.Lists(a, es) && |es| < 0x1_0000_0000 && (forall e | e in es :: X.Encodable(e))
    requires X.Empty(empty) && empty.Valid() && |header| == X.HEADER_LENGTH + X.NETWORK_NUM_LEN
    requires c.hashToSids == a.hashToSids && Picks(c.pick) && SameTimes(a, c.assignTime)
    requires c.Valid() && |c.block| < 0x1_0000_0000 && |c.block| <= capacity
    requires B.BlockBounds(c.block) == Some((hdrEnd, ts)) && B.EndOf(hdrEnd, ts) == |c.block| && hdrEnd <= |c.block|
    requires c.AllInside(ts) && R.NoMarkerClash(c, ts) && BtcStored(a, c, ts)
    ensures var b := X.SyncMessage(header + X.SyncBuffer(es, true) + tail, empty, now).c;
            D.Decompress(c.Compressed(hdrEnd, ts), ReceiverOf(b), capacity) == Block(c.block)
  {
    hide I.Index, X.Lists, X.Empty, X.Replica, X.SyncMessage, X.SyncBuffer, Picks, SameTimes, B.Context.Valid,
      B.Context.AllInside, R.NoMarkerClash, R.ReceiverHas, BtcStored, D.Decompress, B.Context.Compressed, B.BlockBounds;
    X.SyncReplicates(a, es, empty, header, tail, true, now);
    var b := X.SyncMessage(header + X.SyncBuffer(es, true) + tail, empty, now).c;
    BtcReplicaHas(a, b, c, ts);
    R.BtcRoundTrip(c, ReceiverOf(b), hdrEnd, ts, capacity);
  }

  // ---------------------------------------------------------------- Ethereum

  ghost predicate EthStoredAt(a: S.Containers, c: E.Context, t: L.Item)
    requires c.Valid()
  {
    c.Inside(t) && (c.Choice(t).Some? ==> a.HasContents(c.TxId(t)) && a.contents.entries[c.TxId(t)] == c.Raw(t))
  }

  lemma EthReplicaHas(a: S.Containers, b: S.Containers, c: E.Context, t: L.Item)
    requires I.Index(a) && X.Replica(a, b, true)
    requires c.hashToSids == a.hashToSids && Picks(c.pick) && SameTimes(a, c.assignTime) && c.Valid()
    requires EthStoredAt(a, c, t)
    ensures Q.HasContent(c, ReceiverOf(b), t)
  {
    hide I.Index, X.Replica, Receiver.Known, Receiver.Content, E.Context.TxId, E.Context.Raw, E.Context.Inside, Picks, SameTimes;
    if c.Choice(t).Some? {
      LookupsSafe(a, c.pick, c.assignTime, c.TxId(t));
      ReplicaKnows(a, b, c.TxId(t), c.Choice(t).value);
    }
  }

  /** The same for a regular Ethereum block whose compressed frame stays below four gigabytes. */
  lemma EthSyncedRoundTrip(
    a: S.Containers, es: seq<X.TxEntry>, empty: S.Containers, header: seq<byte>, tail: seq<byte>, now: real,
    c: E.Context, l: E.Layout, ts: seq<L.Item>, capacity: nat, bulk: nat, poolSize: nat)
    requires I.Index(a) && X.Lists(a, es) && |es| < 0x1_0000_0000 && (forall e | e in es :: X.Encodable(e))
    requires X.Empty(empty) && empty.Valid() && |header| == X.HEADER_LENGTH + X.NETWORK_NUM_LEN
    requires c.hashToSids == a.hashToSids && Picks(c.pick) && SameTimes(a, c.assignTime)
    requires c.Valid() && E.ParseBlock(c.block) == Some(l) && c.Txs(l) == Some(ts)
    requires l.headerFrom < l.headerEnd <= l.txnFrom <= l.txnEnd <= |c.block| && E.Regular(c.block, l)
    requires forall k | 0 <= k < |ts| :: EthStoredAt(a, c, ts[k]) && Q.NoPlainByte(c, ts[k])
    requires Q.EndOf(l.txnFrom, ts) == l.txnEnd
    requires |FramedPayload(E.HeaderOf(c.block, l), c.Body(ts), c.block[l.txnEnd..])| < 0x1_0000_0000
    requires |c.block| < 0x100_0000_0000_0000 && 2 * F.WORD + |c.block| <= capacity && bulk >= 1 && poolSize >= 1
    ensures var b := X.SyncMessage(header + X.SyncBuffer(es, true) + tail, empty, now).c;
            F.DecompressInto(c.Compressed(l, ts), ReceiverOf(b), capacity, bulk, poolSize) == Block(c.block)
  {
    hide I.Index, X.Lists, X.Empty, X.Replica, X.SyncMessage, X.SyncBuffer, Picks, SameTimes, E.Context.Valid,
      E.Context.Txs, E.Context.Inside, E.Context.Choice, Q.NoPlainByte, Q.HasContent, F.DecompressInto, E.Context.Compressed,
      E.ParseBlock, E.Regular, Q.EndOf;
    X.SyncReplicates(a, es, empty, header, tail, true, now);
    var b := X.SyncMessage(header + X.SyncBuffer(es, true) + tail, empty, now).c;
    forall k | 0 <= k < |ts|
      ensures c.Inside(ts[k]) && Q.HasContent(c, ReceiverOf(b), ts[k]) && Q.NoPlainByte(c, ts[k])
    {
      assert EthStoredAt(a, c, ts[k]);
      EthReplicaHas(a, b, c, ts[k]);
    }
    Q.EthRoundTrip(c, ReceiverOf(b), l, ts, capacity, bulk, poolSize);
  }
}
