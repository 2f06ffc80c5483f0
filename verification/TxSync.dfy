/**
 The wire format by which one transaction service tells another all it holds: per
 transaction the hash, the contents, room for an expiration date, the short ids, and room
 for a flag for each.
 */
module TxSync {
  import opened Bytes
  import opened Wrappers
  import opened Buffers
  import opened ShortIdLists
  import opened ContentMaps
  import opened ServiceState
  import opened ServiceIndex
  import opened ServiceMessages
  import opened TransactionServices
  import PoolTracking

  const HEADER_LENGTH := 20
  const NETWORK_NUM_LEN := 4
  const EXPIRATION_DATE_LEN := 4
  const CONTENT_LEN := 4
  const SHORT_IDS_COUNT_LEN := 2
  const SHORT_ID_LEN := 4
  const TRANSACTION_FLAG_LEN := 2

  /** A transaction as it is met: its contents, and its short ids in the order of their set. */
  datatype TxEntry = TxEntry(hash: Sha256, content: seq<byte>, sids: seq<ShortId>)

  /** The entries are the transactions with contents, each met once, and their short ids. */
  ghost predicate Lists(c: Containers, es: seq<TxEntry>) {
    && (forall i, j | 0 <= i < j < |es| :: es[i].hash != es[j].hash)
    && (forall e | e in es :: EntryOf(c, e))
    && (forall h | h in c.contents.entries :: exists i | 0 <= i < |es| :: es[i].hash == h)
  }

  ghost predicate EntryOf(c: Containers, e: TxEntry) {
    && e.hash in c.contents.entries && e.content == c.contents.entries[e.hash]
    && (if e.hash in c.hashToSids then Enumerates(e.sids, c.hashToSids[e.hash]) else e.sids == [])
  }

  // ---------------------------------------------------------------- writing

  /** The contents, unless they are left out, behind their 32-bit length. */
  function EncodeContent(content: seq<byte>, syncContent: bool): seq<byte> {
    var len := if syncContent then |content| % 0x1_0000_0000 else 0;
    LittleEndian(len, CONTENT_LEN) + content[..len]
  }

  /** All short ids, behind a 16-bit count that says for how many there are flags. */
  function EncodeShortIds(sids: seq<ShortId>): seq<byte> {
    var count := |sids| % 0x1_0000;
    LittleEndian(count, SHORT_IDS_COUNT_LEN) + EncodeSids(sids) + Zeros(count * TRANSACTION_FLAG_LEN)
  }

  function EncodeTx(e: TxEntry, syncContent: bool): seq<byte> {
    e.hash + EncodeContent(e.content, syncContent) + Zeros(EXPIRATION_DATE_LEN) + EncodeShortIds(e.sids)
  }

  function EncodeTxs(es: seq<TxEntry>, syncContent: bool): seq<byte>
    decreases |es|
  {
    if es == [] then [] else EncodeTxs(es[..|es| - 1], syncContent) + EncodeTx(es[|es| - 1], syncContent)
  }

  function SyncBuffer(es: seq<TxEntry>, syncContent: bool): seq<byte> {
    LittleEndian(|es| % 0x1_0000_0000, TX_COUNT_LEN) + EncodeTxs(es, syncContent)
  }

  // ---------------------------------------------------------------- reading

  /** After some transactions: the containers, the reply, and where to go on. Or where an error stopped it. */
  datatype Synced = Synced(c: Containers, reply: seq<byte>, next: nat) | Stopped(c: Containers)

  /** The short ids one after the other, each unless it is known. */
  function AssignedAll(c: Containers, h: Sha256, sids: seq<ShortId>, now: real): (r: Containers)
    requires c.Valid()
    ensures r.Valid()
    decreases |sids|
  {
    if sids == [] then c
    else
      var d := AssignedAll(c, h, sids[..|sids| - 1], now);
      var last := sids[|sids| - 1];
      if last in d.sidToHash then d else Assigned(d, h, last, now)
  }

  function Reply(h: Sha256, len: nat, count: nat, sids: seq<byte>, flags: seq<byte>): seq<byte> {
    h + LittleEndian(len, CONTENT_LEN) + LittleEndian(count, 4) + sids + flags
  }

  /**
   One transaction. A read outside the message stops it, and so does copying the flags
   when the message ends in front of them, be there any or not.
   */
  function SyncTx(b: seq<byte>, off: nat, c: Containers, now: real): Synced
    requires c.Valid()
  {
    var contentAt := off + SHA256_LEN + CONTENT_LEN;
    if contentAt > |b| then Stopped(c)
    else
      var h: Sha256 := b[off..off + SHA256_LEN];
      var len := FromLittleEndian(b[off + SHA256_LEN..contentAt]);
      if len > 0 && contentAt + len > |b| then Stopped(c)
      else
        var d := if len > 0 then WithContents(c, h, b[contentAt..contentAt + len]) else c;
        var countAt := contentAt + len + EXPIRATION_DATE_LEN;
        if countAt + SHORT_IDS_COUNT_LEN > |b| then Stopped(d)
        else SyncSids(b, countAt, d, h, len, now)
  }

  function SyncSids(b: seq<byte>, countAt: nat, d: Containers, h: Sha256, len: nat, now: real): Synced
    requires d.Valid() && countAt + SHORT_IDS_COUNT_LEN <= |b|
  {
    var count := FromLittleEndian(b[countAt..countAt + SHORT_IDS_COUNT_LEN]);
    var sidsAt := countAt + SHORT_IDS_COUNT_LEN;
    var flagsAt := sidsAt + count * SHORT_ID_LEN;
    if flagsAt > |b| then
      Stopped(AssignedAll(d, h, DecodeSids(b, sidsAt, (|b| - sidsAt) / SHORT_ID_LEN), now))
    else
      var e := AssignedAll(d, h, DecodeSids(b, sidsAt, count), now);
      var next := flagsAt + count * TRANSACTION_FLAG_LEN;
      if flagsAt == |b| || next > |b| then Stopped(e)
      else Synced(e, Reply(h, len, count, b[sidsAt..flagsAt], b[flagsAt..next]), next)
  }

  /** The first n transactions from an offset on. */
  function SyncTxs(b: seq<byte>, off: nat, n: nat, c: Containers, now: real): (r: Synced)
    requires c.Valid()
    ensures r.c.Valid()
  {
    if n == 0 then Synced(c, [], off)
    else match SyncTxs(b, off, n - 1, c, now)
      case Stopped(d) => Stopped(d)
      case Synced(d, reply, next) =>
        match SyncTx(b, next, d, now)
        case Stopped(e) => Stopped(e)
        case Synced(e, more, end) => Synced(e, reply + more, end)
  }

  /** A sync message: the header, the number of transactions, and the transactions. */
  function SyncMessage(b: seq<byte>, c: Containers, now: real): (r: Synced)
    requires c.Valid()
    ensures r.c.Valid()
  {
    var at := HEADER_LENGTH + NETWORK_NUM_LEN;
    if at + TX_COUNT_LEN > |b| then Stopped(c)
    else
      var n := FromLittleEndian(b[at..at + TX_COUNT_LEN]);
      match SyncTxs(b, at + TX_COUNT_LEN, n, c, now)
      case Stopped(d) => Stopped(d)
      case Synced(d, reply, next) => Synced(d, LittleEndian(n, TX_COUNT_LEN) + reply, next)
  }

  // ---------------------------------------------------------------- reading what was written

  /** Contents that are there and fit 32 bits, and short ids that fit 16. */
  predicate Encodable(e: TxEntry) {
    0 < |e.content| < 0x1_0000_0000 && |e.sids| < 0x1_0000
  }

  function SentLength(e: TxEntry, syncContent: bool): nat {
    if syncContent then |e.content| else 0
  }

  /** What a transaction makes of the receiver. */
  function Applied(c: Containers, e: TxEntry, syncContent: bool, now: real): (r: Containers)
    requires c.Valid()
    ensures r.Valid()
  {
    AssignedAll(if syncContent then WithContents(c, e.hash, e.content) else c, e.hash, e.sids, now)
  }

  function ReplyTo(e: TxEntry, syncContent: bool): seq<byte> {
    Reply(e.hash, SentLength(e, syncContent), |e.sids|, EncodeSids(e.sids), Zeros(|e.sids| * TRANSACTION_FLAG_LEN))
  }

  lemma UintReadBack(b: seq<byte>, off: nat, v: nat, width: nat)
    requires v < Pow256(width) && At(b, off, LittleEndian(v, width))
    ensures off + width <= |b| && FromLittleEndian(b[off..off + width]) == v
  {
    LittleEndianRoundTrip(v, width);
  }

  /** The tail of an encoded transaction: count, short ids, flags. */
  lemma SidsReadBack(b: seq<byte>, countAt: nat, e: TxEntry, d: Containers, len: nat, now: real)
    requires d.Valid() && Encodable(e) && At(b, countAt, EncodeShortIds(e.sids))
    ensures countAt + SHORT_IDS_COUNT_LEN <= |b|
    ensures var next := countAt + |EncodeShortIds(e.sids)|;
            var c := AssignedAll(d, e.hash, e.sids, now);
            SyncSids(b, countAt, d, e.hash, len, now) ==
            if e.sids == [] && next == |b| then Stopped(c)
            else Synced(c, Reply(e.hash, len, |e.sids|, EncodeSids(e.sids), Zeros(|e.sids| * TRANSACTION_FLAG_LEN)), next)
  {
    hide LittleEndian, FromLittleEndian, EncodeSids, At, AssignedAll, DecodeSids;
    PowerValues();
    var count, sids, flags := LittleEndian(|e.sids|, 2), EncodeSids(e.sids), Zeros(|e.sids| * TRANSACTION_FLAG_LEN);
    AtSplit(b, countAt, count + sids, flags);
    AtSplit(b, countAt, count, sids);
    UintReadBack(b, countAt, |e.sids|, 2);
    DecodeEncodedSids(b, countAt + 2, e.sids);
    AtBytes(b, countAt + 2, sids);
    AtBytes(b, countAt + 2 + |sids|, flags);
  }

  lemma TxParts(b: seq<byte>, off: nat, e: TxEntry, syncContent: bool)
    requires Encodable(e) && At(b, off, EncodeTx(e, syncContent))
    ensures var len := SentLength(e, syncContent);
            var contentAt := off + SHA256_LEN + CONTENT_LEN;
            var countAt := contentAt + len + EXPIRATION_DATE_LEN;
            && At(b, off, e.hash) && At(b, off + SHA256_LEN, LittleEndian(len, CONTENT_LEN))
            && At(b, contentAt, e.content[..len]) && At(b, countAt, EncodeShortIds(e.sids))
            && |EncodeTx(e, syncContent)| == countAt - off + |EncodeShortIds(e.sids)|
  {
    hide LittleEndian, EncodeShortIds, At;
    var len := SentLength(e, syncContent);
    var word := LittleEndian(len, CONTENT_LEN);
    var contents := e.content[..len];
    var zeros, tail := Zeros(EXPIRATION_DATE_LEN), EncodeShortIds(e.sids);
    assert EncodeContent(e.content, syncContent) == word + contents;
    assert EncodeTx(e, syncContent) == e.hash + (word + contents) + zeros + tail;
    AtSplit(b, off, e.hash + (word + contents) + zeros, tail);
    AtSplit(b, off, e.hash + (word + contents), zeros);
    AtSplit(b, off, e.hash, word + contents);
    AtSplit(b, off + SHA256_LEN, word, contents);
  }

  /** An encoded transaction is read back, except that without short ids a byte must follow. */
  lemma TxReadBackExact(b: seq<byte>, off: nat, e: TxEntry, syncContent: bool, c: Containers, now: real)
    requires c.Valid() && Encodable(e) && At(b, off, EncodeTx(e, syncContent))
    ensures var next := off + |EncodeTx(e, syncContent)|;
            SyncTx(b, off, c, now) ==
            if e.sids == [] && next == |b| then Stopped(Applied(c, e, syncContent, now))
            else Synced(Applied(c, e, syncContent, now), ReplyTo(e, syncContent), next)
  {
    hide LittleEndian, FromLittleEndian, EncodeShortIds, EncodeTx, At, AssignedAll, WithContents, SyncSids;
    PowerValues();
    var len := SentLength(e, syncContent);
    TxParts(b, off, e, syncContent);
    AtBytes(b, off, e.hash);
    UintReadBack(b, off + SHA256_LEN, len, CONTENT_LEN);
    AtBytes(b, off + SHA256_LEN + CONTENT_LEN, e.content[..len]);
    assert e.content[..|e.content|] == e.content;
    var d := if syncContent then WithContents(c, e.hash, e.content) else c;
    var countAt := off + SHA256_LEN + CONTENT_LEN + len + EXPIRATION_DATE_LEN;
    SidsReadBack(b, countAt, e, d, len, now);
  }

  function AppliedAll(c: Containers, es: seq<TxEntry>, syncContent: bool, now: real): (r: Containers)
    requires c.Valid()
    ensures r.Valid()
    decreases |es|
  {
    if es == [] then c else Applied(AppliedAll(c, es[..|es| - 1], syncContent, now), es[|es| - 1], syncContent, now)
  }

  function ReplyToAll(es: seq<TxEntry>, syncContent: bool): seq<byte>
    decreases |es|
  {
    if es == [] then [] else ReplyToAll(es[..|es| - 1], syncContent) + ReplyTo(es[|es| - 1], syncContent)
  }

  /** The last transaction has no short ids and nothing follows it. */
  predicate EndsBare(b: seq<byte>, next: nat, es: seq<TxEntry>) {
    es != [] && es[|es| - 1].sids == [] && next == |b|
  }

  lemma EncodeTxNotEmpty(e: TxEntry, syncContent: bool)
    ensures |EncodeTx(e, syncContent)| > 0
  {
    hide EncodeContent, EncodeShortIds;
  }

  lemma {:induction false} TxsReadBackExact(b: seq<byte>, off: nat, es: seq<TxEntry>, syncContent: bool, c: Containers, now: real)
    requires c.Valid() && (forall e | e in es :: Encodable(e)) && At(b, off, EncodeTxs(es, syncContent))
    ensures var next := off + |EncodeTxs(es, syncContent)|;
            SyncTxs(b, off, |es|, c, now) ==
            if EndsBare(b, next, es) then Stopped(AppliedAll(c, es, syncContent, now))
            else Synced(AppliedAll(c, es, syncContent, now), ReplyToAll(es, syncContent), next)
    decreases |es|
  {
    hide Encodable, EncodeTx, SyncTx, Applied, ReplyTo, At;
    if es != [] {
      var n := |es| - 1;
      AtSplit(b, off, EncodeTxs(es[..n], syncContent), EncodeTx(es[n], syncContent));
      TxsReadBackExact(b, off, es[..n], syncContent, c, now);
      EncodeTxNotEmpty(es[n], syncContent);
      var next := off + |EncodeTxs(es[..n], syncContent)|;
      AtBytes(b, next, EncodeTx(es[n], syncContent));
      TxReadBackExact(b, next, es[n], syncContent, AppliedAll(c, es[..n], syncContent, now), now);
    }
  }

  // ---------------------------------------------------------------- replication

  ghost function HashesOf(es: seq<TxEntry>): set<Sha256> {
    set e | e in es :: e.hash
  }

  ghost function SidsOf(es: seq<TxEntry>): set<ShortId> {
    set e, s | e in es && s in e.sids :: s
  }

  lemma MoreEntries(es: seq<TxEntry>)
    requires es != []
    ensures var n := |es| - 1;
            && HashesOf(es) == HashesOf(es[..n]) + {es[n].hash}
            && SidsOf(es) == SidsOf(es[..n]) + AsSet(es[n].sids)
  {
    var n := |es| - 1;
    assert es == es[..n] + [es[n]];
    assert forall e | e in es :: e in es[..n] || e == es[n];
    assert forall e | e in es[..n] :: e in es;
    forall s | s in SidsOf(es[..n]) + AsSet(es[n].sids)
      ensures s in SidsOf(es)
    {
      var e :| e in es && s in e.sids;
    }
    forall s | s in SidsOf(es)
      ensures s in SidsOf(es[..n]) + AsSet(es[n].sids)
    {
      var e :| e in es && s in e.sids;
    }
  }

  lemma {:induction false} AssignedAllJoins(w: World, c: Containers, h: Sha256, sids: seq<ShortId>, now: real)
    requires Index(c) && c.Valid() && Agreeing(w, c)
    requires forall s | s in sids :: s != NULL_TX_SID && w.hashOf(s) == h
    ensures Joined(w, c, AssignedAll(c, h, sids, now), {}, AsSet(sids))
    decreases |sids|
  {
    hide Index, Agreeing, Assigned, Joined;
    if sids == [] {
      NothingJoined(w, c);
      assert AsSet(sids) == {};
    } else {
      hide AsSet;
      var n := |sids| - 1;
      assert sids == sids[..n] + [sids[n]];
      AssignedAllJoins(w, c, h, sids[..n], now);
      assert sids[n] in sids;
      var d := AssignedAll(c, h, sids[..n], now);
      JoinedKeeps(w, c, d, {}, AsSet(sids[..n]));
      if sids[n] in d.sidToHash {
        KnownJoin(w, d, sids[n]);
      } else {
        AssignJoin(w, d, sids[n], now);
      }
      JoinedTwice(w, c, d, AssignedAll(c, h, sids, now), {}, AsSet(sids[..n]), {}, {sids[n]});
      SnocSet(sids[..n], sids[n]);
      var none: set<Sha256> := {};
      assert none + none == none;
    }
  }

  lemma KnownJoin(w: World, c: Containers, sid: ShortId)
    requires Index(c) && Agreeing(w, c) && sid in c.sidToHash
    ensures Joined(w, c, c, {}, {sid})
  {
    hide Index, Agreeing;
    assert c.sidToHash.Keys + {sid} == c.sidToHash.Keys;
  }

  lemma AppliedJoins(w: World, c: Containers, e: TxEntry, syncContent: bool, now: real)
    requires Index(c) && c.Valid() && Agreeing(w, c) && e.content == w.contentOf(e.hash)
    requires forall s | s in e.sids :: s != NULL_TX_SID && w.hashOf(s) == e.hash
    ensures Joined(w, c, Applied(c, e, syncContent, now), if syncContent then {e.hash} else {}, AsSet(e.sids))
  {
    hide Index, Agreeing, WithContents, AssignedAll, Joined, AsSet;
    var hashes: set<Sha256> := if syncContent then {e.hash} else {};
    var d := if syncContent then WithContents(c, e.hash, e.content) else c;
    NothingJoined(w, c);
    ContentsJoin(w, c, e.hash);
    JoinedKeeps(w, c, d, hashes, {});
    AssignedAllJoins(w, d, e.hash, e.sids, now);
    JoinedThen(w, c, d, Applied(c, e, syncContent, now), hashes, AsSet(e.sids));
  }

  lemma {:induction false} AppliedAllJoins(w: World, c: Containers, es: seq<TxEntry>, syncContent: bool, now: real)
    requires Index(c) && c.Valid() && Agreeing(w, c)
    requires forall e | e in es :: EntryIn(w, e)
    ensures Joined(w, c, AppliedAll(c, es, syncContent, now), if syncContent then HashesOf(es) else {}, SidsOf(es))
    decreases |es|
  {
    hide Index, Agreeing, Joined, AsSet, Applied;
    if es == [] {
      NothingJoined(w, c);
      assert HashesOf(es) == {} && SidsOf(es) == {};
    } else {
      var n := |es| - 1;
      MoreEntries(es);
      hide HashesOf, SidsOf;
      AppliedAllJoins(w, c, es[..n], syncContent, now);
      var d := AppliedAll(c, es[..n], syncContent, now);
      var before: set<Sha256> := if syncContent then HashesOf(es[..n]) else {};
      JoinedKeeps(w, c, d, before, SidsOf(es[..n]));
      assert EntryIn(w, es[n]);
      AppliedJoins(w, d, es[n], syncContent, now);
      JoinedTwice(w, c, d, AppliedAll(c, es, syncContent, now), before, SidsOf(es[..n]),
                  if syncContent then {es[n].hash} else {}, AsSet(es[n].sids));
      var none: set<Sha256> := {};
      assert none + none == none;
    }
  }

  /** The entry is in a world. */
  ghost predicate EntryIn(w: World, e: TxEntry) {
    e.content == w.contentOf(e.hash) && forall s | s in e.sids :: s != NULL_TX_SID && w.hashOf(s) == e.hash
  }

  /** The world as a service knows it. */
  function WorldOf(c: Containers): World {
    World(h => if h in c.contents.entries then c.contents.entries[h] else [],
          s => if s in c.sidToHash then c.sidToHash[s] else seq(32, _ => 0))
  }

  lemma EntriesIn(c: Containers, es: seq<TxEntry>)
    requires Index(c) && Lists(c, es)
    ensures forall e | e in es :: EntryIn(WorldOf(c), e)
  {
    hide Lists;
    forall e | e in es
      ensures EntryIn(WorldOf(c), e)
    {
      ListsEntries(c, es, e);
      OneEntryIn(c, e);
    }
  }

  lemma OneEntryIn(c: Containers, e: TxEntry)
    requires Index(c) && EntryOf(c, e)
    ensures EntryIn(WorldOf(c), e)
  {
    hide NoneEmpty, Timed, PoolTracking.Tracked;
  }

  /** The short ids of transactions that have contents. */
  function WithKnownContents(c: Containers): map<ShortId, Sha256> {
    map s | s in c.sidToHash && c.HasContents(c.sidToHash[s]) :: c.sidToHash[s]
  }

  function SetsWithKnownContents(c: Containers): map<Sha256, set<ShortId>> {
    map h | h in c.hashToSids && c.HasContents(h) :: c.hashToSids[h]
  }

  lemma EntryFor(c: Containers, es: seq<TxEntry>, h: Sha256) returns (e: TxEntry)
    requires Lists(c, es) && h in c.contents.entries
    ensures e in es && e.hash == h && EntryOf(c, e)
  {
    hide EntryOf;
    var i :| 0 <= i < |es| && es[i].hash == h;
    e := es[i];
  }

  lemma ListsEntries(c: Containers, es: seq<TxEntry>, e: TxEntry)
    requires Lists(c, es) && e in es
    ensures EntryOf(c, e)
  {
    hide EntryOf;
  }

  lemma ListsHashes(c: Containers, es: seq<TxEntry>)
    requires Lists(c, es)
    ensures HashesOf(es) == c.contents.entries.Keys
  {
    hide Lists;
    forall h | h in c.contents.entries
      ensures h in HashesOf(es)
    {
      var e := EntryFor(c, es, h);
    }
    forall h | h in HashesOf(es)
      ensures h in c.contents.entries
    {
      var e :| e in es && e.hash == h;
      ListsEntries(c, es, e);
    }
  }

  lemma IndexSets(c: Containers)
    requires Index(c)
    ensures c.Valid() && Mutual(c.hashToSids, c.sidToHash) && NoneEmpty(c.hashToSids)
  {
  }

  /** The entries cover exactly the short ids that go with contents. */
  lemma ListsSids(c: Containers, es: seq<TxEntry>)
    requires Mutual(c.hashToSids, c.sidToHash) && Lists(c, es)
    ensures SidsOf(es) == WithKnownContents(c).Keys
  {
    hide Lists;
    forall s | s in WithKnownContents(c).Keys
      ensures s in SidsOf(es)
    {
      var e := EntryFor(c, es, c.sidToHash[s]);
      assert s in c.hashToSids[e.hash];
    }
    forall s | s in SidsOf(es)
      ensures s in WithKnownContents(c).Keys
    {
      var e :| e in es && s in e.sids;
      ListsEntries(c, es, e);
    }
  }

  lemma RestrictedMutual(c: Containers)
    requires Mutual(c.hashToSids, c.sidToHash) && NoneEmpty(c.hashToSids)
    ensures Mutual(SetsWithKnownContents(c), WithKnownContents(c)) && NoneEmpty(SetsWithKnownContents(c))
  {
  }

  ghost predicate Empty(c: Containers) {
    Index(c) && c.hashToSids == map[] && c.sidToHash == map[] && c.contents.entries == map[]
  }

  /** The receiver holds what the sender held, as far as it has contents. */
  ghost predicate Replica(a: Containers, b: Containers, syncContent: bool) {
    && Index(b)
    && b.contents.entries == (if syncContent then a.contents.entries else map[])
    && b.sidToHash == WithKnownContents(a) && b.hashToSids == SetsWithKnownContents(a)
  }

  lemma AppliedReplicates(a: Containers, es: seq<TxEntry>, b: Containers, syncContent: bool, now: real)
    requires Index(a) && Lists(a, es) && Empty(b)
    ensures b.Valid() && Replica(a, AppliedAll(b, es, syncContent, now), syncContent)
  {
    hide Index, HashesOf, SidsOf, Lists, EntryIn, AppliedAll, Mutual, NoneEmpty, Agreeing, WorldOf, SetsWithKnownContents,
      WithKnownContents;
    IndexSets(a);
    IndexSets(b);
    EntriesIn(a, es);
    ListsHashes(a, es);
    ListsSids(a, es);
    RestrictedMutual(a);
    EmptyAgrees(WorldOf(a), b);
    AppliedAllJoins(WorldOf(a), b, es, syncContent, now);
    var d := AppliedAll(b, es, syncContent, now);
    IndexSets(d);
    assert {} + a.contents.entries.Keys == a.contents.entries.Keys;
    SameMaps(WorldOf(a), a, d, syncContent);
    SetsDetermined(d.hashToSids, SetsWithKnownContents(a), d.sidToHash);
  }

  lemma EmptyAgrees(w: World, b: Containers)
    requires Empty(b)
    ensures Agreeing(w, b) && b.contents.entries.Keys == {} && b.sidToHash.Keys == {}
  {
  }

  lemma SameMaps(w: World, a: Containers, d: Containers, syncContent: bool)
    requires w == WorldOf(a) && Agreeing(w, d)
    requires d.contents.entries.Keys == (if syncContent then a.contents.entries.Keys else {})
    requires d.sidToHash.Keys == WithKnownContents(a).Keys
    ensures d.contents.entries == if syncContent then a.contents.entries else map[]
    ensures d.sidToHash == WithKnownContents(a)
  {
    assert forall h | h in d.contents.entries :: h in d.contents.entries.Keys;
    assert forall s | s in d.sidToHash :: s in d.sidToHash.Keys;
  }

  /**
   Replication. A sync buffer of a service, in whatever order its maps are met, behind a
   header and in front of whatever follows, makes an empty service a replica. The reply
   gets lost, after everything has been taken over, exactly if the last transaction has
   no short ids and nothing follows.
   */
  lemma SyncReplicates(
    a: Containers, es: seq<TxEntry>, b: Containers, header: seq<byte>, tail: seq<byte>, syncContent: bool, now: real)
    requires Index(a) && Lists(a, es) && |es| < 0x1_0000_0000 && (forall e | e in es :: Encodable(e))
    requires Empty(b) && |header| == HEADER_LENGTH + NETWORK_NUM_LEN
    ensures b.Valid()
    ensures var r := SyncMessage(header + SyncBuffer(es, syncContent) + tail, b, now);
            && Replica(a, r.c, syncContent)
            && (r.Synced? <==> !(tail == [] && es != [] && es[|es| - 1].sids == []))
            && (r.Synced? ==> r.reply == LittleEndian(|es|, TX_COUNT_LEN) + ReplyToAll(es, syncContent))
  {
    IndexValid(b);
    hide Index, Lists, Empty, Replica, SyncBuffer, SyncMessage, AppliedAll, ReplyToAll, Encodable;
    MessageReadBack(es, b, header, tail, syncContent, now);
    AppliedReplicates(a, es, b, syncContent, now);
  }

  /** A service that got one transaction from its node, and no short id, loses the reply to its sync message. */
  lemma NodeTransactionLosesReply(a: Containers, b: Containers, h: Sha256, header: seq<byte>, now: real)
    requires Empty(a) && Empty(b) && a.Valid() && b.Valid() && !a.WasRemoved(h) && |header| == HEADER_LENGTH + NETWORK_NUM_LEN
    ensures var sender := Processed(a, FromNode(h, [7]), now);
            var es := [TxEntry(h, [7], [])];
            Index(sender) && Lists(sender, es) && SyncMessage(header + SyncBuffer(es, true) + [], b, now).Stopped?
  {
    hide SyncBuffer, SyncMessage, Index, Replica;
    EmptyIndex(a);
    BdnAndNodeKeepIndex(a, FromNode(h, [7]), now);
    var sender := Processed(a, FromNode(h, [7]), now);
    var es := [TxEntry(h, [7], [])];
    assert es[0].hash == h;
    SyncReplicates(sender, es, b, header, [], true, now);
  }

  lemma EmptyIndex(c: Containers)
    requires Empty(c)
    ensures Index(c)
  {
  }

  lemma MessageReadBack(
    es: seq<TxEntry>, b: Containers, header: seq<byte>, tail: seq<byte>, syncContent: bool, now: real)
    requires b.Valid() && |es| < 0x1_0000_0000 && (forall e | e in es :: Encodable(e))
    requires |header| == HEADER_LENGTH + NETWORK_NUM_LEN
    ensures var r := SyncMessage(header + SyncBuffer(es, syncContent) + tail, b, now);
            && r.c == AppliedAll(b, es, syncContent, now)
            && (r.Synced? <==> !(tail == [] && es != [] && es[|es| - 1].sids == []))
            && (r.Synced? ==> r.reply == LittleEndian(|es|, TX_COUNT_LEN) + ReplyToAll(es, syncContent))
  {
    hide LittleEndian, FromLittleEndian, EncodeTxs, Encodable, AppliedAll, SyncTxs, ReplyToAll, At;
    PowerValues();
    var m := header + SyncBuffer(es, syncContent) + tail;
    var at := |header|;
    AtInside(header, SyncBuffer(es, syncContent), tail);
    AtSplit(m, at, LittleEndian(|es|, TX_COUNT_LEN), EncodeTxs(es, syncContent));
    UintReadBack(m, at, |es|, TX_COUNT_LEN);
    TxsReadBackExact(m, at + TX_COUNT_LEN, es, syncContent, b, now);
  }

  lemma AtInside(x: seq<byte>, y: seq<byte>, z: seq<byte>)
    ensures At(x + y + z, |x|, y)
  {
  }
}
