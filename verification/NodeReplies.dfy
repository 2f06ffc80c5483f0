/**
 A node's message of transactions and the reply to it: per transaction whether it was seen
 before, its hash, where it stands in the message, and what the validator said.
 */
module NodeReplies {
  import opened Bytes
  import opened Wrappers
  import opened OrderedMaps
  import opened ContentMaps
  import opened ServiceState
  import opened ServiceMessages

  const SEEN_FLAG_LEN := 1
  const ENTRY_LEN := SHA256_LEN + SEEN_FLAG_LEN + 4 + 4 + 4

  /** A transaction as the message parser finds it. */
  datatype ParsedTx = ParsedTx(hash: Sha256, offset: nat, length: nat)

  /** The message taken apart, and the verdict each transaction gets if it is validated. */
  datatype NodeMessage = NodeMessage(bytes: seq<byte>, txs: seq<ParsedTx>, validate: bool, verdicts: seq<Verdict>) {
    predicate Valid() {
      |verdicts| == |txs| && forall i | 0 <= i < |txs| :: txs[i].offset + txs[i].length <= |bytes|
    }

    function ContentOf(i: nat): seq<byte>
      requires Valid() && i < |txs|
    {
      bytes[txs[i].offset..txs[i].offset + txs[i].length]
    }

    /** The first n transactions as messages of their own. */
    function Messages(n: nat, now: real): (r: seq<(Message, real)>)
      requires Valid() && n <= |txs|
      ensures |r| == n
    {
      seq(n, i requires 0 <= i < n => (FromNode(txs[i].hash, ContentOf(i)), now))
    }
  }

  /** The containers when transaction n is met. */
  function After(c: Containers, m: NodeMessage, n: nat, now: real): (r: Containers)
    requires c.Valid() && m.Valid() && n <= |m.txs|
    ensures r.Valid()
  {
    RunMessages(c, m.Messages(n, now))
  }

  lemma AfterNext(c: Containers, m: NodeMessage, n: nat, now: real)
    requires c.Valid() && m.Valid() && n < |m.txs|
    ensures After(c, m, 0, now) == c
    ensures After(c, m, n + 1, now) == ProcessedNode(After(c, m, n, now), FromNode(m.txs[n].hash, m.ContentOf(n)))
  {
    hide ProcessedPeer, ProcessedBdn, ProcessedNode;
    assert m.Messages(n + 1, now)[..n] == m.Messages(n, now);
  }

  /** When transaction i is met, its contents are known or its hash was removed. */
  predicate SeenBefore(c: Containers, m: NodeMessage, i: nat, now: real)
    requires c.Valid() && m.Valid() && i < |m.txs|
  {
    var d := After(c, m, i, now);
    d.HasContents(m.txs[i].hash) || d.WasRemoved(m.txs[i].hash)
  }

  lemma {:induction false} AfterKnows(c: Containers, m: NodeMessage, n: nat, now: real, h: Sha256)
    requires c.Valid() && m.Valid() && n <= |m.txs|
    ensures var d := After(c, m, n, now);
            && (d.WasRemoved(h) <==> c.WasRemoved(h))
            && (d.HasContents(h) || c.WasRemoved(h)
                <==> c.HasContents(h) || c.WasRemoved(h) || exists i | 0 <= i < n :: m.txs[i].hash == h)
    decreases n
  {
    hide Has;
    if n > 0 {
      AfterKnows(c, m, n - 1, now, h);
      AfterKnows(c, m, n - 1, now, m.txs[n - 1].hash);
      AfterNext(c, m, n - 1, now);
      hide After;
      assert (exists i | 0 <= i < n :: m.txs[i].hash == h)
             <==> m.txs[n - 1].hash == h || exists i | 0 <= i < n - 1 :: m.txs[i].hash == h;
    }
  }

  /** Seen before means known before the message, removed before it, or met earlier in it. */
  lemma SeenBeforeExact(c: Containers, m: NodeMessage, i: nat, now: real)
    requires c.Valid() && m.Valid() && i < |m.txs|
    ensures var h := m.txs[i].hash;
            SeenBefore(c, m, i, now)
            <==> c.HasContents(h) || c.WasRemoved(h) || exists j | 0 <= j < i :: m.txs[j].hash == h
  {
    hide After, Has;
    AfterKnows(c, m, i, now, m.txs[i].hash);
  }

  function StatusWord(v: Verdict): nat {
    match v
    case ValidTx => 1
    case InvalidFormat => 2
    case InvalidSignature => 4
    case LowFee => 8
    case ReuseNonce => 16
  }

  /** Only unseen transactions are validated, and only if that is switched on. */
  function VerdictAt(c: Containers, m: NodeMessage, i: nat, now: real): Verdict
    requires c.Valid() && m.Valid() && i < |m.txs|
  {
    if !SeenBefore(c, m, i, now) && m.validate then m.verdicts[i] else ValidTx
  }

  function EntryOf(t: ParsedTx, seen: bool, v: Verdict): (r: seq<byte>)
    ensures |r| == ENTRY_LEN
  {
    [if seen then 1 else 0] + t.hash + LittleEndian(t.offset, 4) + LittleEndian(t.length, 4) + LittleEndian(StatusWord(v), 4)
  }

  function Entries(c: Containers, m: NodeMessage, n: nat, now: real): (r: seq<byte>)
    requires c.Valid() && m.Valid() && n <= |m.txs|
    ensures |r| == n * ENTRY_LEN
    decreases n
  {
    if n == 0 then []
    else Entries(c, m, n - 1, now) + EntryOf(m.txs[n - 1], SeenBefore(c, m, n - 1, now), VerdictAt(c, m, n - 1, now))
  }

  function Reply(c: Containers, m: NodeMessage, now: real): seq<byte>
    requires c.Valid() && m.Valid()
  {
    LittleEndian(|m.txs|, TX_COUNT_LEN) + Entries(c, m, |m.txs|, now)
  }

  lemma {:induction false} EntryStands(c: Containers, m: NodeMessage, n: nat, now: real, i: nat)
    requires c.Valid() && m.Valid() && i < n <= |m.txs|
    ensures At(Entries(c, m, n, now), i * ENTRY_LEN, EntryOf(m.txs[i], SeenBefore(c, m, i, now), VerdictAt(c, m, i, now)))
    decreases n
  {
    hide SeenBefore, VerdictAt, EntryOf;
    if i < n - 1 {
      EntryStands(c, m, n - 1, now, i);
      var all, before := Entries(c, m, n, now), Entries(c, m, n - 1, now);
      assert all[..|before|] == before;
      assert all[i * ENTRY_LEN..i * ENTRY_LEN + ENTRY_LEN] == before[i * ENTRY_LEN..i * ENTRY_LEN + ENTRY_LEN];
    }
  }

  /** Whoever reads the reply finds each transaction's flag, hash, place and verdict, for a message below four gigabytes. */
  lemma ReplyReadBack(c: Containers, m: NodeMessage, now: real, i: nat)
    requires c.Valid() && m.Valid() && i < |m.txs| < 0x1_0000_0000 && |m.bytes| < 0x1_0000_0000
    ensures var r, at := Reply(c, m, now), TX_COUNT_LEN + i * ENTRY_LEN;
            && |r| == TX_COUNT_LEN + |m.txs| * ENTRY_LEN && at + ENTRY_LEN <= |r|
            && FromLittleEndian(r[..TX_COUNT_LEN]) == |m.txs|
            && (r[at] == 1 <==> SeenBefore(c, m, i, now)) && r[at] <= 1
            && r[at + 1..at + 33] == m.txs[i].hash
            && FromLittleEndian(r[at + 33..at + 37]) == m.txs[i].offset
            && FromLittleEndian(r[at + 37..at + 41]) == m.txs[i].length
            && FromLittleEndian(r[at + 41..at + 45]) == StatusWord(VerdictAt(c, m, i, now))
  {
    hide SeenBefore, VerdictAt, LittleEndian, FromLittleEndian, Entries;
    var r, at, t := Reply(c, m, now), TX_COUNT_LEN + i * ENTRY_LEN, m.txs[i];
    var seen, v := SeenBefore(c, m, i, now), VerdictAt(c, m, i, now);
    EntryStands(c, m, |m.txs|, now, i);
    var es := Entries(c, m, |m.txs|, now);
    assert r[at..at + ENTRY_LEN] == es[i * ENTRY_LEN..i * ENTRY_LEN + ENTRY_LEN] == EntryOf(t, seen, v);
    PowerValues();
    LittleEndianRoundTrip(|m.txs|, 4);
    LittleEndianRoundTrip(t.offset, 4);
    LittleEndianRoundTrip(t.length, 4);
    LittleEndianRoundTrip(StatusWord(v), 4);
    EntryParts(r, at, t, seen, v);
  }

  lemma EntryParts(r: seq<byte>, at: nat, t: ParsedTx, seen: bool, v: Verdict)
    requires at + ENTRY_LEN <= |r| && r[at..at + ENTRY_LEN] == EntryOf(t, seen, v)
    ensures r[at] == if seen then 1 else 0
    ensures r[at + 1..at + 33] == t.hash && r[at + 33..at + 37] == LittleEndian(t.offset, 4)
    ensures r[at + 37..at + 41] == LittleEndian(t.length, 4) && r[at + 41..at + 45] == LittleEndian(StatusWord(v), 4)
  {
    hide LittleEndian;
    var e := EntryOf(t, seen, v);
    assert forall k | 0 <= k < ENTRY_LEN :: r[at + k] == e[k] by {
      assert forall k | 0 <= k < ENTRY_LEN :: r[at..at + ENTRY_LEN][k] == e[k];
    }
    var o, l, w := LittleEndian(t.offset, 4), LittleEndian(t.length, 4), LittleEndian(StatusWord(v), 4);
    assert e[0] == if seen then 1 else 0;
    assert forall k | 0 <= k < 32 :: e[1 + k] == t.hash[k];
    assert forall k | 0 <= k < 4 :: e[33 + k] == o[k] && e[37 + k] == l[k] && e[41 + k] == w[k];
    assert r[at + 1..at + 33] == t.hash;
    assert r[at + 33..at + 37] == o;
    assert r[at + 37..at + 41] == l;
    assert r[at + 41..at + 45] == w;
  }
}
