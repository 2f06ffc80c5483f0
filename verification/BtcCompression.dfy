/**
 Bitcoin block compression: transactions whose short id is known become a one-byte
 marker, the others stay as they are, and the short ids follow the block as a list.
 */
module BtcCompression {
  import opened Bytes
  import opened Wrappers
  import opened Buffers
  import opened BtcTx
  import opened Partition
  import opened ShortIdLists

  const SHORT_ID_INDICATOR: byte := 0xFF
  const HDR_COMMON_OFFSET := 24
  const BLOCK_HDR_SIZE := 80
  const BLOCK_TX_COUNT_OFFSET := HDR_COMMON_OFFSET + BLOCK_HDR_SIZE
  const OFFSET_DIFF := 8

  datatype TxOffsets = TxOffsets(from: nat, witnessAt: nat, end: nat)

  function EndOf(start: nat, ts: seq<TxOffsets>): nat {
    if ts == [] then start else ts[|ts| - 1].end
  }

  /** The boundaries of `n` consecutive transactions. None when one of them cannot be walked. */
  function TxBounds(b: seq<byte>, start: nat, n: nat): Option<seq<TxOffsets>> {
    if n == 0 then Some([])
    else match TxBounds(b, start, n - 1)
      case None => None
      case Some(ts) =>
        match ParseTx(b, EndOf(start, ts))
        case None => None
        case Some(TxEnds(w, e)) => Some(ts + [TxOffsets(EndOf(start, ts), w, e)])
  }

  /** Offsets as the walk over a transaction gives them, whatever block it was in. */
  predicate Sound(t: TxOffsets) {
    t.from + TX_VERSION_SIZE + 2 <= t.witnessAt && t.witnessAt + TX_LOCK_TIME_SIZE <= t.end
  }

  predicate AllSound(ts: seq<TxOffsets>) {
    forall i | 0 <= i < |ts| :: Sound(ts[i])
  }

  /** Sound offsets that lie in the block. */
  predicate Inside(block: seq<byte>, t: TxOffsets) {
    Sound(t) && t.end <= |block|
  }

  /** They are those of the transaction there. */
  predicate Walked(block: seq<byte>, t: TxOffsets) {
    ParseTx(block, t.from) == Some(TxEnds(t.witnessAt, t.end))
  }

  lemma WalkedSound(block: seq<byte>, t: TxOffsets)
    requires Walked(block, t)
    ensures Sound(t)
  {
    ParseTxAdvances(block, t.from);
  }

  /**
   What compression decides with: the block, the sender's index, its choice among the
   short ids of one hash, the transaction hash function, whether it is enabled, and up to
   which assignment time each transaction is replaced. Every sub-task computes that time
   when it starts, from the clock and the minimal age.
   */
  datatype Context = Context(
    block: seq<byte>,
    hashToSids: map<Sha256, set<ShortId>>,
    assignTime: map<ShortId, real>,
    pick: set<ShortId> -> ShortId,
    txHash: seq<byte> -> Sha256,
    enabled: bool,
    cutoff: TxOffsets -> real)
  {
    /** Sids of one hash are never an empty set, and each has an assign time. */
    ghost predicate Valid() {
      forall h | h in hashToSids :: pick(hashToSids[h]) in hashToSids[h] && pick(hashToSids[h]) in assignTime
    }

    function TxId(t: TxOffsets): Sha256
      requires Inside(block, t)
    {
      txHash(TxIdPreimage(block, t.from, t.witnessAt, t.end))
    }

    /** The short id a transaction is replaced with, if it is replaced. */
    function Choice(t: TxOffsets): Option<ShortId>
      requires Valid() && Inside(block, t)
    {
      var sha := TxId(t);
      if sha !in hashToSids || !enabled || assignTime[pick(hashToSids[sha])] > cutoff(t) then None
      else Some(pick(hashToSids[sha]))
    }

    /** The same with one time for all. */
    function Until(time: real): Context {
      this.(cutoff := _ => time)
    }

    predicate AllInside(ts: seq<TxOffsets>) {
      forall i | 0 <= i < |ts| :: Inside(block, ts[i])
    }

    function Chunk(t: TxOffsets): (r: seq<byte>)
      requires Valid() && Inside(block, t)
      ensures r != []
    {
      if Choice(t).Some? then [SHORT_ID_INDICATOR] else block[t.from..t.end]
    }

    /** The compressed transactions, left to right. */
    function Body(ts: seq<TxOffsets>): seq<byte>
      requires Valid() && AllInside(ts)
    {
      if ts == [] then [] else Body(ts[..|ts| - 1]) + Chunk(ts[|ts| - 1])
    }

    /** The short ids used, left to right. */
    function Sids(ts: seq<TxOffsets>): seq<ShortId>
      requires Valid() && AllInside(ts)
    {
      if ts == [] then []
      else
        var last := Choice(ts[|ts| - 1]);
        Sids(ts[..|ts| - 1]) + if last.Some? then [last.value] else []
    }

    lemma {:induction false} BodyAppend(a: seq<TxOffsets>, b: seq<TxOffsets>)
      requires Valid() && AllInside(a) && AllInside(b)
      ensures AllInside(a + b) && Body(a + b) == Body(a) + Body(b)
    {
      hide Chunk, Choice, Inside, Valid;
      if b == [] {
        assert a + b == a;
      } else {
        var b' := b[..|b| - 1];
        BodyAppend(a, b');
        assert (a + b)[..|a + b| - 1] == a + b';
      }
    }

    lemma {:induction false} SidsAppend(a: seq<TxOffsets>, b: seq<TxOffsets>)
      requires Valid() && AllInside(a) && AllInside(b)
      ensures AllInside(a + b) && Sids(a + b) == Sids(a) + Sids(b)
    {
      hide Chunk, Choice, Inside, Valid;
      if b == [] {
        assert a + b == a;
      } else {
        var b' := b[..|b| - 1];
        SidsAppend(a, b');
        assert (a + b)[..|a + b| - 1] == a + b';
      }
    }

    lemma NothingYet(ts: seq<TxOffsets>)
      requires Valid() && AllInside(ts)
      ensures Body(ts[..0]) == [] && Sids(ts[..0]) == []
    {
    }

    lemma BulkAppend(ts: seq<TxOffsets>, i: nat, j: nat)
      requires Valid() && AllInside(ts) && i <= j <= |ts|
      ensures AllInside(ts[..i]) && AllInside(ts[i..j]) && AllInside(ts[..j])
      ensures Body(ts[..j]) == Body(ts[..i]) + Body(ts[i..j])
      ensures Sids(ts[..j]) == Sids(ts[..i]) + Sids(ts[i..j])
    {
      hide Body, Sids, Inside, Valid;
      assert ts[..i] + ts[i..j] == ts[..j];
      BodyAppend(ts[..i], ts[i..j]);
      SidsAppend(ts[..i], ts[i..j]);
    }

    /** The whole compressed message, `hdrEnd` being the end of the transaction count. */
    function Compressed(hdrEnd: nat, ts: seq<TxOffsets>): seq<byte>
      requires Valid() && AllInside(ts) && hdrEnd <= |block|
    {
      Message(block[..hdrEnd], Body(ts), Sids(ts))
    }
  }

  lemma InsideNext(c: Context, ts: seq<TxOffsets>, n: nat)
    requires n < |ts|
    ensures c.AllInside(ts[..n + 1]) <==> c.AllInside(ts[..n]) && Inside(c.block, ts[n])
    ensures c.AllInside(ts) ==> Inside(c.block, ts[n])
  {
    assert ts[..n + 1] == ts[..n] + [ts[n]];
  }

  /** The length word, the header, the compressed transactions and the list of short ids. */
  function Message(header: seq<byte>, body: seq<byte>, sids: seq<ShortId>): seq<byte> {
    LittleEndian(OFFSET_DIFF + |header| + |body|, 8) + header + body + LittleEndian(|sids|, 4) + EncodeSids(sids)
  }

  /** The message, from the buffer contents before the sub-tasks are appended. */
  lemma {:induction false} MessageOf(header: seq<byte>, body: seq<byte>, sids: seq<ShortId>, front: seq<byte>)
    requires |front| == OFFSET_DIFF + |header| && front[OFFSET_DIFF..] == header
    ensures var all := front + body;
            Message(header, body, sids) ==
            LittleEndian(|all|, 8) + all[OFFSET_DIFF..] + LittleEndian(|sids|, 4) + EncodeSids(sids)
  {
    hide LittleEndian, EncodeSids;
    assert (front + body)[OFFSET_DIFF..] == front[OFFSET_DIFF..] + body;
    var word := LittleEndian(|front + body|, 8);
    assert word + header + body == word + (header + body);
  }

  lemma TxBoundsNone(b: seq<byte>, start: nat)
    ensures TxBounds(b, start, 0) == Some([])
  {
  }

  /** The last of n transactions begins where the one before ends. */
  lemma TxBoundsLast(b: seq<byte>, start: nat, n: nat)
    requires n > 0 && TxBounds(b, start, n).Some?
    ensures TxBounds(b, start, n - 1).Some?
    ensures var before, ts := TxBounds(b, start, n - 1).value, TxBounds(b, start, n).value;
            && ts != [] && ts == before + [ts[|ts| - 1]] && ts[|ts| - 1].from == EndOf(start, before)
            && Walked(b, ts[|ts| - 1]) && Sound(ts[|ts| - 1])
  {
    hide ParseTx;
    var ts := TxBounds(b, start, n).value;
    WalkedSound(b, ts[|ts| - 1]);
  }

  lemma {:induction false} TxBoundsShape(b: seq<byte>, start: nat, n: nat)
    requires TxBounds(b, start, n).Some?
    ensures var ts := TxBounds(b, start, n).value;
            && |ts| == n && start + n <= EndOf(start, ts)
            && (forall i | 0 <= i < n :: Walked(b, ts[i]) && Sound(ts[i]))
            && (forall i | 0 <= i < n :: ts[i].end <= EndOf(start, ts))
            && (forall i | 0 <= i < n :: ts[i].from == EndOf(start, ts[..i]))
  {
    hide TxBounds, Walked;
    if n > 0 {
      TxBoundsLast(b, start, n);
      TxBoundsShape(b, start, n - 1);
      var ts', ts := TxBounds(b, start, n - 1).value, TxBounds(b, start, n).value;
      assert forall i | 0 <= i < n - 1 :: ts[..i] == ts'[..i];
      assert ts[..n - 1] == ts';
    } else {
      TxBoundsNone(b, start);
    }
  }

  lemma LaterBegins(ts: seq<TxOffsets>, before: seq<TxOffsets>, start: nat, i: nat)
    requires ts != [] && ts == before + [ts[|ts| - 1]] && ts[|ts| - 1].from == EndOf(start, before) && Sound(ts[|ts| - 1])
    requires i < |before| && before[i].end <= EndOf(start, before)
    ensures ts[i] != ts[|ts| - 1]
  {
  }

  /** No two transactions have the same offsets. */
  lemma {:induction false} TxBoundsDistinct(b: seq<byte>, start: nat, n: nat)
    requires TxBounds(b, start, n).Some?
    ensures var ts := TxBounds(b, start, n).value; forall i, j | 0 <= i < j < |ts| :: ts[i] != ts[j]
  {
    hide TxBounds, Walked, Sound, EndOf;
    if n > 0 {
      TxBoundsLast(b, start, n);
      TxBoundsDistinct(b, start, n - 1);
      TxBoundsShape(b, start, n - 1);
      var ts', ts := TxBounds(b, start, n - 1).value, TxBounds(b, start, n).value;
      forall i, j | 0 <= i < j < |ts|
        ensures ts[i] != ts[j]
      {
        if j < n - 1 {
          assert ts[i] == ts'[i] && ts[j] == ts'[j];
        } else {
          LaterBegins(ts, ts', start, i);
        }
      }
    } else {
      TxBoundsNone(b, start);
    }
  }

  /** The offset lists of the sub-tasks when a run begins: cleared, unless the pool has to grow. */
  function InitLists(lists: seq<seq<TxOffsets>>, poolSize: nat): (r: seq<seq<TxOffsets>>)
    ensures |r| == Max(|lists|, poolSize)
  {
    if |lists| < poolSize then lists + seq(poolSize - |lists|, _ => [])
    else seq(|lists|, _ => [])
  }

  /** A run starts with empty lists exactly when the pool does not grow over lists of an earlier run. */
  lemma InitListsExact(lists: seq<seq<TxOffsets>>, poolSize: nat)
    ensures (forall k | 0 <= k < |InitLists(lists, poolSize)| :: InitLists(lists, poolSize)[k] == [])
            <==> poolSize <= |lists| || forall k | 0 <= k < |lists| :: lists[k] == []
  {
    if |lists| < poolSize {
      forall k | 0 <= k < |lists|
        ensures InitLists(lists, poolSize)[k] == lists[k]
      {
      }
    }
  }

  // ---------------------------------------------------------------- what the sub-tasks make together

  /** What each sub-task works on: what is left in its list, and its bulk. */
  ghost function Works(before: seq<seq<TxOffsets>>, ts: seq<TxOffsets>, cuts: seq<nat>): (r: seq<seq<TxOffsets>>)
    requires |cuts| >= 1 && Cuts(cuts, |cuts| - 1, |ts|) && |cuts| - 1 <= |before|
    ensures |r| == |cuts| - 1
  {
    seq(|cuts| - 1, k requires 0 <= k < |cuts| - 1 => before[k] + ts[cuts[k]..cuts[k + 1]])
  }

  ghost predicate WorksInside(c: Context, works: seq<seq<TxOffsets>>) {
    forall k | 0 <= k < |works| :: c.AllInside(works[k])
  }

  /** Their outputs one behind the other, each by its own clock. */
  ghost function Bodies(c: Context, clock: nat -> real, works: seq<seq<TxOffsets>>): seq<byte>
    requires c.Valid() && WorksInside(c, works)
  {
    if works == [] then []
    else
      var n := |works| - 1;
      Bodies(c, clock, works[..n]) + c.Until(clock(n)).Body(works[n])
  }

  ghost function SidsOf(c: Context, clock: nat -> real, works: seq<seq<TxOffsets>>): seq<ShortId>
    requires c.Valid() && WorksInside(c, works)
  {
    if works == [] then []
    else
      var n := |works| - 1;
      SidsOf(c, clock, works[..n]) + c.Until(clock(n)).Sids(works[n])
  }

  lemma NoWorks(c: Context, clock: nat -> real)
    requires c.Valid()
    ensures WorksInside(c, []) && Bodies(c, clock, []) == [] && SidsOf(c, clock, []) == []
  {
  }

  lemma WorksNext(c: Context, clock: nat -> real, works: seq<seq<TxOffsets>>, n: nat)
    requires c.Valid() && n < |works| && WorksInside(c, works[..n])
    ensures WorksInside(c, works[..n + 1]) <==> c.AllInside(works[n])
    ensures WorksInside(c, works) ==> c.AllInside(works[n])
    ensures c.AllInside(works[n]) ==>
              var u := c.Until(clock(n));
              && u.Valid() && u.AllInside(works[n])
              && Bodies(c, clock, works[..n + 1]) == Bodies(c, clock, works[..n]) + u.Body(works[n])
              && SidsOf(c, clock, works[..n + 1]) == SidsOf(c, clock, works[..n]) + u.Sids(works[n])
  {
    hide Context.Body, Context.Sids, Context.AllInside;
    assert works[..n + 1][..n] == works[..n] && works[..n + 1][n] == works[n];
    UntilValid(c, clock(n), works[n]);
  }

  /** The time by which a transaction of the first n bulks was judged. */
  function TimeOf(clock: nat -> real, ts: seq<TxOffsets>, cuts: seq<nat>, n: nat, t: TxOffsets): real
    requires n < |cuts| && forall i, j | 0 <= i <= j < |cuts| :: cuts[i] <= cuts[j] <= |ts|
  {
    if n == 0 then 0.0
    else if t in ts[cuts[n - 1]..cuts[n]] then clock(n - 1)
    else TimeOf(clock, ts, cuts, n - 1, t)
  }

  /** Compression of the whole block, each transaction by the clock of its sub-task. */
  ghost function Clocked(c: Context, clock: nat -> real, ts: seq<TxOffsets>, cuts: seq<nat>): Context
    requires |cuts| >= 1 && Cuts(cuts, |cuts| - 1, |ts|)
  {
    c.(cutoff := t => TimeOf(clock, ts, cuts, |cuts| - 1, t))
  }

  lemma {:induction false} TimeOfBulk(clock: nat -> real, ts: seq<TxOffsets>, cuts: seq<nat>, n: nat, k: nat, i: nat)
    requires n < |cuts| && Cuts(cuts, |cuts| - 1, |ts|) && k < n && cuts[k] <= i < cuts[k + 1]
    requires forall i, j | 0 <= i < j < |ts| :: ts[i] != ts[j]
    ensures TimeOf(clock, ts, cuts, n, ts[i]) == clock(k)
    decreases n
  {
    if k == n - 1 {
      assert ts[i] == ts[cuts[k]..cuts[k + 1]][i - cuts[k]];
    } else {
      assert ts[i] !in ts[cuts[n - 1]..cuts[n]];
      TimeOfBulk(clock, ts, cuts, n - 1, k, i);
    }
  }

  /** Contexts that judge the transactions of a list by the same times compress them alike. */
  lemma {:induction false} SameTimesSameBody(c: Context, d: Context, ts: seq<TxOffsets>)
    requires d == c.(cutoff := d.cutoff) && c.Valid() && c.AllInside(ts)
    requires forall i | 0 <= i < |ts| :: c.cutoff(ts[i]) == d.cutoff(ts[i])
    ensures d.Valid() && d.AllInside(ts) && c.Body(ts) == d.Body(ts) && c.Sids(ts) == d.Sids(ts)
  {
    if ts != [] {
      SameTimesSameBody(c, d, ts[..|ts| - 1]);
      assert c.TxId(ts[|ts| - 1]) == d.TxId(ts[|ts| - 1]);
      hide Context.TxId;
      assert c.Choice(ts[|ts| - 1]) == d.Choice(ts[|ts| - 1]);
    }
  }

  /** One sub-task: what it adds for its bulk, and what more for the rest in its list. */
  lemma WorkOf(c: Context, clock: nat -> real, before: seq<seq<TxOffsets>>, ts: seq<TxOffsets>, cuts: seq<nat>, k: nat)
    requires |cuts| >= 1 && Cuts(cuts, |cuts| - 1, |ts|) && |cuts| - 1 <= |before| && k < |cuts| - 1
    requires c.Valid() && c.AllInside(ts) && WorksInside(c, Works(before, ts, cuts))
    requires forall i, j | 0 <= i < j < |ts| :: ts[i] != ts[j]
    ensures var d, u := Clocked(c, clock, ts, cuts), c.Until(clock(k));
            var work, bulk := Works(before, ts, cuts)[k], ts[cuts[k]..cuts[k + 1]];
            && d.Valid() && d.AllInside(bulk) && u.AllInside(before[k])
            && u.Body(work) == u.Body(before[k]) + d.Body(bulk)
            && u.Sids(work) == u.Sids(before[k]) + d.Sids(bulk)
  {
    hide Context.Body, Context.Sids, Context.Valid, Inside, TimeOf;
    var d, u := Clocked(c, clock, ts, cuts), c.Until(clock(k));
    var bulk := ts[cuts[k]..cuts[k + 1]];
    assert c.AllInside(Works(before, ts, cuts)[k]);
    assert forall i | 0 <= i < |before[k]| :: (before[k] + bulk)[i] == before[k][i];
    UntilValid(c, clock(k), before[k]);
    u.BodyAppend(before[k], bulk);
    u.SidsAppend(before[k], bulk);
    forall i | 0 <= i < |bulk|
      ensures u.cutoff(bulk[i]) == d.cutoff(bulk[i])
    {
      TimeOfBulk(clock, ts, cuts, |cuts| - 1, k, cuts[k] + i);
    }
    SameTimesSameBody(u, d, bulk);
  }

  /** Nothing is left in the lists of the first n sub-tasks. */
  predicate NoneLeft(before: seq<seq<TxOffsets>>, n: nat)
    requires n <= |before|
  {
    forall k | 0 <= k < n :: before[k] == []
  }

  lemma BodyNotEmpty(c: Context, ts: seq<TxOffsets>)
    requires c.Valid() && c.AllInside(ts)
    ensures c.Body(ts) == [] <==> ts == []
    ensures ts == [] ==> c.Sids(ts) == []
  {
  }

  lemma {:induction false} FirstWorks(
    c: Context, clock: nat -> real, before: seq<seq<TxOffsets>>, ts: seq<TxOffsets>, cuts: seq<nat>, n: nat)
    requires |cuts| >= 1 && Cuts(cuts, |cuts| - 1, |ts|) && n < |cuts| && |cuts| - 1 <= |before|
    requires c.Valid() && c.AllInside(ts) && WorksInside(c, Works(before, ts, cuts))
    requires forall i, j | 0 <= i < j < |ts| :: ts[i] != ts[j]
    ensures var d, works := Clocked(c, clock, ts, cuts), Works(before, ts, cuts)[..n];
            && d.Valid() && d.AllInside(ts[..cuts[n]]) && WorksInside(c, works)
            && |SidsOf(c, clock, works)| >= |d.Sids(ts[..cuts[n]])|
            && (if NoneLeft(before, n)
                then Bodies(c, clock, works) == d.Body(ts[..cuts[n]]) && SidsOf(c, clock, works) == d.Sids(ts[..cuts[n]])
                else |Bodies(c, clock, works)| > |d.Body(ts[..cuts[n]])|)
    decreases n
  {
    hide Context.Body, Context.Sids, Context.Valid, Inside, Works, Clocked, Context.Until;
    var d, works := Clocked(c, clock, ts, cuts), Works(before, ts, cuts);
    ClockedValid(c, clock, ts, cuts);
    if n > 0 {
      var u := c.Until(clock(n - 1));
      FirstWorks(c, clock, before, ts, cuts, n - 1);
      WorkOf(c, clock, before, ts, cuts, n - 1);
      UntilValid(c, clock(n - 1), before[n - 1]);
      BodyNotEmpty(u, before[n - 1]);
      d.BulkAppend(ts, cuts[n - 1], cuts[n]);
      assert works[..n][..n - 1] == works[..n - 1];
      assert works[..n][n - 1] == works[n - 1];
      NoneLeftNext(before, n - 1);
    } else {
      assert works[..0] == [] && ts[..0] == [];
      d.NothingYet(ts);
    }
  }

  lemma ClockedValid(c: Context, clock: nat -> real, ts: seq<TxOffsets>, cuts: seq<nat>)
    requires |cuts| >= 1 && Cuts(cuts, |cuts| - 1, |ts|) && c.Valid() && c.AllInside(ts)
    ensures var d := Clocked(c, clock, ts, cuts); d.Valid() && d.AllInside(ts) && d.block == c.block
  {
  }

  lemma UntilValid(c: Context, time: real, ts: seq<TxOffsets>)
    requires c.Valid()
    ensures c.Until(time).Valid() && (c.Until(time).AllInside(ts) <==> c.AllInside(ts))
  {
  }

  lemma NoneLeftNext(before: seq<seq<TxOffsets>>, n: nat)
    requires n < |before|
    ensures NoneLeft(before, n + 1) <==> NoneLeft(before, n) && before[n] == []
  {
  }

  /**
   What the sub-tasks make together is the left-to-right compression of the block exactly
   if none of them has anything left in its list.
   */
  lemma CompressionExact(
    c: Context, clock: nat -> real, hdrEnd: nat, before: seq<seq<TxOffsets>>, ts: seq<TxOffsets>, cuts: seq<nat>)
    requires |cuts| >= 1 && Cuts(cuts, |cuts| - 1, |ts|) && |cuts| - 1 <= |before| && hdrEnd <= |c.block|
    requires c.Valid() && c.AllInside(ts) && WorksInside(c, Works(before, ts, cuts))
    requires forall i, j | 0 <= i < j < |ts| :: ts[i] != ts[j]
    ensures var d, works := Clocked(c, clock, ts, cuts), Works(before, ts, cuts);
            && d.Valid() && d.AllInside(ts) && d.block == c.block
            && (Message(c.block[..hdrEnd], Bodies(c, clock, works), SidsOf(c, clock, works)) == d.Compressed(hdrEnd, ts)
                <==> NoneLeft(before, |cuts| - 1))
  {
    hide Context.Body, Context.Sids, Context.Valid, Inside, Works, Clocked, LittleEndian, EncodeSids,
         Bodies, SidsOf, NoneLeft;
    ClockedValid(c, clock, ts, cuts);
    FirstWorks(c, clock, before, ts, cuts, |cuts| - 1);
    assert Works(before, ts, cuts)[..|cuts| - 1] == Works(before, ts, cuts);
    assert ts[..cuts[|cuts| - 1]] == ts;
  }

  /** Some bulk holds transaction i. */
  lemma {:induction false} BulkWith(cuts: seq<nat>, n: nat, i: nat) returns (k: nat)
    requires n < |cuts| && cuts[0] == 0 && i < cuts[n]
    ensures k < n && cuts[k] <= i < cuts[k + 1]
  {
    if cuts[n - 1] <= i {
      k := n - 1;
    } else {
      k := BulkWith(cuts, n - 1, i);
    }
  }

  lemma BulksInside(c: Context, before: seq<seq<TxOffsets>>, ts: seq<TxOffsets>, cuts: seq<nat>)
    requires |cuts| >= 1 && Cuts(cuts, |cuts| - 1, |ts|) && |cuts| - 1 <= |before|
    requires WorksInside(c, Works(before, ts, cuts))
    ensures c.AllInside(ts)
  {
    hide Inside;
    forall i | 0 <= i < |ts|
      ensures Inside(c.block, ts[i])
    {
      var k := BulkWith(cuts, |cuts| - 1, i);
      var work := Works(before, ts, cuts)[k];
      assert c.AllInside(work);
      assert work[|before[k]| + (i - cuts[k])] == ts[i];
    }
  }

  /** Whether an offset of an earlier block is left in the list of one of the first n sub-tasks. */
  predicate NothingKept(lists: seq<seq<TxOffsets>>, poolSize: nat, n: nat) {
    poolSize <= |lists| || forall k | 0 <= k < |lists| && k < n :: lists[k] == []
  }

  lemma KeptIsLeft(lists: seq<seq<TxOffsets>>, poolSize: nat, n: nat)
    requires n <= poolSize
    ensures NoneLeft(InitLists(lists, poolSize), n) <==> NothingKept(lists, poolSize, n)
  {
    if |lists| < poolSize {
      assert forall k | 0 <= k < |lists| :: InitLists(lists, poolSize)[k] == lists[k];
    }
  }

  /**
   The result for a block is its left-to-right compression, each transaction judged by the
   clock of its sub-task, exactly if the pool does not grow over an offset of an earlier
   block in the list of a sub-task that is enqueued.
   */
  lemma SequentialExact(
    c: Context, clock: nat -> real, hdrEnd: nat, ts: seq<TxOffsets>, lists: seq<seq<TxOffsets>>, poolSize: nat, bulk: nat)
    requires poolSize >= 1 && bulk >= 1 && c.Valid() && BlockBounds(c.block) == Some((hdrEnd, ts))
    requires WorksInside(c, Works(InitLists(lists, poolSize), ts, BulkCuts(|ts|, bulk, poolSize)))
    ensures hdrEnd <= |c.block| && c.AllInside(ts)
    ensures var cuts := BulkCuts(|ts|, bulk, poolSize);
            var d, works := Clocked(c, clock, ts, cuts), Works(InitLists(lists, poolSize), ts, cuts);
            && d.Valid() && d.AllInside(ts) && d.block == c.block
            && (Message(c.block[..hdrEnd], Bodies(c, clock, works), SidsOf(c, clock, works)) == d.Compressed(hdrEnd, ts)
                <==> NothingKept(lists, poolSize, LastIndex(|ts|, bulk, poolSize) + 1))
  {
    hide Works, Bodies, SidsOf, WorksInside, InitLists, NothingKept, NoneLeft, Context.Valid, Context.AllInside, Message,
         GetVarint, TxBounds, LastIndex, Context.Compressed, Clocked;
    var n := GetVarint(c.block, BLOCK_TX_COUNT_OFFSET).value.value;
    VarintAdvances(c.block, BLOCK_TX_COUNT_OFFSET);
    TxBoundsDistinct(c.block, hdrEnd, n);
    var cuts := BulkCuts(|ts|, bulk, poolSize);
    BulksInside(c, InitLists(lists, poolSize), ts, cuts);
    CompressionExact(c, clock, hdrEnd, InitLists(lists, poolSize), ts, cuts);
    KeptIsLeft(lists, poolSize, LastIndex(|ts|, bulk, poolSize) + 1);
  }

  /** A block of one transaction, which has no inputs and no outputs. */
  function SmallBlock(): (b: seq<byte>)
    ensures |b| == 115
  {
    seq(115, i => if i == BLOCK_TX_COUNT_OFFSET then 1 else 0)
  }

  lemma SmallBounds()
    ensures BlockBounds(SmallBlock()) == Some((105, [TxOffsets(105, 111, 115)]))
  {
    var b := SmallBlock();
    SegwitFlagBytes(b, 109);
    assert GetVarint(b, 109) == Some(Read(0, 110)) && GetVarint(b, 110) == Some(Read(0, 111));
    assert SkipInputsOutputs(b, 109) == Some(Read(0, 111));
    assert ParseTx(b, 105) == Some(TxEnds(111, 115));
    assert GetVarint(b, BLOCK_TX_COUNT_OFFSET) == Some(Read(1, 105));
    hide ParseTx, SmallBlock;
    assert TxBounds(b, 105, 0) == Some([]);
    var ts: seq<TxOffsets> := [];
    assert TxBounds(b, 105, 1) == Some(ts + [TxOffsets(105, 111, 115)]);
    assert ts + [TxOffsets(105, 111, 115)] == [TxOffsets(105, 111, 115)];
  }

  /** Compressed again after the pool grew from one sub-task to two, this block gives a wrong message. */
  lemma SameBlockWrong(c: Context, clock: nat -> real, bulk: nat)
    requires c.Valid() && c.block == SmallBlock() && bulk >= 1
    ensures var t := TxOffsets(105, 111, 115);
            var cuts := BulkCuts(1, bulk, 2);
            var works := Works(InitLists([[t]], 2), [t], cuts);
            && BlockBounds(c.block) == Some((105, [t])) && WorksInside(c, works)
            && var d := Clocked(c, clock, [t], cuts);
               d.Valid() && d.AllInside([t])
               && Message(c.block[..105], Bodies(c, clock, works), SidsOf(c, clock, works)) != d.Compressed(105, [t])
  {
    hide Bodies, SidsOf, Context.Valid, Message, Context.Compressed, Clocked, BlockBounds, SmallBlock;
    var t := TxOffsets(105, 111, 115);
    SmallBounds();
    var lists := [[t]];
    var works := Works(InitLists(lists, 2), [t], BulkCuts(1, bulk, 2));
    assert c.AllInside([t] + [t]);
    assert LastIndex(1, bulk, 2) == 0 by { DivUnique(0, bulk, 0, 0); }
    assert InitLists(lists, 2)[0] == [t];
    assert works[0] == [t] + [t];
    SequentialExact(c, clock, 105, [t], lists, 2, bulk);
    assert !NothingKept(lists, 2, 1) by { assert lists[0] != []; }
  }

  class SubTask {
    const outputBuffer: ByteArray
    var shortIds: seq<ShortId>

    constructor (capacity: nat)
      ensures fresh(this) && fresh(outputBuffer) && outputBuffer.Valid()
    {
      outputBuffer := new ByteArray(capacity);
      shortIds := [];
    }

    /** Clears the outputs of the run before. */
    method Init()
      requires outputBuffer.Valid()
      modifies this, outputBuffer
      ensures outputBuffer.Valid() && outputBuffer.Contents() == [] && shortIds == []
    {
      shortIds := [];
      outputBuffer.Reset();
    }

    /** Compresses one transaction: the marker and its short id, or its bytes. */
    method Emit(c: Context, maxTimestamp: real, t: TxOffsets, outputOffset: nat) returns (end: nat)
      requires c.Valid() && Inside(c.block, t) && c.cutoff(t) == maxTimestamp
      requires outputBuffer.Valid() && outputOffset == outputBuffer.length
      modifies this, outputBuffer
      ensures outputBuffer.Valid() && end == outputBuffer.length
      ensures outputBuffer.Contents() == old(outputBuffer.Contents()) + c.Chunk(t)
      ensures shortIds == old(shortIds) + if c.Choice(t).Some? then [c.Choice(t).value] else []
    {
      hide ParseTx, Context.TxId, Buffer.CopyFromBuffer, Buffer.Put;
      var sha := c.TxId(t);
      ghost var before := outputBuffer.State();
      if sha !in c.hashToSids || !c.enabled || c.assignTime[c.pick(c.hashToSids[sha])] > maxTimestamp {
        var ok;
        ok, end := outputBuffer.CopyFromBuffer(c.block, outputOffset, t.from, t.end - t.from);
        AppendCopy(before, c.block, t.from, t.end - t.from);
      } else {
        end := outputBuffer.Put([SHORT_ID_INDICATOR], outputOffset);
        AppendPut(before, [SHORT_ID_INDICATOR]);
        shortIds := shortIds + [c.pick(c.hashToSids[sha])];
      }
    }

    /**
     Compresses the transactions of its offset list, judging their age by the time it
     starts. Fails at an offset behind the block, where the source reads past it.
     */
    method Execute(c: Context, maxTimestamp: real, offsets: seq<TxOffsets>) returns (ok: bool)
      requires c.Valid() && AllSound(offsets)
      requires outputBuffer.Valid() && outputBuffer.Contents() == [] && shortIds == []
      modifies this, outputBuffer
      ensures outputBuffer.Valid() && ok == c.AllInside(offsets)
      ensures ok ==> var d := c.Until(maxTimestamp);
                     d.Valid() && d.AllInside(offsets)
                     && outputBuffer.Contents() == d.Body(offsets) && shortIds == d.Sids(offsets)
    {
      var outputOffset := 0;
      var d := c.Until(maxTimestamp);
      for i := 0 to |offsets|
        invariant outputBuffer.Valid() && outputOffset == outputBuffer.length
        invariant d.Valid() && d.AllInside(offsets[..i])
        invariant outputBuffer.Contents() == d.Body(offsets[..i])
        invariant shortIds == d.Sids(offsets[..i])
      {
        hide Context.Choice, Context.Chunk, Context.Valid, Context.AllInside;
        assert offsets[..i + 1][..i] == offsets[..i];
        InsideNext(d, offsets, i);
        if offsets[i].end > |c.block| {
          assert !Inside(c.block, offsets[i]);
          return false;
        }
        outputOffset := Emit(d, maxTimestamp, offsets[i], outputOffset);
      }
      assert offsets[..|offsets|] == offsets;
      return true;
    }
  }

  datatype TaskData = TaskData(subTask: SubTask, offsets: seq<TxOffsets>)

  ghost predicate ListsSound(tasks: seq<TaskData>) {
    forall k | 0 <= k < |tasks| :: AllSound(tasks[k].offsets)
  }

  lemma SoundPush(tasks: seq<TaskData>, k: nat, t: TxOffsets)
    requires ListsSound(tasks) && k < |tasks| && Sound(t)
    ensures ListsSound(tasks[k := tasks[k].(offsets := tasks[k].offsets + [t])])
  {
  }

  lemma EmptySound(tasks: seq<TaskData>)
    requires forall k | 0 <= k < |tasks| :: tasks[k].offsets == []
    ensures ListsSound(tasks)
  {
  }

  lemma SoundNew(tasks: seq<TaskData>, task: SubTask)
    requires ListsSound(tasks)
    ensures ListsSound(tasks + [TaskData(task, [])])
  {
  }

  class CompressionTask {
    const minimalTxCount: nat
    var outputBuffer: ByteArray
    var shortIds: seq<ShortId>
    var subTasks: seq<TaskData>

    /** The buffers of the task and its sub-tasks are all different objects; the offsets come from walks. */
    ghost predicate Valid()
      reads this, outputBuffer, Objects()
      ensures Valid() ==> outputBuffer.Valid()
    {
      && outputBuffer.Valid()
      && (forall i | 0 <= i < |subTasks| ::
            subTasks[i].subTask.outputBuffer.Valid() && subTasks[i].subTask.outputBuffer != outputBuffer)
      && (forall i, j | 0 <= i < j < |subTasks| ::
            subTasks[i].subTask != subTasks[j].subTask
            && subTasks[i].subTask.outputBuffer != subTasks[j].subTask.outputBuffer)
      && ListsSound(subTasks)
    }

    /** The sub-tasks and their buffers. */
    ghost function Objects(): (r: set<object>)
      reads this
      ensures this !in r
    {
      (set i | 0 <= i < |subTasks| :: subTasks[i].subTask)
      + (set i | 0 <= i < |subTasks| :: subTasks[i].subTask.outputBuffer)
    }

    function Lists(): seq<seq<TxOffsets>>
      reads this
    {
      seq(|subTasks|, i requires 0 <= i < |subTasks| reads this => subTasks[i].offsets)
    }

    constructor (capacity: nat, minimalTxCount: nat)
      ensures Valid() && Lists() == []
      ensures fresh(outputBuffer)
    {
      this.minimalTxCount := minimalTxCount;
      outputBuffer := new ByteArray(capacity);
      shortIds := [];
      subTasks := [];
    }

    /** Makes the buffer ready for another block; replaces it when a caller still holds the last result. */
    method Init(blockSize: nat, shared: bool)
      requires Valid()
      modifies this`outputBuffer, this`shortIds, outputBuffer
      ensures Valid() && outputBuffer.Contents() == [] && shortIds == []
      ensures if shared then fresh(outputBuffer) else outputBuffer == old(outputBuffer)
    {
      if shared {
        outputBuffer := new ByteArray(blockSize);
      } else {
        outputBuffer.Reserve(blockSize);
        outputBuffer.Reset();
      }
      shortIds := [];
    }

    method InitSubTasks(poolSize: nat)
      requires Valid()
      modifies this`subTasks
      ensures Valid() && Lists() == InitLists(old(Lists()), poolSize)
      ensures fresh(Objects() - old(Objects()))
    {
      hide ListsSound;
      if |subTasks| < poolSize {
        ghost var before := subTasks;
        var i := |subTasks|;
        while i < poolSize
          invariant |before| <= i == |subTasks| <= poolSize
          invariant before <= subTasks
          invariant Valid()
          invariant forall k | |before| <= k < i :: subTasks[k].offsets == []
          invariant forall k | |before| <= k < i :: fresh(subTasks[k].subTask) && fresh(subTasks[k].subTask.outputBuffer)
        {
          var task := new SubTask(0);
          SoundNew(subTasks, task);
          subTasks := subTasks + [TaskData(task, [])];
          i := i + 1;
        }
        assert Lists() == InitLists(old(Lists()), poolSize);
      } else {
        var k := 0;
        ghost var before := subTasks;
        while k < |subTasks|
          invariant 0 <= k <= |subTasks| == |before|
          invariant forall j | 0 <= j < |subTasks| :: subTasks[j].subTask == before[j].subTask
          invariant forall j | 0 <= j < k :: subTasks[j].offsets == []
          invariant Objects() == old(Objects())
        {
          subTasks := subTasks[k := subTasks[k].(offsets := [])];
          k := k + 1;
        }
        assert ListsSound(subTasks) by {
          EmptySound(subTasks);
        }
        assert Lists() == InitLists(old(Lists()), poolSize);
      }
    }

    /**
     Walks over the transactions and gives each to the current sub-task; a sub-task is
     enqueued when its bulk is complete. `cuts` are the places where the bulks begin.
     Fails when a transaction cannot be walked.
     */
    method DispatchLoop(block: seq<byte>, txCount: nat, start: nat, poolSize: nat)
      returns (ok: bool, lastIdx: nat, ghost cuts: seq<nat>, ghost enqueued: seq<nat>)
      requires poolSize >= 1 && |subTasks| >= poolSize
      modifies this`subTasks
      ensures |subTasks| == old(|subTasks|)
      ensures forall k | 0 <= k < |subTasks| :: subTasks[k].subTask == old(subTasks)[k].subTask
      ensures ok == TxBounds(block, start, txCount).Some?
      ensures ok ==>
                var ts := TxBounds(block, start, txCount).value;
                && |ts| == txCount && lastIdx < poolSize
                && Cuts(cuts, lastIdx + 1, txCount)
                && (forall k | 0 <= k <= lastIdx :: HasBulk(subTasks[k].offsets, old(subTasks)[k].offsets, ts, cuts, k))
                && (forall k | lastIdx < k < |subTasks| :: subTasks[k] == old(subTasks)[k])
                && enqueued == seq(lastIdx + 1, k => k)
                && lastIdx == LastIndex(txCount, BulkSize(txCount, poolSize, minimalTxCount), poolSize)
                && cuts == BulkCuts(txCount, BulkSize(txCount, poolSize, minimalTxCount), poolSize)
      ensures ListsSound(old(subTasks)) ==> ListsSound(subTasks)
    {
      hide ParseTx, Spread, Cuts, BulkSize, TaskIndex, ListsSound;
      var offset, prevIdx, idx := start, 0, 0;
      var bulkSize := BulkSize(txCount, poolSize, minimalTxCount);
      ghost var ts := [];
      cuts, enqueued := [0], [];
      TaskIndexStart(bulkSize, poolSize);
      SpreadStart(subTasks);
      for count := 0 to txCount
        invariant TxBounds(block, start, count) == Some(ts) && |ts| == count && offset == EndOf(start, ts)
        invariant prevIdx == if count == 0 then 0 else TaskIndex(count - 1, bulkSize, poolSize)
        invariant |subTasks| == old(|subTasks|) && |cuts| == prevIdx + 1
        invariant forall k | 0 <= k < |subTasks| :: subTasks[k].subTask == old(subTasks)[k].subTask
        invariant Spread(old(subTasks), subTasks, ts, cuts, prevIdx)
        invariant enqueued == seq(prevIdx, k => k)
        invariant forall k | 0 <= k <= prevIdx :: cuts[k] == k * bulkSize
        invariant ListsSound(old(subTasks)) ==> ListsSound(subTasks)
      {
        var from := offset;
        idx := TaskIndex(count, bulkSize, poolSize);
        if count > 0 {
          TaskIndexNext(count, bulkSize, poolSize);
        }
        var next := ParseTx(block, from);
        if next.None? {
          BoundsStop(block, start, count + 1, txCount);
          return false, 0, [], [];
        }
        offset := next.value.end;
        var t := TxOffsets(from, next.value.witnessAt, offset);
        WalkedSound(block, t);
        SpreadPush(old(subTasks), subTasks, ts, cuts, prevIdx, t);
        if ListsSound(subTasks) {
          SoundPush(subTasks, idx, t);
        }
        ts := ts + [t];
        subTasks := subTasks[idx := subTasks[idx].(offsets := subTasks[idx].offsets + [t])];
        if idx > prevIdx {
          cuts := cuts + [count];
          enqueued := enqueued + [prevIdx];
        }
        prevIdx := idx;
      }
      SpreadClose(old(subTasks), subTasks, ts, cuts, prevIdx);
      cuts := cuts + [txCount];
      CutsAreBulkCuts(cuts, txCount, bulkSize, poolSize);
      enqueued := enqueued + [prevIdx];
      return true, prevIdx, cuts, enqueued;
    }

    /**
     Prepares the offset lists and spreads the transactions of the block over them. Each
     enqueued sub-task works on its bulk, behind whatever was left in its list.
     */
    method Dispatch(block: seq<byte>, txCount: nat, start: nat, poolSize: nat)
      returns (ok: bool, lastIdx: nat, ghost cuts: seq<nat>, ghost enqueued: seq<nat>)
      requires Valid() && poolSize >= 1
      modifies this`subTasks
      ensures Valid() && fresh(Objects() - old(Objects()))
      ensures ok == TxBounds(block, start, txCount).Some?
      ensures ok ==>
                var ts, before := TxBounds(block, start, txCount).value, InitLists(old(Lists()), poolSize);
                && |ts| == txCount && lastIdx < |subTasks| == |before|
                && Cuts(cuts, lastIdx + 1, txCount)
                && cuts == BulkCuts(txCount, BulkSize(txCount, poolSize, minimalTxCount), poolSize)
                && (forall k | 0 <= k <= lastIdx :: HasBulk(subTasks[k].offsets, before[k], ts, cuts, k))
                && enqueued == seq(lastIdx + 1, k => k)
    {
      hide TxBounds, Cuts, BulkSize, InitLists, ParseTx, BulkCuts, LastIndex, ListsSound, HasBulk, TaskIndex;
      InitSubTasks(poolSize);
      ghost var cleared := subTasks;
      assert forall k | 0 <= k < |cleared| :: cleared[k].offsets == Lists()[k];
      ok, lastIdx, cuts, enqueued := DispatchLoop(block, txCount, start, poolSize);
      assert forall k | 0 <= k < |subTasks| :: subTasks[k].subTask == cleared[k].subTask;
    }

    /** Runs one sub-task and takes over what it produced. */
    method Collect(c: Context, time: real, idx: nat) returns (ok: bool)
      requires Valid() && c.Valid() && idx < |subTasks|
      modifies this`shortIds, outputBuffer, subTasks[idx].subTask, subTasks[idx].subTask.outputBuffer
      ensures Valid() && ok == c.AllInside(subTasks[idx].offsets)
      ensures ok ==> var d := c.Until(time);
                     d.Valid() && d.AllInside(subTasks[idx].offsets)
                     && outputBuffer.Contents() == old(outputBuffer.Contents()) + d.Body(subTasks[idx].offsets)
                     && shortIds == old(shortIds) + d.Sids(subTasks[idx].offsets)
    {
      hide Context.Body, Context.Sids, Context.Valid, Context.AllInside;
      var data := subTasks[idx];
      data.subTask.Init();
      ok := data.subTask.Execute(c, time, data.offsets);
      if ok {
        outputBuffer.Append(data.subTask.outputBuffer);
        shortIds := shortIds + data.subTask.shortIds;
      }
    }

    /** Waits for the sub-tasks in order and concatenates their outputs. */
    method CollectAll(c: Context, clock: nat -> real, lastIdx: nat, ghost works: seq<seq<TxOffsets>>) returns (ok: bool)
      requires Valid() && c.Valid() && lastIdx < |subTasks| && |works| == lastIdx + 1
      requires forall k | 0 <= k <= lastIdx :: subTasks[k].offsets == works[k]
      modifies this`shortIds, outputBuffer, Objects()
      ensures Valid() && ok == WorksInside(c, works)
      ensures ok ==> outputBuffer.Contents() == old(outputBuffer.Contents()) + Bodies(c, clock, works)
      ensures ok ==> shortIds == old(shortIds) + SidsOf(c, clock, works)
    {
      hide Context.Body, Context.Sids, Context.Valid, Context.AllInside, Context.Until, Valid, Bodies, SidsOf, WorksInside;
      NoWorks(c, clock);
      for idx := 0 to lastIdx + 1
        invariant Valid() && WorksInside(c, works[..idx])
        invariant outputBuffer.Contents() == old(outputBuffer.Contents()) + Bodies(c, clock, works[..idx])
        invariant shortIds == old(shortIds) + SidsOf(c, clock, works[..idx])
      {
        WorksNext(c, clock, works, idx);
        ok := Collect(c, clock(idx), idx);
        if !ok {
          return;
        }
      }
      assert works[..lastIdx + 1] == works;
      ok := true;
    }

    /** Fills in the length word in front and appends the short ids. */
    method SetOutputBuffer(outputOffset: nat)
      requires outputBuffer.Valid() && outputOffset == outputBuffer.length && OFFSET_DIFF <= outputOffset
      modifies outputBuffer
      ensures outputBuffer.Valid()
      ensures outputBuffer.Contents() ==
              LittleEndian(outputOffset, 8) + old(outputBuffer.Contents())[OFFSET_DIFF..]
              + LittleEndian(|shortIds|, 4) + EncodeSids(shortIds)
    {
      hide LittleEndian, EncodeSids;
      var sids := EncodeSids(shortIds);
      PutFront(outputBuffer.State(), LittleEndian(outputOffset, 8));
      var _ := outputBuffer.Put(LittleEndian(outputOffset, 8), 0);
      AppendPut(outputBuffer.State(), LittleEndian(|shortIds|, 4));
      var _ := outputBuffer.Put(LittleEndian(|shortIds|, 4), outputOffset);
      if |shortIds| > 0 {
        AppendPut(outputBuffer.State(), sids);
        outputBuffer.Extend(sids);
      }
    }

    /** The header behind room for the length word, the outputs of the sub-tasks, the short ids. */
    method Assemble(c: Context, clock: nat -> real, hdrEnd: nat, lastIdx: nat, ghost works: seq<seq<TxOffsets>>)
      returns (ok: bool)
      requires Valid() && c.Valid() && lastIdx < |subTasks| && 0 < hdrEnd <= |c.block| && |works| == lastIdx + 1
      requires outputBuffer.Contents() == [] && shortIds == []
      requires forall k | 0 <= k <= lastIdx :: subTasks[k].offsets == works[k]
      modifies this`shortIds, outputBuffer, Objects()
      ensures Valid() && ok == WorksInside(c, works)
      ensures ok ==> outputBuffer.Contents() == Message(c.block[..hdrEnd], Bodies(c, clock, works), SidsOf(c, clock, works))
      ensures ok ==> shortIds == SidsOf(c, clock, works)
    {
      hide Bodies, SidsOf, WorksInside, Context.Valid, LittleEndian, Message, EncodeSids, Buffer.CopyFromBuffer, ListsSound;
      CopyBehindGap(outputBuffer.State(), c.block, OFFSET_DIFF, hdrEnd);
      var _, _ := outputBuffer.CopyFromBuffer(c.block, OFFSET_DIFF, 0, hdrEnd);
      ghost var front := outputBuffer.Contents();
      ok := CollectAll(c, clock, lastIdx, works);
      if !ok {
        return;
      }
      MessageOf(c.block[..hdrEnd], Bodies(c, clock, works), SidsOf(c, clock, works), front);
      assert shortIds == SidsOf(c, clock, works);
      SetOutputBuffer(outputBuffer.length);
    }

    /** What the enqueued sub-tasks work on: the bulks of the block, behind what is left in their lists. */
    ghost function WorksFor(ts: seq<TxOffsets>, poolSize: nat): seq<seq<TxOffsets>>
      requires poolSize >= 1
      reads this
    {
      var bulk := BulkSize(|ts|, poolSize, minimalTxCount);
      Works(InitLists(Lists(), poolSize), ts, BulkCuts(|ts|, bulk, poolSize))
    }

    /**
     Compresses a block. For every pool size, every minimal bulk and whatever the buffers
     and the offset lists held before, the result is what the enqueued sub-tasks make of
     their lists. Fails on a block that cannot be walked, and where the source would read
     past the block.
     */
    method Execute(c: Context, clock: nat -> real, poolSize: nat) returns (ok: bool)
      requires Valid() && c.Valid() && poolSize >= 1
      requires outputBuffer.Contents() == [] && shortIds == []
      modifies this, outputBuffer, Objects()
      ensures Valid() && outputBuffer == old(outputBuffer)
      ensures ok <==> BlockBounds(c.block).Some? && WorksInside(c, old(WorksFor(BlockBounds(c.block).value.1, poolSize)))
      ensures ok ==>
                var (hdrEnd, ts) := BlockBounds(c.block).value;
                var works := old(WorksFor(ts, poolSize));
                && hdrEnd <= |c.block|
                && outputBuffer.Contents() == Message(c.block[..hdrEnd], Bodies(c, clock, works), SidsOf(c, clock, works))
                && shortIds == SidsOf(c, clock, works)
      ensures ok ==>
                var (hdrEnd, ts) := BlockBounds(c.block).value;
                var bulk := BulkSize(|ts|, poolSize, minimalTxCount);
                var d := Clocked(c, clock, ts, BulkCuts(|ts|, bulk, poolSize));
                && d.Valid() && d.AllInside(ts) && d.block == c.block
                && (outputBuffer.Contents() == d.Compressed(hdrEnd, ts)
                    <==> NothingKept(old(Lists()), poolSize, LastIndex(|ts|, bulk, poolSize) + 1))
    {
      hide Context.Valid, GetVarint, TxBounds, LittleEndian, Message, Bodies, SidsOf, WorksInside, BulkCuts,
           BulkSize, ListsSound, InitLists;
      hide Objects, Valid;
      var txCount := GetVarint(c.block, BLOCK_TX_COUNT_OFFSET);
      if txCount.None? {
        return false;
      }
      var hdrEnd := txCount.value.next;
      VarintAdvances(c.block, BLOCK_TX_COUNT_OFFSET);
      var lastIdx;
      ghost var cuts, enqueued;
      ok, lastIdx, cuts, enqueued := Dispatch(c.block, txCount.value.value, hdrEnd, poolSize);
      if !ok {
        return false;
      }
      ghost var ts := TxBounds(c.block, hdrEnd, txCount.value.value).value;
      ghost var works := old(WorksFor(ts, poolSize));
      assert forall k | 0 <= k <= lastIdx :: subTasks[k].offsets == works[k] by {
        ghost var before := InitLists(old(Lists()), poolSize);
        assert forall k | 0 <= k <= lastIdx :: HasBulk(subTasks[k].offsets, before[k], ts, cuts, k);
      }
      ok := Assemble(c, clock, hdrEnd, lastIdx, works);
      if ok {
        hide Works, NothingKept, LastIndex, Context.AllInside, Context.Compressed, Clocked;
        SequentialExact(c, clock, hdrEnd, ts, old(Lists()), poolSize, BulkSize(|ts|, poolSize, minimalTxCount));
      }
    }
  }

  lemma CutsAreBulkCuts(cuts: seq<nat>, txCount: nat, bulk: nat, poolSize: nat)
    requires bulk >= 1 && poolSize >= 1 && |cuts| == LastIndex(txCount, bulk, poolSize) + 2
    requires (forall k | 0 <= k < |cuts| - 1 :: cuts[k] == k * bulk) && cuts[|cuts| - 1] == txCount
    ensures cuts == BulkCuts(txCount, bulk, poolSize)
  {
    hide LastIndex;
  }

  /** An offset list holds what it held before, and bulk k of the transactions. */
  ghost predicate HasBulk(offsets: seq<TxOffsets>, before: seq<TxOffsets>, ts: seq<TxOffsets>, cuts: seq<nat>, k: nat) {
    k + 1 < |cuts| && cuts[k] <= cuts[k + 1] <= |ts| && offsets == before + ts[cuts[k]..cuts[k + 1]]
  }

  /** The offset lists while transactions `ts` are being spread: `prev` is the current sub-task. */
  ghost predicate Spread(was: seq<TaskData>, now: seq<TaskData>, ts: seq<TxOffsets>, cuts: seq<nat>, prev: nat) {
    && |now| == |was| && prev < |was| && |cuts| == prev + 1
    && Cuts(cuts, prev, cuts[prev]) && cuts[prev] <= |ts|
    && (forall k | 0 <= k < |now| :: now[k].subTask == was[k].subTask)
    && (forall k | 0 <= k < prev :: HasBulk(now[k].offsets, was[k].offsets, ts, cuts, k))
    && now[prev].offsets == was[prev].offsets + ts[cuts[prev]..]
    && (forall k | prev < k < |now| :: now[k] == was[k])
  }

  lemma SpreadStart(was: seq<TaskData>)
    requires |was| >= 1
    ensures Spread(was, was, [], [0], 0)
  {
  }

  /** A further transaction goes to the current sub-task, or opens the next one. */
  lemma SpreadPush(was: seq<TaskData>, now: seq<TaskData>, ts: seq<TxOffsets>, cuts: seq<nat>, prev: nat, t: TxOffsets)
    requires Spread(was, now, ts, cuts, prev)
    ensures prev < |now| && |cuts| == prev + 1
    ensures Spread(was, now[prev := now[prev].(offsets := now[prev].offsets + [t])], ts + [t], cuts, prev)
    ensures prev + 1 < |now| ==>
              Spread(was, now[prev + 1 := now[prev + 1].(offsets := now[prev + 1].offsets + [t])],
                     ts + [t], cuts + [|ts|], prev + 1)
  {
    forall k | 0 <= k < prev
      ensures HasBulk(now[k].offsets, was[k].offsets, ts + [t], cuts, k)
      ensures HasBulk(now[k].offsets, was[k].offsets, ts + [t], cuts + [|ts|], k)
    {
      assert HasBulk(now[k].offsets, was[k].offsets, ts, cuts, k);
      assert (ts + [t])[cuts[k]..cuts[k + 1]] == ts[cuts[k]..cuts[k + 1]];
    }
    assert (ts + [t])[cuts[prev]..] == ts[cuts[prev]..] + [t];
    if prev + 1 < |now| {
      assert (ts + [t])[|ts|..] == [t];
      assert (ts + [t])[cuts[prev]..|ts|] == ts[cuts[prev]..];
      assert HasBulk(now[prev].offsets, was[prev].offsets, ts + [t], cuts + [|ts|], prev);
    }
  }

  /** After the last transaction the last cut closes the tiling. */
  lemma SpreadClose(was: seq<TaskData>, now: seq<TaskData>, ts: seq<TxOffsets>, cuts: seq<nat>, prev: nat)
    requires Spread(was, now, ts, cuts, prev)
    ensures |now| == |was| && prev < |was|
    ensures var all := cuts + [|ts|];
            && Cuts(all, prev + 1, |ts|)
            && (forall k | 0 <= k <= prev :: HasBulk(now[k].offsets, was[k].offsets, ts, all, k))
            && (forall k | prev < k < |now| :: now[k] == was[k])
            && (forall k | 0 <= k < |now| :: now[k].subTask == was[k].subTask)
  {
    var all := cuts + [|ts|];
    assert ts[cuts[prev]..] == ts[cuts[prev]..|ts|];
    forall k | 0 <= k <= prev
      ensures HasBulk(now[k].offsets, was[k].offsets, ts, all, k)
    {
      assert k < prev ==> HasBulk(now[k].offsets, was[k].offsets, ts, cuts, k);
    }
  }

  /** The end of the transaction count, and the boundaries of the transactions, of a block that can be walked. */
  function BlockBounds(block: seq<byte>): Option<(nat, seq<TxOffsets>)> {
    match GetVarint(block, BLOCK_TX_COUNT_OFFSET)
    case None => None
    case Some(Read(n, hdrEnd)) =>
      match TxBounds(block, hdrEnd, n)
      case None => None
      case Some(ts) => Some((hdrEnd, ts))
  }

  /** The transactions of the block end inside the buffer; the source reads past it otherwise. */
  predicate EndsInside(block: seq<byte>) {
    BlockBounds(block).Some? ==>
      var (hdrEnd, ts) := BlockBounds(block).value;
      EndOf(hdrEnd, ts) <= |block|
  }

  /** Transactions that end inside the block are all inside it. */
  lemma EndsInsideExact(c: Context, hdrEnd: nat, ts: seq<TxOffsets>)
    requires BlockBounds(c.block) == Some((hdrEnd, ts))
    ensures c.AllInside(ts) <==> EndsInside(c.block)
  {
    hide TxBounds, GetVarint, Walked, Sound;
    VarintAdvances(c.block, BLOCK_TX_COUNT_OFFSET);
    TxBoundsShape(c.block, hdrEnd, GetVarint(c.block, BLOCK_TX_COUNT_OFFSET).value.value);
    if c.AllInside(ts) && ts != [] {
      assert Inside(c.block, ts[|ts| - 1]);
    }
  }

  /** With nothing left in the lists no sub-task reads past the block exactly if the transactions end inside it. */
  lemma CleanWorksInside(c: Context, hdrEnd: nat, before: seq<seq<TxOffsets>>, ts: seq<TxOffsets>, cuts: seq<nat>)
    requires |cuts| >= 1 && Cuts(cuts, |cuts| - 1, |ts|) && |cuts| - 1 <= |before| && NoneLeft(before, |cuts| - 1)
    requires BlockBounds(c.block) == Some((hdrEnd, ts))
    ensures WorksInside(c, Works(before, ts, cuts)) <==> EndsInside(c.block)
  {
    hide BlockBounds, Inside, EndsInside;
    EndsInsideExact(c, hdrEnd, ts);
    var works := Works(before, ts, cuts);
    if WorksInside(c, works) {
      BulksInside(c, before, ts, cuts);
    }
    assert forall k | 0 <= k < |works| :: works[k] == ts[cuts[k]..cuts[k + 1]];
  }

  lemma {:induction false} BoundsStop(b: seq<byte>, start: nat, m: nat, n: nat)
    requires m <= n && TxBounds(b, start, m).None?
    ensures TxBounds(b, start, n).None?
  {
    if m < n {
      BoundsStop(b, start, m, n - 1);
    }
  }
}
