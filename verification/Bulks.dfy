/**
 What the two decompression tasks have in common: the items of a compressed block, the
 chunks they expand to, and the records the dispatch loop prepares for the sub-tasks.
 */
module Bulks {
  import opened Bytes
  import opened Wrappers
  import opened Partition
  import opened ParallelCopy

  /** What the receiver knows. */
  datatype Receiver = Receiver(sidToHash: map<ShortId, Sha256>, contents: map<Sha256, seq<byte>>) {
    predicate Known(sid: ShortId) {
      sid in sidToHash && sid != NULL_TX_SID && sidToHash[sid] in contents
    }

    function Content(sid: ShortId): seq<byte>
      requires Known(sid)
    {
      contents[sidToHash[sid]]
    }

    predicate KnowsAll(sids: seq<ShortId>) {
      forall i | 0 <= i < |sids| :: Known(sids[i])
    }
  }

  /** What decompression comes to. */
  datatype Outcome =
    | Block(bytes: seq<byte>)
    | Missing(hashes: seq<Sha256>, sids: seq<ShortId>)
    | Failed

  function UnknownSids(r: Receiver, sids: seq<ShortId>): seq<ShortId> {
    if sids == [] then []
    else
      var sid := sids[|sids| - 1];
      UnknownSids(r, sids[..|sids| - 1]) + if sid in r.sidToHash && sid != NULL_TX_SID then [] else [sid]
  }

  function UnknownHashes(r: Receiver, sids: seq<ShortId>): seq<Sha256> {
    if sids == [] then []
    else
      var sid := sids[|sids| - 1];
      UnknownHashes(r, sids[..|sids| - 1])
      + if sid in r.sidToHash && sid != NULL_TX_SID && r.sidToHash[sid] !in r.contents then [r.sidToHash[sid]] else []
  }

  /** Nothing is missing exactly when every short id is known with its contents. */
  lemma {:induction false} NothingMissing(r: Receiver, sids: seq<ShortId>)
    ensures r.KnowsAll(sids) <==> UnknownSids(r, sids) == [] && UnknownHashes(r, sids) == []
  {
    if sids != [] {
      var rest := sids[..|sids| - 1];
      NothingMissing(r, rest);
      assert forall i | 0 <= i < |sids| :: sids[i] == if i < |rest| then rest[i] else sids[|sids| - 1];
    }
  }

  method GetMissingTransactions(r: Receiver, shortIds: seq<ShortId>)
    returns (success: bool, hashes: seq<Sha256>, sids: seq<ShortId>)
    ensures success == r.KnowsAll(shortIds)
    ensures hashes == UnknownHashes(r, shortIds) && sids == UnknownSids(r, shortIds)
  {
    success, hashes, sids := true, [], [];
    for i := 0 to |shortIds|
      invariant success == r.KnowsAll(shortIds[..i])
      invariant hashes == UnknownHashes(r, shortIds[..i]) && sids == UnknownSids(r, shortIds[..i])
    {
      var sid := shortIds[i];
      assert shortIds[..i + 1][..i] == shortIds[..i];
      assert forall k | 0 <= k <= i :: shortIds[..i + 1][k] == if k < i then shortIds[..i][k] else sid;
      if sid in r.sidToHash && sid != NULL_TX_SID {
        if r.sidToHash[sid] !in r.contents {
          hashes := hashes + [r.sidToHash[sid]];
          success := false;
        }
      } else {
        sids := sids + [sid];
        success := false;
      }
    }
    assert shortIds[..|shortIds|] == shortIds;
  }

  /** One transaction of a compressed block: a marker, or a place in the message where its bytes are. */
  datatype Item = Item(from: nat, end: nat, short: bool)

  /** How many of the items are markers. */
  function Shorts(items: seq<Item>): nat {
    if items == [] then 0 else Shorts(items[..|items| - 1]) + if items[|items| - 1].short then 1 else 0
  }

  lemma {:induction false} ShortsAppend(a: seq<Item>, b: seq<Item>)
    ensures Shorts(a + b) == Shorts(a) + Shorts(b)
  {
    if b == [] {
      assert a + b == a;
    } else {
      ShortsAppend(a, b[..|b| - 1]);
      assert (a + b)[..|a + b| - 1] == a + b[..|b| - 1];
    }
  }

  lemma ShortsPrefix(items: seq<Item>, i: nat, j: nat)
    requires i <= j <= |items|
    ensures Shorts(items[..j]) == Shorts(items[..i]) + Shorts(items[i..j])
    ensures Shorts(items[..i]) <= Shorts(items[..j]) <= Shorts(items)
  {
    assert items[..j] == items[..i] + items[i..j];
    assert items == items[..j] + items[j..];
    ShortsAppend(items[..i], items[i..j]);
    ShortsAppend(items[..j], items[j..]);
  }

  lemma ShortsSnoc(items: seq<Item>, item: Item)
    ensures Shorts(items + [item]) == Shorts(items) + if item.short then 1 else 0
  {
    assert (items + [item])[..|items|] == items;
  }

  lemma ShortsAt(items: seq<Item>, j: nat)
    requires j < |items|
    ensures Shorts(items[..j + 1]) == Shorts(items[..j]) + if items[j].short then 1 else 0
  {
    assert items[..j + 1] == items[..j] + [items[j]];
    ShortsSnoc(items[..j], items[j]);
  }

  /** The bytes and the short ids of the message, and the receiver. */
  datatype Source = Source(b: seq<byte>, sids: seq<ShortId>, receiver: Receiver) {
    predicate Valid() {
      receiver.KnowsAll(sids)
    }

    /** The items lie in the message, and there are short ids enough. */
    ghost predicate Fits(items: seq<Item>) {
      && Shorts(items) <= |sids|
      && forall i | 0 <= i < |items| :: items[i].from <= items[i].end <= |b|
    }

    /** The bytes an item stands for, `k` markers being before it. */
    function ChunkOf(item: Item, k: nat): seq<byte>
      requires Valid() && (item.short ==> k < |sids|) && item.from <= item.end <= |b|
    {
      if item.short then receiver.Content(sids[k]) else b[item.from..item.end]
    }

    lemma FitsPrefix(items: seq<Item>)
      requires Fits(items) && items != []
      ensures Fits(items[..|items| - 1])
      ensures var last := items[|items| - 1];
              (last.short ==> Shorts(items[..|items| - 1]) < |sids|) && last.from <= last.end <= |b|
    {
    }

    function Chunks(items: seq<Item>): (r: seq<seq<byte>>)
      requires Valid() && Fits(items)
      ensures |r| == |items|
    {
      if items == [] then []
      else
        FitsPrefix(items);
        Chunks(items[..|items| - 1]) + [ChunkOf(items[|items| - 1], Shorts(items[..|items| - 1]))]
    }

    lemma {:induction false} ChunkAt(items: seq<Item>, j: nat)
      requires Valid() && Fits(items) && j < |items|
      ensures items[j].short ==> Shorts(items[..j]) < |sids|
      ensures Chunks(items)[j] == ChunkOf(items[j], Shorts(items[..j]))
    {
      FitsPrefix(items);
      if j < |items| - 1 {
        ChunkAt(items[..|items| - 1], j);
        assert items[..|items| - 1][..j] == items[..j];
      }
    }
  }

  predicate NonEmpty(chunks: seq<seq<byte>>, i: nat, j: nat)
    requires j <= |chunks|
  {
    forall k | i <= k < j :: chunks[k] != []
  }

  lemma {:induction false} ChunksPrefix(src: Source, items: seq<Item>, m: nat)
    requires src.Valid() && src.Fits(items) && m <= |items|
    ensures src.Fits(items[..m]) && src.Chunks(items[..m]) == src.Chunks(items)[..m]
  {
    if m < |items| {
      src.FitsPrefix(items);
      ChunksPrefix(src, items[..|items| - 1], m);
      assert items[..|items| - 1][..m] == items[..m];
    } else {
      assert items[..m] == items;
    }
  }

  lemma ChunksGrow(src: Source, items: seq<Item>, m: nat)
    requires src.Valid() && src.Fits(items) && m <= |items|
    ensures src.Fits(items[..m])
    ensures |Flatten(src.Chunks(items[..m]))| <= |Flatten(src.Chunks(items))|
  {
    ChunksPrefix(src, items, m);
    var chunks := src.Chunks(items);
    assert chunks == chunks[..m] + chunks[m..];
    FlattenAppend(chunks[..m], chunks[m..]);
  }

  // ---------------------------------------------------------------- records

  datatype Record = Record(offsets: seq<Item>, shortIdsOffset: nat, shortIdsLen: nat, outputOffset: nat)

  const CLEARED := Record([], 0, 0, 0)

  /** A record is right for the items i up to j: its share of items and sids, and its place in the output. */
  ghost predicate Right(src: Source, items: seq<Item>, base: nat, t: Record, i: nat, j: nat)
    requires src.Valid() && src.Fits(items)
  {
    && i <= j <= |items|
    && t.offsets == items[i..j]
    && t.shortIdsOffset == Shorts(items[..i])
    && t.shortIdsLen == Shorts(items[i..j])
    && t.outputOffset == base + |Flatten(src.Chunks(items)[..i])|
  }

  /** Record k is right for bulk k. */
  ghost predicate BulkRight(src: Source, items: seq<Item>, base: nat, tasks: seq<Record>, cuts: seq<nat>, k: nat)
    requires src.Valid() && src.Fits(items)
  {
    k < |tasks| && k + 1 < |cuts| && Right(src, items, base, tasks[k], cuts[k], cuts[k + 1])
  }

  /** The records are right for the whole block, one bulk each; unused ones are clear. */
  ghost predicate AllRight(src: Source, items: seq<Item>, base: nat, tasks: seq<Record>, cuts: seq<nat>, last: nat)
    requires src.Valid() && src.Fits(items)
  {
    && last < |tasks| && Cuts(cuts, last + 1, |items|)
    && (forall k | 0 <= k <= last :: BulkRight(src, items, base, tasks, cuts, k))
    && (forall k | last < k < |tasks| :: tasks[k] == CLEARED)
  }

  /** The local state of the dispatch loop. */
  datatype Loop = Loop(tasks: seq<Record>, prev: nat, shortIdsOffset: nat, prevOutputOffset: nat, outputOffset: nat)

  /** What holds when `items` have been walked over and `prev` is the current sub-task. */
  ghost predicate Spreading(src: Source, base: nat, items: seq<Item>, cuts: seq<nat>, l: Loop)
    requires src.Valid() && src.Fits(items)
  {
    var chunks := src.Chunks(items);
    && l.prev < |l.tasks| && |cuts| == l.prev + 1 && Cuts(cuts, l.prev, cuts[l.prev]) && cuts[l.prev] <= |items|
    && (forall k | 0 <= k < l.prev :: BulkRight(src, items, base, l.tasks, cuts, k))
    && l.tasks[l.prev] == Record(items[cuts[l.prev]..], 0, Shorts(items[cuts[l.prev]..]), 0)
    && (forall k | l.prev < k < |l.tasks| :: l.tasks[k] == CLEARED)
    && l.shortIdsOffset == Shorts(items[..cuts[l.prev]])
    && l.prevOutputOffset == base + |Flatten(chunks[..cuts[l.prev]])|
    && l.outputOffset == base + |Flatten(chunks)|
  }

  /** The record of the current sub-task with one more item. */
  function Push(t: Record, item: Item): Record {
    t.(offsets := t.offsets + [item], shortIdsLen := t.shortIdsLen + if item.short then 1 else 0)
  }

  lemma SpreadingStart(src: Source, base: nat, n: nat)
    requires src.Valid() && n >= 1
    ensures src.Fits([])
    ensures Spreading(src, base, [], [0], Loop(seq(n, _ => CLEARED), 0, 0, base, base))
    ensures Extended([], seq(n, _ => CLEARED), 0, base)
  {
  }

  lemma RightGrows(src: Source, base: nat, items: seq<Item>, item: Item, t: Record, i: nat, j: nat)
    requires src.Valid() && src.Fits(items) && src.Fits(items + [item])
    requires Right(src, items, base, t, i, j)
    ensures Right(src, items + [item], base, t, i, j)
  {
    var more := items + [item];
    src.FitsPrefix(more);
    assert more[..|items|] == items;
    assert more[i..j] == items[i..j] && more[..i] == items[..i];
    assert src.Chunks(more)[..i] == src.Chunks(items)[..i];
  }

  lemma PushedSlices(items: seq<Item>, item: Item, c: nat)
    requires c <= |items|
    ensures (items + [item])[c..] == items[c..] + [item] && (items + [item])[..c] == items[..c]
    ensures Shorts((items + [item])[c..]) == Shorts(items[c..]) + if item.short then 1 else 0
  {
    assert (items[c..] + [item])[..|items| - c] == items[c..];
  }

  lemma PushedChunks(src: Source, items: seq<Item>, item: Item, c: nat)
    requires src.Valid() && src.Fits(items + [item]) && c <= |items|
    ensures src.Fits(items)
    ensures (item.short ==> Shorts(items) < |src.sids|) && item.from <= item.end <= |src.b|
    ensures src.Chunks(items + [item])[..c] == src.Chunks(items)[..c]
    ensures |Flatten(src.Chunks(items + [item]))| ==
            |Flatten(src.Chunks(items))| + |src.ChunkOf(item, Shorts(items))|
  {
    var more := items + [item];
    src.FitsPrefix(more);
    assert more[..|items|] == items;
    FlattenSnoc(src.Chunks(items), src.ChunkOf(item, Shorts(items)));
  }

  /** One more item goes to the current sub-task, even when the index has just moved on. */
  lemma SpreadingStays(src: Source, base: nat, items: seq<Item>, cuts: seq<nat>, l: Loop, item: Item)
    requires src.Valid() && src.Fits(items) && src.Fits(items + [item])
    requires Spreading(src, base, items, cuts, l)
    ensures (item.short ==> Shorts(items) < |src.sids|) && item.from <= item.end <= |src.b|
    ensures l.prev < |l.tasks|
    ensures Spreading(src, base, items + [item], cuts,
                      l.(tasks := l.tasks[l.prev := Push(l.tasks[l.prev], item)],
                         outputOffset := l.outputOffset + |src.ChunkOf(item, Shorts(items))|))
  {
    hide Right, Source.Fits, Source.Chunks, Source.ChunkOf, Source.Valid, Shorts, Flatten;
    var more, c, t := items + [item], cuts[l.prev], Push(l.tasks[l.prev], item);
    PushedChunks(src, items, item, c);
    PushedSlices(items, item, c);
    var tasks := l.tasks[l.prev := t];
    assert tasks[l.prev] == Record(more[c..], 0, Shorts(more[c..]), 0);
    forall k | 0 <= k < l.prev
      ensures BulkRight(src, more, base, tasks, cuts, k)
    {
      assert BulkRight(src, items, base, l.tasks, cuts, k);
      RightGrows(src, base, items, item, l.tasks[k], cuts[k], cuts[k + 1]);
    }
  }

  /** Filling in the two offsets completes the record of the current sub-task. */
  lemma SpreadingFill(src: Source, base: nat, items: seq<Item>, cuts: seq<nat>, l: Loop)
    requires src.Valid() && src.Fits(items) && Spreading(src, base, items, cuts, l)
    ensures var t := l.tasks[l.prev].(outputOffset := l.prevOutputOffset, shortIdsOffset := l.shortIdsOffset);
            Right(src, items, base, t, cuts[l.prev], |items|)
  {
    assert items[cuts[l.prev]..] == items[cuts[l.prev]..|items|];
  }

  /** The index moves on: the current record is completed, and a new bulk begins behind the last item. */
  lemma SpreadingMoves(src: Source, base: nat, items: seq<Item>, cuts: seq<nat>, l: Loop)
    requires src.Valid() && src.Fits(items) && Spreading(src, base, items, cuts, l) && l.prev + 1 < |l.tasks|
    ensures var t := l.tasks[l.prev].(outputOffset := l.prevOutputOffset, shortIdsOffset := l.shortIdsOffset);
            Spreading(src, base, items, cuts + [|items|],
                      Loop(l.tasks[l.prev := t], l.prev + 1, l.shortIdsOffset + t.shortIdsLen, l.outputOffset, l.outputOffset))
  {
    assert Shorts([]) == 0;
    hide Right, Flatten, Shorts, Source.Chunks, Source.Fits, Source.Valid;
    SpreadingFill(src, base, items, cuts, l);
    ShortsPrefix(items, cuts[l.prev], |items|);
    assert items[cuts[l.prev]..|items|] == items[cuts[l.prev]..];
    assert items[..|items|] == items && items[|items|..] == [];
    assert src.Chunks(items)[..|items|] == src.Chunks(items);
    var t := l.tasks[l.prev].(outputOffset := l.prevOutputOffset, shortIdsOffset := l.shortIdsOffset);
    var tasks, all := l.tasks[l.prev := t], cuts + [|items|];
    forall k | 0 <= k < l.prev
      ensures BulkRight(src, items, base, tasks, all, k)
    {
      assert BulkRight(src, items, base, l.tasks, cuts, k);
    }
  }

  lemma SpreadingClose(src: Source, base: nat, items: seq<Item>, cuts: seq<nat>, l: Loop)
    requires src.Valid() && src.Fits(items) && Spreading(src, base, items, cuts, l)
    ensures var t := l.tasks[l.prev].(outputOffset := l.prevOutputOffset, shortIdsOffset := l.shortIdsOffset);
            AllRight(src, items, base, l.tasks[l.prev := t], cuts + [|items|], l.prev)
  {
    hide Right, Flatten, Shorts, Source.Chunks, Source.Fits, Source.Valid;
    SpreadingFill(src, base, items, cuts, l);
    var t := l.tasks[l.prev].(outputOffset := l.prevOutputOffset, shortIdsOffset := l.shortIdsOffset);
    var tasks, all := l.tasks[l.prev := t], cuts + [|items|];
    forall k | 0 <= k < l.prev
      ensures BulkRight(src, items, base, tasks, all, k)
    {
      assert BulkRight(src, items, base, l.tasks, cuts, k);
    }
  }

  /** The state of the loop in the shape the record lemmas speak of: the next short id to be taken. */
  lemma SpreadingNextSid(src: Source, base: nat, items: seq<Item>, cuts: seq<nat>, l: Loop)
    requires src.Valid() && src.Fits(items) && Spreading(src, base, items, cuts, l)
    ensures l.prev < |l.tasks| && l.shortIdsOffset + l.tasks[l.prev].shortIdsLen == Shorts(items)
    ensures l.outputOffset == base + |Flatten(src.Chunks(items))|
  {
    ShortsPrefix(items, cuts[l.prev], |items|);
    assert items[..|items|] == items && items[cuts[l.prev]..|items|] == items[cuts[l.prev]..];
  }

  /** The lengths the buffer was extended to: each time up to where the next sub-task begins, lastly to `at`. */
  ghost predicate Extended(extents: seq<nat>, tasks: seq<Record>, prev: nat, at: nat) {
    && prev < |tasks| && |extents| == prev
    && forall k | 0 <= k < prev :: extents[k] == if k + 1 < prev then tasks[k + 1].outputOffset else at
  }

  lemma ExtendedStays(extents: seq<nat>, tasks: seq<Record>, prev: nat, at: nat, t: Record)
    requires Extended(extents, tasks, prev, at)
    ensures prev < |tasks| && Extended(extents, tasks[prev := t], prev, at)
  {
  }

  lemma ExtendedMoves(extents: seq<nat>, tasks: seq<Record>, prev: nat, at: nat, t: Record, at': nat)
    requires Extended(extents, tasks, prev, at) && prev + 1 < |tasks| && t.outputOffset == at
    ensures Extended(extents + [at'], tasks[prev := t], prev + 1, at')
  {
  }

  lemma ExtendedCloses(extents: seq<nat>, tasks: seq<Record>, prev: nat, at: nat, t: Record)
    requires Extended(extents, tasks, prev, at) && t.outputOffset == at
    ensures prev < |tasks| && |extents| == prev
    ensures forall k | 0 <= k < prev :: extents[k] == tasks[prev := t][k + 1].outputOffset
  {
  }
}
