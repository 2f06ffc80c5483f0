/**
 The placeholders of a compact block: the compact ids in their order, with the prefilled
 transactions between them, and a map from each compact id to where it stands.
 */
module CompactBlockData {
  import opened Bytes
  import opened Wrappers

  type CompactId = s: seq<byte> | |s| == 6 witness seq(6, _ => 0)

  const COMPACT_ID_SIZE := 6

  datatype Kind = ShortIdKind | MissingCompactId | ContentKind

  datatype Placeholder = Placeholder(kind: Kind, cmpt: Option<CompactId>, contents: Option<seq<byte>>, sid: ShortId)

  /** A prefilled transaction and the differential index in front of it. */
  datatype Prefilled = Prefilled(diff: nat, content: seq<byte>, hash: Sha256)

  /** A compact id that nothing is known about yet. */
  function Unresolved(id: CompactId): Placeholder {
    Placeholder(MissingCompactId, Some(id), None, NULL_TX_SID)
  }

  function Given(known: map<Sha256, ShortId>, p: Prefilled): Placeholder {
    if p.hash in known then Placeholder(ShortIdKind, None, Some(p.content), known[p.hash])
    else Placeholder(ContentKind, None, Some(p.content), NULL_TX_SID)
  }

  function Run(ids: seq<CompactId>, from: nat, n: nat): (r: seq<Placeholder>)
    requires from + n <= |ids|
    ensures |r| == n
  {
    seq(n, i requires 0 <= i < n => Unresolved(ids[from + i]))
  }

  /** How many compact ids stand in front of prefilled transaction k, by the code's reading of the differences. */
  function UsedBefore(prefilled: seq<Prefilled>, k: nat): nat
    requires k <= |prefilled|
  {
    if k == 0 then 0 else UsedBefore(prefilled, k - 1) + prefilled[k - 1].diff / COMPACT_ID_SIZE
  }

  /** The placeholders up to and with prefilled transaction k - 1. None when the ids do not suffice. */
  function PlacedUpTo(ids: seq<CompactId>, prefilled: seq<Prefilled>, known: map<Sha256, ShortId>, k: nat):
    (r: Option<seq<Placeholder>>)
    requires k <= |prefilled|
    ensures r.Some? <==> UsedBefore(prefilled, k) <= |ids|
    ensures r.Some? ==> |r.value| == k + UsedBefore(prefilled, k)
  {
    if k == 0 then Some([])
    else
      var n := prefilled[k - 1].diff / COMPACT_ID_SIZE;
      match PlacedUpTo(ids, prefilled, known, k - 1)
      case None => None
      case Some(before) =>
        var used := UsedBefore(prefilled, k - 1);
        if used + n > |ids| then None else Some(before + Run(ids, used, n) + [Given(known, prefilled[k - 1])])
  }

  function Placed(ids: seq<CompactId>, prefilled: seq<Prefilled>, known: map<Sha256, ShortId>):
    (r: Option<seq<Placeholder>>)
    ensures r.Some? <==> UsedBefore(prefilled, |prefilled|) <= |ids|
    ensures r.Some? ==> |r.value| == |ids| + |prefilled|
  {
    match PlacedUpTo(ids, prefilled, known, |prefilled|)
    case None => None
    case Some(before) =>
      var used := UsedBefore(prefilled, |prefilled|);
      Some(before + Run(ids, used, |ids| - used))
  }

  /** Where each compact id stands first. */
  function IndexOf(ps: seq<Placeholder>): map<CompactId, nat>
  {
    if ps == [] then map[]
    else
      var before := IndexOf(ps[..|ps| - 1]);
      var last := ps[|ps| - 1].cmpt;
      if last.None? || last.value in before then before else before[last.value := |ps| - 1]
  }

  /** The compact ids among the placeholders, in order. */
  function IdsOf(ps: seq<Placeholder>): seq<CompactId> {
    if ps == [] then []
    else IdsOf(ps[..|ps| - 1]) + if ps[|ps| - 1].cmpt.Some? then [ps[|ps| - 1].cmpt.value] else []
  }

  lemma IdsSnoc(ps: seq<Placeholder>, p: Placeholder)
    ensures IdsOf(ps + [p]) == IdsOf(ps) + if p.cmpt.Some? then [p.cmpt.value] else []
  {
    assert (ps + [p])[..|ps|] == ps;
  }

  lemma RunSnoc(ps: seq<Placeholder>, ids: seq<CompactId>, from: nat, n: nat)
    requires 0 < n && from + n <= |ids|
    ensures ps + Run(ids, from, n) == (ps + Run(ids, from, n - 1)) + [Unresolved(ids[from + n - 1])]
  {
  }

  lemma {:induction false} IdsOfRun(ps: seq<Placeholder>, ids: seq<CompactId>, from: nat, n: nat)
    requires from + n <= |ids|
    ensures IdsOf(ps + Run(ids, from, n)) == IdsOf(ps) + ids[from..from + n]
    decreases n
  {
    hide IdsOf, Run;
    if n == 0 {
      assert ps + Run(ids, from, 0) == ps;
    } else {
      IdsOfRun(ps, ids, from, n - 1);
      RunSnoc(ps, ids, from, n);
      IdsSnoc(ps + Run(ids, from, n - 1), Unresolved(ids[from + n - 1]));
      assert ids[from..from + n] == ids[from..from + n - 1] + [ids[from + n - 1]];
    }
  }

  lemma {:induction false} IdsOfPlacedUpTo(ids: seq<CompactId>, prefilled: seq<Prefilled>, known: map<Sha256, ShortId>, k: nat)
    requires k <= |prefilled| && PlacedUpTo(ids, prefilled, known, k).Some?
    ensures IdsOf(PlacedUpTo(ids, prefilled, known, k).value) == ids[..UsedBefore(prefilled, k)]
  {
    if k == 0 {
      assert IdsOf([]) == [];
    } else {
      IdsOfPlacedUpTo(ids, prefilled, known, k - 1);
      var before := PlacedUpTo(ids, prefilled, known, k - 1).value;
      IdsOfNext(before, ids, UsedBefore(prefilled, k - 1), prefilled[k - 1].diff / COMPACT_ID_SIZE, Given(known, prefilled[k - 1]));
    }
  }

  lemma IdsOfNext(before: seq<Placeholder>, ids: seq<CompactId>, used: nat, n: nat, given: Placeholder)
    requires used + n <= |ids| && IdsOf(before) == ids[..used] && given.cmpt.None?
    ensures IdsOf(before + Run(ids, used, n) + [given]) == ids[..used + n]
  {
    hide IdsOf, Run;
    IdsOfRun(before, ids, used, n);
    IdsSnoc(before + Run(ids, used, n), given);
    assert ids[..used] + ids[used..used + n] == ids[..used + n];
  }

  /** The placeholders hold all compact ids of the block, in their order. */
  lemma IdsOfPlaced(ids: seq<CompactId>, prefilled: seq<Prefilled>, known: map<Sha256, ShortId>)
    requires Placed(ids, prefilled, known).Some?
    ensures IdsOf(Placed(ids, prefilled, known).value) == ids
  {
    var used := UsedBefore(prefilled, |prefilled|);
    IdsOfPlacedUpTo(ids, prefilled, known, |prefilled|);
    IdsOfRun(PlacedUpTo(ids, prefilled, known, |prefilled|).value, ids, used, |ids| - used);
    assert ids[..used] + ids[used..|ids|] == ids;
  }

  /** The recorded index of a compact id is where it stands, and nothing else is recorded. */
  lemma {:induction false} IndexRight(ps: seq<Placeholder>)
    ensures forall id | id in IndexOf(ps) :: IndexOf(ps)[id] < |ps| && ps[IndexOf(ps)[id]].cmpt == Some(id)
    ensures forall id :: id in IndexOf(ps) <==> id in IdsOf(ps)
  {
    if ps != [] {
      IndexRight(ps[..|ps| - 1]);
    }
  }

  predicate DistinctIds(ids: seq<CompactId>) {
    forall i, j | 0 <= i < j < |ids| :: ids[i] != ids[j]
  }

  lemma DistinctFront(ids: seq<CompactId>, id: CompactId)
    requires DistinctIds(ids + [id])
    ensures DistinctIds(ids) && id !in ids
  {
    var all := ids + [id];
    assert forall i | 0 <= i < |ids| :: all[i] == ids[i];
    assert all[|ids|] == id;
  }

  /** Each compact id is recorded at its place. */
  predicate AllRecorded(ps: seq<Placeholder>, index: map<CompactId, nat>) {
    forall i | 0 <= i < |ps| && ps[i].cmpt.Some? :: ps[i].cmpt.value in index && index[ps[i].cmpt.value] == i
  }

  lemma RecordedSnoc(ps: seq<Placeholder>, p: Placeholder, index: map<CompactId, nat>)
    requires AllRecorded(ps, index) && (p.cmpt.Some? ==> p.cmpt.value !in index)
    requires forall i | 0 <= i < |ps| && ps[i].cmpt.Some? && p.cmpt.Some? :: ps[i].cmpt != p.cmpt
    ensures AllRecorded(ps + [p], if p.cmpt.Some? then index[p.cmpt.value := |ps|] else index)
  {
  }

  /** With distinct compact ids every one of them is recorded where it stands, once. */
  lemma {:induction false} DistinctIndex(ps: seq<Placeholder>)
    requires DistinctIds(IdsOf(ps))
    ensures |IndexOf(ps)| == |IdsOf(ps)| && AllRecorded(ps, IndexOf(ps))
  {
    if ps != [] {
      var n := |ps| - 1;
      var before, last := ps[..n], ps[n];
      assert ps == before + [last];
      if last.cmpt.Some? {
        DistinctFront(IdsOf(before), last.cmpt.value);
      } else {
        assert IdsOf(ps) == IdsOf(before);
      }
      IndexRight(before);
      DistinctIndex(before);
      hide AllRecorded, DistinctIds;
      RecordedHere(before);
      RecordedSnoc(before, last, IndexOf(before));
    }
  }

  /** No more are recorded than there are, and as many exactly if they are distinct. */
  lemma {:induction false} DistinctExact(ps: seq<Placeholder>)
    ensures |IndexOf(ps)| <= |IdsOf(ps)|
    ensures |IndexOf(ps)| == |IdsOf(ps)| <==> DistinctIds(IdsOf(ps))
  {
    if ps != [] {
      var before, last := ps[..|ps| - 1], ps[|ps| - 1].cmpt;
      DistinctExact(before);
      IndexRight(before);
      hide DistinctIds;
      if last.Some? {
        DistinctSnoc(IdsOf(before), last.value);
      } else {
        assert IdsOf(ps) == IdsOf(before);
      }
    }
  }

  lemma DistinctSnoc(ids: seq<CompactId>, id: CompactId)
    ensures DistinctIds(ids + [id]) <==> DistinctIds(ids) && id !in ids
  {
    if DistinctIds(ids + [id]) {
      DistinctFront(ids, id);
    }
  }

  lemma RecordedHere(ps: seq<Placeholder>)
    requires AllRecorded(ps, IndexOf(ps))
    ensures forall i | 0 <= i < |ps| && ps[i].cmpt.Some? :: ps[i].cmpt.value in IndexOf(ps)
  {
  }

  /** A placeholder with a compact id starts unresolved, and no other one is taken for missing. */
  predicate Untouched(p: Placeholder) {
    if p.cmpt.Some? then p == Unresolved(p.cmpt.value) else p.kind != MissingCompactId
  }

  predicate AllUntouched(ps: seq<Placeholder>) {
    forall i | 0 <= i < |ps| :: Untouched(ps[i])
  }

  lemma UntouchedRun(ps: seq<Placeholder>, ids: seq<CompactId>, from: nat, n: nat)
    requires AllUntouched(ps) && from + n <= |ids|
    ensures AllUntouched(ps + Run(ids, from, n))
  {
    var all := ps + Run(ids, from, n);
    forall i | 0 <= i < |all|
      ensures Untouched(all[i])
    {
      assert all[i] == if i < |ps| then ps[i] else Unresolved(ids[from + (i - |ps|)]);
    }
  }

  lemma {:induction false} UntouchedUpTo(ids: seq<CompactId>, prefilled: seq<Prefilled>, known: map<Sha256, ShortId>, k: nat)
    requires k <= |prefilled| && PlacedUpTo(ids, prefilled, known, k).Some?
    ensures AllUntouched(PlacedUpTo(ids, prefilled, known, k).value)
  {
    if k > 0 {
      UntouchedUpTo(ids, prefilled, known, k - 1);
      var used := UsedBefore(prefilled, k - 1);
      UntouchedRun(PlacedUpTo(ids, prefilled, known, k - 1).value, ids, used, prefilled[k - 1].diff / COMPACT_ID_SIZE);
    }
  }

  lemma UntouchedPlaced(ids: seq<CompactId>, prefilled: seq<Prefilled>, known: map<Sha256, ShortId>)
    requires Placed(ids, prefilled, known).Some?
    ensures AllUntouched(Placed(ids, prefilled, known).value)
  {
    var used := UsedBefore(prefilled, |prefilled|);
    UntouchedUpTo(ids, prefilled, known, |prefilled|);
    UntouchedRun(PlacedUpTo(ids, prefilled, known, |prefilled|).value, ids, used, |ids| - used);
  }

  /** Where BIP 152 puts prefilled transaction k: behind as many others as the differences say. */
  function Bip152Position(prefilled: seq<Prefilled>, k: nat): nat
    requires k < |prefilled|
  {
    if k == 0 then prefilled[0].diff else Bip152Position(prefilled, k - 1) + prefilled[k].diff + 1
  }

  lemma {:induction false} PrefilledPlace(ids: seq<CompactId>, prefilled: seq<Prefilled>, known: map<Sha256, ShortId>, k: nat, n: nat)
    requires k < n <= |prefilled| && PlacedUpTo(ids, prefilled, known, n).Some?
    ensures var at := k + UsedBefore(prefilled, k + 1);
            at < |PlacedUpTo(ids, prefilled, known, n).value|
            && PlacedUpTo(ids, prefilled, known, n).value[at] == Given(known, prefilled[k])
    decreases n
  {
    if k < n - 1 {
      PrefilledPlace(ids, prefilled, known, k, n - 1);
    }
  }

  /**
   The differences are divided by the size of a compact id, so a prefilled transaction
   stands where BIP 152 puts it exactly if all differences up to its own are zero.
   */
  lemma {:induction false} PrefilledPositionExact(prefilled: seq<Prefilled>, k: nat)
    requires k < |prefilled|
    ensures k + UsedBefore(prefilled, k + 1) <= Bip152Position(prefilled, k)
    ensures k + UsedBefore(prefilled, k + 1) == Bip152Position(prefilled, k)
            <==> forall i | 0 <= i <= k :: prefilled[i].diff == 0
  {
    if k > 0 {
      PrefilledPositionExact(prefilled, k - 1);
    } else {
      assert UsedBefore(prefilled, 1) == UsedBefore(prefilled, 0) + prefilled[0].diff / COMPACT_ID_SIZE;
    }
  }

  // ---------------------------------------------------------------- the service

  class CompactBlockDataService {
    var txPlaceholders: seq<Placeholder>
    var compactMap: map<CompactId, (ShortId, nat)>
    var totalTxCount: nat
    var compactTxCount: nat

    /** Every compact id is recorded without a short id, and where it stands first. */
    ghost predicate Recorded()
      reads this
    {
      compactMap == map id | id in IndexOf(txPlaceholders) :: (NULL_TX_SID, IndexOf(txPlaceholders)[id])
    }

    constructor ()
      ensures txPlaceholders == [] && compactMap == map[]
    {
      txPlaceholders, compactMap, totalTxCount, compactTxCount := [], map[], 0, 0;
    }

    /** Appends the next n compact ids. `idx` is the place of the first. */
    method FillCompactIds(ids: seq<CompactId>, offset: nat, n: nat, idx: nat)
      requires offset + n <= |ids| && idx == |txPlaceholders| && Recorded()
      modifies this`txPlaceholders, this`compactMap
      ensures Recorded() && txPlaceholders == old(txPlaceholders) + Run(ids, offset, n)
    {
      var compactIdx := 0;
      assert txPlaceholders + Run(ids, offset, 0) == txPlaceholders;
      while compactIdx < n
        invariant compactIdx <= n && Recorded()
        invariant txPlaceholders == old(txPlaceholders) + Run(ids, offset, compactIdx)
      {
        var id := ids[offset + compactIdx];
        ghost var before := txPlaceholders;
        txPlaceholders := txPlaceholders + [Unresolved(id)];
        assert txPlaceholders[..|txPlaceholders| - 1] == before;
        if id !in compactMap {
          compactMap := compactMap[id := (NULL_TX_SID, idx + compactIdx)];
        }
        compactIdx := compactIdx + 1;
      }
    }

    /** Places all transactions. Fails when the differences ask for more compact ids than there are. */
    method Parse(ids: seq<CompactId>, prefilled: seq<Prefilled>, known: map<Sha256, ShortId>) returns (ok: bool)
      requires txPlaceholders == [] && compactMap == map[]
      modifies this
      ensures ok == Placed(ids, prefilled, known).Some?
      ensures ok ==> txPlaceholders == Placed(ids, prefilled, known).value && Recorded()
      ensures ok ==> totalTxCount == |txPlaceholders| && compactTxCount == |ids|
    {
      totalTxCount, compactTxCount := |ids| + |prefilled|, |ids|;
      var idx, compactCount := 0, 0;
      while idx < |prefilled|
        invariant idx <= |prefilled| && compactCount == UsedBefore(prefilled, idx) <= |ids|
        invariant totalTxCount == |ids| + |prefilled| && compactTxCount == |ids|
        invariant Some(txPlaceholders) == PlacedUpTo(ids, prefilled, known, idx) && Recorded()
      {
        var compactDiff := prefilled[idx].diff / COMPACT_ID_SIZE;
        if compactCount + compactDiff > |ids| {
          UsedGrows(prefilled, idx + 1, |prefilled|);
          return false;
        }
        FillCompactIds(ids, compactCount, compactDiff, idx + compactCount);
        compactCount := compactCount + compactDiff;
        ghost var before := txPlaceholders;
        txPlaceholders := txPlaceholders + [Given(known, prefilled[idx])];
        assert txPlaceholders[..|txPlaceholders| - 1] == before;
        idx := idx + 1;
      }
      FillCompactIds(ids, compactCount, |ids| - compactCount, idx + compactCount);
      return true;
    }
  }

  lemma {:induction false} UsedGrows(prefilled: seq<Prefilled>, i: nat, j: nat)
    requires i <= j <= |prefilled|
    ensures UsedBefore(prefilled, i) <= UsedBefore(prefilled, j)
  {
    if i < j {
      UsedGrows(prefilled, i, j - 1);
    }
  }
}
