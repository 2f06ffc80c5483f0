/** The mapping task: what a sub-task does, and the list of what is missing in the end. */
module CompactMappingTask {
  import opened Bytes
  import opened Wrappers
  import opened CompactBlockData
  import opened CompactMapping
  import opened CompactAccounts
  import opened CompactDispatch
  import B = BucketContainers

  // ---------------------------------------------------------------- the task

  class BtcCompactBlockMappingTask {
    var compactMap: map<CompactId, (ShortId, nat)>
    var txPlaceholders: seq<Placeholder>
    var counter: int
    var missingIndices: seq<nat>

    constructor ()
      ensures missingIndices == []
    {
      compactMap, txPlaceholders, counter, missingIndices := map[], [], 0, [];
    }

    /** Clears the list of the block before. */
    method Init()
      modifies this`missingIndices
      ensures missingIndices == []
    {
      missingIndices := [];
    }

    /** The shared parts are those of a state of the race. */
    ghost predicate Reflects(p: Setup, s: State)
      reads this
    {
      && compactMap.Keys == p.index.Keys == s.sids.Keys
      && (forall id | id in compactMap :: compactMap[id] == (s.sids[id], p.index[id]))
      && txPlaceholders == s.placeholders && counter == s.counter && missingIndices == s.missing
    }

    /** An item that matches: claim the entry, fill in the placeholder, count. */
    method Resolve(p: Setup, k: nat, j: nat, ghost s: State) returns (ghost t: State)
      requires p.Sound() && Reachable(p, s) && k < |s.tasks| && s.tasks[k] == Task(j, Cas) && Reflects(p, s)
      modifies this
      ensures Reachable(p, t) && Reflects(p, t) && t.tasks == s.tasks[k := Task(j, Check)]
    {
      hide Reachable, Setup.Sound;
      t := Swaps(p, s, k);
      var sha := p.buckets[k][j];
      var id := p.compactOf(sha);
      var (srcSid, index) := compactMap[id];
      // the compare-and-swap
      var duplicateFound := srcSid != NULL_TX_SID;
      if !duplicateFound {
        compactMap := compactMap[id := (p.sidOf[sha], index)];
      }
      t := FillIn(p, k, j, duplicateFound, t);
    }

    /** The placeholder is written, then the counter is changed; a duplicate or a lack of contents makes it missing. */
    method PutPlaceholder(index: nat, sid: ShortId, content: Option<seq<byte>>, duplicateFound: bool)
      requires index < |txPlaceholders|
      modifies this`txPlaceholders, this`counter, this`missingIndices
      ensures var was := old(txPlaceholders[index]);
              if duplicateFound || content.None?
              then txPlaceholders == old(txPlaceholders)[index := was.(kind := MissingCompactId, sid := NULL_TX_SID)]
                   && missingIndices == old(missingIndices) + [index]
                   && counter == old(counter) - if duplicateFound then 1 else 0
              else txPlaceholders == old(txPlaceholders)[index := was.(kind := ShortIdKind, sid := sid, contents := content)]
                   && missingIndices == old(missingIndices) && counter == old(counter) + 1
    {
      if duplicateFound || content.None? {
        missingIndices := missingIndices + [index];
        txPlaceholders := txPlaceholders[index := txPlaceholders[index].(kind := MissingCompactId, sid := NULL_TX_SID)];
        if duplicateFound {
          counter := counter - 1;
        }
      } else {
        txPlaceholders := txPlaceholders[index := txPlaceholders[index].(kind := ShortIdKind, sid := sid, contents := content)];
        counter := counter + 1;
      }
    }

    method FillIn(p: Setup, k: nat, j: nat, duplicateFound: bool, ghost s: State) returns (ghost t: State)
      requires p.Sound() && Reachable(p, s) && k < |s.tasks| && s.tasks[k] == Task(j, Write(duplicateFound)) && Reflects(p, s)
      modifies this`txPlaceholders, this`counter, this`missingIndices
      ensures Reachable(p, t) && Reflects(p, t) && t.tasks == s.tasks[k := Task(j, Check)]
    {
      hide Reachable, Setup.Sound;
      t := Writes(p, s, k);
      var sha := p.buckets[k][j];
      var content := if sha in p.contents then Some(p.contents[sha]) else None;
      PutPlaceholder(compactMap[p.compactOf(sha)].1, p.sidOf[sha], content, duplicateFound);
      if duplicateFound || content.Some? {
        t := Adds(p, t, k);
      }
    }

    /** One item of the bucket. After a known one the counter is looked at. */
    method Visit(p: Setup, k: nat, j: nat, totalCount: nat, ghost s: State) returns (ghost t: State, done: bool)
      requires p.Sound() && Reachable(p, s) && k < |s.tasks| && s.tasks[k] == Task(j, Fetch) && Reflects(p, s)
      requires k < |p.buckets| && j < |p.buckets[k]| && totalCount == |p.index|
      modifies this
      ensures Reachable(p, t) && Reflects(p, t) && t.tasks == s.tasks[k := Task(j + 1, if done then Finished else Fetch)]
    {
      hide Reachable, Setup.Sound;
      var sha := p.buckets[k][j];
      done := false;
      t := Fetches(p, s, k);
      if sha in p.sidOf {
        if p.compactOf(sha) in compactMap {
          t := Resolve(p, k, j, t);
        }
        done := counter >= totalCount;
        t := Checks(p, t, k);
      }
    }

    /** A sub-task: goes over its bucket until that or the block is done. */
    method ExecuteSubTask(p: Setup, k: nat, ghost s: State) returns (ghost t: State)
      requires p.Sound() && Reachable(p, s) && k < |s.tasks| && s.tasks[k] == Task(0, Fetch) && Reflects(p, s)
      requires |s.tasks| == |p.buckets|
      modifies this
      ensures Reachable(p, t) && Reflects(p, t) && |t.tasks| == |s.tasks|
      ensures t.tasks == s.tasks[k := t.tasks[k]] && t.tasks[k].stage.Finished?
    {
      hide Reachable, Setup.Sound;
      var totalCount := |compactMap|;
      SameSize(compactMap, p.index);
      t := s;
      var j, done := 0, false;
      while j < |p.buckets[k]| && !done
        invariant j <= |p.buckets[k]| && Reachable(p, t) && Reflects(p, t)
        invariant t.tasks == s.tasks[k := Task(j, if done then Finished else Fetch)]
      {
        t, done := Visit(p, k, j, totalCount, t);
        j := j + 1;
      }
      if !done {
        t := Fetches(p, t, k);
      }
    }

    /** Waits for the sub-tasks, here in the schedule that runs them one after the other. */
    method RunAll(p: Setup) returns (ghost t: State)
      requires p.Sound() && Reflects(p, Start(p))
      modifies this
      ensures Reachable(p, t) && Reflects(p, t) && AllFinished(t)
    {
      StartReachable(p);
      hide Reachable, Setup.Sound, Kept;
      t := Start(p);
      for k := 0 to |p.buckets|
        invariant Reachable(p, t) && Reflects(p, t) && |t.tasks| == |p.buckets|
        invariant forall i | 0 <= i < k :: t.tasks[i].stage.Finished?
        invariant forall i | k <= i < |t.tasks| :: t.tasks[i] == Task(0, Fetch)
      {
        t := ExecuteSubTask(p, k, t);
      }
    }

    /** Goes over the map in some order, and adds what is missing. */
    method ListMissing(p: Setup, ghost s: State) returns (ghost more: seq<nat>)
      requires p.Sound() && Sane(p, s) && Reflects(p, s)
      modifies this`missingIndices
      ensures missingIndices == s.missing + more && Listed(p, more, MissingIds(p, s))
    {
      hide Setup.SidsKnown, Setup.IndexValid, Listed, MissingIds, Sane;
      ghost var missing := MissingIds(p, s);
      more := [];
      var rest := compactMap.Keys;
      MissingRecorded(p, s);
      NothingListed(p);
      assert missing - rest == {};
      while rest != {}
        invariant rest <= compactMap.Keys && Listed(p, more, missing - rest)
        invariant missingIndices == s.missing + more
        decreases rest
      {
        var id :| id in rest;
        var index := compactMap[id].1;
        MissingAt(p, s, id);
        if txPlaceholders[index].kind == MissingCompactId {
          ListedNext(p, more, missing - rest, id);
          missingIndices := missingIndices + [index];
          more := more + [index];
          assert missing - (rest - {id}) == missing - rest + {id};
        } else {
          assert missing - (rest - {id}) == missing - rest;
        }
        rest := rest - {id};
      }
      assert missing - rest == missing;
    }

    /**
     Lists the placeholders that are still missing, unless everything was counted, sorts
     them, and checks the count. The check passes exactly if as many claimed compact ids are
     missing as stand in the block more than once, and the list is right with it exactly if
     nothing was listed by a sub-task and all compact ids are different.
     */
    method CollectMissing(p: Setup, ghost s: State, compactTxCount: nat) returns (ok: bool)
      requires p.Sound() && Kept(p, s) && AllFinished(s) && Reflects(p, s)
      requires |p.index| <= compactTxCount && AllUntouched(p.placeholders)
      requires compactTxCount == |p.index| ==> AllRecorded(p.placeholders, p.index)
      modifies this`missingIndices
      ensures ok <==> |TakenBack(p, s)| == compactTxCount - |p.index|
      ensures ok ==> |missingIndices| + counter == compactTxCount
      ensures ok && IsMissingList(txPlaceholders, missingIndices) <==> s.missing == [] && compactTxCount == |p.index|
    {
      hide Setup.Sound, IsMissingList, Sorted, MissingIds, TakenBack, Listed, AllUntouched, AllRecorded;
      FinishedAccounts(p, s);
      CountExact(p, s, compactTxCount);
      if counter < compactTxCount {
        ghost var more := ListMissing(p, s);
        ListedSize(p, more, MissingIds(p, s));
        missingIndices := Sort(missingIndices);
        if s.missing == [] {
          assert [] + more == more;
          if compactTxCount == |p.index| {
            SortedIsMissing(p, s, more, missingIndices);
          }
        } else {
          ListedIsWrong(p, s, more, missingIndices);
        }
      } else {
        NothingIsMissing(p, s);
      }
      ok := |missingIndices| + counter == compactTxCount;
    }

    lemma ReflectsStart(p: Setup)
      requires txPlaceholders == p.placeholders && counter == 0 && missingIndices == []
      requires p.index == IndexOf(txPlaceholders)
      requires compactMap == map id | id in IndexOf(txPlaceholders) :: (NULL_TX_SID, IndexOf(txPlaceholders)[id])
      ensures Reflects(p, Start(p))
    {
      hide IndexOf;
    }

    /** The race from its beginning, and the account of what is missing. */
    method MapBlock(p: Setup, compactTxCount: nat) returns (ok: bool, ghost t: State)
      requires p.Sound() && Reflects(p, Start(p)) && |p.index| <= compactTxCount && AllUntouched(p.placeholders)
      requires compactTxCount == |p.index| ==> AllRecorded(p.placeholders, p.index)
      modifies this
      ensures Reachable(p, t) && Kept(p, t) && AllFinished(t)
      ensures txPlaceholders == t.placeholders && counter == t.counter
      ensures ok <==> |TakenBack(p, t)| == compactTxCount - |p.index|
      ensures ok ==> |missingIndices| + counter == compactTxCount
      ensures ok && IsMissingList(txPlaceholders, missingIndices) <==> t.missing == [] && compactTxCount == |p.index|
    {
      hide Setup.Sound, Kept, Reachable, Start, AllUntouched, AllRecorded, IsMissingList, TakenBack;
      t := RunAll(p);
      ReachableKept(p, t);
      ok := CollectMissing(p, t, compactTxCount);
    }

    /** Maps a parsed block to the buckets of the pool. */
    method MapToPool(service: CompactBlockDataService, ids: seq<CompactId>, prefilled: seq<Prefilled>, known: map<Sha256, ShortId>,
                     contents: map<Sha256, seq<byte>>, pool: seq<set<Sha256>>, compactOf: Sha256 -> CompactId)
      returns (ok: bool, ghost p: Setup, ghost t: State)
      requires missingIndices == [] && (forall h | h in known :: known[h] != NULL_TX_SID)
      requires Placed(ids, prefilled, known) == Some(service.txPlaceholders) && service.Recorded() && service.compactTxCount == |ids|
      modifies this
      ensures Poses(p, ids, prefilled, known, contents, compactOf) && Gathers(p.buckets, pool)
      ensures Ended(p, t, txPlaceholders, counter)
      ensures ok <==> |TakenBack(p, t)| == |ids| - |p.index|
      ensures ok && IsMissingList(txPlaceholders, missingIndices) <==> t.missing == [] && DistinctIds(ids)
      ensures ok ==> |missingIndices| + counter == |ids|
      ensures Fair(ids, pool, known, compactOf) ==>
                && Mapped(p.placeholders, txPlaceholders, pool, known, contents, compactOf)
                && (ok <==> AllStored(ids, pool, known, contents, compactOf))
                && (ok ==> IsMissingList(txPlaceholders, missingIndices))
    {
      hide Placed, IndexOf, IdsOf, Mapped, Fair, DistinctIds, B.Disjoint, Covers, Gathers, IsMissingList, Setup.Sound,
        Kept, Reachable, Start, Reflects, AllUntouched, AllRecorded, AllStored, TakenBack;
      compactMap, txPlaceholders, counter := service.compactMap, service.txPlaceholders, 0;
      var buckets := OrderPool(pool);
      var setup := Setup(txPlaceholders, map id | id in compactMap :: compactMap[id].1, buckets, known, contents, compactOf);
      p := setup;
      RecordedIndex(compactMap, txPlaceholders, p.index);
      SetupSound(ids, prefilled, p);
      ReflectsStart(p);
      ok, t := MapBlock(setup, service.compactTxCount);
      if Fair(ids, pool, known, compactOf) {
        FairRun(ids, pool, p, t);
      }
    }

    /**
     Maps a compact block to the pool, which is read meanwhile. What the sub-tasks make of
     it is the end of some schedule of the race; if the count does not come out right the
     pool is left with a reader inside. Short ids of known transactions are not null, as
     the index of the service has it.
     */
    method Execute(ids: seq<CompactId>, prefilled: seq<Prefilled>, known: map<Sha256, ShortId>,
                   contents: map<Sha256, seq<byte>>, pool: B.SafeBucketContainer<Sha256>, compactOf: Sha256 -> CompactId)
      returns (parsed: bool, ok: bool, ghost p: Setup, ghost t: State)
      requires missingIndices == [] && pool.Valid() && B.Enabled(pool.State(), B.AcquireRead)
      requires forall h | h in known :: known[h] != NULL_TX_SID
      modifies this, pool
      ensures pool.Valid() && parsed == Placed(ids, prefilled, known).Some?
      ensures pool.State() == if !parsed then old(pool.State())
                              else if !ok then B.Step(old(pool.State()), B.AcquireRead)
                              else B.Step(B.Step(old(pool.State()), B.AcquireRead), B.ReleaseRead)
      ensures parsed ==> Poses(p, ids, prefilled, known, contents, compactOf) && Gathers(p.buckets, old(pool.buckets))
      ensures parsed ==> Ended(p, t, txPlaceholders, counter)
      ensures ok <==> parsed && |TakenBack(p, t)| == |ids| - |p.index|
      ensures parsed ==> (ok && IsMissingList(txPlaceholders, missingIndices) <==> t.missing == [] && DistinctIds(ids))
      ensures ok ==> |missingIndices| + counter == |ids|
      ensures parsed && Fair(ids, old(pool.buckets), known, compactOf) ==>
                && Mapped(p.placeholders, txPlaceholders, old(pool.buckets), known, contents, compactOf)
                && (ok <==> AllStored(ids, old(pool.buckets), known, contents, compactOf))
                && (ok ==> IsMissingList(txPlaceholders, missingIndices))
    {
      hide Placed, Poses, Mapped, Fair, DistinctIds, Gathers, IsMissingList, Setup.Sound,
        Kept, Reachable, AllStored, TakenBack, B.FlushAdds, B.FlushRemoves;
      var service := new CompactBlockDataService();
      parsed := service.Parse(ids, prefilled, known);
      if !parsed {
        p, t := Setup([], map[], [], map[], map[], compactOf), State(map[], [], 0, [], []);
        return false, false, p, t;
      }
      pool.TakeRead();
      ok, p, t := MapToPool(service, ids, prefilled, known, contents, pool.buckets, compactOf);
      if ok {
        pool.LeaveRead();
      }
    }
  }

  /** The shared parts as some complete schedule leaves them. */
  ghost predicate Ended(p: Setup, t: State, placeholders: seq<Placeholder>, counter: int) {
    p.Sound() && Reachable(p, t) && Kept(p, t) && AllFinished(t) && placeholders == t.placeholders && counter == t.counter
  }

  /** The race that the block, the service and the pool pose. */
  ghost predicate Poses(
    p: Setup, ids: seq<CompactId>, prefilled: seq<Prefilled>, known: map<Sha256, ShortId>,
    contents: map<Sha256, seq<byte>>, compactOf: Sha256 -> CompactId)
  {
    && Placed(ids, prefilled, known) == Some(p.placeholders) && p.index == IndexOf(p.placeholders)
    && p.sidOf == known && p.contents == contents && p.compactOf == compactOf
  }

  /** The compact ids of the block are different, and the pool holds at most one known hash for each, once. */
  ghost predicate Fair(
    ids: seq<CompactId>, pool: seq<set<Sha256>>, known: map<Sha256, ShortId>, compactOf: Sha256 -> CompactId)
  {
    && DistinctIds(ids) && B.Disjoint(pool)
    && (forall h, g | Candidate(pool, known, h) && Candidate(pool, known, g) && compactOf(h) in ids
                      && compactOf(h) == compactOf(g) :: h == g)
  }

  /** The transactions of the block that are in the pool are there with their contents. */
  ghost predicate AllStored(
    ids: seq<CompactId>, pool: seq<set<Sha256>>, known: map<Sha256, ShortId>, contents: map<Sha256, seq<byte>>,
    compactOf: Sha256 -> CompactId)
  {
    forall h | Candidate(pool, known, h) && compactOf(h) in ids :: h in contents
  }

  ghost predicate Candidate(pool: seq<set<Sha256>>, known: map<Sha256, ShortId>, h: Sha256) {
    InPool(pool, h) && h in known
  }

  /** What becomes of a placeholder: resolved if the pool has its transaction and contents, and as it was otherwise. */
  ghost predicate MappedAt(
    before: Placeholder, after: Placeholder, pool: seq<set<Sha256>>, known: map<Sha256, ShortId>,
    contents: map<Sha256, seq<byte>>, compactOf: Sha256 -> CompactId)
  {
    if before.cmpt.None? || forall h | Candidate(pool, known, h) && h in contents :: compactOf(h) != before.cmpt.value
    then after == before
    else forall h | Candidate(pool, known, h) && h in contents && compactOf(h) == before.cmpt.value ::
           after == Placeholder(ShortIdKind, before.cmpt, Some(contents[h]), known[h])
  }

  ghost predicate Mapped(
    before: seq<Placeholder>, after: seq<Placeholder>, pool: seq<set<Sha256>>, known: map<Sha256, ShortId>,
    contents: map<Sha256, seq<byte>>, compactOf: Sha256 -> CompactId)
  {
    && |after| == |before|
    && forall i | 0 <= i < |before| :: MappedAt(before[i], after[i], pool, known, contents, compactOf)
  }

  lemma RecordedIndex(compactMap: map<CompactId, (ShortId, nat)>, ps: seq<Placeholder>, index: map<CompactId, nat>)
    requires compactMap == map id | id in IndexOf(ps) :: (NULL_TX_SID, IndexOf(ps)[id])
    requires index == map id | id in compactMap :: compactMap[id].1
    ensures index == IndexOf(ps)
  {
  }

  lemma SetupSound(ids: seq<CompactId>, prefilled: seq<Prefilled>, p: Setup)
    requires Placed(ids, prefilled, p.sidOf) == Some(p.placeholders) && p.index == IndexOf(p.placeholders)
    requires forall h | h in p.sidOf :: p.sidOf[h] != NULL_TX_SID
    ensures p.Sound() && AllUntouched(p.placeholders) && |p.index| <= |ids| && (forall id :: id in p.index <==> id in ids)
    ensures |p.index| == |ids| <==> DistinctIds(ids)
    ensures |p.index| == |ids| ==> AllRecorded(p.placeholders, p.index)
  {
    hide Placed, IndexOf, IdsOf, DistinctIds, AllRecorded;
    IdsOfPlaced(ids, prefilled, p.sidOf);
    UntouchedPlaced(ids, prefilled, p.sidOf);
    DistinctExact(p.placeholders);
    if DistinctIds(ids) {
      DistinctIndex(p.placeholders);
    }
    IndexRight(p.placeholders);
    forall id | id in p.index
      ensures p.index[id] < |p.placeholders| && p.placeholders[p.index[id]] == Unresolved(id)
    {
      assert Untouched(p.placeholders[p.index[id]]);
    }
  }

  lemma MatchIsCandidate(pool: seq<set<Sha256>>, p: Setup, k: nat, j: nat)
    requires Covers(p.buckets, pool) && p.Match(k, j)
    ensures Candidate(pool, p.sidOf, p.buckets[k][j])
  {
  }

  lemma RaceIsFair(ids: seq<CompactId>, pool: seq<set<Sha256>>, p: Setup)
    requires Covers(p.buckets, pool) && Fair(ids, pool, p.sidOf, p.compactOf)
    requires forall id :: id in p.index <==> id in ids
    ensures p.OneEach()
  {
    hide Candidate, Gathers;
    forall k: nat, j: nat, k': nat, j': nat | p.Match(k, j) && p.Match(k', j') && p.IdAt(k, j) == p.IdAt(k', j')
      ensures k == k' && j == j'
    {
      MatchIsCandidate(pool, p, k, j);
      MatchIsCandidate(pool, p, k', j');
      assert p.buckets[k][j] == p.buckets[k'][j'];
    }
  }

  lemma CandidateIsMatch(pool: seq<set<Sha256>>, p: Setup, h: Sha256) returns (k: nat, j: nat)
    requires Covers(p.buckets, pool) && Candidate(pool, p.sidOf, h) && p.compactOf(h) in p.index
    ensures p.Match(k, j) && p.buckets[k][j] == h
  {
    k, j :| 0 <= k < |p.buckets| && 0 <= j < |p.buckets[k]| && p.buckets[k][j] == h;
  }

  /** No match lacks its contents exactly if all are stored. */
  lemma StoredExact(ids: seq<CompactId>, pool: seq<set<Sha256>>, p: Setup)
    requires Covers(p.buckets, pool) && forall id :: id in p.index <==> id in ids
    ensures p.Lacked() == {} <==> AllStored(ids, pool, p.sidOf, p.contents, p.compactOf)
  {
    hide Covers, Candidate;
    if AllStored(ids, pool, p.sidOf, p.contents, p.compactOf) {
      forall id | id in p.index
        ensures !p.Lacking(id)
      {
        forall k: nat, j: nat | p.Match(k, j)
          ensures p.Full(k, j)
        {
          MatchIsCandidate(pool, p, k, j);
        }
      }
    } else {
      var h :| Candidate(pool, p.sidOf, h) && p.compactOf(h) in ids && h !in p.contents;
      var k, j := CandidateIsMatch(pool, p, h);
      assert p.IdAt(k, j) == p.compactOf(h) && p.Lacking(p.compactOf(h));
      assert p.compactOf(h) in p.Lacked();
    }
  }

  lemma OutcomeMapped(p: Setup, after: seq<Placeholder>, pool: seq<set<Sha256>>)
    requires p.Valid() && Outcome(p, after) && Covers(p.buckets, pool)
    requires AllUntouched(p.placeholders) && AllRecorded(p.placeholders, p.index)
    ensures Mapped(p.placeholders, after, pool, p.sidOf, p.contents, p.compactOf)
  {
    hide Covers, Candidate;
    forall i | 0 <= i < |p.placeholders|
      ensures MappedAt(p.placeholders[i], after[i], pool, p.sidOf, p.contents, p.compactOf)
    {
      PlaceMapped(p, after, pool, i);
    }
  }

  lemma PlaceMapped(p: Setup, after: seq<Placeholder>, pool: seq<set<Sha256>>, i: nat)
    requires p.Valid() && Outcome(p, after) && Covers(p.buckets, pool) && i < |p.placeholders|
    requires Untouched(p.placeholders[i]) && AllRecorded(p.placeholders, p.index)
    ensures MappedAt(p.placeholders[i], after[i], pool, p.sidOf, p.contents, p.compactOf)
  {
    hide Covers, InPool;
    var before := p.placeholders[i];
    forall h | Candidate(pool, p.sidOf, h) && h in p.contents && before.cmpt == Some(p.compactOf(h))
      ensures after[i] == Placeholder(ShortIdKind, before.cmpt, Some(p.contents[h]), p.sidOf[h])
    {
      var k, j := CandidateIsMatch(pool, p, h);
      assert p.Full(k, j) && after[p.index[p.IdAt(k, j)]] == p.Filled(k, j);
    }
    if before.cmpt.None? || forall h | Candidate(pool, p.sidOf, h) && h in p.contents :: p.compactOf(h) != before.cmpt.value {
      if !Untaken(p, i) {
        var k: nat, j: nat :| p.Match(k, j) && p.index[p.IdAt(k, j)] == i;
        MatchIsCandidate(pool, p, k, j);
        assert p.placeholders[p.index[p.IdAt(k, j)]] == Unresolved(p.IdAt(k, j));
        assert !p.Full(k, j);
      }
    }
  }

  /** With different compact ids and one transaction for each, whatever the schedule. */
  lemma FairRun(ids: seq<CompactId>, pool: seq<set<Sha256>>, p: Setup, t: State)
    requires p.Sound() && AllUntouched(p.placeholders) && (|p.index| == |ids| ==> AllRecorded(p.placeholders, p.index))
    requires (forall id :: id in p.index <==> id in ids) && (|p.index| == |ids| <==> DistinctIds(ids))
    requires (B.Disjoint(pool) ==> Covers(p.buckets, pool)) && Gathers(p.buckets, pool) && Fair(ids, pool, p.sidOf, p.compactOf)
    requires Reachable(p, t) && Kept(p, t) && AllFinished(t)
    ensures Mapped(p.placeholders, t.placeholders, pool, p.sidOf, p.contents, p.compactOf)
    ensures TakenBack(p, t) == {} <==> AllStored(ids, pool, p.sidOf, p.contents, p.compactOf)
    ensures t.missing == [] <==> AllStored(ids, pool, p.sidOf, p.contents, p.compactOf)
    ensures DistinctIds(ids)
  {
    assert DistinctIds(ids) && B.Disjoint(pool);
    hide DistinctIds, B.Disjoint, Setup.Sound, Kept, Covers, Gathers, Fair, AllUntouched, AllRecorded, Mapped, AllStored,
      Reachable, Outcome, Listed, Inv, TakenBack;
    RaceIsFair(ids, pool, p);
    assert p.Valid();
    ReachableInv(p, t);
    FinishedOutcome(p, t);
    OutcomeMapped(p, t.placeholders, pool);
    StoredExact(ids, pool, p);
    ListedSize(p, t.missing, p.Lacked());
    FinishedAccounts(p, t);
    if p.Lacked() != {} {
      LackedIsTakenBack(p, t);
    }
  }

  lemma ReachableInv(p: Setup, t: State)
    requires p.Valid() && Reachable(p, t)
    ensures Inv(p, t)
  {
    hide Inv, Setup.Valid, Start;
    var schedule :| CanRun(p, Start(p), schedule) && RunOf(p, Start(p), schedule) == t;
    StartInv(p);
    RunKeeps(p, Start(p), schedule);
  }

  /** The match that lacks its contents is past the compare-and-swap, and its placeholder as it was. */
  lemma LackedIsPassed(p: Setup, t: State, k: nat, j: nat)
    requires p.Valid() && Inv(p, t) && AllFinished(t) && Outcome(p, t.placeholders) && p.Match(k, j) && !p.Full(k, j)
    ensures k < |t.tasks| && PastCas(t.tasks[k], j)
    ensures p.index[p.IdAt(k, j)] < |t.placeholders| && t.placeholders[p.index[p.IdAt(k, j)]].kind == MissingCompactId
  {
    AllPast(p, t, k, j);
    assert p.placeholders[p.index[p.IdAt(k, j)]] == Unresolved(p.IdAt(k, j));
  }

  lemma LackedIsTakenBack(p: Setup, t: State)
    requires p.Valid() && Inv(p, t) && Kept(p, t) && AllFinished(t) && Outcome(p, t.placeholders) && p.Lacked() != {}
    ensures TakenBack(p, t) != {}
  {
    hide Inv, Setup.Valid, Outcome, PastCas, Balanced, PlacesRight;
    var id :| id in p.Lacked();
    var k: nat, j: nat :| p.Match(k, j) && !p.Full(k, j) && p.IdAt(k, j) == id;
    LackedIsPassed(p, t, k, j);
    assert ClaimsRight(p, t) && PastCas(t.tasks[k], j);
    MissingAt(p, t, id);
    assert id in TakenBack(p, t);
  }

  /** The list is strictly increasing and holds exactly the places of the placeholders that are missing. */
  predicate IsMissingList(placeholders: seq<Placeholder>, list: seq<nat>) {
    && (forall i, j | 0 <= i < j < |list| :: list[i] < list[j])
    && (forall i | i in list :: i < |placeholders| && placeholders[i].kind == MissingCompactId)
    && (forall i: nat | i < |placeholders| && placeholders[i].kind == MissingCompactId :: i in list)
  }

  lemma ListedSize(p: Setup, list: seq<nat>, ids: set<CompactId>)
    requires Listed(p, list, ids)
    ensures |list| == |ids| && (list == [] <==> ids == {})
  {
  }

  lemma NothingListed(p: Setup)
    ensures Listed(p, [], {})
  {
  }

  lemma MissingRecorded(p: Setup, s: State)
    requires Sane(p, s)
    ensures MissingIds(p, s) <= p.index.Keys
  {
  }

  lemma MissingAt(p: Setup, s: State, id: CompactId)
    requires Sane(p, s) && id in p.index
    ensures p.index[id] < |s.placeholders|
    ensures id in MissingIds(p, s) <==> s.placeholders[p.index[id]].kind == MissingCompactId
  {
  }

  lemma SameElements(list: seq<nat>, sorted: seq<nat>)
    requires multiset(sorted) == multiset(list)
    ensures forall x :: x in sorted <==> x in list
  {
    assert forall x :: x in sorted <==> x in multiset(sorted);
    assert forall x :: x in list <==> x in multiset(list);
  }

  lemma TwiceCounted(s: seq<nat>, i: nat, j: nat)
    requires i < j < |s| && s[i] == s[j]
    ensures multiset(s)[s[i]] >= 2
  {
    assert s == s[..j] + [s[j]] + s[j + 1..];
    assert s[i] in s[..j];
  }

  lemma {:induction false} CountedOnce(s: seq<nat>, x: nat)
    requires NoRepeat(s)
    ensures multiset(s)[x] <= 1
  {
    if s != [] {
      var n := |s| - 1;
      CountedOnce(s[..n], x);
      assert s == s[..n] + [s[n]];
      assert s[n] !in multiset(s[..n]);
    }
  }

  lemma SortedOnce(list: seq<nat>, sorted: seq<nat>)
    requires NoRepeat(list) && Sorted(sorted) && multiset(sorted) == multiset(list)
    ensures forall i, j | 0 <= i < j < |sorted| :: sorted[i] < sorted[j]
  {
    forall i, j | 0 <= i < j < |sorted|
      ensures sorted[i] != sorted[j]
    {
      if sorted[i] == sorted[j] {
        TwiceCounted(sorted, i, j);
        CountedOnce(list, sorted[i]);
      }
    }
  }

  /** A placeholder that is missing in the end was unresolved, and stands at its recorded index. */
  lemma MissingIsRecorded(p: Setup, s: State, i: nat) returns (id: CompactId)
    requires p.Sound() && Kept(p, s) && AllUntouched(p.placeholders) && AllRecorded(p.placeholders, p.index)
    requires i < |s.placeholders| && s.placeholders[i].kind == MissingCompactId
    ensures id in MissingIds(p, s) && p.index[id] == i
  {
    if NoClaimAt(p, s, i) {
      assert Untouched(p.placeholders[i]);
      id := p.placeholders[i].cmpt.value;
    } else {
      id :| id in Claimed(p, s) && p.index[id] == i;
    }
  }

  lemma SortedIsMissing(p: Setup, s: State, list: seq<nat>, sorted: seq<nat>)
    requires p.Sound() && Kept(p, s) && AllUntouched(p.placeholders) && AllRecorded(p.placeholders, p.index)
    requires Listed(p, list, MissingIds(p, s)) && Sorted(sorted) && multiset(sorted) == multiset(list)
    ensures IsMissingList(s.placeholders, sorted)
  {
    hide Setup.Sound, AllUntouched, AllRecorded;
    SortedOnce(list, sorted);
    SameElements(list, sorted);
    forall i: nat | i < |s.placeholders| && s.placeholders[i].kind == MissingCompactId
      ensures i in sorted
    {
      var id := MissingIsRecorded(p, s, i);
    }
  }

  /** What a sub-task has listed is either resolved, or listed twice. */
  lemma ListedIsWrong(p: Setup, s: State, more: seq<nat>, sorted: seq<nat>)
    requires Kept(p, s) && s.missing != [] && Listed(p, more, MissingIds(p, s)) && multiset(sorted) == multiset(s.missing + more)
    ensures !IsMissingList(s.placeholders, sorted)
  {
    var i := s.missing[0];
    assert i in s.missing;
    var id :| id in Claimed(p, s) && p.index[id] == i;
    SameElements(s.missing + more, sorted);
    assert i in s.missing + more;
    if id in MissingIds(p, s) && IsMissingList(s.placeholders, sorted) {
      assert multiset(s.missing)[i] >= 1 && multiset(more)[i] >= 1;
      CountedOnce(sorted, i);
    }
  }

  lemma NothingIsMissing(p: Setup, s: State)
    requires p.Sound() && Kept(p, s) && AllUntouched(p.placeholders) && AllRecorded(p.placeholders, p.index)
    requires MissingIds(p, s) == {}
    ensures IsMissingList(s.placeholders, [])
  {
    hide Setup.Sound, AllUntouched, AllRecorded;
    forall i: nat | i < |s.placeholders|
      ensures s.placeholders[i].kind != MissingCompactId
    {
      if s.placeholders[i].kind == MissingCompactId {
        var id := MissingIsRecorded(p, s, i);
      }
    }
  }

  lemma SameSize<V>(m: map<CompactId, V>, index: map<CompactId, nat>)
    requires m.Keys == index.Keys
    ensures |m| == |index|
  {
    assert |m| == |m.Keys| && |index| == |index.Keys|;
  }
}
