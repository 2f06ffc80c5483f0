/** The containers of the transaction service agree with each other after every operation. */
module ServiceIndex {
  import opened Bytes
  import opened Wrappers
  import opened OrderedMaps
  import opened BucketContainers
  import opened ContentMaps
  import opened ServiceState
  import PoolTracking
  import opened ReadWindows

  /**
   The two short id maps are mutual inverses, no short id set is empty, the null id is
   not stored, assignment times are there for exactly the known short ids, and the byte
   counter is right.
   */
  ghost predicate MapsAgree(c: Containers) {
    && Mutual(c.hashToSids, c.sidToHash) && NoneEmpty(c.hashToSids) && NULL_TX_SID !in c.sidToHash
    && Timed(c.assignTime, c.sidToHash)
    && c.contents.Accounted()
  }

  /** And the pool holds only hashes of the index. */
  ghost predicate Index(c: Containers) {
    MapsAgree(c) && PoolTracking.Tracked(c.pool, c.hashToSids.Keys)
  }

  lemma IndexValid(c: Containers)
    requires Index(c)
    ensures c.Valid()
  {
  }

  // ---------------------------------------------------------------- assignment

  lemma MutualAssigned(hashToSids: map<Sha256, set<ShortId>>, sidToHash: map<ShortId, Sha256>, h: Sha256, sid: ShortId)
    requires Mutual(hashToSids, sidToHash) && sid !in sidToHash
    ensures var sids := if h in hashToSids then hashToSids[h] else {};
            Mutual(hashToSids[h := sids + {sid}], sidToHash[sid := h])
  {
  }

  lemma HasEmplaced(list: seq<Entry<ShortId, real>>, sid: ShortId, now: real)
    requires Distinct(list)
    ensures Distinct(Emplaced(list, sid, now))
    ensures forall s: ShortId :: Has(Emplaced(list, sid, now), s) <==> s == sid || Has(list, s)
  {
    if !Has(list, sid) {
      var more := list + [Entry(sid, now)];
      assert more[|list|].key == sid;
      assert forall i | 0 <= i < |list| :: more[i] == list[i];
      forall s: ShortId | Has(list, s)
        ensures Has(more, s)
      {
        var i :| 0 <= i < |list| && list[i].key == s;
        assert more[i].key == s;
      }
    }
  }

  lemma TimedAssigned(assignTime: seq<Entry<ShortId, real>>, sidToHash: map<ShortId, Sha256>, h: Sha256, sid: ShortId, now: real)
    requires Timed(assignTime, sidToHash)
    ensures Timed(Emplaced(assignTime, sid, now), if sid in sidToHash then sidToHash else sidToHash[sid := h])
  {
    hide Has, Emplaced, Distinct;
    HasEmplaced(assignTime, sid, now);
  }

  lemma EnteredTracked(c: Containers, h: Sha256)
    requires c.Valid() && PoolTracking.Tracked(c.pool, c.hashToSids.Keys)
    ensures var d := Entered(c, h); PoolTracking.Tracked(d.pool, d.hashToSids.Keys)
    ensures Entered(c, h).hashToSids.Keys == c.hashToSids.Keys + {h}
  {
    hide PoolTracking.Tracked, Inserted;
    if h !in c.hashToSids {
      PoolTracking.InsertKeepsTracked(c.pool, c.hashToSids.Keys, h);
      assert c.hashToSids[h := {}].Keys == c.hashToSids.Keys + {h};
    }
  }

  lemma AssignKeeps(c: Containers, h: Sha256, sid: ShortId, now: real)
    requires Index(c)
    ensures Index(Assigned(c, h, sid, now))
  {
    hide PoolTracking.Tracked, Mutual, Inserted, Timed;
    IndexValid(c);
    if sid != NULL_TX_SID {
      TimedAssigned(c.assignTime, c.sidToHash, h, sid, now);
      if sid !in c.sidToHash {
        MutualAssigned(c.hashToSids, c.sidToHash, h, sid);
        EnteredTracked(c, h);
        var e := Entered(c, h);
        assert e.hashToSids[h := e.hashToSids[h] + {sid}].Keys == e.hashToSids.Keys;
        assert {} + {sid} == {sid};
        var sids := if h in c.hashToSids then c.hashToSids[h] else {};
        assert e.hashToSids[h := e.hashToSids[h] + {sid}] == c.hashToSids[h := sids + {sid}];
      }
    }
  }

  lemma ContentsKeep(c: Containers, h: Sha256, content: seq<byte>)
    requires Index(c)
    ensures Index(WithContents(c, h, content))
  {
    hide PoolTracking.Tracked, Mutual, Timed, NoneEmpty;
    if !c.HasContents(h) {
      c.contents.EmplaceExact(h, content);
    }
  }

  // ---------------------------------------------------------------- removal

  lemma HasErased(list: seq<Entry<ShortId, real>>, sid: ShortId)
    requires Distinct(list)
    ensures Distinct(Erased(list, sid))
    ensures forall s: ShortId :: Has(Erased(list, sid), s) <==> s != sid && Has(list, s)
  {
    forall s: ShortId
      ensures Has(Erased(list, sid), s) <==> s != sid && Has(list, s)
    {
      LookupErased(list, sid, s);
      LookupAt(list, s);
      LookupAt(Erased(list, sid), s);
    }
    DistinctErased(list, sid);
  }

  lemma DistinctErased(list: seq<Entry<ShortId, real>>, sid: ShortId)
    requires Distinct(list)
    ensures Distinct(Erased(list, sid))
  {
    if Has(list, sid) {
      var p :| 0 <= p < |list| && list[p].key == sid;
      ErasedAt(list, p);
    } else {
      ErasedNothing(list, sid);
    }
  }

  lemma {:induction false} HasErasedAll(list: seq<Entry<ShortId, real>>, keys: seq<ShortId>)
    requires Distinct(list)
    ensures Distinct(ErasedAll(list, keys))
    ensures forall s: ShortId :: Has(ErasedAll(list, keys), s) <==> s !in keys && Has(list, s)
    decreases |keys|
  {
    hide Has, Distinct, Erased;
    if keys != [] {
      var n := |keys| - 1;
      HasErasedAll(list, keys[..n]);
      HasErased(ErasedAll(list, keys[..n]), keys[n]);
      assert forall s :: s in keys <==> s in keys[..n] || s == keys[n];
    }
  }

  /** The short ids of a hash and the hash leave the two maps together. */
  lemma MutualRemoved(hashToSids: map<Sha256, set<ShortId>>, sidToHash: map<ShortId, Sha256>, h: Sha256, order: seq<ShortId>)
    requires Mutual(hashToSids, sidToHash) && h in hashToSids && Enumerates(order, hashToSids[h])
    ensures Mutual(hashToSids - {h}, sidToHash - AsSet(order))
  {
    var rest, left := hashToSids - {h}, sidToHash - AsSet(order);
    forall s | s in left
      ensures left[s] in rest && s in rest[left[s]]
    {
      assert s in hashToSids[sidToHash[s]] && s !in order;
    }
    forall k, s | k in rest && s in rest[k]
      ensures s in left && left[s] == k
    {
      assert s in hashToSids[k] && sidToHash[s] == k && k != h;
    }
  }

  lemma TimedRemoved(assignTime: seq<Entry<ShortId, real>>, sidToHash: map<ShortId, Sha256>, order: seq<ShortId>)
    requires Timed(assignTime, sidToHash)
    ensures Timed(ErasedAll(assignTime, order), sidToHash - AsSet(order))
  {
    hide Has, Distinct;
    HasErasedAll(assignTime, order);
  }

  /** A removal never makes the maps disagree. */
  lemma RemoveHashAgrees(c: Containers, h: Sha256, order: seq<ShortId>, now: real)
    requires MapsAgree(c) && c.Valid() && HashOrder(c, h, order)
    ensures MapsAgree(RemovedHash(c, h, order, now))
  {
    hide Mutual, Timed, Enumerates, ErasedItem, ErasedAll, EmplacedAll;
    c.contents.EraseKeeps(h);
    if h in c.hashToSids {
      MutualRemoved(c.hashToSids, c.sidToHash, h, order);
      TimedRemoved(c.assignTime, c.sidToHash, order);
    }
  }

  lemma RemovedHashIndex(c: Containers, h: Sha256, order: seq<ShortId>, now: real)
    requires c.Valid()
    ensures var d := RemovedHash(c, h, order, now);
            && d.hashToSids == c.hashToSids - {h} && d.pool.toAdd == c.pool.toAdd
            && d.pool == if h in c.hashToSids then ErasedItem(c.pool, h) else c.pool
  {
    hide FirstBucket, ErasedAll, EmplacedAll, Emplaced;
  }

  /** A removal keeps the index exactly if the hash is not queued for the pool, which would get it back unknown. */
  lemma RemoveHashExact(c: Containers, h: Sha256, order: seq<ShortId>, now: real)
    requires Index(c) && HashOrder(c, h, order)
    ensures c.Valid()
    ensures Index(RemovedHash(c, h, order, now)) <==> !(h in c.hashToSids && h in c.pool.toAdd)
  {
    hide MapsAgree, PoolTracking.Tracked, ErasedItem, RemovedHash;
    IndexValid(c);
    var d := RemovedHash(c, h, order, now);
    RemoveHashAgrees(c, h, order, now);
    RemovedHashIndex(c, h, order, now);
    assert d.hashToSids.Keys == c.hashToSids.Keys - {h};
    if h in c.hashToSids && h in c.pool.toAdd {
      PoolTracking.QueuedIsKnown(d.pool, d.hashToSids.Keys);
    } else if h in c.hashToSids {
      PoolTracking.EraseForgets(c.pool, c.hashToSids.Keys, h);
    } else {
      assert d.hashToSids.Keys == c.hashToSids.Keys;
    }
  }

  /**
   What comes of the queued hash when all readers have left: the pool holds it, unknown,
   unless it lands in a bucket from which it is queued for removal.
   */
  lemma RemovedComesBackExact(c: Containers, h: Sha256, order: seq<ShortId>, now: real)
    requires Index(c) && h in c.hashToSids && h in c.pool.toAdd
    ensures c.Valid()
    ensures var d := RemovedHash(c, h, order, now);
            && h !in d.hashToSids
            && (h in Union(AllLeft(d.pool).buckets) <==> exists i: nat :: Lands(c.pool, h, i) && (h, i) !in c.pool.toRemove)
  {
    hide MapsAgree, PoolTracking.Tracked, ErasedItem, RemovedHash, AllLeft, Union, Lands;
    IndexValid(c);
    RemovedHashIndex(c, h, order, now);
    PoolTracking.ErasedComesBackExact(c.pool, c.hashToSids.Keys, h);
  }

  lemma OtherSids(sids: set<ShortId>, sid: ShortId, order: seq<ShortId>)
    requires sid in sids && (if |sids| > 1 then Enumerates(order, sids - {sid}) else order == [])
    ensures Enumerates(order + [sid], sids)
  {
    var all := order + [sid];
    assert all[|order|] == sid;
    assert forall i | 0 <= i < |order| :: all[i] == order[i];
    assert forall x | x in order :: x in all;
    if |sids| <= 1 {
      OneElement(sids, sid);
    }
  }

  lemma OneElement(sids: set<ShortId>, sid: ShortId)
    requires sid in sids && |sids| <= 1
    ensures sids == {sid}
  {
    assert |sids - {sid}| == 0;
    assert sids == sids - {sid} + {sid};
  }

  lemma SnocSet(order: seq<ShortId>, sid: ShortId)
    ensures AsSet(order + [sid]) == AsSet(order) + {sid}
  {
    assert forall s :: s in order + [sid] <==> s in order || s == sid;
  }

  /**
   Removing a short id is removing its hash, its own short id being met last, except that
   the hash may get a later removal time.
   */
  lemma RemoveSidIsRemoveHash(c: Containers, sid: ShortId, order: seq<ShortId>, now: real, later: real)
    requires MapsAgree(c) && c.Valid() && sid in c.sidToHash && SidOrder(c, sid, order)
    ensures var h := c.sidToHash[sid];
            && HashOrder(c, h, order + [sid])
            && RemovedSid(c, sid, order, now, later)
               == RemovedHash(c, h, order + [sid], now).(hashRemoved := Emplaced(c.hashRemoved, h, later))
  {
    hide Timed, Enumerates, ErasedItem, ErasedAll, EmplacedAll, NoneEmpty;
    var h, all := c.sidToHash[sid], order + [sid];
    OtherSids(c.hashToSids[h], sid, order);
    SnocSet(order, sid);
    SnocAll(c, order, sid, now);
    hide Mutual;
    assert c.sidToHash - AsSet(order) - {sid} == c.sidToHash - AsSet(all);
  }

  lemma SnocAll(c: Containers, order: seq<ShortId>, sid: ShortId, now: real)
    ensures ErasedAll(c.assignTime, order + [sid]) == Erased(ErasedAll(c.assignTime, order), sid)
    ensures EmplacedAll(c.sidRemoved, order + [sid], now) == Emplaced(EmplacedAll(c.sidRemoved, order, now), sid, now)
  {
    assert (order + [sid])[..|order|] == order;
  }

  lemma RemoveSidAgrees(c: Containers, sid: ShortId, order: seq<ShortId>, now: real, later: real)
    requires MapsAgree(c) && c.Valid() && SidOrder(c, sid, order)
    ensures MapsAgree(RemovedSid(c, sid, order, now, later))
    ensures sid in c.sidToHash ==> RemovedSid(c, sid, order, now, later).hashToSids == c.hashToSids - {c.sidToHash[sid]}
  {
    hide Timed, Enumerates, ErasedItem, ErasedAll, EmplacedAll, NoneEmpty, RemovedHash, Mutual;
    if sid in c.sidToHash {
      RemoveSidIsRemoveHash(c, sid, order, now, later);
      RemoveHashAgrees(c, c.sidToHash[sid], order + [sid], now);
      RemovedHashIndex(c, c.sidToHash[sid], order + [sid], now);
    }
  }

  /** So does a removal by short id, for the hash of the short id. */
  lemma RemoveSidExact(c: Containers, sid: ShortId, order: seq<ShortId>, now: real, later: real)
    requires Index(c) && SidOrder(c, sid, order)
    ensures c.Valid()
    ensures Index(RemovedSid(c, sid, order, now, later)) <==> !(sid in c.sidToHash && c.sidToHash[sid] in c.pool.toAdd)
  {
    hide PoolTracking.Tracked, Timed, Enumerates, ErasedItem, ErasedAll, EmplacedAll, NoneEmpty, RemovedHash;
    IndexValid(c);
    if sid in c.sidToHash {
      var h := c.sidToHash[sid];
      RemoveSidIsRemoveHash(c, sid, order, now, later);
      RemoveHashExact(c, h, order + [sid], now);
      assert h in c.hashToSids;
    }
  }

  /** What a removal forgets, and that it forgets nothing else. */
  lemma RemoveHashForgets(c: Containers, h: Sha256, order: seq<ShortId>, now: real)
    requires Index(c) && HashOrder(c, h, order)
    ensures var d := RemovedHash(c, h, order, now);
            && h !in d.hashToSids && !d.HasContents(h) && d.WasRemoved(h)
            && d.sidToHash == (map s | s in c.sidToHash && c.sidToHash[s] != h :: c.sidToHash[s])
            && d.contents.entries == c.contents.entries - {h}
            && d.contents.total == c.contents.total - c.contents.SizeOf(h)
  {
    hide PoolTracking.Tracked, Timed, ErasedItem, ErasedAll, EmplacedAll, NoneEmpty;
    IndexValid(c);
    c.contents.EraseKeeps(h);
    EmplacedHas(c.hashRemoved, h, now);
    var d := RemovedHash(c, h, order, now);
    hide Emplaced, Has;
    assert d.sidToHash.Keys == (map s | s in c.sidToHash && c.sidToHash[s] != h :: c.sidToHash[s]).Keys;
  }

  lemma EmplacedHas(list: seq<Entry<Sha256, real>>, h: Sha256, now: real)
    ensures Has(Emplaced(list, h, now), h)
    ensures forall k :: Has(list, k) ==> Has(Emplaced(list, h, now), k)
  {
    if !Has(list, h) {
      var more := list + [Entry(h, now)];
      assert more[|list|].key == h;
      forall k | Has(list, k)
        ensures Has(more, k)
      {
        var i :| 0 <= i < |list| && list[i].key == k;
        assert more[i].key == k;
      }
    }
  }
}
