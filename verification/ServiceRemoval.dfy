/** Removal: the two ways agree, report the siblings, and free what they say; the block window. */
module ServiceRemoval {
  import opened Bytes
  import opened Wrappers
  import opened OrderedMaps
  import opened BucketContainers
  import opened ContentMaps
  import opened ServiceState
  import opened ServiceIndex
  import PoolTracking

  // ---------------------------------------------------------------- order does not matter

  /** The entries whose key is not among some. */
  function Without(list: seq<Entry<ShortId, real>>, keys: set<ShortId>): seq<Entry<ShortId, real>> {
    if list == [] then []
    else (if list[0].key in keys then [] else [list[0]]) + Without(list[1..], keys)
  }

  lemma {:induction false} WithoutHas(list: seq<Entry<ShortId, real>>, keys: set<ShortId>)
    ensures forall e | e in Without(list, keys) :: e in list && e.key !in keys
  {
    if list != [] {
      WithoutHas(list[1..], keys);
    }
  }

  lemma DistinctTail(list: seq<Entry<ShortId, real>>)
    requires Distinct(list) && list != []
    ensures Distinct(list[1..]) && forall e | e in list[1..] :: e.key != list[0].key
  {
  }

  lemma {:induction false} ErasedWithout(list: seq<Entry<ShortId, real>>, keys: set<ShortId>, k: ShortId)
    requires Distinct(list)
    ensures Erased(Without(list, keys), k) == Without(list, keys + {k})
  {
    if list != [] {
      DistinctTail(list);
      ErasedWithout(list[1..], keys, k);
      var rest := Without(list[1..], keys);
      if list[0].key in keys {
        assert Without(list, keys) == rest;
      } else {
        assert ([list[0]] + rest)[1..] == rest;
        if list[0].key == k {
          WithoutHas(list[1..], keys);
          NotThere(rest, k);
        }
      }
    }
  }

  lemma NotThere(list: seq<Entry<ShortId, real>>, k: ShortId)
    requires forall e | e in list :: e.key != k
    ensures Erased(list, k) == list
  {
    ErasedNothing(list, k);
  }

  lemma {:induction false} WithoutNothing(list: seq<Entry<ShortId, real>>)
    ensures Without(list, {}) == list
  {
    if list != [] {
      WithoutNothing(list[1..]);
    }
  }

  lemma {:induction false} ErasedAllWithout(list: seq<Entry<ShortId, real>>, keys: seq<ShortId>)
    requires Distinct(list)
    ensures ErasedAll(list, keys) == Without(list, AsSet(keys))
    decreases |keys|
  {
    if keys == [] {
      assert AsSet(keys) == {};
      WithoutNothing(list);
    } else {
      var n := |keys| - 1;
      ErasedAllWithout(list, keys[..n]);
      ErasedWithout(list, AsSet(keys[..n]), keys[n]);
      assert keys == keys[..n] + [keys[n]];
      SnocSet(keys[..n], keys[n]);
    }
  }

  /** What the history says after a batch of removals does not depend on their order. */
  lemma {:induction false} EmplacedAllLookup(list: seq<Entry<ShortId, real>>, keys: seq<ShortId>, now: real, s: ShortId)
    ensures Lookup(EmplacedAll(list, keys, now), s) ==
            if Lookup(list, s).Some? then Lookup(list, s) else if s in keys then Some(now) else None
    decreases |keys|
  {
    if keys != [] {
      var n := |keys| - 1;
      EmplacedAllLookup(list, keys[..n], now, s);
      LookupEmplaced(EmplacedAll(list, keys[..n], now), keys[n], now, s);
      LookupAt(EmplacedAll(list, keys[..n], now), keys[n]);
      assert s in keys <==> s in keys[..n] || s == keys[n];
    }
  }

  /** The same containers, the removal history of the short ids up to its order. */
  ghost predicate SameButOrder(c: Containers, d: Containers) {
    && d == c.(sidRemoved := d.sidRemoved)
    && forall s: ShortId :: Lookup(c.sidRemoved, s) == Lookup(d.sidRemoved, s)
  }

  lemma HashOrderDoesNotMatter(c: Containers, h: Sha256, a: seq<ShortId>, b: seq<ShortId>, now: real)
    requires Index(c) && HashOrder(c, h, a) && HashOrder(c, h, b)
    ensures c.Valid() && SameButOrder(RemovedHash(c, h, a, now), RemovedHash(c, h, b, now))
  {
    IndexValid(c);
    if h in c.hashToSids {
      hide Mutual, NoneEmpty, PoolTracking.Tracked, ErasedItem, Has, Lookup, Distinct, EmplacedAll, ErasedAll, Erased, Emplaced;
      ErasedAllWithout(c.assignTime, a);
      ErasedAllWithout(c.assignTime, b);
      assert AsSet(a) == AsSet(b);
      forall s: ShortId
        ensures Lookup(EmplacedAll(c.sidRemoved, a, now), s) == Lookup(EmplacedAll(c.sidRemoved, b, now), s)
      {
        EmplacedAllLookup(c.sidRemoved, a, now, s);
        EmplacedAllLookup(c.sidRemoved, b, now, s);
      }
    }
  }

  /**
   Removing by short id and removing by the hash of that short id leave the same
   containers, up to the order of the removal history, if the clock shows the same time;
   and the short ids reported as duplicates are exactly the other ones of the hash.
   */
  lemma RemovalEquivalence(c: Containers, sid: ShortId, dups: seq<ShortId>, order: seq<ShortId>, now: real)
    requires Index(c) && sid in c.sidToHash && SidOrder(c, sid, dups) && HashOrder(c, c.sidToHash[sid], order)
    ensures c.Valid() && SameButOrder(RemovedSid(c, sid, dups, now, now), RemovedHash(c, c.sidToHash[sid], order, now))
    ensures forall s :: s in dups <==> s != sid && s in c.sidToHash && c.sidToHash[s] == c.sidToHash[sid]
    ensures RemovedSize(c, sid) == c.contents.SizeOf(c.sidToHash[sid])
  {
    IndexValid(c);
    hide NoneEmpty, PoolTracking.Tracked, Timed, RemovedHash, RemovedSid, SameButOrder;
    var h := c.sidToHash[sid];
    RemoveSidIsRemoveHash(c, sid, dups, now, now);
    HashOrderDoesNotMatter(c, h, dups + [sid], order, now);
    RemovedHashHistory(c, h, dups + [sid], now);
    SiblingsOf(c, sid, dups);
  }

  lemma RemovedHashHistory(c: Containers, h: Sha256, order: seq<ShortId>, now: real)
    requires c.Valid()
    ensures RemovedHash(c, h, order, now).hashRemoved == Emplaced(c.hashRemoved, h, now)
  {
    hide ErasedItem, Emplaced, ErasedAll, EmplacedAll;
  }

  lemma SiblingsOf(c: Containers, sid: ShortId, dups: seq<ShortId>)
    requires Index(c) && sid in c.sidToHash && SidOrder(c, sid, dups)
    ensures forall s :: s in dups <==> s != sid && s in c.sidToHash && c.sidToHash[s] == c.sidToHash[sid]
  {
    hide NoneEmpty, PoolTracking.Tracked, Timed;
    var sids := c.hashToSids[c.sidToHash[sid]];
    if |sids| <= 1 {
      OneElement(sids, sid);
    }
  }

  // ---------------------------------------------------------------- batches

  datatype HashRemoval = HashRemoval(hash: Sha256, order: seq<ShortId>, now: real)

  datatype SidRemoval = SidRemoval(sid: ShortId, order: seq<ShortId>, now: real, later: real)

  function RemovedHashes(c: Containers, rs: seq<HashRemoval>): (r: Containers)
    requires c.Valid()
    ensures r.Valid()
    decreases |rs|
  {
    if rs == [] then c
    else
      var last := rs[|rs| - 1];
      RemovedHash(RemovedHashes(c, rs[..|rs| - 1]), last.hash, last.order, last.now)
  }

  /** The bytes a list removal reports. */
  function FreedByHashes(c: Containers, rs: seq<HashRemoval>): nat
    requires c.Valid()
    decreases |rs|
  {
    if rs == [] then 0
    else
      FreedByHashes(c, rs[..|rs| - 1]) + RemovedHashes(c, rs[..|rs| - 1]).contents.SizeOf(rs[|rs| - 1].hash)
  }

  lemma {:induction false} FreedByHashesExact(c: Containers, rs: seq<HashRemoval>)
    requires c.Valid() && c.contents.Accounted()
    ensures var d := RemovedHashes(c, rs);
            d.contents.Accounted() && d.contents.total == c.contents.total - FreedByHashes(c, rs)
    decreases |rs|
  {
    hide Unindexed, Emplaced;
    if rs != [] {
      FreedByHashesExact(c, rs[..|rs| - 1]);
      RemovedHashes(c, rs[..|rs| - 1]).contents.EraseKeeps(rs[|rs| - 1].hash);
    }
  }

  function RemovedSids(c: Containers, rs: seq<SidRemoval>): (r: Containers)
    requires c.Valid()
    ensures r.Valid() && r.window == c.window
    decreases |rs|
  {
    if rs == [] then c
    else
      var last := rs[|rs| - 1];
      RemovedSid(RemovedSids(c, rs[..|rs| - 1]), last.sid, last.order, last.now, last.later)
  }

  function FreedBySids(c: Containers, rs: seq<SidRemoval>): nat
    requires c.Valid()
    decreases |rs|
  {
    if rs == [] then 0
    else FreedBySids(c, rs[..|rs| - 1]) + RemovedSize(RemovedSids(c, rs[..|rs| - 1]), rs[|rs| - 1].sid)
  }

  /** The short ids reported as duplicates. */
  function DupsOf(c: Containers, rs: seq<SidRemoval>): seq<ShortId>
    requires c.Valid()
    decreases |rs|
  {
    if rs == [] then []
    else
      var last := rs[|rs| - 1];
      DupsOf(c, rs[..|rs| - 1]) + if last.sid in RemovedSids(c, rs[..|rs| - 1]).sidToHash then last.order else []
  }

  ghost predicate SidOrders(c: Containers, rs: seq<SidRemoval>)
    requires c.Valid()
    decreases |rs|
  {
    rs == [] || (SidOrders(c, rs[..|rs| - 1])
                 && SidOrder(RemovedSids(c, rs[..|rs| - 1]), rs[|rs| - 1].sid, rs[|rs| - 1].order))
  }

  lemma {:induction false} FreedBySidsExact(c: Containers, rs: seq<SidRemoval>)
    requires c.Valid() && c.contents.Accounted()
    ensures var d := RemovedSids(c, rs);
            d.contents.Accounted() && d.contents.total == c.contents.total - FreedBySids(c, rs)
    decreases |rs|
  {
    hide Unindexed, Emplaced, Erased;
    if rs != [] {
      FreedBySidsExact(c, rs[..|rs| - 1]);
      var d := RemovedSids(c, rs[..|rs| - 1]);
      if rs[|rs| - 1].sid in d.sidToHash {
        d.contents.EraseKeeps(d.sidToHash[rs[|rs| - 1].sid]);
      }
    }
  }

  /** No hash of these short ids is queued for the pool. */
  ghost predicate NoneQueued(c: Containers, sids: seq<ShortId>) {
    forall s | s in sids && s in c.sidToHash :: c.sidToHash[s] !in c.pool.toAdd
  }

  /** Removing makes no new short ids and queues nothing for addition. */
  ghost predicate Less(c: Containers, d: Containers) {
    d.pool.toAdd == c.pool.toAdd && forall s | s in d.sidToHash :: s in c.sidToHash && d.sidToHash[s] == c.sidToHash[s]
  }

  lemma RemovedSidLess(c: Containers, sid: ShortId, order: seq<ShortId>, now: real, later: real)
    requires c.Valid()
    ensures Less(c, RemovedSid(c, sid, order, now, later))
  {
    hide Emplaced, ErasedAll, EmplacedAll, FirstBucket;
  }

  /** Hashes may go, but those that stay keep their short ids. */
  ghost predicate Shrunk(c: Containers, d: Containers) {
    forall h | h in d.hashToSids :: h in c.hashToSids && d.hashToSids[h] == c.hashToSids[h]
  }

  lemma RemovedSidShrinks(c: Containers, sid: ShortId, order: seq<ShortId>, now: real, later: real)
    requires c.Valid()
    ensures Shrunk(c, RemovedSid(c, sid, order, now, later))
  {
    hide Emplaced, ErasedAll, EmplacedAll, ErasedItem, Erased;
  }

  /** Whatever is queued for the pool, removals keep the maps in agreement, and the hashes are gone. */
  lemma {:induction false} RemovedSidsAgree(c: Containers, rs: seq<SidRemoval>)
    requires MapsAgree(c) && c.Valid() && SidOrders(c, rs)
    ensures var d := RemovedSids(c, rs); MapsAgree(d) && Less(c, d) && Shrunk(c, d)
    ensures forall i | 0 <= i < |rs| && rs[i].sid in c.sidToHash ::
              c.sidToHash[rs[i].sid] !in RemovedSids(c, rs).hashToSids
    decreases |rs|
  {
    if rs != [] {
      var n, last := |rs| - 1, rs[|rs| - 1];
      hide MapsAgree, RemovedSid, SidOrder;
      RemovedSidsAgree(c, rs[..n]);
      var d := RemovedSids(c, rs[..n]);
      RemoveSidAgrees(d, last.sid, last.order, last.now, last.later);
      RemovedSidLess(d, last.sid, last.order, last.now, last.later);
      RemovedSidShrinks(d, last.sid, last.order, last.now, last.later);
      if last.sid in c.sidToHash {
        KnownTogether(c, d, last.sid);
      }
      forall i | 0 <= i < n && rs[i].sid in c.sidToHash
        ensures c.sidToHash[rs[i].sid] !in RemovedSids(c, rs).hashToSids
      {
        assert rs[..n][i] == rs[i];
      }
    }
  }

  /** While the hash of a short id is known, so is the short id. */
  lemma KnownTogether(c: Containers, d: Containers, sid: ShortId)
    requires MapsAgree(c) && MapsAgree(d) && Less(c, d) && Shrunk(c, d) && sid in c.sidToHash
    ensures c.sidToHash[sid] in d.hashToSids ==> sid in d.sidToHash && d.sidToHash[sid] == c.sidToHash[sid]
  {
    hide Timed, NoneEmpty;
  }

  lemma {:induction false} RemovedSidsKeep(c: Containers, rs: seq<SidRemoval>)
    requires Index(c) && c.Valid() && SidOrders(c, rs)
    requires forall i | 0 <= i < |rs| :: NoneQueued(c, [rs[i].sid])
    ensures Index(RemovedSids(c, rs)) && Less(c, RemovedSids(c, rs))
    decreases |rs|
  {
    if rs != [] {
      var n := |rs| - 1;
      hide Index, RemovedSid, SidOrder;
      RemovedSidsKeep(c, rs[..n]);
      var d := RemovedSids(c, rs[..n]);
      assert rs[n].sid in [rs[n].sid] && NoneQueued(c, [rs[n].sid]);
      RemoveSidExact(d, rs[n].sid, rs[n].order, rs[n].now, rs[n].later);
      RemovedSidLess(d, rs[n].sid, rs[n].order, rs[n].now, rs[n].later);
    }
  }

  /** A batch of removals keeps the index exactly if no hash of its short ids is queued for the pool. */
  lemma RemovedSidsExact(c: Containers, rs: seq<SidRemoval>)
    requires Index(c) && c.Valid() && SidOrders(c, rs)
    ensures Index(RemovedSids(c, rs)) <==> forall i | 0 <= i < |rs| :: NoneQueued(c, [rs[i].sid])
  {
    hide MapsAgree, PoolTracking.Tracked, RemovedSids, SidOrders;
    if i :| 0 <= i < |rs| && !NoneQueued(c, [rs[i].sid]) {
      RemovedSidsAgree(c, rs);
      var d := RemovedSids(c, rs);
      PoolTracking.QueuedIsKnown(d.pool, d.hashToSids.Keys);
    } else {
      RemovedSidsKeep(c, rs);
    }
  }

  // ---------------------------------------------------------------- the block window

  function Windowed(window: seq<Entry<Sha256, seq<ShortId>>>, block: Sha256, sids: seq<ShortId>): (r: seq<Entry<Sha256, seq<ShortId>>>)
    ensures r != [] && Lookup(r, block).Some?
  {
    LookupEmplaced(window, block, sids, block);
    LookupAt(window, block);
    LookupAt(Emplaced(window, block, sids), block);
    Emplaced(window, block, sids)
  }

  /** The removals are those of the block that leaves the window, if one does. */
  ghost predicate Evicts(window: seq<Entry<Sha256, seq<ShortId>>>, n: nat, rs: seq<SidRemoval>) {
    if |window| >= n && window != []
    then |rs| == |window[0].value| && forall i | 0 <= i < |rs| :: rs[i].sid == window[0].value[i]
    else rs == []
  }

  /** A block is seen: its transactions leave the pool, and if the window is full the oldest block is finished. */
  function SeenBlock(c: Containers, block: Sha256, sids: seq<ShortId>, n: nat, rs: seq<SidRemoval>): (r: Containers)
    requires c.Valid()
    ensures r.Valid()
  {
    var window := Windowed(c.window, block, sids);
    var d := SeenSids(c.(window := window), Lookup(window, block).value);
    if |window| >= n then
      var e := RemovedSids(d, rs);
      e.(window := Erased(window, window[0].key))
    else d
  }

  lemma {:induction false} SeenSidsKeep(c: Containers, sids: seq<ShortId>)
    requires Index(c) && c.Valid()
    ensures Index(SeenSids(c, sids)) && Less(c, SeenSids(c, sids))
    decreases |sids|
  {
    if sids != [] {
      hide Mutual, Timed, NoneEmpty, PoolTracking.Tracked;
      var d := SeenSids(c, sids[..|sids| - 1]);
      SeenSidsKeep(c, sids[..|sids| - 1]);
      if sids[|sids| - 1] in d.sidToHash {
        PoolTracking.EraseKeepsTracked(d.pool, d.hashToSids.Keys, d.sidToHash[sids[|sids| - 1]]);
      }
    }
  }

  lemma OtherWindow(c: Containers, window: seq<Entry<Sha256, seq<ShortId>>>)
    ensures Index(c.(window := window)) <==> Index(c)
  {
    hide Mutual, Timed, NoneEmpty, PoolTracking.Tracked;
  }

  /**
   Seeing a block frees what it reports, and keeps the index exactly if, when the window
   is full, no hash of the block that leaves it is queued for the pool.
   */
  lemma SeenBlockExact(c: Containers, block: Sha256, sids: seq<ShortId>, n: nat, rs: seq<SidRemoval>)
    requires Index(c) && c.Valid()
    requires var window := Windowed(c.window, block, sids);
             && Evicts(window, n, rs)
             && SidOrders(SeenSids(c.(window := window), Lookup(window, block).value), rs)
    ensures var window := Windowed(c.window, block, sids);
            Index(SeenBlock(c, block, sids, n, rs)) <==> (|window| >= n ==> NoneQueued(c, window[0].value))
    ensures var window := Windowed(c.window, block, sids);
            var d := SeenSids(c.(window := window), Lookup(window, block).value);
            SeenBlock(c, block, sids, n, rs).contents.total == c.contents.total - FreedBySids(d, rs)
  {
    var window := Windowed(c.window, block, sids);
    var d := SeenSids(c.(window := window), Lookup(window, block).value);
    OtherWindow(c, window);
    SeenSidsKeep(c.(window := window), Lookup(window, block).value);
    SeenSidsKeepSids(c.(window := window), Lookup(window, block).value);
    FreedBySidsExact(d, rs);
    hide Index, Windowed, SeenSids, RemovedSids, SidOrders, Lookup;
    if |window| >= n {
      RemovedSidsExact(d, rs);
      EachNoneQueued(c, d, window[0].value, rs);
      OtherWindow(RemovedSids(d, rs), Erased(window, window[0].key));
    }
  }

  lemma {:induction false} SeenSidsKeepSids(c: Containers, sids: seq<ShortId>)
    requires c.Valid()
    ensures SeenSids(c, sids).pool.toAdd == c.pool.toAdd
    decreases |sids|
  {
    if sids != [] {
      hide FirstBucket;
      SeenSidsKeepSids(c, sids[..|sids| - 1]);
    }
  }

  lemma EachNoneQueued(c: Containers, d: Containers, sids: seq<ShortId>, rs: seq<SidRemoval>)
    requires d.sidToHash == c.sidToHash && d.pool.toAdd == c.pool.toAdd
    requires |rs| == |sids| && forall i | 0 <= i < |rs| :: rs[i].sid == sids[i]
    ensures NoneQueued(c, sids) <==> forall i | 0 <= i < |rs| :: NoneQueued(d, [rs[i].sid])
  {
    if forall i | 0 <= i < |rs| :: NoneQueued(d, [rs[i].sid]) {
      forall s | s in sids && s in c.sidToHash
        ensures c.sidToHash[s] !in c.pool.toAdd
      {
        var i :| 0 <= i < |sids| && sids[i] == s;
        assert NoneQueued(d, [rs[i].sid]) && s in [rs[i].sid];
      }
    }
  }
}
