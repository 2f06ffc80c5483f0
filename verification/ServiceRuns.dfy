/** The public operations of the transaction service, and what holds after any run of them. */
module ServiceRuns {
  import opened Bytes
  import opened Wrappers
  import opened OrderedMaps
  import B = BucketContainers
  import opened ContentMaps
  import opened ServiceState
  import opened ServiceIndex
  import opened ServiceMessages
  import opened ServiceRemoval
  import PoolTracking

  datatype Op =
    | AssignShortId(hash: Sha256, sid: ShortId, now: real)
    | SetContents(hash: Sha256, content: seq<byte>)
    | RemoveByHash(hash: Sha256, order: seq<ShortId>, now: real)
    | RemoveByShortId(sid: ShortId, order: seq<ShortId>, now: real, later: real)
    | SeeTransaction(hash: Sha256)
    | SeeBlock(block: Sha256, sids: seq<ShortId>, n: nat, rs: seq<SidRemoval>)
    | CleanUpBlock(block: Sha256)
    | ClearAll(first: seq<(Sha256, nat)>, second: seq<(Sha256, nat)>)
    | Deliver(m: Message, now: real)
    | AcquirePool
    | ReleasePool

  /** The orders given are orders in which the items can be met, and the readers of the pool behave. */
  ghost predicate Possible(c: Containers, op: Op)
    requires c.Valid()
  {
    match op
    case RemoveByHash(h, order, _) => HashOrder(c, h, order)
    case RemoveByShortId(sid, order, _, _) => SidOrder(c, sid, order)
    case SeeBlock(block, sids, n, rs) =>
      var window := Windowed(c.window, block, sids);
      Evicts(window, n, rs) && SidOrders(SeenSids(c.(window := window), Lookup(window, block).value), rs)
    case ClearAll(first, second) =>
      B.Enabled(c.pool, B.Clear(first)) && (forall e | e in first :: e.1 < |c.pool.buckets|)
      && B.Enabled(B.Cleared(c.pool, first), B.Clear(second)) && (forall e | e in second :: e.1 < |c.pool.buckets|)
    case AcquirePool => B.Enabled(c.pool, B.AcquireRead)
    case ReleasePool => B.Enabled(c.pool, B.ReleaseRead)
    case _ => true
  }

  ghost function Do(c: Containers, op: Op): (r: Containers)
    requires c.Valid() && Possible(c, op)
    ensures r.Valid()
  {
    match op
    case AssignShortId(h, sid, now) => Assigned(c, h, sid, now)
    case SetContents(h, content) => WithContents(c, h, content)
    case RemoveByHash(h, order, now) => RemovedHash(c, h, order, now)
    case RemoveByShortId(sid, order, now, later) => RemovedSid(c, sid, order, now, later)
    case SeeTransaction(h) => SeenTransaction(c, h)
    case SeeBlock(block, sids, n, rs) => SeenBlock(c, block, sids, n, rs)
    case CleanUpBlock(block) => c.(window := Erased(c.window, block))
    case ClearAll(first, second) => AllCleared(c, first, second)
    case Deliver(m, now) => Processed(c, m, now)
    case AcquirePool => c.(pool := B.Step(c.pool, B.AcquireRead))
    case ReleasePool => c.(pool := B.Step(c.pool, B.ReleaseRead))
  }

  /** No hash that is queued for the pool is forgotten. Only readers of the pool can make that an issue. */
  ghost predicate NoneForgotten(c: Containers, op: Op)
    requires c.Valid()
  {
    match op
    case RemoveByHash(h, _, _) => !(h in c.hashToSids && h in c.pool.toAdd)
    case RemoveByShortId(sid, _, _, _) => !(sid in c.sidToHash && c.sidToHash[sid] in c.pool.toAdd)
    case SeeBlock(block, sids, n, _) =>
      var window := Windowed(c.window, block, sids);
      |window| >= n ==> NoneQueued(c, window[0].value)
    case ClearAll(_, _) => c.pool.toAdd == []
    case _ => true
  }

  /** And no message of a peer is stray. */
  ghost predicate Undisturbed(c: Containers, op: Op)
    requires c.Valid()
  {
    NoneForgotten(c, op) && (op.Deliver? && op.m.FromPeer? ==> !Stray(c, op.m))
  }

  /** A short id is only ever offered for its own hash. */
  predicate Functional(hashOf: ShortId -> Sha256, op: Op) {
    match op
    case AssignShortId(h, sid, _) => hashOf(sid) == h
    case Deliver(m, _) => SidOf(m) != NULL_TX_SID ==> hashOf(SidOf(m)) == m.hash
    case _ => true
  }

  ghost predicate FunctionalState(hashOf: ShortId -> Sha256, c: Containers) {
    forall s | s in c.sidToHash :: c.sidToHash[s] == hashOf(s)
  }

  /** While short ids are functional no message is stray. */
  lemma FunctionalNotStray(hashOf: ShortId -> Sha256, c: Containers, op: Op)
    requires Index(c) && FunctionalState(hashOf, c) && Functional(hashOf, op)
    ensures op.Deliver? && op.m.FromPeer? ==> !Stray(c, op.m)
  {
    hide NoneEmpty, Timed, PoolTracking.Tracked;
  }

  /** With no reader of the pool nothing is forgotten. */
  lemma NoReaderNoDisturbance(c: Containers, op: Op)
    requires Index(c) && !c.pool.Reading()
    ensures c.Valid() && NoneForgotten(c, op)
  {
    IndexValid(c);
    hide Mutual, Timed, NoneEmpty, PoolTracking.Tracking, B.Disjoint;
  }

  // ---------------------------------------------------------------- one operation

  /** Clearing keeps the index exactly if nothing is queued for the pool. */
  lemma ClearExact(c: Containers, first: seq<(Sha256, nat)>, second: seq<(Sha256, nat)>)
    requires Index(c) && c.Valid() && Possible(c, ClearAll(first, second))
    ensures Index(AllCleared(c, first, second)) <==> c.pool.toAdd == []
  {
    hide PoolTracking.Tracked, Mutual, B.MeetsAll;
    var d := AllCleared(c, first, second);
    assert d.hashToSids.Keys == {};
    if c.pool.toAdd == [] {
      PoolTracking.ClearForgets(c.pool, c.hashToSids.Keys, first);
      PoolTracking.ClearForgets(B.Cleared(c.pool, first), {}, second);
      assert Mutual(map[], map[]) by { EmptyMutual(); }
      assert d.contents.Accounted() by { assert SumSizes<Sha256>(map[]) == 0; }
    } else {
      assert c.pool.toAdd[0] in d.pool.toAdd;
      PoolTracking.QueuedIsKnown(d.pool, {});
    }
  }

  lemma EmptyMutual()
    ensures Mutual(map[], map[])
  {
  }

  lemma OtherPool(c: Containers, pool: B.Pool<Sha256>)
    requires Index(c) && PoolTracking.Tracked(pool, c.hashToSids.Keys)
    ensures Index(c.(pool := pool))
  {
    hide PoolTracking.Tracked, Mutual, Timed, NoneEmpty;
  }

  lemma PoolOpKeeps(c: Containers, op: Op)
    requires Index(c) && c.Valid() && Possible(c, op) && (op.SeeTransaction? || op.AcquirePool? || op.ReleasePool?)
    ensures Index(Do(c, op))
  {
    hide PoolTracking.Tracked, Mutual, Timed, NoneEmpty, B.Step, B.ErasedItem, B.Enabled;
    match op
    case SeeTransaction(h) =>
      PoolTracking.EraseKeepsTracked(c.pool, c.hashToSids.Keys, h);
      OtherPool(c, B.ErasedItem(c.pool, h));
    case AcquirePool =>
      PoolTracking.ReadersKeepTracked(c.pool, c.hashToSids.Keys);
      OtherPool(c, B.Step(c.pool, B.AcquireRead));
    case ReleasePool =>
      PoolTracking.ReadersKeepTracked(c.pool, c.hashToSids.Keys);
      OtherPool(c, B.Step(c.pool, B.ReleaseRead));
  }

  /** An operation keeps the containers in agreement exactly if it is undisturbed. */
  lemma OpIndexExact(c: Containers, op: Op)
    requires Index(c) && c.Valid() && Possible(c, op)
    ensures Index(Do(c, op)) <==> Undisturbed(c, op)
  {
    hide Index, Assigned, WithContents, RemovedHash, RemovedSid, AllCleared, ProcessedPeer, ProcessedBdn, ProcessedNode,
         B.Step, SeenBlock, B.Enabled, NoneQueued, Windowed, Stray;
    match op
    case AssignShortId(h, sid, now) => AssignKeeps(c, h, sid, now);
    case SetContents(h, content) => ContentsKeep(c, h, content);
    case RemoveByHash(h, order, now) => RemoveHashExact(c, h, order, now);
    case RemoveByShortId(sid, order, now, later) => RemoveSidExact(c, sid, order, now, later);
    case SeeTransaction(h) => PoolOpKeeps(c, op);
    case SeeBlock(block, sids, n, rs) => SeenBlockExact(c, block, sids, n, rs);
    case CleanUpBlock(block) => OtherWindow(c, Erased(c.window, block));
    case ClearAll(first, second) => ClearExact(c, first, second);
    case Deliver(m, now) =>
      if m.FromPeer? {
        PeerKeepsIndexExact(c, m, now);
      } else {
        BdnAndNodeKeepIndex(c, m, now);
      }
    case AcquirePool => PoolOpKeeps(c, op);
    case ReleasePool => PoolOpKeeps(c, op);
  }

  // ---------------------------------------------------------------- and the short ids stay functional

  lemma AssignFunctional(hashOf: ShortId -> Sha256, c: Containers, h: Sha256, sid: ShortId, now: real)
    requires c.Valid() && FunctionalState(hashOf, c) && (sid != NULL_TX_SID ==> hashOf(sid) == h)
    ensures FunctionalState(hashOf, Assigned(c, h, sid, now))
  {
    if sid != NULL_TX_SID {
      AssignedSids(c, h, sid, now);
    }
    hide Assigned, Entered;
  }

  lemma SameSids(hashOf: ShortId -> Sha256, c: Containers, d: Containers)
    requires FunctionalState(hashOf, c) && c.sidToHash == d.sidToHash
    ensures FunctionalState(hashOf, d)
  {
  }

  lemma FewerSids(hashOf: ShortId -> Sha256, c: Containers, d: Containers)
    requires FunctionalState(hashOf, c) && Less(c, d)
    ensures FunctionalState(hashOf, d)
  {
  }

  lemma EnteredSids(c: Containers, h: Sha256)
    requires c.Valid()
    ensures Entered(c, h).sidToHash == c.sidToHash
  {
  }

  lemma ContentsSids(c: Containers, h: Sha256, content: seq<byte>)
    requires c.Valid()
    ensures WithContents(c, h, content).sidToHash == c.sidToHash
  {
  }

  lemma DeliverFunctional(hashOf: ShortId -> Sha256, c: Containers, m: Message, now: real)
    requires c.Valid() && FunctionalState(hashOf, c) && Functional(hashOf, Deliver(m, now))
    ensures FunctionalState(hashOf, Processed(c, m, now))
  {
    hide Assigned, WithContents, Entered, Has, FunctionalState, TimedOut;
    var d := WithContents(c, m.hash, m.content);
    ContentsSids(c, m.hash, m.content);
    SameSids(hashOf, c, d);
    match m
    case FromPeer(h, content, sid, _, _, _, _, _) =>
      PeerFunctional(hashOf, c, m, now);
    case FromBdn(h, content, sid, _) =>
      AssignFunctional(hashOf, c, h, sid, now);
      var e := Assigned(c, h, sid, now);
      ContentsSids(e, h, content);
      SameSids(hashOf, e, WithContents(e, h, content));
    case FromNode(h, content) =>
  }

  lemma PeerFunctional(hashOf: ShortId -> Sha256, c: Containers, m: Message, now: real)
    requires c.Valid() && FunctionalState(hashOf, c) && m.FromPeer? && Functional(hashOf, Deliver(m, now))
    ensures FunctionalState(hashOf, ProcessedPeer(c, m, now))
  {
    hide Assigned, WithContents, Entered, Has, FunctionalState, TimedOut, VerdictOf;
    var st := StatusOf(c, m);
    assert st.hasSid ==> m.sid != NULL_TX_SID;
    hide StatusOf;
    var d := if st.hasContent && !st.seenContent then WithContents(c, m.hash, m.content) else c;
    ContentsSids(c, m.hash, m.content);
    SameSids(hashOf, c, d);
    var e := if st.seenHash then Entered(d, m.hash) else d;
    EnteredSids(d, m.hash);
    SameSids(hashOf, d, e);
    if st.hasSid {
      AssignFunctional(hashOf, e, m.hash, m.sid, now);
    }
  }

  lemma RemovedHashLess(c: Containers, h: Sha256, order: seq<ShortId>, now: real)
    requires c.Valid()
    ensures Less(c, RemovedHash(c, h, order, now))
  {
    hide Emplaced, ErasedAll, EmplacedAll, B.FirstBucket;
  }

  lemma {:induction false} RemovedSidsLess(c: Containers, rs: seq<SidRemoval>)
    requires c.Valid()
    ensures Less(c, RemovedSids(c, rs))
    decreases |rs|
  {
    if rs != [] {
      hide RemovedSid;
      var d, last := RemovedSids(c, rs[..|rs| - 1]), rs[|rs| - 1];
      RemovedSidsLess(c, rs[..|rs| - 1]);
      RemovedSidLess(d, last.sid, last.order, last.now, last.later);
    }
  }

  lemma SeenBlockSids(hashOf: ShortId -> Sha256, c: Containers, block: Sha256, sids: seq<ShortId>, n: nat, rs: seq<SidRemoval>)
    requires c.Valid() && FunctionalState(hashOf, c)
    ensures FunctionalState(hashOf, SeenBlock(c, block, sids, n, rs))
  {
    var window := Windowed(c.window, block, sids);
    var d := SeenSids(c.(window := window), Lookup(window, block).value);
    RemovedSidsLess(d, rs);
    hide Windowed, RemovedSids, Lookup, Erased;
    FewerSids(hashOf, d, RemovedSids(d, rs));
  }

  lemma OpFunctional(hashOf: ShortId -> Sha256, c: Containers, op: Op)
    requires c.Valid() && Possible(c, op) && FunctionalState(hashOf, c) && Functional(hashOf, op)
    ensures FunctionalState(hashOf, Do(c, op))
  {
    hide Assigned, WithContents, RemovedHash, RemovedSid, Processed, B.Step, SeenBlock, FunctionalState, B.Enabled, Erased;
    match op
    case AssignShortId(h, sid, now) => AssignFunctional(hashOf, c, h, sid, now);
    case SetContents(h, content) =>
      ContentsSids(c, h, content);
      SameSids(hashOf, c, Do(c, op));
    case RemoveByHash(h, order, now) =>
      RemovedHashLess(c, h, order, now);
      FewerSids(hashOf, c, Do(c, op));
    case RemoveByShortId(sid, order, now, later) =>
      RemovedSidLess(c, sid, order, now, later);
      FewerSids(hashOf, c, Do(c, op));
    case SeeBlock(block, sids, n, rs) => SeenBlockSids(hashOf, c, block, sids, n, rs);
    case Deliver(m, now) => DeliverFunctional(hashOf, c, m, now);
    case ClearAll(first, second) => NoSids(hashOf, AllCleared(c, first, second));
    case _ => SameSids(hashOf, c, Do(c, op));
  }

  lemma NoSids(hashOf: ShortId -> Sha256, c: Containers)
    requires c.sidToHash == map[]
    ensures FunctionalState(hashOf, c)
  {
  }

  // ---------------------------------------------------------------- runs

  ghost predicate CanRun(c: Containers, ops: seq<Op>)
    requires c.Valid()
    decreases |ops|
  {
    ops == [] || (Possible(c, ops[0]) && CanRun(Do(c, ops[0]), ops[1..]))
  }

  ghost function Run(c: Containers, ops: seq<Op>): (r: Containers)
    requires c.Valid() && CanRun(c, ops)
    ensures r.Valid()
    decreases |ops|
  {
    if ops == [] then c else Run(Do(c, ops[0]), ops[1..])
  }

  ghost predicate IndexThroughout(c: Containers, ops: seq<Op>)
    requires c.Valid() && CanRun(c, ops)
    decreases |ops|
  {
    Index(c) && (ops == [] || IndexThroughout(Do(c, ops[0]), ops[1..]))
  }

  ghost predicate NeverDisturbed(c: Containers, ops: seq<Op>)
    requires c.Valid() && CanRun(c, ops)
    decreases |ops|
  {
    ops == [] || (Undisturbed(c, ops[0]) && NeverDisturbed(Do(c, ops[0]), ops[1..]))
  }

  ghost predicate NeverForgotten(c: Containers, ops: seq<Op>)
    requires c.Valid() && CanRun(c, ops)
    decreases |ops|
  {
    ops == [] || (NoneForgotten(c, ops[0]) && NeverForgotten(Do(c, ops[0]), ops[1..]))
  }

  /** The containers agree throughout a run exactly if no operation of it is disturbed. */
  lemma {:induction false} RunIndexExact(c: Containers, ops: seq<Op>)
    requires Index(c) && c.Valid() && CanRun(c, ops)
    ensures IndexThroughout(c, ops) <==> NeverDisturbed(c, ops)
    decreases |ops|
  {
    hide Index, Possible, Undisturbed, Do;
    if ops != [] {
      OpIndexExact(c, ops[0]);
      if Undisturbed(c, ops[0]) {
        RunIndexExact(Do(c, ops[0]), ops[1..]);
      } else {
        assert !IndexThroughout(Do(c, ops[0]), ops[1..]);
      }
    }
  }

  /** At the end of such a run the containers agree; with nobody reading, the pool holds only hashes of the index. */
  lemma {:induction false} RunKeepsIndex(c: Containers, ops: seq<Op>)
    requires Index(c) && c.Valid() && CanRun(c, ops) && NeverDisturbed(c, ops)
    ensures var d := Run(c, ops);
            Index(d) && (!d.pool.Reading() ==> B.Union(d.pool.buckets) <= d.hashToSids.Keys)
    decreases |ops|
  {
    hide Index, Possible, Undisturbed, Do, B.Union;
    if ops != [] {
      OpIndexExact(c, ops[0]);
      RunKeepsIndex(Do(c, ops[0]), ops[1..]);
    } else {
      PoolOfIndex(c);
    }
  }

  /** With functional short ids only the queue of the pool can disturb a run. */
  lemma {:induction false} FunctionalRun(hashOf: ShortId -> Sha256, c: Containers, ops: seq<Op>)
    requires Index(c) && c.Valid() && CanRun(c, ops)
    requires FunctionalState(hashOf, c) && forall i | 0 <= i < |ops| :: Functional(hashOf, ops[i])
    ensures NeverDisturbed(c, ops) <==> NeverForgotten(c, ops)
    ensures NeverForgotten(c, ops) ==> FunctionalState(hashOf, Run(c, ops))
    decreases |ops|
  {
    hide Index, FunctionalState, Possible, NoneForgotten, Functional, Do, Stray;
    if ops != [] && NoneForgotten(c, ops[0]) {
      FunctionalNotStray(hashOf, c, ops[0]);
      OpIndexExact(c, ops[0]);
      OpFunctional(hashOf, c, ops[0]);
      FunctionalRun(hashOf, Do(c, ops[0]), ops[1..]);
    }
  }

  lemma EnteredUnread(c: Containers, h: Sha256)
    requires c.Valid()
    ensures Entered(c, h).pool.readers == c.pool.readers
  {
  }

  lemma AssignedUnread(c: Containers, h: Sha256, sid: ShortId, now: real)
    requires c.Valid()
    ensures Assigned(c, h, sid, now).pool.readers == c.pool.readers
  {
    hide Emplaced, Entered;
    EnteredUnread(c, h);
  }

  lemma DeliverUnread(c: Containers, m: Message, now: real)
    requires c.Valid()
    ensures Processed(c, m, now).pool.readers == c.pool.readers
  {
    hide Assigned, Entered, Has, TimedOut, VerdictOf, StatusOf;
    var d := WithContents(c, m.hash, m.content);
    EnteredUnread(c, m.hash);
    EnteredUnread(d, m.hash);
    if !m.FromNode? {
      AssignedUnread(c, m.hash, m.sid, now);
      AssignedUnread(d, m.hash, m.sid, now);
      AssignedUnread(Entered(c, m.hash), m.hash, m.sid, now);
      AssignedUnread(Entered(d, m.hash), m.hash, m.sid, now);
    }
  }

  lemma StaysUnread(c: Containers, op: Op)
    requires c.Valid() && Possible(c, op) && !c.pool.Reading() && !op.AcquirePool?
    ensures !Do(c, op).pool.Reading()
  {
    hide B.MeetsAll, B.FirstBucket, Emplaced, Erased, ErasedAll, EmplacedAll, Assigned, Processed, SeenBlock;
    match op
    case AssignShortId(h, sid, now) => AssignedUnread(c, h, sid, now);
    case SeeBlock(block, sids, n, rs) => BlockUnread(c, block, sids, n, rs);
    case Deliver(m, now) => DeliverUnread(c, m, now);
    case _ =>
  }

  lemma {:induction false} SidsUnread(c: Containers, sids: seq<ShortId>)
    requires c.Valid()
    ensures SeenSids(c, sids).pool.readers == c.pool.readers
    decreases |sids|
  {
    if sids != [] {
      hide B.FirstBucket;
      SidsUnread(c, sids[..|sids| - 1]);
    }
  }

  lemma {:induction false} RemovalsUnread(c: Containers, rs: seq<SidRemoval>)
    requires c.Valid()
    ensures RemovedSids(c, rs).pool.readers == c.pool.readers
    decreases |rs|
  {
    if rs != [] {
      hide B.FirstBucket, Emplaced, Erased, ErasedAll, EmplacedAll;
      RemovalsUnread(c, rs[..|rs| - 1]);
    }
  }

  lemma BlockUnread(c: Containers, block: Sha256, sids: seq<ShortId>, n: nat, rs: seq<SidRemoval>)
    requires c.Valid()
    ensures SeenBlock(c, block, sids, n, rs).pool.readers == c.pool.readers
  {
    hide Windowed, Lookup, SeenSids, RemovedSids, Erased;
    var window := Windowed(c.window, block, sids);
    SidsUnread(c.(window := window), Lookup(window, block).value);
    RemovalsUnread(SeenSids(c.(window := window), Lookup(window, block).value), rs);
  }

  /** So while the pool is not read, every run with functional short ids keeps the containers in agreement. */
  lemma {:induction false} UnreadRunKeepsIndex(hashOf: ShortId -> Sha256, c: Containers, ops: seq<Op>)
    requires Index(c) && c.Valid() && CanRun(c, ops) && !c.pool.Reading()
    requires FunctionalState(hashOf, c) && forall i | 0 <= i < |ops| :: Functional(hashOf, ops[i]) && !ops[i].AcquirePool?
    ensures IndexThroughout(c, ops) && B.Union(Run(c, ops).pool.buckets) <= Run(c, ops).hashToSids.Keys
    decreases |ops|
  {
    hide Index, FunctionalState, Possible, NoneForgotten, Functional, Do, Stray, B.Union;
    if ops != [] {
      NoReaderNoDisturbance(c, ops[0]);
      FunctionalNotStray(hashOf, c, ops[0]);
      OpIndexExact(c, ops[0]);
      OpFunctional(hashOf, c, ops[0]);
      StaysUnread(c, ops[0]);
      UnreadRunKeepsIndex(hashOf, Do(c, ops[0]), ops[1..]);
    } else {
      PoolOfIndex(c);
    }
  }

  lemma TwoOps(c: Containers, a: Op, b: Op)
    requires c.Valid() && Possible(c, a) && Possible(Do(c, a), b)
    ensures CanRun(c, [a, b]) && (NeverDisturbed(c, [a, b]) ==> Undisturbed(Do(c, a), b))
  {
    hide Do, Possible, Undisturbed;
    assert [a, b][1..] == [b] && [b][1..] == [];
    assert CanRun(Do(Do(c, a), b), []);
    assert CanRun(Do(c, a), [b]);
    if NeverDisturbed(c, [a, b]) {
      assert NeverDisturbed(Do(c, a), [b]);
      assert [b][0] == b;
    }
  }

  /** Two peers that offer one short id for two new transactions leave the second one without any. */
  lemma TwoPeersDisturb(c: Containers, h: Sha256, g: Sha256, sid: ShortId, now: real)
    requires Index(c) && c.Valid() && h != g && sid != NULL_TX_SID && sid !in c.sidToHash
    requires !c.WasRemoved(h) && !c.WasRemoved(g) && h !in c.hashToSids && g !in c.hashToSids
    requires !c.HasContents(h) && !c.HasContents(g)
    ensures var first := Deliver(FromPeer(h, [7], sid, NULL_TX_TIMESTAMP, now, false, ValidTx, false), now);
            var second := Deliver(FromPeer(g, [8], sid, NULL_TX_TIMESTAMP, now, false, ValidTx, false), now);
            CanRun(c, [first, second]) && !IndexThroughout(c, [first, second])
  {
    hide Index, Has, Emplaced, B.Inserted;
    var first := Deliver(FromPeer(h, [7], sid, NULL_TX_TIMESTAMP, now, false, ValidTx, false), now);
    var second := Deliver(FromPeer(g, [8], sid, NULL_TX_TIMESTAMP, now, false, ValidTx, false), now);
    TwoOps(c, first, second);
    assert Stray(Do(c, first), second.m);
    RunIndexExact(c, [first, second]);
  }

  /** A hash that is assigned a short id and removed again while the pool is read disturbs the index. */
  lemma RemovalWhileReadDisturbs(c: Containers, h: Sha256, sid: ShortId, now: real)
    requires Index(c) && c.Valid() && c.pool.Reading() && sid != NULL_TX_SID && sid !in c.sidToHash && h !in c.hashToSids
    ensures var assign, remove := AssignShortId(h, sid, now), RemoveByHash(h, [sid], now);
            CanRun(c, [assign, remove]) && !IndexThroughout(c, [assign, remove])
  {
    hide Index, Has, Emplaced;
    var assign, remove := AssignShortId(h, sid, now), RemoveByHash(h, [sid], now);
    var d := Do(c, assign);
    assert d.pool.toAdd == c.pool.toAdd + [h] && d.hashToSids[h] == {sid};
    assert h in d.pool.toAdd by { assert d.pool.toAdd[|c.pool.toAdd|] == h; }
    TwoOps(c, assign, remove);
    RunIndexExact(c, [assign, remove]);
  }

  lemma PoolOfIndex(c: Containers)
    requires Index(c)
    ensures !c.pool.Reading() ==> B.Union(c.pool.buckets) <= c.hashToSids.Keys
  {
    hide Mutual, Timed, NoneEmpty, PoolTracking.Tracked, B.Union;
    if !c.pool.Reading() {
      PoolTracking.OnlyKnown(c.pool, c.hashToSids.Keys);
    }
  }
}
