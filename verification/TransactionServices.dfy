/**
 The transaction service as an object whose methods update its containers. Each method is
 tied to the function that the properties are proved about.
 */
module TransactionServices {
  import opened Bytes
  import opened Wrappers
  import opened Buffers
  import opened OrderedMaps
  import B = BucketContainers
  import opened ContentMaps
  import opened ShortIdMaps
  import opened ServiceState
  import opened ServiceIndex
  import opened ServiceMessages
  import opened ServiceRemoval
  import opened ServiceRuns
  import N = NodeReplies
  import PoolTracking

  /** What a peer is told about its message. */
  datatype PeerResult = PeerResult(
    status: Status, verdict: Verdict, existing: set<ShortId>, hadContents: bool, setKnewHash: bool,
    contentsSet: bool, sidAssigned: bool)

  datatype BdnResult = BdnResult(
    ignoreSeenContents: bool, ignoreSeenSid: bool, assignedSid: bool, existingContents: bool,
    setContents: bool, setKnewHash: bool)

  /** An order in which the elements of a set are met. */
  method Meet(s: set<ShortId>) returns (order: seq<ShortId>)
    ensures Enumerates(order, s)
  {
    order := [];
    var rest := s;
    while rest != {}
      invariant rest <= s && Enumerates(order, s - rest)
      decreases rest
    {
      var x :| x in rest;
      MeetNext(order, s - rest, x);
      order := order + [x];
      rest := rest - {x};
      assert s - rest == s - (rest + {x}) + {x};
    }
    assert s - rest == s;
  }

  lemma MeetNext(order: seq<ShortId>, s: set<ShortId>, x: ShortId)
    requires Enumerates(order, s) && x !in s
    ensures Enumerates(order + [x], s + {x})
  {
    var all := order + [x];
    assert all[|order|] == x;
    assert forall i | 0 <= i < |order| :: all[i] == order[i];
    assert forall y | y in order :: y in all;
  }

  /** The part of a reply about one transaction. */
  method PutEntry(out: ByteArray, tx: N.ParsedTx, seen: bool, verdict: Verdict, pos: nat, ghost x: seq<byte>) returns (end: nat)
    requires out.Valid() && At(out.store, 0, x) && pos == |x| == out.length
    modifies out
    ensures out.Valid() && end == out.length && out.capacity == Max(old(out.capacity), end)
    ensures var y := x + N.EntryOf(tx, seen, verdict); At(out.store, 0, y) && end == |y|
  {
    hide At, LittleEndian;
    ghost var y := x;
    end := PutNext(out, [if seen then 1 else 0], pos, y);
    y := y + [if seen then 1 else 0];
    end := PutNext(out, tx.hash, end, y);
    y := y + tx.hash;
    end := PutNext(out, LittleEndian(tx.offset, 4), end, y);
    y := y + LittleEndian(tx.offset, 4);
    end := PutNext(out, LittleEndian(tx.length, 4), end, y);
    y := y + LittleEndian(tx.length, 4);
    end := PutNext(out, LittleEndian(N.StatusWord(verdict), 4), end, y);
    y := y + LittleEndian(N.StatusWord(verdict), 4);
    assert y == x + N.EntryOf(tx, seen, verdict);
  }

  class TransactionService {
    const txNotSeenInBlocks: B.SafeBucketContainer<Sha256>
    const hashToSids: Sha256ToShortIdsMap
    var sidToHash: map<ShortId, Sha256>
    const contents: MapWrapper<Sha256>
    const window: OrderedMap<Sha256, seq<ShortId>>
    const assignTime: OrderedMap<ShortId, real>
    const hashRemoved: OrderedMap<Sha256, real>
    const sidRemoved: OrderedMap<ShortId, real>
    var finalTxConfirmationsCount: nat

    /** The object and its containers. */
    ghost function Repr(): set<object> {
      {this, txNotSeenInBlocks, hashToSids, contents, window, assignTime, hashRemoved, sidRemoved}
    }

    ghost function State(): Containers
      reads this, txNotSeenInBlocks, hashToSids, contents, window, assignTime, hashRemoved, sidRemoved
    {
      Containers(txNotSeenInBlocks.State(), hashToSids.entries, sidToHash, contents.State(), window.Entries(),
                 assignTime.Entries(), hashRemoved.Entries(), sidRemoved.Entries())
    }

    ghost predicate Valid()
      reads this, txNotSeenInBlocks, hashToSids, contents, window, assignTime, hashRemoved, sidRemoved
      ensures Valid() ==> State().Valid()
    {
      && txNotSeenInBlocks.Valid() && hashToSids.notSeen == txNotSeenInBlocks
      && window.Valid() && assignTime.Valid() && hashRemoved.Valid() && sidRemoved.Valid()
      && assignTime != sidRemoved && (window as object) !in {hashRemoved as object, assignTime, sidRemoved}
      && (hashRemoved as object) !in {assignTime as object, sidRemoved}
    }

    constructor (poolSize: nat, bucketCapacity: nat, confirmations: nat)
      requires poolSize > 0
      ensures Valid() && Index(State())
      ensures fresh(txNotSeenInBlocks) && fresh(hashToSids) && fresh(contents) && fresh(window)
      ensures fresh(assignTime) && fresh(hashRemoved) && fresh(sidRemoved)
      ensures State().window == [] && finalTxConfirmationsCount == confirmations
    {
      var pool := new B.SafeBucketContainer(bucketCapacity, poolSize);
      txNotSeenInBlocks := pool;
      hashToSids := new Sha256ToShortIdsMap(pool);
      sidToHash := map[];
      contents := new MapWrapper();
      window := new OrderedMap();
      assignTime := new OrderedMap();
      hashRemoved := new OrderedMap();
      sidRemoved := new OrderedMap();
      finalTxConfirmationsCount := confirmations;
      new;
      hide Index, Linked, B.Inv;
      NothingYet(State());
    }

    method AssignShortId(h: Sha256, sid: ShortId, now: real) returns (hasContents: bool)
      requires Valid()
      modifies Repr()
      ensures Valid() && State() == Assigned(old(State()), h, sid, now)
      ensures hasContents == (h in contents.entries)
      ensures finalTxConfirmationsCount == old(finalTxConfirmationsCount)
    {
      hide B.Inserted, Emplaced, Has;
      hasContents := h in contents.entries;
      if sid == NULL_TX_SID {
        return;
      }
      if sid !in sidToHash {
        var _ := hashToSids.Access(h);
        hashToSids.AddShortId(h, sid);
        sidToHash := sidToHash[sid := h];
      }
      var _ := assignTime.Emplace(sid, now);
    }

    method SetTransactionContents(h: Sha256, content: seq<byte>) returns (hasSid: bool, size: nat)
      requires Valid()
      modifies contents
      ensures Valid() && State() == WithContents(old(State()), h, content)
      ensures hasSid == (h in hashToSids.entries)
      ensures size == if h in old(contents.entries) then |contents.entries[h]| else 0
    {
      hasSid, size := h in hashToSids.entries, 0;
      if h in contents.entries {
        size := |contents.entries[h]|;
      } else {
        var _ := contents.Emplace(h, content);
      }
    }

    /** Forgets the short ids in the order in which they are met. */
    method ForgetSids(order: seq<ShortId>, now: real)
      requires Valid()
      modifies this`sidToHash, assignTime, sidRemoved
      ensures Valid()
      ensures State() == old(State()).(sidToHash := old(sidToHash) - AsSet(order),
                                       assignTime := ErasedAll(old(assignTime.Entries()), order),
                                       sidRemoved := EmplacedAll(old(sidRemoved.Entries()), order, now))
    {
      hide Erased, Emplaced, Linked;
      for i := 0 to |order|
        invariant Valid()
        invariant sidToHash == old(sidToHash) - AsSet(order[..i])
        invariant assignTime.Entries() == ErasedAll(old(assignTime.Entries()), order[..i])
        invariant sidRemoved.Entries() == EmplacedAll(old(sidRemoved.Entries()), order[..i], now)
      {
        assert order[..i + 1][..i] == order[..i];
        assert order[..i + 1] == order[..i] + [order[i]];
        SnocSet(order[..i], order[i]);
        sidToHash := sidToHash - {order[i]};
        var _ := assignTime.Erase(order[i]);
        var _ := sidRemoved.Emplace(order[i], now);
      }
      assert order[..|order|] == order;
    }

    /** Takes a hash out of the index and the pool, and the short ids met out of the other maps. */
    method Unindex(h: Sha256, order: seq<ShortId>, now: real)
      requires Valid()
      modifies Repr()
      ensures Valid() && State() == Unindexed(old(State()), h, order, now)
      ensures finalTxConfirmationsCount == old(finalTxConfirmationsCount)
    {
      hide B.ErasedItem, ErasedAll, EmplacedAll, AsSet, Linked;
      ForgetSids(order, now);
      hashToSids.Erase(h);
    }

    method ForgetContents(h: Sha256) returns (size: nat)
      requires Valid()
      modifies contents
      ensures Valid() && State() == old(State()).(contents := old(State()).contents.Erase(h))
      ensures size == old(State()).contents.SizeOf(h)
    {
      size := 0;
      if h in contents.entries {
        size := |contents.entries[h]|;
        contents.Erase(h);
      }
    }

    /** Removes a transaction and tells the size of its contents. */
    method RemoveTransactionByHash(h: Sha256, now: real) returns (contentLength: nat, ghost order: seq<ShortId>)
      requires Valid()
      modifies Repr()
      ensures Valid() && HashOrder(old(State()), h, order) && State() == RemovedHash(old(State()), h, order, now)
      ensures contentLength == old(State()).contents.SizeOf(h)
      ensures finalTxConfirmationsCount == old(finalTxConfirmationsCount)
    {
      hide Unindexed, Emplaced, Enumerates, Linked;
      order, contentLength := [], 0;
      if h in hashToSids.entries {
        var met := Meet(hashToSids.entries[h]);
        order := met;
        Unindex(h, met, now);
      }
      contentLength := ForgetContents(h);
      var _ := hashRemoved.Emplace(h, now);
    }

    method RemoveTransactionsByHashes(hashes: seq<Sha256>, now: real) returns (total: nat, ghost rs: seq<HashRemoval>)
      requires Valid()
      modifies Repr()
      ensures Valid() && |rs| == |hashes| && (forall i | 0 <= i < |rs| :: rs[i].hash == hashes[i])
      ensures State() == RemovedHashes(old(State()), rs) && total == FreedByHashes(old(State()), rs)
    {
      hide RemovedHash, Linked;
      rs, total := [], 0;
      for i := 0 to |hashes|
        invariant Valid() && |rs| == i && forall j | 0 <= j < i :: rs[j].hash == hashes[j]
        invariant State() == RemovedHashes(old(State()), rs) && total == FreedByHashes(old(State()), rs)
      {
        ghost var order;
        var freed;
        freed, order := RemoveTransactionByHash(hashes[i], now);
        total := total + freed;
        ghost var before := rs;
        rs := rs + [HashRemoval(hashes[i], order, now)];
        assert rs[..|rs| - 1] == before;
      }
    }

    /** Takes the hash of a short id out of the index, and gives its other short ids in the order they are met. */
    method UnindexSiblings(h: Sha256, sid: ShortId, now: real) returns (met: seq<ShortId>)
      requires Valid() && sid in sidToHash && sidToHash[sid] == h
      modifies Repr()
      ensures Valid() && SidOrder(old(State()), sid, met) && (h !in old(hashToSids.entries) ==> met == [])
      ensures State() == if h in old(hashToSids.entries)
                         then var e := Unindexed(old(State()), h, met, now); e.(sidRemoved := Emplaced(e.sidRemoved, sid, now))
                         else old(State())
      ensures finalTxConfirmationsCount == old(finalTxConfirmationsCount)
    {
      hide Unindexed, Emplaced, Enumerates, Linked;
      met := [];
      if h in hashToSids.entries {
        if |hashToSids.entries[h]| > 1 {
          met := Meet(hashToSids.entries[h] - {sid});
        }
        Unindex(h, met, now);
        var _ := sidRemoved.Emplace(sid, now);
      }
    }

    /** Removes by short id. What is appended to `dups` are the other short ids of the hash. */
    method RemoveTransactionByShortId(sid: ShortId, dups: seq<ShortId>, now: real, later: real)
      returns (contentsLen: nat, allDups: seq<ShortId>, ghost order: seq<ShortId>)
      requires Valid()
      modifies Repr()
      ensures Valid() && SidOrder(old(State()), sid, order) && State() == RemovedSid(old(State()), sid, order, now, later)
      ensures contentsLen == RemovedSize(old(State()), sid)
      ensures allDups == dups + if sid in old(sidToHash) then order else []
      ensures finalTxConfirmationsCount == old(finalTxConfirmationsCount)
    {
      hide Unindexed, Emplaced, Enumerates, Erased, Linked;
      order, allDups, contentsLen := [], dups, 0;
      if sid !in sidToHash {
        return;
      }
      var h := sidToHash[sid];
      var met := UnindexSiblings(h, sid, now);
      order, allDups := met, dups + met;
      contentsLen := ForgetContents(h);
      var _ := hashRemoved.Emplace(h, later);
      sidToHash := sidToHash - {sid};
      var _ := assignTime.Erase(sid);
    }

    /** The transactions of a block that leave the pool. */
    method SeeSids(sids: seq<ShortId>)
      requires Valid()
      modifies txNotSeenInBlocks
      ensures Valid() && State() == SeenSids(old(State()), sids)
    {
      hide B.ErasedItem, Linked;
      for i := 0 to |sids|
        invariant Valid() && State() == SeenSids(old(State()), sids[..i])
      {
        assert sids[..i + 1][..i] == sids[..i];
        if sids[i] in sidToHash {
          txNotSeenInBlocks.Erase(sidToHash[sids[i]]);
        }
      }
      assert sids[..|sids|] == sids;
    }

    /** Removes the transactions of a finished block. */
    method FinishSids(sids: seq<ShortId>, now: real, later: real)
      returns (freed: nat, dups: seq<ShortId>, ghost rs: seq<SidRemoval>)
      requires Valid()
      modifies Repr()
      ensures Valid() && |rs| == |sids| && (forall i | 0 <= i < |rs| :: rs[i].sid == sids[i])
      ensures SidOrders(old(State()), rs) && State() == RemovedSids(old(State()), rs)
      ensures freed == FreedBySids(old(State()), rs) && dups == DupsOf(old(State()), rs)
      ensures finalTxConfirmationsCount == old(finalTxConfirmationsCount)
    {
      hide RemovedSid, SidOrder, RemovedSize, Linked;
      freed, dups, rs := 0, [], [];
      for i := 0 to |sids|
        invariant Valid() && |rs| == i && forall j | 0 <= j < i :: rs[j].sid == sids[j]
        invariant SidOrders(old(State()), rs) && State() == RemovedSids(old(State()), rs)
        invariant freed == FreedBySids(old(State()), rs) && dups == DupsOf(old(State()), rs)
        invariant finalTxConfirmationsCount == old(finalTxConfirmationsCount)
      {
        ghost var order;
        var len;
        len, dups, order := RemoveTransactionByShortId(sids[i], dups, now, later);
        freed := freed + len;
        ghost var before := rs;
        rs := rs + [SidRemoval(sids[i], order, now, later)];
        assert rs[..|rs| - 1] == before;
      }
    }

    /** Tracks a block. When the window is full the oldest block's transactions are removed. */
    method TrackSeenShortIds(block: Sha256, sids: seq<ShortId>, now: real, later: real)
      returns (freed: nat, dups: seq<ShortId>, ghost rs: seq<SidRemoval>)
      requires Valid()
      modifies Repr()
      ensures Valid() && State() == SeenBlock(old(State()), block, sids, finalTxConfirmationsCount, rs)
      ensures Evicts(Windowed(old(window.Entries()), block, sids), finalTxConfirmationsCount, rs)
      ensures var w := Windowed(old(window.Entries()), block, sids);
              var d := SeenSids(old(State()).(window := w), Lookup(w, block).value);
              SidOrders(d, rs) && freed == FreedBySids(d, rs) && dups == DupsOf(d, rs)
      ensures finalTxConfirmationsCount == old(finalTxConfirmationsCount)
    {
      hide SeenSids, RemovedSids, Lookup, Erased, Emplaced, Linked;
      freed, dups, rs := 0, [], [];
      ghost var w := Windowed(window.Entries(), block, sids);
      var _ := window.Emplace(block, sids);
      assert window.Entries() == w;
      var stored := window.Find(block);
      SeeSids(stored.value);
      if |window.list| >= finalTxConfirmationsCount {
        var oldest := window.Begin();
        freed, dups, rs := FinishSids(oldest.value, now, later);
        var _ := window.Erase(oldest.key);
      }
    }

    /** The block is forgotten; the others stay, with their short ids and in their order. */
    method OnBlockCleanedUp(block: Sha256)
      requires Valid()
      modifies window
      ensures Valid() && State() == old(State()).(window := State().window)
      ensures !Has(State().window, block)
      ensures forall b: Sha256 | b != block :: Lookup(State().window, b) == Lookup(old(State().window), b)
      ensures Has(old(State().window), block) ==>
                exists p | 0 <= p < |old(State().window)| :: State().window == old(State().window)[..p] + old(State().window)[p + 1..]
      ensures !Has(old(State().window), block) ==> State().window == old(State().window)
    {
      ghost var was := window.Entries();
      LinkedKnows(window.list, window.index, window.next, block);
      hide Linked;
      var _ := window.Erase(block);
      CleanedUp(was, block);
    }

    /** Takes a transaction from a peer. */
    method ProcessTransactionMsg(m: Message, now: real) returns (r: PeerResult)
      requires Valid() && m.FromPeer?
      modifies Repr()
      ensures Valid() && State() == ProcessedPeer(old(State()), m, now)
      ensures r.verdict == VerdictOf(m, StatusOf(old(State()), m))
      ensures r.status == StatusOf(old(State()), m).(ignoreSeen := r.status.ignoreSeen)
      ensures r.status.ignoreSeen <==> StatusOf(old(State()), m).ignoreSeen || r.verdict == ReuseNonce
      ensures r.contentsSet <==> m.hash !in old(contents.entries) && m.hash in contents.entries
      ensures r.setKnewHash <==> r.contentsSet && m.hash in old(hashToSids.entries)
      ensures r.sidAssigned <==> Taken(old(State()), m) && m.sid != NULL_TX_SID
      ensures r.sidAssigned ==> m.sid in sidToHash
      ensures r.hadContents <==> r.sidAssigned && m.hash in contents.entries
      ensures r.existing == if Taken(old(State()), m) && r.status.seenHash && m.hash in old(hashToSids.entries)
                            then old(hashToSids.entries)[m.hash] else {}
    {
      hide Assigned, Has, TimedOut, B.Inserted, Linked;
      var status := GetStatus(m);
      var verdict := VerdictOf(m, status);
      r := PeerResult(status, verdict, {}, false, false, false, false);
      if status.ignoreSeen || status.timedOut || verdict == InvalidFormat || verdict == InvalidSignature {
        return;
      }
      if !status.hasSid && verdict == ReuseNonce {
        return r.(status := status.(ignoreSeen := true));
      }
      if status.hasContent && !status.seenContent {
        var knew, _ := SetTransactionContents(m.hash, m.content);
        r := r.(contentsSet := true, setKnewHash := knew);
      }
      if verdict == LowFee {
        return;
      }
      if status.seenHash {
        var existing := hashToSids.Access(m.hash);
        r := r.(existing := existing);
      }
      if status.hasSid {
        AssignedKnows(State(), m.hash, m.sid, now);
        var had := AssignShortId(m.hash, m.sid, now);
        r := r.(hadContents := had, sidAssigned := true);
      }
    }

    /** The status of a peer's message. */
    method GetStatus(m: Message) returns (st: Status)
      requires Valid() && m.FromPeer?
      ensures st == StatusOf(State(), m)
    {
      var removed := hashRemoved.Find(m.hash);
      LookupAt(hashRemoved.Entries(), m.hash);
      hide Has, Lookup, Linked, TimedOut;
      if removed.Some? {
        return Status(true, false, false, false, false, false, true, false);
      }
      if TimedOut(m) {
        return Status(false, false, false, false, false, false, false, true);
      }
      var known := m.hash in contents.entries;
      st := Status(false, m.sid != NULL_TX_SID, |m.content| != 0, false, false, false, false, false);
      if st.hasSid && m.sid in sidToHash {
        st := st.(seenSid := true, seenHash := true);
      }
      if known {
        st := st.(seenContent := st.hasContent, seenHash := true);
      }
      if st.seenContent && st.seenHash && !st.hasSid {
        st := st.(ignoreSeen := true);
      }
      if st.seenContent && st.seenHash && st.seenSid {
        st := st.(ignoreSeen := true);
      }
      if !st.hasContent && st.seenHash && !st.hasSid {
        st := st.(ignoreSeen := true);
      }
      if !st.hasContent && st.seenHash && st.seenSid {
        st := st.(ignoreSeen := true);
      }
      if !st.ignoreSeen && !st.hasSid && m.hash in hashToSids.entries {
        st := st.(seenHash := true);
      }
    }

    method WasRemoved(h: Sha256) returns (r: bool)
      requires Valid()
      ensures r == State().WasRemoved(h)
    {
      LookupAt(hashRemoved.Entries(), h);
      var time := hashRemoved.Find(h);
      r := time.Some?;
    }

    method ProcessGatewayTransactionFromBdn(m: Message, now: real) returns (r: BdnResult)
      requires Valid() && m.FromBdn?
      modifies Repr()
      ensures Valid() && State() == ProcessedBdn(old(State()), m, now)
      ensures r.assignedSid <==> m.sid != NULL_TX_SID && m.sid !in old(sidToHash) && m.sid in sidToHash
      ensures r.setContents <==> m.hash !in old(contents.entries) && m.hash in contents.entries
      ensures r.existingContents <==> m.hash in old(contents.entries)
      ensures var knownSid := m.sid != NULL_TX_SID && m.sid in old(sidToHash);
              && (r.ignoreSeenContents <==> old(State()).WasRemoved(m.hash)
                                            || (r.existingContents && (knownSid || m.sid == NULL_TX_SID)))
              && (r.ignoreSeenSid <==> !r.ignoreSeenContents && knownSid && m.compact)
      ensures r.ignoreSeenContents || r.ignoreSeenSid ==> State() == old(State())
      ensures r.setKnewHash <==> r.setContents && m.hash in hashToSids.entries
    {
      hide Assigned, Has, Linked;
      var existingSid := m.sid != NULL_TX_SID && m.sid in sidToHash;
      var existing := m.hash in contents.entries;
      r := BdnResult(false, false, false, existing, false, false);
      var removed := WasRemoved(m.hash);
      if ((m.sid == NULL_TX_SID || existingSid) && existing) || removed {
        return r.(ignoreSeenContents := true);
      }
      if (existing || m.compact) && existingSid {
        return r.(ignoreSeenSid := true);
      }
      if m.sid != NULL_TX_SID && m.sid !in sidToHash {
        AssignedKnows(State(), m.hash, m.sid, now);
        var _ := AssignShortId(m.hash, m.sid, now);
        r := r.(assignedSid := true);
      }
      if !m.compact && !existing {
        var knew, _ := SetTransactionContents(m.hash, m.content);
        r := r.(setContents := true, setKnewHash := knew);
      }
    }

    /** Takes the transactions of a node's message, already taken apart, and writes the reply. */
    method ProcessGatewayTransactionFromNode(m: N.NodeMessage, now: real) returns (out: ByteArray)
      requires Valid() && m.Valid()
      modifies contents
      ensures Valid() && State() == N.After(old(State()), m, |m.txs|, now)
      ensures fresh(out) && out.Valid() && out.Contents() == N.Reply(old(State()), m, now)
      ensures out.capacity == |out.Contents()|
    {
      hide Has, N.After, N.Reply, LittleEndian, At, Linked, N.NodeMessage.Valid, N.Entries, Buffer.Put;
      var total := TX_COUNT_LEN + |m.txs| * N.ENTRY_LEN;
      out := new ByteArray(total);
      var pos := out.Put(LittleEndian(|m.txs|, TX_COUNT_LEN), 0);
      TakeNodeTxs(m, now, out, LittleEndian(|m.txs|, TX_COUNT_LEN));
      WholeReply(out.State(), old(State()), m, now);
    }

    /** The loop over the transactions of a node's message. */
    method TakeNodeTxs(m: N.NodeMessage, now: real, out: ByteArray, ghost word: seq<byte>)
      requires Valid() && m.Valid() && out !in Repr()
      requires out.Valid() && At(out.store, 0, word) && out.length == |word| == TX_COUNT_LEN
      requires out.capacity == TX_COUNT_LEN + |m.txs| * N.ENTRY_LEN
      modifies contents, out
      ensures Valid() && State() == N.After(old(State()), m, |m.txs|, now)
      ensures out.Valid() && At(out.store, 0, word + N.Entries(old(State()), m, |m.txs|, now))
      ensures out.length == out.capacity == old(out.capacity)
    {
      hide Has, N.After, At, N.EntryOf, Linked, N.NodeMessage.ContentOf, N.NodeMessage.Valid,
           N.Entries, N.SeenBefore, N.VerdictAt, ProcessedNode;
      ghost var c := State();
      var pos := out.length;
      AfterNothing(word, c, m, now);
      for i := 0 to |m.txs|
        invariant Valid() && State() == N.After(c, m, i, now)
        invariant out.Valid() && At(out.store, 0, word + N.Entries(c, m, i, now))
        invariant out.length == pos == TX_COUNT_LEN + i * N.ENTRY_LEN
        invariant out.capacity == TX_COUNT_LEN + |m.txs| * N.ENTRY_LEN
      {
        N.AfterNext(c, m, i, now);
        EntriesNext(word, c, m, i, now);
        pos := TakeNodeTx(c, m, i, now, out, pos, word + N.Entries(c, m, i, now));
      }
    }

    /** One transaction of a node's message, and its part of the reply. */
    method TakeNodeTx(ghost c: Containers, m: N.NodeMessage, i: nat, now: real, out: ByteArray, pos: nat, ghost x: seq<byte>)
      returns (end: nat)
      requires Valid() && m.Valid() && i < |m.txs| && c.Valid() && State() == N.After(c, m, i, now)
      requires out !in Repr() && out.Valid() && At(out.store, 0, x) && pos == |x| == out.length
      modifies contents, out
      ensures Valid() && State() == ProcessedNode(old(State()), FromNode(m.txs[i].hash, m.ContentOf(i)))
      ensures out.Valid() && end == out.length && out.capacity == Max(old(out.capacity), end)
      ensures var e := N.EntryOf(m.txs[i], N.SeenBefore(c, m, i, now), N.VerdictAt(c, m, i, now));
              At(out.store, 0, x + e) && end == |x + e|
    {
      hide Has, N.After, LittleEndian, At, Linked;
      var tx := m.txs[i];
      var removed := WasRemoved(tx.hash);
      var seen := tx.hash in contents.entries || removed;
      var verdict := if !seen && m.validate then m.verdicts[i] else ValidTx;
      if !seen {
        var _, _ := SetTransactionContents(tx.hash, m.ContentOf(i));
      }
      end := PutEntry(out, tx, seen, verdict, pos, x);
    }

    /** Empties the containers; the histories stay. */
    method Clear() returns (ghost first: seq<(Sha256, nat)>, ghost second: seq<(Sha256, nat)>)
      requires Valid()
      modifies Repr()
      ensures Valid() && Possible(old(State()), ClearAll(first, second))
      ensures State() == AllCleared(old(State()), first, second)
    {
      hide B.MeetsAll, Linked;
      window.Clear();
      sidToHash := map[];
      contents.Clear();
      assignTime.Clear();
      first := txNotSeenInBlocks.Clear();
      second := hashToSids.Clear();
    }

    /** The size of the contents behind a short id. */
    method GetTxSize(sid: ShortId) returns (size: Option<nat>)
      requires Valid()
      ensures size.Some? <==> sid in sidToHash && sidToHash[sid] in contents.entries
      ensures size.Some? ==> size.value == RemovedSize(State(), sid)
    {
      if sid !in sidToHash || sidToHash[sid] !in contents.entries {
        return None;
      }
      return Some(|contents.entries[sidToHash[sid]]|);
    }

    method TrackSeenTransaction(h: Sha256)
      requires Valid()
      modifies txNotSeenInBlocks
      ensures Valid() && State() == SeenTransaction(old(State()), h)
    {
      txNotSeenInBlocks.Erase(h);
    }

    /** A reader of the pool enters, once the wait for it is over. */
    method AcquireTxPool() returns (pool: B.SafeBucketContainer<Sha256>)
      requires Valid() && Possible(State(), AcquirePool)
      modifies txNotSeenInBlocks
      ensures Valid() && pool == txNotSeenInBlocks && State() == Do(old(State()), AcquirePool)
    {
      txNotSeenInBlocks.TakeRead();
      pool := txNotSeenInBlocks;
    }

    method OnFinishedReadingTxPool()
      requires Valid() && Possible(State(), ReleasePool)
      modifies txNotSeenInBlocks
      ensures Valid() && State() == Do(old(State()), ReleasePool)
    {
      hide B.FlushAdds, B.FlushRemoves;
      txNotSeenInBlocks.LeaveRead();
    }
  }

  lemma NothingYet(c: Containers)
    requires c.pool.Valid() && c.pool.toAdd == [] && c.pool.toRemove == []
    requires forall i | 0 <= i < |c.pool.buckets| :: c.pool.buckets[i] == {}
    requires c.hashToSids == map[] && c.sidToHash == map[] && c.assignTime == [] && c.contents.entries == map[]
    requires c.contents.Accounted()
    ensures Index(c)
  {
    PoolTracking.NothingTracked(c.pool);
    assert c.hashToSids.Keys == {};
  }

  lemma CleanedUp(window: seq<Entry<Sha256, seq<ShortId>>>, block: Sha256)
    requires Distinct(window)
    ensures !Has(Erased(window, block), block)
    ensures forall b: Sha256 | b != block :: Lookup(Erased(window, block), b) == Lookup(window, b)
    ensures if Has(window, block)
            then exists p | 0 <= p < |window| :: Erased(window, block) == window[..p] + window[p + 1..]
            else Erased(window, block) == window
  {
    forall b: Sha256
      ensures Lookup(Erased(window, block), b) == if b == block then None else Lookup(window, b)
    {
      LookupErased(window, block, b);
    }
    LookupAt(Erased(window, block), block);
    if Has(window, block) {
      var p :| 0 <= p < |window| && window[p].key == block;
      ErasedAt(window, p);
    } else {
      ErasedNothing(window, block);
    }
  }

  /** The message is neither dropped nor stopped by the verdict of the validator. */
  predicate Taken(c: Containers, m: Message)
    requires m.FromPeer?
  {
    var st := StatusOf(c, m);
    !st.ignoreSeen && !st.timedOut && VerdictOf(m, st) == ValidTx
  }

  lemma AfterNothing(word: seq<byte>, c: Containers, m: N.NodeMessage, now: real)
    requires c.Valid() && m.Valid()
    ensures N.After(c, m, 0, now) == c && word + N.Entries(c, m, 0, now) == word
  {
  }

  lemma EntriesNext(word: seq<byte>, c: Containers, m: N.NodeMessage, i: nat, now: real)
    requires c.Valid() && m.Valid() && i < |m.txs|
    ensures (i + 1) * N.ENTRY_LEN <= |m.txs| * N.ENTRY_LEN
    ensures word + N.Entries(c, m, i + 1, now)
            == word + N.Entries(c, m, i, now) + N.EntryOf(m.txs[i], N.SeenBefore(c, m, i, now), N.VerdictAt(c, m, i, now))
  {
    hide N.SeenBefore, N.VerdictAt, N.EntryOf;
  }

  lemma WholeReply(b: Buffer, c: Containers, m: N.NodeMessage, now: real)
    requires b.Valid() && c.Valid() && m.Valid()
    requires var r := LittleEndian(|m.txs|, TX_COUNT_LEN) + N.Entries(c, m, |m.txs|, now);
             At(b.store, 0, r) && b.length == |r|
    ensures b.Contents() == N.Reply(c, m, now)
  {
    hide LittleEndian, N.Entries;
  }

  lemma AssignedKnows(c: Containers, h: Sha256, sid: ShortId, now: real)
    requires c.Valid() && sid != NULL_TX_SID
    ensures sid in Assigned(c, h, sid, now).sidToHash && Assigned(c, h, sid, now).contents == c.contents
  {
    AssignedSids(c, h, sid, now);
  }
}
