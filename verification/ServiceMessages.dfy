/**
 The three handlers that take transactions from peers, from the distribution network and
 from a blockchain node, as functions on the containers. A peer's message is first given
 a status; the verdict of the transaction validator is a parameter.
 */
module ServiceMessages {
  import opened Bytes
  import opened Wrappers
  import opened OrderedMaps
  import opened BucketContainers
  import opened ContentMaps
  import opened ServiceState
  import opened ServiceIndex
  import PoolTracking

  const MAX_TRANSACTION_ELAPSED_TIME_S := 10.0
  const NULL_TX_TIMESTAMP := 0.0

  datatype Verdict = ValidTx | InvalidFormat | InvalidSignature | LowFee | ReuseNonce

  datatype Message =
    | FromPeer(hash: Sha256, content: seq<byte>, sid: ShortId, timestamp: real, current: real,
               validate: bool, verdict: Verdict, fromRelay: bool)
    | FromBdn(hash: Sha256, content: seq<byte>, sid: ShortId, compact: bool)
    | FromNode(hash: Sha256, content: seq<byte>)

  // ---------------------------------------------------------------- a peer's message

  datatype Status = Status(
    ignoreSeen: bool, hasSid: bool, hasContent: bool, seenSid: bool, seenHash: bool, seenContent: bool,
    seenRemoved: bool, timedOut: bool)

  predicate TimedOut(m: Message)
    requires m.FromPeer?
  {
    m.timestamp != NULL_TX_TIMESTAMP && m.current - m.timestamp > MAX_TRANSACTION_ELAPSED_TIME_S && !m.fromRelay
  }

  function StatusOf(c: Containers, m: Message): Status
    requires m.FromPeer?
  {
    if c.WasRemoved(m.hash) then Status(true, false, false, false, false, false, true, false)
    else if TimedOut(m) then Status(false, false, false, false, false, false, false, true)
    else
      var hasSid, hasContent := m.sid != NULL_TX_SID, |m.content| != 0;
      var seenSid := hasSid && m.sid in c.sidToHash;
      var seenContent := hasContent && c.HasContents(m.hash);
      var seenHash := seenSid || c.HasContents(m.hash);
      var ignore := (seenContent && seenHash && !hasSid) || (seenContent && seenHash && seenSid)
                    || (!hasContent && seenHash && !hasSid) || (!hasContent && seenHash && seenSid);
      Status(ignore, hasSid, hasContent, seenSid, seenHash || (!ignore && !hasSid && m.hash in c.hashToSids),
             seenContent, false, false)
  }

  /** The validator is only asked about unseen contents that come without a short id. */
  function VerdictOf(m: Message, st: Status): Verdict
    requires m.FromPeer?
  {
    if m.validate && st.hasContent && !st.seenContent && !st.hasSid then m.verdict else ValidTx
  }

  function ProcessedPeer(c: Containers, m: Message, now: real): (r: Containers)
    requires c.Valid() && m.FromPeer?
    ensures r.Valid()
  {
    var st := StatusOf(c, m);
    var v := VerdictOf(m, st);
    if st.ignoreSeen || st.timedOut || v == InvalidFormat || v == InvalidSignature then c
    else if !st.hasSid && v == ReuseNonce then c
    else
      var d := if st.hasContent && !st.seenContent then WithContents(c, m.hash, m.content) else c;
      if v == LowFee then d
      else
        var e := if st.seenHash then Entered(d, m.hash) else d;
        if st.hasSid then Assigned(e, m.hash, m.sid, now) else e
  }

  /** A message that is ignored as seen, its hash not being removed, holds nothing that is not known. */
  lemma IgnoredNothingNew(c: Containers, m: Message)
    requires m.FromPeer? && StatusOf(c, m).ignoreSeen && !c.WasRemoved(m.hash)
    ensures m.content != [] ==> c.HasContents(m.hash)
    ensures m.sid != NULL_TX_SID ==> m.sid in c.sidToHash
  {
  }

  // ---------------------------------------------------------------- the other two

  function ProcessedBdn(c: Containers, m: Message, now: real): (r: Containers)
    requires c.Valid() && m.FromBdn?
    ensures r.Valid()
  {
    var existingSid := m.sid != NULL_TX_SID && m.sid in c.sidToHash;
    var existing := c.HasContents(m.hash);
    if ((m.sid == NULL_TX_SID || existingSid) && existing) || c.WasRemoved(m.hash) then c
    else if (existing || m.compact) && existingSid then c
    else
      var d := if m.sid != NULL_TX_SID && m.sid !in c.sidToHash then Assigned(c, m.hash, m.sid, now) else c;
      if !m.compact && !existing then WithContents(d, m.hash, m.content) else d
  }

  function ProcessedNode(c: Containers, m: Message): (r: Containers)
    requires c.Valid() && m.FromNode?
    ensures r.Valid()
  {
    if c.HasContents(m.hash) || c.WasRemoved(m.hash) then c else WithContents(c, m.hash, m.content)
  }

  function Processed(c: Containers, m: Message, now: real): (r: Containers)
    requires c.Valid()
    ensures r.Valid()
  {
    match m
    case FromPeer(_, _, _, _, _, _, _, _) => ProcessedPeer(c, m, now)
    case FromBdn(_, _, _, _) => ProcessedBdn(c, m, now)
    case FromNode(_, _) => ProcessedNode(c, m)
  }

  // ---------------------------------------------------------------- the index

  /**
   The message brings new contents for a hash without short ids, under a short id that
   belongs to another hash: its index access leaves an empty set behind.
   */
  predicate Stray(c: Containers, m: Message)
    requires m.FromPeer?
  {
    && !c.WasRemoved(m.hash) && !TimedOut(m) && m.sid != NULL_TX_SID && m.sid in c.sidToHash
    && m.content != [] && !c.HasContents(m.hash) && m.hash !in c.hashToSids
  }

  lemma EnteredKnown(c: Containers, h: Sha256)
    requires c.Valid() && h in c.hashToSids
    ensures Entered(c, h) == c
  {
  }

  /** A hash that is entered with its first short id keeps the containers in agreement. */
  lemma EnteredAndAssigned(c: Containers, h: Sha256, sid: ShortId, now: real)
    requires c.Valid() && sid != NULL_TX_SID && sid !in c.sidToHash
    ensures Assigned(Entered(c, h), h, sid, now) == Assigned(c, h, sid, now)
  {
  }

  /** A peer's message keeps the index exactly when it is not stray. */
  lemma PeerKeepsIndexExact(c: Containers, m: Message, now: real)
    requires Index(c) && m.FromPeer?
    ensures c.Valid() && (Index(ProcessedPeer(c, m, now)) <==> !Stray(c, m))
  {
    IndexValid(c);
    if Stray(c, m) {
      hide PoolTracking.Tracked, Mutual, Timed, Inserted, Has;
      assert m.hash in ProcessedPeer(c, m, now).hashToSids && ProcessedPeer(c, m, now).hashToSids[m.hash] == {};
    } else {
      NotStrayKeepsIndex(c, m, now);
    }
  }

  lemma NotStrayKeepsIndex(c: Containers, m: Message, now: real)
    requires Index(c) && c.Valid() && m.FromPeer? && !Stray(c, m)
    ensures Index(ProcessedPeer(c, m, now))
  {
    hide Index, Assigned, Entered, Has, TimedOut;
    var d := if m.content != [] && !c.HasContents(m.hash) then WithContents(c, m.hash, m.content) else c;
    ContentsKeep(c, m.hash, m.content);
    AssignKeeps(d, m.hash, m.sid, now);
    if m.hash in c.hashToSids {
      EnteredKnown(d, m.hash);
    } else if m.sid != NULL_TX_SID && m.sid !in c.sidToHash {
      EnteredAndAssigned(d, m.hash, m.sid, now);
    }
  }

  /** The other two handlers always keep it. */
  lemma BdnAndNodeKeepIndex(c: Containers, m: Message, now: real)
    requires Index(c) && !m.FromPeer?
    ensures c.Valid() && Index(Processed(c, m, now))
  {
    IndexValid(c);
    hide Index, Assigned, Has, WithContents;
    if m.FromBdn? {
      AssignKeeps(c, m.hash, m.sid, now);
      ContentsKeep(c, m.hash, m.content);
      ContentsKeep(Assigned(c, m.hash, m.sid, now), m.hash, m.content);
    } else {
      ContentsKeep(c, m.hash, m.content);
    }
  }

  // ---------------------------------------------------------------- confluence

  /** One content for each hash and one hash for each short id. */
  datatype World = World(contentOf: Sha256 -> seq<byte>, hashOf: ShortId -> Sha256)

  /** The message brings contents, empty ones counting only when they come from a node. */
  predicate Brings(m: Message) {
    match m
    case FromPeer(_, content, _, _, _, _, _, _) => content != []
    case FromBdn(_, _, _, compact) => !compact
    case FromNode(_, _) => true
  }

  function SidOf(m: Message): ShortId {
    if m.FromNode? then NULL_TX_SID else m.sid
  }

  /** In this world, unvalidated, in time, and compact exactly without contents. */
  predicate Ordinary(w: World, m: Message) {
    && (Brings(m) ==> m.content == w.contentOf(m.hash))
    && (SidOf(m) != NULL_TX_SID ==> w.hashOf(SidOf(m)) == m.hash)
    && (m.FromPeer? ==> !m.validate && !TimedOut(m))
    && (m.FromBdn? ==> (m.compact <==> m.content == []))
  }

  ghost predicate Agreeing(w: World, c: Containers) {
    && (forall h | h in c.contents.entries :: c.contents.entries[h] == w.contentOf(h))
    && (forall s | s in c.sidToHash :: c.sidToHash[s] == w.hashOf(s))
  }

  /** What a message adds to the known contents and to the known short ids. */
  function NewHashes(m: Message): set<Sha256> {
    if Brings(m) then {m.hash} else {}
  }

  function NewSids(m: Message): set<ShortId> {
    if SidOf(m) != NULL_TX_SID then {SidOf(m)} else {}
  }

  ghost predicate Joined(w: World, c: Containers, d: Containers, hashes: set<Sha256>, sids: set<ShortId>) {
    && Index(d) && Agreeing(w, d) && d.hashRemoved == c.hashRemoved
    && d.contents.entries.Keys == c.contents.entries.Keys + hashes
    && d.sidToHash.Keys == c.sidToHash.Keys + sids
  }

  lemma ContentsJoin(w: World, c: Containers, h: Sha256)
    requires Index(c) && Agreeing(w, c)
    ensures c.Valid() && Joined(w, c, WithContents(c, h, w.contentOf(h)), {h}, {})
  {
    ContentsKeep(c, h, w.contentOf(h));
    IndexValid(c);
    hide Index;
    var d := WithContents(c, h, w.contentOf(h));
    assert d.contents.entries.Keys == c.contents.entries.Keys + {h};
  }

  lemma AssignedSids(c: Containers, h: Sha256, sid: ShortId, now: real)
    requires c.Valid() && sid != NULL_TX_SID
    ensures var d := Assigned(c, h, sid, now);
            && d.sidToHash == (if sid in c.sidToHash then c.sidToHash else c.sidToHash[sid := h])
            && d.contents == c.contents && d.hashRemoved == c.hashRemoved
  {
    hide Inserted, Emplaced;
  }

  lemma AssignJoin(w: World, c: Containers, sid: ShortId, now: real)
    requires Index(c) && Agreeing(w, c) && sid != NULL_TX_SID
    ensures c.Valid() && Joined(w, c, Assigned(c, w.hashOf(sid), sid, now), {}, {sid})
  {
    AssignKeeps(c, w.hashOf(sid), sid, now);
    IndexValid(c);
    hide Index, Assigned;
    AssignedSids(c, w.hashOf(sid), sid, now);
    var d := Assigned(c, w.hashOf(sid), sid, now);
    assert d.sidToHash.Keys == c.sidToHash.Keys + {sid};
    assert c.contents.entries.Keys + {} == c.contents.entries.Keys;
  }

  lemma NotStray(w: World, c: Containers, m: Message)
    requires Index(c) && Agreeing(w, c) && Ordinary(w, m) && m.FromPeer?
    ensures !Stray(c, m)
  {
  }

  /** What the three handlers have in common: the maps are joined with what the message brings. */
  function Join(w: World, c: Containers, m: Message, now: real): Containers
    requires c.Valid()
  {
    var d := WithBrought(w, c, m);
    if SidOf(m) != NULL_TX_SID then Assigned(d, m.hash, SidOf(m), now) else d
  }

  lemma JoinedTwice(
    w: World, c: Containers, d: Containers, e: Containers,
    hashes: set<Sha256>, sids: set<ShortId>, moreHashes: set<Sha256>, moreSids: set<ShortId>)
    requires Joined(w, c, d, hashes, sids) && Joined(w, d, e, moreHashes, moreSids)
    ensures Joined(w, c, e, hashes + moreHashes, sids + moreSids)
  {
    hide Index, Agreeing;
  }

  /** First contents, then short ids. */
  lemma JoinedThen(w: World, c: Containers, d: Containers, e: Containers, hashes: set<Sha256>, sids: set<ShortId>)
    requires Joined(w, c, d, hashes, {}) && Joined(w, d, e, {}, sids)
    ensures Joined(w, c, e, hashes, sids)
  {
    hide Joined;
    JoinedTwice(w, c, d, e, hashes, {}, {}, sids);
    assert hashes + {} == hashes && {} + sids == sids;
  }

  lemma NothingJoined(w: World, c: Containers)
    requires Index(c) && Agreeing(w, c)
    ensures Joined(w, c, c, {}, {})
  {
    hide Index, Agreeing;
  }

  lemma JoinedKeeps(w: World, c: Containers, d: Containers, hashes: set<Sha256>, sids: set<ShortId>)
    requires Joined(w, c, d, hashes, sids)
    ensures Index(d) && Agreeing(w, d) && d.hashRemoved == c.hashRemoved && d.Valid()
  {
    IndexValid(d);
  }

  /** The contents of a message, if it brings any. */
  function WithBrought(w: World, c: Containers, m: Message): (r: Containers)
    requires c.Valid()
    ensures r.Valid()
  {
    if Brings(m) then WithContents(c, m.hash, w.contentOf(m.hash)) else c
  }

  lemma BroughtJoins(w: World, c: Containers, m: Message)
    requires Index(c) && c.Valid() && Agreeing(w, c)
    ensures Joined(w, c, WithBrought(w, c, m), NewHashes(m), {})
  {
    hide Index, WithContents, Joined, Brings, Agreeing;
    if Brings(m) {
      ContentsJoin(w, c, m.hash);
    } else {
      NothingJoined(w, c);
    }
  }

  lemma NewSidsJoin(w: World, c: Containers, m: Message, now: real)
    requires Index(c) && c.Valid() && Agreeing(w, c) && (SidOf(m) != NULL_TX_SID ==> w.hashOf(SidOf(m)) == m.hash)
    ensures Joined(w, c, if SidOf(m) != NULL_TX_SID then Assigned(c, m.hash, SidOf(m), now) else c, {}, NewSids(m))
  {
    hide Index, Assigned, Joined, Agreeing;
    if SidOf(m) != NULL_TX_SID {
      AssignJoin(w, c, SidOf(m), now);
    } else {
      NothingJoined(w, c);
    }
  }

  lemma JoinJoins(w: World, c: Containers, m: Message, now: real)
    requires Index(c) && Agreeing(w, c) && Ordinary(w, m)
    ensures c.Valid() && Joined(w, c, Join(w, c, m, now), NewHashes(m), NewSids(m))
  {
    IndexValid(c);
    hide Index, Assigned, WithContents, Joined, Brings, Agreeing, NewHashes, NewSids, WithBrought, SidOf;
    BroughtJoins(w, c, m);
    var d := WithBrought(w, c, m);
    JoinedKeeps(w, c, d, NewHashes(m), {});
    NewSidsJoin(w, d, m, now);
    JoinedThen(w, c, d, Join(w, c, m, now), NewHashes(m), NewSids(m));
  }

  lemma KnownSid(c: Containers, h: Sha256, sid: ShortId, now: real)
    requires Index(c) && sid in c.sidToHash
    ensures c.Valid() && Assigned(c, h, sid, now) == c
  {
    hide Mutual, PoolTracking.Tracked, NoneEmpty;
    IndexValid(c);
  }

  lemma AssignmentAndContentsCommute(c: Containers, h: Sha256, content: seq<byte>, sid: ShortId, now: real)
    requires c.Valid()
    ensures Assigned(WithContents(c, h, content), h, sid, now) == WithContents(Assigned(c, h, sid, now), h, content)
  {
    hide Inserted, Emplaced, Has;
  }

  /**
   In an ordinary world, and unless its hash was removed, each handler does to the
   containers exactly what the join does: an ignored message holds nothing new.
   */
  lemma ProcessedIsJoin(w: World, c: Containers, m: Message, now: real)
    requires Index(c) && Agreeing(w, c) && Ordinary(w, m) && !c.WasRemoved(m.hash)
    ensures c.Valid() && Processed(c, m, now) == Join(w, c, m, now)
  {
    IndexValid(c);
    if m.FromPeer? {
      PeerIsJoin(w, c, m, now);
    } else if m.FromBdn? {
      hide Index, Assigned, WithContents;
      BdnIsJoin(w, c, m, now);
    }
  }

  lemma PeerIsJoin(w: World, c: Containers, m: Message, now: real)
    requires Index(c) && c.Valid() && Agreeing(w, c) && Ordinary(w, m) && !c.WasRemoved(m.hash) && m.FromPeer?
    ensures ProcessedPeer(c, m, now) == Join(w, c, m, now)
  {
    NotStray(w, c, m);
    hide Index, Assigned, Entered, Has, TimedOut, Agreeing;
    var d := if m.content != [] then WithContents(c, m.hash, m.content) else c;
    ContentsKeep(c, m.hash, m.content);
    if m.sid in c.sidToHash {
      KnownSid(d, m.hash, m.sid, now);
    }
    if m.hash in c.hashToSids {
      EnteredKnown(d, m.hash);
    } else if m.sid != NULL_TX_SID && m.sid !in c.sidToHash {
      EnteredAndAssigned(d, m.hash, m.sid, now);
    }
  }

  lemma BdnIsJoin(w: World, c: Containers, m: Message, now: real)
    requires Index(c) && c.Valid() && Agreeing(w, c) && Ordinary(w, m) && !c.WasRemoved(m.hash) && m.FromBdn?
    ensures ProcessedBdn(c, m, now) == Join(w, c, m, now)
  {
    hide Index, Assigned, Has, Agreeing;
    ContentsKeep(c, m.hash, m.content);
    if m.sid in c.sidToHash {
      KnownSid(c, m.hash, m.sid, now);
    }
    AssignmentAndContentsCommute(c, m.hash, m.content, m.sid, now);
  }

  // ---------------------------------------------------------------- runs of messages

  /** The messages one after the other, each at its time. */
  function RunMessages(c: Containers, ms: seq<(Message, real)>): (r: Containers)
    requires c.Valid()
    ensures r.Valid()
    decreases |ms|
  {
    if ms == [] then c else Processed(RunMessages(c, ms[..|ms| - 1]), ms[|ms| - 1].0, ms[|ms| - 1].1)
  }

  ghost predicate OrdinaryRun(w: World, c: Containers, ms: seq<(Message, real)>) {
    forall m | m in ms :: Ordinary(w, m.0) && !c.WasRemoved(m.0.hash)
  }

  ghost function AllHashes(ms: seq<(Message, real)>): set<Sha256> {
    set m | m in ms && Brings(m.0) :: m.0.hash
  }

  ghost function AllSids(ms: seq<(Message, real)>): set<ShortId> {
    set m | m in ms && SidOf(m.0) != NULL_TX_SID :: SidOf(m.0)
  }

  lemma MoreMessages(ms: seq<(Message, real)>)
    requires ms != []
    ensures var n := |ms| - 1;
            && AllHashes(ms) == AllHashes(ms[..n]) + NewHashes(ms[n].0)
            && AllSids(ms) == AllSids(ms[..n]) + NewSids(ms[n].0)
  {
    var n := |ms| - 1;
    assert ms == ms[..n] + [ms[n]];
    assert forall m | m in ms :: m in ms[..n] || m == ms[n];
  }

  lemma {:induction false} RunJoins(w: World, c: Containers, ms: seq<(Message, real)>)
    requires Index(c) && c.Valid() && Agreeing(w, c) && OrdinaryRun(w, c, ms)
    ensures Joined(w, c, RunMessages(c, ms), AllHashes(ms), AllSids(ms))
    decreases |ms|
  {
    if ms == [] {
      NothingJoined(w, c);
    } else {
      hide Index, Agreeing, Ordinary, Processed, Join, AllHashes, AllSids, NewHashes, NewSids, Has, Joined;
      var n := |ms| - 1;
      assert OrdinaryRun(w, c, ms[..n]) && ms[n] in ms;
      RunJoins(w, c, ms[..n]);
      var d := RunMessages(c, ms[..n]);
      JoinedKeeps(w, c, d, AllHashes(ms[..n]), AllSids(ms[..n]));
      ProcessedIsJoin(w, d, ms[n].0, ms[n].1);
      JoinJoins(w, d, ms[n].0, ms[n].1);
      JoinedTwice(w, c, d, RunMessages(c, ms), AllHashes(ms[..n]), AllSids(ms[..n]), NewHashes(ms[n].0), NewSids(ms[n].0));
      MoreMessages(ms);
    }
  }

  /** The short id map determines the sets. */
  lemma SetsDetermined(a: map<Sha256, set<ShortId>>, b: map<Sha256, set<ShortId>>, sidToHash: map<ShortId, Sha256>)
    requires Mutual(a, sidToHash) && NoneEmpty(a) && Mutual(b, sidToHash) && NoneEmpty(b)
    ensures a == b
  {
    SetsWithin(a, b, sidToHash);
    SetsWithin(b, a, sidToHash);
    forall h | h in a
      ensures a[h] == b[h]
    {
    }
    assert a.Keys == b.Keys;
  }

  lemma SetsWithin(a: map<Sha256, set<ShortId>>, b: map<Sha256, set<ShortId>>, sidToHash: map<ShortId, Sha256>)
    requires Mutual(a, sidToHash) && NoneEmpty(a) && Mutual(b, sidToHash)
    ensures forall h | h in a :: h in b && a[h] <= b[h]
  {
    forall h | h in a
      ensures h in b && a[h] <= b[h]
    {
      assert a[h] != {};
      var s :| s in a[h];
      assert sidToHash[s] == h;
      assert forall t | t in a[h] :: sidToHash[t] == h && t in b[sidToHash[t]];
    }
  }

  lemma AgreeingDetermined(w: World, c: Containers, d: Containers)
    requires Agreeing(w, c) && Agreeing(w, d)
    requires c.contents.entries.Keys == d.contents.entries.Keys && c.sidToHash.Keys == d.sidToHash.Keys
    ensures c.contents.entries == d.contents.entries && c.sidToHash == d.sidToHash
  {
    assert forall h | h in c.contents.entries :: h in c.contents.entries.Keys;
    assert forall s | s in c.sidToHash :: s in c.sidToHash.Keys;
  }

  /**
   Confluence. Two runs that bring the same contents and short ids, in whatever order, how
   often and by whichever handler, end with the same contents and the same two maps.
   */
  lemma Confluence(w: World, c: Containers, ms: seq<(Message, real)>, ns: seq<(Message, real)>)
    requires Index(c) && c.Valid() && Agreeing(w, c) && OrdinaryRun(w, c, ms) && OrdinaryRun(w, c, ns)
    requires AllHashes(ms) == AllHashes(ns) && AllSids(ms) == AllSids(ns)
    ensures var d, e := RunMessages(c, ms), RunMessages(c, ns);
            && d.contents == e.contents && d.sidToHash == e.sidToHash && d.hashToSids == e.hashToSids
            && d.contents.entries.Keys == c.contents.entries.Keys + AllHashes(ms)
            && d.sidToHash.Keys == c.sidToHash.Keys + AllSids(ms)
  {
    hide Agreeing, AllHashes, AllSids, OrdinaryRun, RunMessages;
    RunJoins(w, c, ms);
    RunJoins(w, c, ns);
    var d, e := RunMessages(c, ms), RunMessages(c, ns);
    AgreeingDetermined(w, d, e);
    hide Mutual, Timed, PoolTracking.Tracked, NoneEmpty;
    SetsDetermined(d.hashToSids, e.hashToSids, d.sidToHash);
  }

  /** In particular the order and the repetition of the messages do not matter. */
  lemma SameMessagesSameMaps(w: World, c: Containers, ms: seq<(Message, real)>, ns: seq<(Message, real)>)
    requires Index(c) && c.Valid() && Agreeing(w, c) && OrdinaryRun(w, c, ms)
    requires forall m :: m in ms <==> m in ns
    ensures var d, e := RunMessages(c, ms), RunMessages(c, ns);
            d.contents == e.contents && d.sidToHash == e.sidToHash && d.hashToSids == e.hashToSids
  {
    hide Index, Agreeing, Brings, Ordinary, RunMessages;
    Confluence(w, c, ms, ns);
  }

  // ---------------------------------------------------------------- removed stays removed

  /** The hash is in the removal history and in none of the maps. */
  ghost predicate Gone(c: Containers, h: Sha256) {
    && c.WasRemoved(h) && !c.HasContents(h) && h !in c.hashToSids && forall s | s in c.sidToHash :: c.sidToHash[s] != h
  }

  lemma RemovedIsGone(c: Containers, h: Sha256, order: seq<ShortId>, now: real)
    requires Index(c) && HashOrder(c, h, order)
    ensures c.Valid() && Gone(RemovedHash(c, h, order, now), h)
  {
    IndexValid(c);
    RemoveHashForgets(c, h, order, now);
  }

  lemma RemovedSidIsGone(c: Containers, sid: ShortId, order: seq<ShortId>, now: real, later: real)
    requires Index(c) && SidOrder(c, sid, order) && sid in c.sidToHash
    ensures c.Valid() && Gone(RemovedSid(c, sid, order, now, later), c.sidToHash[sid])
  {
    hide Mutual, Timed, PoolTracking.Tracked, NoneEmpty, RemovedHash, RemovedSid, SidOrder, HashOrder, Has, Emplaced;
    IndexValid(c);
    RemoveSidIsRemoveHash(c, sid, order, now, later);
    RemovedIsGone(c, c.sidToHash[sid], order + [sid], now);
    EmplacedHas(c.hashRemoved, c.sidToHash[sid], later);
  }

  lemma OthersLeaveGone(c: Containers, h: Sha256, k: Sha256, content: seq<byte>, sid: ShortId, now: real)
    requires c.Valid() && Gone(c, h) && k != h
    ensures Gone(WithContents(c, k, content), h) && Gone(Entered(c, k), h) && Gone(Assigned(c, k, sid, now), h)
  {
    hide Inserted, Emplaced, Has;
  }

  lemma GoneIsRemoved(c: Containers, h: Sha256)
    requires Gone(c, h)
    ensures c.WasRemoved(h)
  {
  }

  lemma OtherPeerLeavesGone(c: Containers, h: Sha256, m: Message, now: real)
    requires c.Valid() && Gone(c, h) && m.FromPeer? && m.hash != h
    ensures Gone(ProcessedPeer(c, m, now), h)
  {
    hide Gone, Has, Entered, Assigned, WithContents, StatusOf, VerdictOf;
    var st := StatusOf(c, m);
    var d := if st.hasContent && !st.seenContent then WithContents(c, m.hash, m.content) else c;
    OthersLeaveGone(c, h, m.hash, m.content, m.sid, now);
    OthersLeaveGone(d, h, m.hash, m.content, m.sid, now);
    OthersLeaveGone(Entered(d, m.hash), h, m.hash, m.content, m.sid, now);
  }

  lemma OtherBdnLeavesGone(c: Containers, h: Sha256, m: Message, now: real)
    requires c.Valid() && Gone(c, h) && m.FromBdn? && m.hash != h
    ensures Gone(ProcessedBdn(c, m, now), h)
  {
    hide Gone, Has, Entered, Assigned, WithContents;
    OthersLeaveGone(c, h, m.hash, m.content, m.sid, now);
    OthersLeaveGone(Assigned(c, m.hash, m.sid, now), h, m.hash, m.content, m.sid, now);
  }

  /** No message whatever brings a removed hash back, functional or not. */
  lemma GoneStaysGone(c: Containers, h: Sha256, m: Message, now: real)
    requires c.Valid() && Gone(c, h)
    ensures Gone(Processed(c, m, now), h)
  {
    GoneIsRemoved(c, h);
    if m.hash != h {
      hide Gone, Has, ProcessedPeer, ProcessedBdn, WithContents;
      match m
      case FromPeer(_, _, _, _, _, _, _, _) => OtherPeerLeavesGone(c, h, m, now);
      case FromBdn(_, _, _, _) => OtherBdnLeavesGone(c, h, m, now);
      case FromNode(_, content) => OthersLeaveGone(c, h, m.hash, content, NULL_TX_SID, now);
    } else {
      hide Has, Gone, TimedOut;
    }
  }

  lemma {:induction false} GoneThroughoutRun(c: Containers, h: Sha256, ms: seq<(Message, real)>)
    requires c.Valid() && Gone(c, h)
    ensures Gone(RunMessages(c, ms), h)
    decreases |ms|
  {
    hide Gone, Processed;
    if ms != [] {
      GoneThroughoutRun(c, h, ms[..|ms| - 1]);
      GoneStaysGone(RunMessages(c, ms[..|ms| - 1]), h, ms[|ms| - 1].0, ms[|ms| - 1].1);
    }
  }
}
