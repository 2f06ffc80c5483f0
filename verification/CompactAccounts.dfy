/**
 What every schedule of the mapping race keeps, whatever the block and the pool hold:
 colliding compact ids, compact ids that stand twice in the block, and transactions
 without contents included.
 */
module CompactAccounts {
  import opened Bytes
  import opened Wrappers
  import opened CompactBlockData
  import opened CompactMapping

  /** The compact ids whose entries have been claimed. */
  ghost function Claimed(p: Setup, s: State): set<CompactId>
    requires s.sids.Keys == p.index.Keys
  {
    set id | id in p.index && s.sids[id] != NULL_TX_SID
  }

  /** What a sub-task still owes the count and the list for its current item. */
  function Pending(t: Task): int {
    match t.stage
    case Write(dup) => if dup then 0 else 1
    case Add(delta) => delta
    case _ => 0
  }

  function AllPending(tasks: seq<Task>): int {
    if tasks == [] then 0 else AllPending(tasks[..|tasks| - 1]) + Pending(tasks[|tasks| - 1])
  }

  lemma {:induction false} PendingMoves(tasks: seq<Task>, k: nat, t: Task)
    requires k < |tasks|
    ensures AllPending(tasks[k := t]) == AllPending(tasks) - Pending(tasks[k]) + Pending(t)
  {
    var n := |tasks| - 1;
    if k < n {
      PendingMoves(tasks[..n], k, t);
      assert tasks[k := t][..n] == tasks[..n][k := t];
    } else {
      assert tasks[k := t][..n] == tasks[..n];
    }
  }

  lemma {:induction false} NothingPending(tasks: seq<Task>)
    requires forall k | 0 <= k < |tasks| :: Pending(tasks[k]) == 0
    ensures AllPending(tasks) == 0
  {
    if tasks != [] {
      NothingPending(tasks[..|tasks| - 1]);
    }
  }

  /** The list, the count and what is owed make up the claims. */
  ghost predicate Balanced(p: Setup, s: State)
    requires s.sids.Keys == p.index.Keys
  {
    |s.missing| + s.counter + AllPending(s.tasks) == |Claimed(p, s)|
  }

  /** A match that is past the compare-and-swap is claimed, by itself or by another. */
  ghost predicate ClaimsRight(p: Setup, s: State)
    requires s.sids.Keys == p.index.Keys && |s.tasks| == |p.buckets|
  {
    forall k: nat, j: nat | p.Match(k, j) && PastCas(s.tasks[k], j) :: p.IdAt(k, j) in Claimed(p, s)
  }

  /** No claimed compact id stands here. */
  ghost predicate NoClaimAt(p: Setup, s: State, i: nat)
    requires s.sids.Keys == p.index.Keys
  {
    forall id | id in Claimed(p, s) :: p.index[id] != i
  }

  /** The sub-task that claimed the compact id has not written its placeholder. */
  ghost predicate Held(p: Setup, s: State, id: CompactId) {
    exists k: nat :: k < |s.tasks| && HeldBy(p, s.tasks[k], k, id)
  }

  predicate HeldBy(p: Setup, t: Task, k: nat, id: CompactId) {
    t.stage == Write(false) && p.Match(k, t.next) && p.IdAt(k, t.next) == id
  }

  /** A claimed compact id is resolved, or listed, or its writer is on the way. */
  ghost predicate Settled(p: Setup, s: State, id: CompactId)
    requires id in p.index && p.index[id] < |s.placeholders|
  {
    s.placeholders[p.index[id]].kind == ShortIdKind || p.index[id] in s.missing || Held(p, s, id)
  }

  ghost predicate PlacesRight(p: Setup, s: State)
    requires Sane(p, s)
  {
    && (forall i | 0 <= i < |s.placeholders| && NoClaimAt(p, s, i) :: s.placeholders[i] == p.placeholders[i])
    && (forall id | id in Claimed(p, s) :: Settled(p, s, id))
    && (forall i | i in s.missing :: exists id :: id in Claimed(p, s) && p.index[id] == i)
  }

  ghost predicate Kept(p: Setup, s: State) {
    Sane(p, s) && Balanced(p, s) && ClaimsRight(p, s) && PlacesRight(p, s)
  }

  lemma StartKept(p: Setup)
    requires p.Sound()
    ensures Kept(p, Start(p))
  {
    NothingPending(Start(p).tasks);
    assert Claimed(p, Start(p)) == {};
  }

  // ---------------------------------------------------------------- one step

  /** A step touches its own sub-task only, and that stays sane. */
  lemma StepSane(p: Setup, s: State, k: nat)
    requires Sane(p, s) && k < |s.tasks| && !s.tasks[k].stage.Finished?
    ensures var d := StepTask(p, s, k);
            Sane(p, d) && d.tasks == s.tasks[k := d.tasks[k]]
  {
    assert TaskSane(p, s.tasks[k], k);
    var d := StepTask(p, s, k);
    assert TaskSane(p, d.tasks[k], k);
    forall i | 0 <= i < |d.tasks|
      ensures TaskSane(p, d.tasks[i], i)
    {
      assert i != k ==> TaskSane(p, s.tasks[i], i);
    }
  }

  lemma CasTakes(p: Setup, s: State, k: nat)
    requires Sane(p, s) && k < |s.tasks| && s.tasks[k].stage.Cas?
    ensures p.Match(k, s.tasks[k].next)
    ensures var t := s.tasks[k];
            var id, sid := p.IdAt(k, t.next), p.sidOf[p.buckets[k][t.next]];
            StepTask(p, s, k) == if s.sids[id] == NULL_TX_SID
                                 then s.(sids := s.sids[id := sid], tasks := s.tasks[k := Task(t.next, Write(false))])
                                 else s.(tasks := s.tasks[k := Task(t.next, Write(true))])
  {
    assert TaskSane(p, s.tasks[k], k);
  }

  lemma OtherStep(p: Setup, s: State, k: nat)
    requires Sane(p, s) && k < |s.tasks| && !s.tasks[k].stage.Finished? && !s.tasks[k].stage.Cas?
    ensures var d := StepTask(p, s, k);
            && d.sids == s.sids && d.tasks == s.tasks[k := d.tasks[k]]
            && |d.missing| + d.counter + Pending(d.tasks[k]) == |s.missing| + s.counter + Pending(s.tasks[k])
  {
    assert TaskSane(p, s.tasks[k], k);
  }

  /** Only a compare-and-swap claims. */
  lemma StepClaims(p: Setup, s: State, k: nat)
    requires Sane(p, s) && p.Sound() && k < |s.tasks| && !s.tasks[k].stage.Finished?
    ensures var t, d := s.tasks[k], StepTask(p, s, k);
            && d.sids.Keys == p.index.Keys
            && (t.stage.Cas? ==> p.Match(k, t.next))
            && Claimed(p, d) == Claimed(p, s) + if t.stage.Cas? then {p.IdAt(k, t.next)} else {}
  {
    hide StepTask;
    var t, d := s.tasks[k], StepTask(p, s, k);
    if t.stage.Cas? {
      CasTakes(p, s, k);
      var id := p.IdAt(k, t.next);
      assert p.sidOf[p.buckets[k][t.next]] != NULL_TX_SID;
      assert d.sids.Keys == s.sids.Keys;
      assert forall other | other in p.index && other != id :: d.sids[other] == s.sids[other];
    } else {
      OtherStep(p, s, k);
    }
  }

  lemma StepBalanced(p: Setup, s: State, k: nat)
    requires Sane(p, s) && p.Sound() && Balanced(p, s) && k < |s.tasks| && !s.tasks[k].stage.Finished?
    ensures StepTask(p, s, k).sids.Keys == p.index.Keys && Balanced(p, StepTask(p, s, k))
  {
    StepClaims(p, s, k);
    var t, d := s.tasks[k], StepTask(p, s, k);
    if t.stage.Cas? {
      CasTakes(p, s, k);
      ClaimedAt(p, s, p.IdAt(k, t.next));
    } else {
      OtherStep(p, s, k);
    }
    hide StepTask, Sane, Setup.Sound, Claimed;
    PendingMoves(s.tasks, k, d.tasks[k]);
  }

  lemma ClaimedAt(p: Setup, s: State, id: CompactId)
    requires s.sids.Keys == p.index.Keys
    ensures id in Claimed(p, s) <==> id in p.index && s.sids[id] != NULL_TX_SID
  {
  }

  lemma StepClaimsRight(p: Setup, s: State, k: nat)
    requires Sane(p, s) && p.Sound() && ClaimsRight(p, s) && k < |s.tasks| && !s.tasks[k].stage.Finished?
    ensures var d := StepTask(p, s, k); Sane(p, d) && ClaimsRight(p, d)
  {
    StepSane(p, s, k);
    StepClaims(p, s, k);
    var t, d := s.tasks[k], StepTask(p, s, k);
    assert TaskSane(p, t, k);
    forall i: nat, j: nat | p.Match(i, j) && PastCas(d.tasks[i], j)
      ensures p.IdAt(i, j) in Claimed(p, d)
    {
      if !PastCas(s.tasks[i], j) {
        assert i == k && j == t.next && t.stage.Cas?;
      }
    }
  }

  lemma StepNoClaim(p: Setup, s: State, k: nat, i: nat)
    requires Sane(p, s) && p.Sound() && ClaimsRight(p, s) && PlacesRight(p, s) && k < |s.tasks| && !s.tasks[k].stage.Finished?
    requires Sane(p, StepTask(p, s, k)) && i < |s.placeholders| && NoClaimAt(p, StepTask(p, s, k), i)
    ensures StepTask(p, s, k).placeholders[i] == p.placeholders[i]
  {
    var t := s.tasks[k];
    StepClaims(p, s, k);
    assert TaskSane(p, t, k);
    assert t.stage.Write? ==> PastCas(t, t.next);
    assert NoClaimAt(p, s, i);
  }

  lemma StepListed(p: Setup, s: State, k: nat)
    requires Sane(p, s) && p.Sound() && ClaimsRight(p, s) && k < |s.tasks| && !s.tasks[k].stage.Finished?
    requires forall i | i in s.missing :: exists id :: id in Claimed(p, s) && p.index[id] == i
    requires Sane(p, StepTask(p, s, k))
    ensures var d := StepTask(p, s, k);
            forall i | i in d.missing :: exists id :: id in Claimed(p, d) && p.index[id] == i
  {
    StepClaims(p, s, k);
    var t, d := s.tasks[k], StepTask(p, s, k);
    assert TaskSane(p, t, k);
    assert t.stage.Write? ==> PastCas(t, t.next);
    forall i | i in d.missing
      ensures exists id :: id in Claimed(p, d) && p.index[id] == i
    {
      if i in s.missing {
        var id :| id in Claimed(p, s) && p.index[id] == i;
        assert id in Claimed(p, d);
      } else {
        assert i == p.index[p.IdAt(k, t.next)];
      }
    }
  }

  lemma StepPlacesRight(p: Setup, s: State, k: nat)
    requires Sane(p, s) && p.Sound() && ClaimsRight(p, s) && PlacesRight(p, s) && k < |s.tasks| && !s.tasks[k].stage.Finished?
    ensures var d := StepTask(p, s, k); Sane(p, d) && PlacesRight(p, d)
  {
    StepSane(p, s, k);
    StepListed(p, s, k);
    hide StepTask, Setup.Sound, ClaimsRight, Claimed, Settled;
    var d := StepTask(p, s, k);
    forall i | 0 <= i < |d.placeholders| && NoClaimAt(p, d, i)
      ensures d.placeholders[i] == p.placeholders[i]
    {
      StepNoClaim(p, s, k, i);
    }
    forall id | id in Claimed(p, d)
      ensures id in p.index && Settled(p, d, id)
    {
      ClaimedAt(p, d, id);
      StepSettled(p, s, k, id);
    }
  }

  lemma StepSettled(p: Setup, s: State, k: nat, id: CompactId)
    requires Sane(p, s) && p.Sound() && ClaimsRight(p, s) && PlacesRight(p, s) && k < |s.tasks| && !s.tasks[k].stage.Finished?
    requires StepTask(p, s, k).sids.Keys == p.index.Keys && id in Claimed(p, StepTask(p, s, k))
    requires Sane(p, StepTask(p, s, k))
    ensures Settled(p, StepTask(p, s, k), id)
  {
    StepClaims(p, s, k);
    var t, d := s.tasks[k], StepTask(p, s, k);
    assert TaskSane(p, t, k);
    if id !in Claimed(p, s) {
      assert HeldBy(p, d.tasks[k], k, id);
    } else if t.stage.Write? && p.IdAt(k, t.next) == id {
      assert d.placeholders[p.index[id]].kind == ShortIdKind || p.index[id] in d.missing;
    } else {
      if Held(p, s, id) {
        var i: nat :| i < |s.tasks| && HeldBy(p, s.tasks[i], i, id);
        assert i != k && HeldBy(p, d.tasks[i], i, id);
      }
    }
  }

  /** Every step of every sub-task keeps all of it. */
  lemma StepKept(p: Setup, s: State, k: nat)
    requires p.Sound() && Kept(p, s) && k < |s.tasks| && !s.tasks[k].stage.Finished?
    ensures Kept(p, StepTask(p, s, k))
  {
    hide Setup.Sound, StepTask, Balanced, ClaimsRight, PlacesRight, Sane;
    StepBalanced(p, s, k);
    StepClaimsRight(p, s, k);
    StepPlacesRight(p, s, k);
  }

  lemma {:induction false} RunKept(p: Setup, s: State, schedule: seq<nat>)
    requires p.Sound() && Kept(p, s) && CanRun(p, s, schedule)
    ensures Kept(p, RunOf(p, s, schedule))
    decreases |schedule|
  {
    hide Setup.Sound, StepTask, Kept, Sane;
    if schedule != [] {
      StepKept(p, s, schedule[0]);
      RunKept(p, StepTask(p, s, schedule[0]), schedule[1..]);
    }
  }

  // ---------------------------------------------------------------- the end

  /** The compact ids whose recorded placeholder is missing. */
  ghost function MissingIds(p: Setup, s: State): set<CompactId>
    requires Sane(p, s)
  {
    set id | id in p.index && s.placeholders[p.index[id]].kind == MissingCompactId
  }

  /** Those among them that have been claimed: for want of contents, or taken back by a duplicate. */
  ghost function TakenBack(p: Setup, s: State): set<CompactId>
    requires Sane(p, s)
  {
    MissingIds(p, s) * Claimed(p, s)
  }

  /** At the end of any schedule the list and the count make up the claims, and a claim is resolved or listed. */
  lemma FinishedAccounts(p: Setup, s: State)
    requires p.Sound() && Kept(p, s) && AllFinished(s)
    ensures |s.missing| + s.counter == |Claimed(p, s)| <= |p.index|
    ensures forall id | id in TakenBack(p, s) :: p.index[id] in s.missing
    ensures s.missing == [] ==> TakenBack(p, s) == {}
    ensures |MissingIds(p, s)| == |p.index| - |Claimed(p, s)| + |TakenBack(p, s)|
  {
    NothingPending(s.tasks);
    assert forall id | id in TakenBack(p, s) :: Settled(p, s, id);
    forall id | id in p.index && id !in Claimed(p, s)
      ensures id in MissingIds(p, s)
    {
      assert NoClaimAt(p, s, p.index[id]) by {
        forall other | other in Claimed(p, s)
          ensures p.index[other] != p.index[id]
        {
          if p.index[other] == p.index[id] {
            SameIndexSameId(p, other, id);
          }
        }
      }
    }
    CountIds(p.index.Keys, Claimed(p, s), MissingIds(p, s));
    assert |p.index| == |p.index.Keys|;
  }

  lemma CountIds<T>(all: set<T>, claimed: set<T>, missing: set<T>)
    requires claimed <= all && all - claimed <= missing <= all
    ensures |claimed| <= |all| && |missing| == |all| - |claimed| + |missing * claimed|
  {
    var rest := all - claimed;
    assert all == claimed + rest && |all| == |claimed| + |rest|;
    assert missing == missing * claimed + rest && (missing * claimed) !! rest;
  }

  /**
   So the check of the count, once the placeholders that are missing have been listed,
   passes exactly if as many claimed compact ids are missing as compact ids stand in the
   block more than once; and the list is only left as it is when nothing is on it.
   */
  lemma CountExact(p: Setup, s: State, compactTxCount: nat)
    requires p.Sound() && Kept(p, s) && AllFinished(s) && |p.index| <= compactTxCount
    ensures var passes := |TakenBack(p, s)| == compactTxCount - |p.index|;
            if s.counter < compactTxCount
            then |s.missing| + |MissingIds(p, s)| + s.counter == compactTxCount <==> passes
            else s.missing == [] && MissingIds(p, s) == {} && s.counter == compactTxCount == |p.index| && passes
  {
    FinishedAccounts(p, s);
  }

  // ---------------------------------------------------------------- states that some schedule leads to

  ghost predicate Reachable(p: Setup, s: State) {
    exists schedule :: CanRun(p, Start(p), schedule) && RunOf(p, Start(p), schedule) == s
  }

  lemma {:induction false} RunSnoc(p: Setup, s: State, schedule: seq<nat>, k: nat)
    requires CanRun(p, s, schedule) && Sane(p, RunOf(p, s, schedule))
    requires k < |RunOf(p, s, schedule).tasks| && !RunOf(p, s, schedule).tasks[k].stage.Finished?
    ensures CanRun(p, s, schedule + [k])
    ensures RunOf(p, s, schedule + [k]) == StepTask(p, RunOf(p, s, schedule), k)
    decreases |schedule|
  {
    hide StepTask, Sane;
    if schedule == [] {
      assert (schedule + [k])[0] == k && (schedule + [k])[1..] == [];
    } else {
      assert (schedule + [k])[0] == schedule[0] && (schedule + [k])[1..] == schedule[1..] + [k];
      RunSnoc(p, StepTask(p, s, schedule[0]), schedule[1..], k);
    }
  }

  lemma StartReachable(p: Setup)
    requires p.Sound()
    ensures Reachable(p, Start(p)) && Kept(p, Start(p)) && Claimed(p, Start(p)) == {}
  {
    StartKept(p);
    assert CanRun(p, Start(p), []) && RunOf(p, Start(p), []) == Start(p);
  }

  lemma ReachableKept(p: Setup, s: State)
    requires p.Sound() && Reachable(p, s)
    ensures Kept(p, s)
  {
    hide Kept, Setup.Sound, Start;
    var schedule :| CanRun(p, Start(p), schedule) && RunOf(p, Start(p), schedule) == s;
    StartKept(p);
    RunKept(p, Start(p), schedule);
  }

  lemma ReachableStep(p: Setup, s: State, k: nat)
    requires p.Sound() && Reachable(p, s) && k < |s.tasks| && !s.tasks[k].stage.Finished?
    ensures Sane(p, s) && Reachable(p, StepTask(p, s, k))
  {
    ReachableKept(p, s);
    hide StepTask, Start;
    var schedule :| CanRun(p, Start(p), schedule) && RunOf(p, Start(p), schedule) == s;
    RunSnoc(p, Start(p), schedule, k);
  }

  // ---------------------------------------------------------------- the steps, stage by stage

  /** Where fetching an item leads. */
  function Fetched(p: Setup, k: nat, j: nat): Task
    requires k < |p.buckets| && j <= |p.buckets[k]|
  {
    if j == |p.buckets[k]| then Task(j, Finished)
    else if p.buckets[k][j] !in p.sidOf then Task(j + 1, Fetch)
    else if p.compactOf(p.buckets[k][j]) !in p.index then Task(j, Check)
    else Task(j, Cas)
  }

  lemma Fetches(p: Setup, s: State, k: nat) returns (t: State)
    requires p.Sound() && Reachable(p, s) && k < |s.tasks| && s.tasks[k].stage.Fetch?
    ensures Reachable(p, t) && k < |p.buckets| && s.tasks[k].next <= |p.buckets[k]|
    ensures t == s.(tasks := s.tasks[k := Fetched(p, k, s.tasks[k].next)])
  {
    hide Reachable;
    ReachableStep(p, s, k);
    assert TaskSane(p, s.tasks[k], k);
    t := StepTask(p, s, k);
  }

  /** The compare-and-swap claims an entry that is not claimed. */
  lemma Swaps(p: Setup, s: State, k: nat) returns (t: State)
    requires p.Sound() && Reachable(p, s) && k < |s.tasks| && s.tasks[k].stage.Cas?
    ensures Reachable(p, t) && p.Match(k, s.tasks[k].next) && p.IdAt(k, s.tasks[k].next) in s.sids
    ensures var j := s.tasks[k].next;
            var id, sid := p.IdAt(k, j), p.sidOf[p.buckets[k][j]];
            t == s.(sids := if s.sids[id] == NULL_TX_SID then s.sids[id := sid] else s.sids,
                    tasks := s.tasks[k := Task(j, Write(s.sids[id] != NULL_TX_SID))])
  {
    hide Reachable;
    ReachableStep(p, s, k);
    CasTakes(p, s, k);
    t := StepTask(p, s, k);
  }

  /** The placeholder is filled, or listed for a duplicate or a lack of contents. */
  lemma Writes(p: Setup, s: State, k: nat) returns (t: State)
    requires p.Sound() && Reachable(p, s) && k < |s.tasks| && s.tasks[k].stage.Write?
    ensures Reachable(p, t) && p.Match(k, s.tasks[k].next) && p.index[p.IdAt(k, s.tasks[k].next)] < |s.placeholders|
    ensures var j, dup := s.tasks[k].next, s.tasks[k].stage.dup;
            var sha, i := p.buckets[k][j], p.index[p.IdAt(k, j)];
            t == if dup || sha !in p.contents
                 then s.(missing := s.missing + [i],
                         placeholders := s.placeholders[i := s.placeholders[i].(kind := MissingCompactId, sid := NULL_TX_SID)],
                         tasks := s.tasks[k := Task(j, if dup then Add(-1) else Check)])
                 else s.(placeholders := s.placeholders[i := s.placeholders[i].(kind := ShortIdKind, sid := p.sidOf[sha],
                                                                                contents := Some(p.contents[sha]))],
                         tasks := s.tasks[k := Task(j, Add(1))])
  {
    hide Reachable;
    ReachableStep(p, s, k);
    assert TaskSane(p, s.tasks[k], k);
    t := StepTask(p, s, k);
  }

  lemma Adds(p: Setup, s: State, k: nat) returns (t: State)
    requires p.Sound() && Reachable(p, s) && k < |s.tasks| && s.tasks[k].stage.Add?
    ensures Reachable(p, t)
    ensures t == s.(counter := s.counter + s.tasks[k].stage.delta, tasks := s.tasks[k := Task(s.tasks[k].next, Check)])
  {
    hide Reachable;
    ReachableStep(p, s, k);
    t := StepTask(p, s, k);
  }

  lemma Checks(p: Setup, s: State, k: nat) returns (t: State)
    requires p.Sound() && Reachable(p, s) && k < |s.tasks| && s.tasks[k].stage.Check?
    ensures Reachable(p, t)
    ensures t == s.(tasks := s.tasks[k := Task(s.tasks[k].next + 1, if s.counter >= |p.index| then Finished else Fetch)])
  {
    hide Reachable;
    ReachableStep(p, s, k);
    t := StepTask(p, s, k);
  }
}
