/**
 When the mapping race comes out right whatever its schedule: exactly if no sub-task, going
 over its own bucket until the block is complete, could meet a transaction without contents
 or a compact id that was met before.
 */
module CompactCollisions {
  import opened Bytes
  import opened Wrappers
  import opened CompactBlockData
  import opened CompactMapping
  import opened CompactAccounts

  /** The first n items of a bucket supply every compact id of the block. */
  ghost predicate Covered(p: Setup, k: nat, n: nat) {
    forall id | id in p.index :: exists j: nat :: j < n && p.Full(k, j) && p.IdAt(k, j) == id
  }

  /** A match that its bucket alone does not make superfluous. */
  ghost predicate Reached(p: Setup, k: nat, j: nat) {
    p.Match(k, j) && !Covered(p, k, j)
  }

  /** Each of these has its contents, and no two of them have the same compact id. */
  ghost predicate Clean(p: Setup) {
    && (forall k: nat, j: nat | Reached(p, k, j) :: p.Full(k, j))
    && (forall k: nat, j: nat, k': nat, j': nat | Reached(p, k, j) && Reached(p, k', j') && p.IdAt(k, j) == p.IdAt(k', j') ::
          k == k' && j == j')
  }

  /** However the sub-tasks are scheduled, none finds a duplicate or a lack of contents. */
  ghost predicate AlwaysSilent(p: Setup) {
    forall schedule | CanRun(p, Start(p), schedule) && AllFinished(RunOf(p, Start(p), schedule)) ::
      RunOf(p, Start(p), schedule).missing == []
  }

  // ---------------------------------------------------------------- clean is enough

  /** How far a bucket is gone over if no other sub-task runs. */
  ghost function Reach(p: Setup, k: nat, n: nat): (r: nat)
    requires k < |p.buckets| && n <= |p.buckets[k]|
    requires forall m: nat | m < n :: !Covered(p, k, m)
    ensures n <= r <= |p.buckets[k]| && (r < |p.buckets[k]| ==> Covered(p, k, r))
    ensures forall m: nat | m < r :: !Covered(p, k, m)
    decreases |p.buckets[k]| - n
  {
    if n == |p.buckets[k]| || Covered(p, k, n) then n else Reach(p, k, n + 1)
  }

  /** The setup without what is never reached. Nothing matches in a block without compact ids. */
  ghost function Cut(p: Setup): (r: Setup)
    ensures r == p.(buckets := r.buckets) && |r.buckets| == |p.buckets|
    ensures forall k | 0 <= k < |p.buckets| :: r.buckets[k] <= p.buckets[k]
    ensures p.index != map[] ==> forall k | 0 <= k < |p.buckets| :: |r.buckets[k]| == Reach(p, k, 0)
    ensures p.index == map[] ==> r.buckets == p.buckets
  {
    if p.index == map[] then p
    else p.(buckets := seq(|p.buckets|, k requires 0 <= k < |p.buckets| => p.buckets[k][..Reach(p, k, 0)]))
  }

  lemma CutMatches(p: Setup, k: nat, j: nat)
    requires Cut(p).Match(k, j)
    ensures Reached(p, k, j) && Cut(p).IdAt(k, j) == p.IdAt(k, j) && Cut(p).buckets[k][j] == p.buckets[k][j]
    ensures Cut(p).Full(k, j) <==> p.Full(k, j)
  {
    assert p.compactOf(Cut(p).buckets[k][j]) in p.index;
  }

  lemma CutValid(p: Setup)
    requires p.Sound() && Clean(p)
    ensures Cut(p).Valid() && forall k: nat, j: nat | Cut(p).Match(k, j) :: Cut(p).Full(k, j)
  {
    hide Setup.IndexValid, Covered;
    forall k: nat, j: nat | Cut(p).Match(k, j)
      ensures Cut(p).Full(k, j) && Reached(p, k, j) && Cut(p).IdAt(k, j) == p.IdAt(k, j)
      ensures Cut(p).sidOf[Cut(p).buckets[k][j]] != NULL_TX_SID
    {
      CutMatches(p, k, j);
    }
    assert Cut(p).IndexValid() by { CutIndex(p); }
  }

  lemma CutIndex(p: Setup)
    requires p.IndexValid()
    ensures Cut(p).IndexValid()
  {
  }

  /** No sub-task stands behind what is reached. */
  ghost predicate CutInv(p: Setup, s: State)
    requires Cut(p).Valid()
  {
    && Inv(Cut(p), s)
    && forall k | 0 <= k < |s.tasks| :: EdgeRight(p, s.tasks[k], k)
  }

  ghost predicate EdgeRight(p: Setup, t: Task, k: nat) {
    k < |p.buckets| && (t.stage.Fetch? && t.next == |Cut(p).buckets[k]| ==> |Cut(p).buckets[k]| == |p.buckets[k]|)
  }

  lemma CutSane(p: Setup, s: State)
    requires Sane(Cut(p), s)
    ensures Sane(p, s)
  {
    forall k | 0 <= k < |s.tasks|
      ensures TaskSane(p, s.tasks[k], k)
    {
      assert TaskSane(Cut(p), s.tasks[k], k);
    }
  }

  /** The last item of a bucket that is cut off is a match with contents. */
  lemma LastCovers(p: Setup, k: nat)
    requires k < |p.buckets| && |Cut(p).buckets[k]| < |p.buckets[k]|
    ensures p.index != map[] && Covered(p, k, |Cut(p).buckets[k]|)
    ensures |Cut(p).buckets[k]| > 0 && p.buckets[k][|Cut(p).buckets[k]| - 1] in p.sidOf
  {
    var n := |Cut(p).buckets[k]|;
    var some :| some in p.index;
    assert n > 0 by {
      assert Covered(p, k, n) && exists j: nat :: j < n && p.Full(k, j) && p.IdAt(k, j) == some;
    }
    assert !Covered(p, k, n - 1);
    var id :| id in p.index && !exists j: nat :: j < n - 1 && p.Full(k, j) && p.IdAt(k, j) == id;
    var j: nat :| j < n && p.Full(k, j) && p.IdAt(k, j) == id;
    assert j == n - 1;
  }

  /** Whoever has gone over all that covers the block has counted all of it. */
  lemma CoveredIsCounted(p: Setup, s: State, k: nat)
    requires Cut(p).Valid() && Inv(Cut(p), s) && k < |s.tasks| && s.tasks[k].stage.Check?
    requires k < |p.buckets| && s.tasks[k].next + 1 == |Cut(p).buckets[k]| < |p.buckets[k]|
    ensures s.counter >= |p.index|
  {
    LastCovers(p, k);
    var n := |Cut(p).buckets[k]|;
    forall id | id in p.index
      ensures id in AllCounted(Cut(p), s)
    {
      var j: nat :| j < n && p.Full(k, j) && p.IdAt(k, j) == id;
      assert Cut(p).Full(k, j) && Cut(p).IdAt(k, j) == id && PastAdd(s.tasks[k], j);
    }
    SubsetSize(p.index.Keys, AllCounted(Cut(p), s));
    assert |p.index| == |p.index.Keys|;
  }

  lemma SubsetSize<T>(a: set<T>, b: set<T>)
    requires a <= b
    ensures |a| <= |b|
  {
    assert |b| == |a| + |b - a|;
  }

  /** Without what is never reached every step is the same. */
  lemma CutStep(p: Setup, s: State, k: nat)
    requires p.Sound() && Cut(p).Valid() && CutInv(p, s) && k < |s.tasks| && !s.tasks[k].stage.Finished?
    ensures Sane(p, s) && Sane(Cut(p), s) && StepTask(p, s, k) == StepTask(Cut(p), s, k)
    ensures CutInv(p, StepTask(p, s, k))
  {
    InvSane(Cut(p), s);
    CutSane(p, s);
    StepKeeps(Cut(p), s, k);
    SameStep(p, s, k);
    hide Inv, Setup.Valid, Sane;
    var d := StepTask(p, s, k);
    forall i | 0 <= i < |d.tasks|
      ensures EdgeRight(p, d.tasks[i], i)
    {
      if i == k {
        NextFetch(p, s, k);
        StepEdge(p, s, k, d.tasks[k]);
      } else {
        assert EdgeRight(p, s.tasks[i], i);
      }
    }
  }

  lemma SameStep(p: Setup, s: State, k: nat)
    requires Sane(p, s) && Sane(Cut(p), s) && k < |s.tasks| && !s.tasks[k].stage.Finished? && EdgeRight(p, s.tasks[k], k)
    ensures StepTask(p, s, k) == StepTask(Cut(p), s, k) && StepTask(p, s, k).tasks == s.tasks[k := StepTask(p, s, k).tasks[k]]
  {
    assert TaskSane(Cut(p), s.tasks[k], k);
  }

  /** A sub-task turns to the next item behind an unknown one, or while not all are counted. */
  predicate Turns(p: Setup, t: Task, d: Task, k: nat, counter: int) {
    d.stage.Fetch? ==>
      && k < |p.buckets| && d.next == t.next + 1 && t.next < |p.buckets[k]|
      && ((t.stage.Fetch? && p.buckets[k][t.next] !in p.sidOf) || (t.stage.Check? && counter < |p.index|))
  }

  lemma NextFetch(p: Setup, s: State, k: nat)
    requires Sane(p, s) && k < |s.tasks| && !s.tasks[k].stage.Finished?
    ensures k < |StepTask(p, s, k).tasks| && Turns(p, s.tasks[k], StepTask(p, s, k).tasks[k], k, s.counter)
  {
  }

  lemma StepEdge(p: Setup, s: State, k: nat, d: Task)
    requires Cut(p).Valid() && Inv(Cut(p), s) && k < |s.tasks|
    requires EdgeRight(p, s.tasks[k], k) && Turns(p, s.tasks[k], d, k, s.counter)
    ensures EdgeRight(p, d, k)
  {
    hide Inv, Setup.Valid, Cut, Covered, Setup.Match, Setup.Full;
    if |Cut(p).buckets[k]| < |p.buckets[k]| && s.tasks[k].next + 1 == |Cut(p).buckets[k]| {
      LastCovers(p, k);
      if s.tasks[k].stage.Check? {
        CoveredIsCounted(p, s, k);
      }
    }
  }

  lemma {:induction false} CutRun(p: Setup, s: State, schedule: seq<nat>)
    requires p.Sound() && Cut(p).Valid() && CutInv(p, s) && CanRun(p, s, schedule)
    ensures CutInv(p, RunOf(p, s, schedule))
    decreases |schedule|
  {
    hide CutInv, Setup.Valid, Setup.Sound, StepTask, Sane;
    if schedule != [] {
      CutStep(p, s, schedule[0]);
      CutRun(p, StepTask(p, s, schedule[0]), schedule[1..]);
    }
  }

  lemma CutStart(p: Setup)
    requires Cut(p).Valid()
    ensures CutInv(p, Start(p))
  {
    StartInv(Cut(p));
    assert Start(p) == Start(Cut(p));
    hide Inv, Setup.Valid;
    forall k | 0 <= k < |p.buckets|
      ensures EdgeRight(p, Start(p).tasks[k], k)
    {
      if |Cut(p).buckets[k]| == 0 < |p.buckets[k]| {
        LastCovers(p, k);
      }
    }
  }

  /**
   In a clean race no schedule reports anything, and all complete ones come to the same
   placeholders and the same count.
   */
  lemma CleanOutcome(p: Setup, schedule: seq<nat>)
    requires p.Sound() && Clean(p) && CanRun(p, Start(p), schedule)
    ensures Cut(p).Valid()
    ensures var s := RunOf(p, Start(p), schedule);
            && s.missing == []
            && (AllFinished(s) ==> Outcome(Cut(p), s.placeholders) && s.counter == |Cut(p).Resolved()|)
  {
    CutValid(p);
    CutStart(p);
    CutRun(p, Start(p), schedule);
    var s := RunOf(p, Start(p), schedule);
    hide StepTask, CanRun, RunOf;
    assert AllReported(Cut(p), s) == {};
    if AllFinished(s) {
      FinishedOutcome(Cut(p), s);
    }
  }

  // ---------------------------------------------------------------- silence

  /** The list never gets shorter. */
  lemma StepLists(p: Setup, s: State, k: nat)
    requires Sane(p, s) && k < |s.tasks| && !s.tasks[k].stage.Finished?
    ensures |StepTask(p, s, k).missing| >= |s.missing|
  {
  }

  /** From every state the race can be brought to its end. */
  lemma {:induction false} Completed(p: Setup, s: State) returns (t: State)
    requires p.Sound() && Reachable(p, s) && Sane(p, s)
    ensures Reachable(p, t) && AllFinished(t) && |t.missing| >= |s.missing|
    decreases Work(p, s.tasks, |s.tasks|)
  {
    hide Reachable, StepTask, Setup.Sound, Work, Sane;
    if AllFinished(s) {
      t := s;
    } else {
      var k :| 0 <= k < |s.tasks| && !s.tasks[k].stage.Finished?;
      var d := StepTask(p, s, k);
      ReachableStep(p, s, k);
      StepWorks(p, s, k);
      SaneTasks(p, s);
      StepSane(p, s, k);
      SaneTasks(p, d);
      LessWork(p, s.tasks, k, d.tasks[k], |s.tasks|);
      WorkLeft(p, s, |s.tasks|);
      WorkLeft(p, d, |d.tasks|);
      StepLists(p, s, k);
      t := Completed(p, d);
    }
  }

  lemma SaneTasks(p: Setup, s: State)
    requires Sane(p, s)
    ensures |s.tasks| == |p.buckets|
  {
  }

  /** If no complete schedule reports anything, no other one does. */
  lemma SilentSoFar(p: Setup, s: State)
    requires p.Sound() && AlwaysSilent(p) && Reachable(p, s)
    ensures s.missing == []
  {
    ReachableKept(p, s);
    var t := Completed(p, s);
    var schedule :| CanRun(p, Start(p), schedule) && RunOf(p, Start(p), schedule) == t;
  }

  // ---------------------------------------------------------------- what silence means for one item

  /** The sub-task claims the match it stands in front of: nobody else has. */
  lemma Claim(p: Setup, s: State, k: nat) returns (t: State)
    requires p.Sound() && AlwaysSilent(p) && Reachable(p, s) && k < |s.tasks| && s.tasks[k].stage.Fetch?
    requires p.Match(k, s.tasks[k].next)
    ensures s.sids.Keys == p.index.Keys && p.IdAt(k, s.tasks[k].next) !in Claimed(p, s)
    ensures Reachable(p, t) && t.sids.Keys == p.index.Keys && t.tasks == s.tasks[k := Task(s.tasks[k].next, Write(false))]
    ensures Claimed(p, t) == Claimed(p, s) + {p.IdAt(k, s.tasks[k].next)}
  {
    hide Reachable, Setup.Sound, AlwaysSilent, Kept;
    var j := s.tasks[k].next;
    var id := p.IdAt(k, j);
    ReachableStep(p, s, k);
    var u := StepTask(p, s, k);
    assert u == s.(tasks := s.tasks[k := Task(j, Cas)]);
    ReachableStep(p, u, k);
    t := StepTask(p, u, k);
    CasTakes(p, u, k);
    StepClaims(p, u, k);
    ClaimedAt(p, u, id);
    assert Claimed(p, u) == Claimed(p, s);
    if id in Claimed(p, s) {
      ReachableStep(p, t, k);
      SilentSoFar(p, StepTask(p, t, k));
    }
  }

  /** It has its contents, and is counted. */
  lemma Count(p: Setup, s: State, k: nat) returns (t: State)
    requires p.Sound() && AlwaysSilent(p) && Reachable(p, s) && k < |s.tasks| && s.tasks[k].stage == Write(false)
    requires p.Match(k, s.tasks[k].next)
    ensures p.Full(k, s.tasks[k].next) && s.sids.Keys == p.index.Keys
    ensures Reachable(p, t) && t.sids == s.sids && t.tasks == s.tasks[k := Task(s.tasks[k].next, Check)]
  {
    hide Reachable, Setup.Sound, AlwaysSilent, Kept;
    ReachableStep(p, s, k);
    var u := StepTask(p, s, k);
    SilentSoFar(p, u);
    ReachableStep(p, u, k);
    t := StepTask(p, u, k);
  }

  // ---------------------------------------------------------------- going over a bucket

  /** Nobody is about to take a count back. */
  predicate NoneBack(tasks: seq<Task>) {
    forall k | 0 <= k < |tasks| :: Pending(tasks[k]) >= 0
  }

  lemma {:induction false} SomePending(tasks: seq<Task>, k: nat)
    requires NoneBack(tasks)
    ensures AllPending(tasks) >= if k < |tasks| then Pending(tasks[k]) else 0
  {
    if tasks != [] {
      SomePending(tasks[..|tasks| - 1], k);
    }
  }

  /** The compact id is not counted while sub-task k is in front of item n: unclaimed, or held by another sub-task. */
  ghost predicate Open(p: Setup, s: State, k: nat, n: nat, id: CompactId)
    requires s.sids.Keys == p.index.Keys && k < |s.tasks|
  {
    && id in p.index
    && ((id !in Claimed(p, s) && forall j: nat | s.tasks[k].next <= j < n && p.Match(k, j) :: p.IdAt(k, j) != id)
        || exists i: nat :: i < |s.tasks| && i != k && HeldBy(p, s.tasks[i], i, id))
  }

  /** So the block is not complete. */
  lemma OpenIncomplete(p: Setup, s: State, k: nat, n: nat, id: CompactId)
    requires Kept(p, s) && s.missing == [] && NoneBack(s.tasks) && k < |s.tasks| && Open(p, s, k, n, id)
    ensures s.counter < |p.index|
  {
    SomePending(s.tasks, |s.tasks|);
    assert |p.index| == |p.index.Keys|;
    SubsetSize(Claimed(p, s), p.index.Keys);
    if id !in Claimed(p, s) {
      SubsetSize(Claimed(p, s) + {id}, p.index.Keys);
    } else {
      var i: nat :| i < |s.tasks| && i != k && HeldBy(p, s.tasks[i], i, id);
      SomePending(s.tasks, i);
    }
  }

  /** It stays so while the sub-task moves on, and claims no more than the item it stands in front of. */
  lemma StaysOpen(p: Setup, s: State, t: State, k: nat, n: nat, id: CompactId)
    requires s.sids.Keys == p.index.Keys == t.sids.Keys && k < |s.tasks| && Open(p, s, k, n, id)
    requires |t.tasks| == |s.tasks| && t.tasks == s.tasks[k := t.tasks[k]]
    requires s.tasks[k].next <= t.tasks[k].next && s.tasks[k].next < n
    requires forall other | other in Claimed(p, t) && other !in Claimed(p, s) ::
               p.Match(k, s.tasks[k].next) && other == p.IdAt(k, s.tasks[k].next)
    ensures Open(p, t, k, n, id)
  {
    hide Claimed, HeldBy;
    if i: nat :| i < |s.tasks| && i != k && HeldBy(p, s.tasks[i], i, id) {
      assert t.tasks[i] == s.tasks[i];
    }
  }

  lemma StaysForward(tasks: seq<Task>, k: nat, t: Task)
    requires NoneBack(tasks) && k < |tasks| && Pending(t) >= 0
    ensures NoneBack(tasks[k := t])
  {
  }

  /** The check does not end the sub-task. */
  lemma PassCheck(p: Setup, s: State, k: nat, n: nat, id: CompactId) returns (t: State)
    requires p.Sound() && AlwaysSilent(p) && Reachable(p, s) && NoneBack(s.tasks) && s.sids.Keys == p.index.Keys
    requires k < |s.tasks| && s.tasks[k].stage.Check? && Open(p, s, k, n, id)
    ensures Reachable(p, t) && t.sids == s.sids && t.tasks == s.tasks[k := Task(s.tasks[k].next + 1, Fetch)]
  {
    hide Reachable, Setup.Sound, AlwaysSilent, Open, Kept;
    ReachableKept(p, s);
    SilentSoFar(p, s);
    OpenIncomplete(p, s, k, n, id);
    ReachableStep(p, s, k);
    t := StepTask(p, s, k);
  }

  /** One item further. */
  lemma Pass(p: Setup, s: State, k: nat, n: nat, id: CompactId) returns (t: State)
    requires p.Sound() && AlwaysSilent(p) && Reachable(p, s) && NoneBack(s.tasks) && s.sids.Keys == p.index.Keys
    requires k < |s.tasks| && s.tasks[k].stage.Fetch? && k < |p.buckets| && s.tasks[k].next < n <= |p.buckets[k]|
    requires Open(p, s, k, n, id)
    ensures Reachable(p, t) && t.sids.Keys == p.index.Keys && t.tasks == s.tasks[k := Task(s.tasks[k].next + 1, Fetch)]
    ensures NoneBack(t.tasks) && Open(p, t, k, n, id)
  {
    hide Reachable, Setup.Sound, AlwaysSilent, Open, Kept, NoneBack;
    var j := s.tasks[k].next;
    StaysForward(s.tasks, k, Task(j + 1, Fetch));
    StaysForward(s.tasks, k, Task(j, Check));
    if p.Match(k, j) {
      hide StepTask;
      var u := Claim(p, s, k);
      var v := Count(p, u, k);
      assert v.tasks == s.tasks[k := Task(j, Check)];
      StaysOpen(p, s, v, k, n, id);
      t := PassCheck(p, v, k, n, id);
      assert t.tasks == s.tasks[k := Task(j + 1, Fetch)];
    } else {
      ReachableStep(p, s, k);
      var u := StepTask(p, s, k);
      if p.buckets[k][j] in p.sidOf {
        assert u.tasks == s.tasks[k := Task(j, Check)];
        StaysOpen(p, s, u, k, n, id);
        t := PassCheck(p, u, k, n, id);
        assert t.tasks == s.tasks[k := Task(j + 1, Fetch)];
      } else {
        t := u;
      }
    }
    StaysOpen(p, s, t, k, n, id);
  }

  /** Over all items up to the n-th. */
  lemma {:induction false} GoTo(p: Setup, s: State, k: nat, n: nat, id: CompactId) returns (t: State)
    requires p.Sound() && AlwaysSilent(p) && Reachable(p, s) && NoneBack(s.tasks) && s.sids.Keys == p.index.Keys
    requires k < |s.tasks| && s.tasks[k].stage.Fetch? && k < |p.buckets| && s.tasks[k].next <= n <= |p.buckets[k]|
    requires Open(p, s, k, n, id)
    ensures Reachable(p, t) && t.tasks == s.tasks[k := Task(n, Fetch)]
    decreases n - s.tasks[k].next
  {
    hide Reachable, Setup.Sound, AlwaysSilent, Open, NoneBack;
    t := s;
    if s.tasks[k].next < n {
      var u := Pass(p, s, k, n, id);
      t := GoTo(p, u, k, n, id);
      assert t.tasks == s.tasks[k := Task(n, Fetch)];
    }
  }

  // ---------------------------------------------------------------- clean is necessary

  lemma CoveredMore(p: Setup, k: nat, m: nat, n: nat)
    requires m <= n && Covered(p, k, m)
    ensures Covered(p, k, n)
  {
  }

  /** The sub-task of a bucket can stand in front of any item that is reached, with what is before it claimed. */
  lemma {:induction false} StandAt(p: Setup, k: nat, j: nat) returns (t: State)
    requires p.Sound() && AlwaysSilent(p) && Reached(p, k, j)
    ensures Reachable(p, t) && k < |t.tasks| && |p.buckets| == |t.tasks| && t.tasks == Start(p).tasks[k := Task(j, Fetch)]
    ensures t.sids.Keys == p.index.Keys
    ensures forall i: nat | i < j && p.Match(k, i) :: p.Full(k, i) && p.IdAt(k, i) in Claimed(p, t)
    decreases j
  {
    hide Reachable, Setup.Sound, AlwaysSilent, Kept;
    forall i: nat | i < j && p.Match(k, i)
      ensures p.Full(k, i)
    {
      if Covered(p, k, i) {
        CoveredMore(p, k, i, j);
      }
      var u := StandAt(p, k, i);
      var v := Claim(p, u, k);
      var w := Count(p, v, k);
    }
    var id :| id in p.index && !exists i: nat :: i < j && p.Full(k, i) && p.IdAt(k, i) == id;
    StartReachable(p);
    t := GoTo(p, Start(p), k, j, id);
    ReachableKept(p, t);
    ClaimsOf(p, t, k, j);
  }

  lemma ClaimsOf(p: Setup, t: State, k: nat, j: nat)
    requires Kept(p, t) && k < |t.tasks| && t.tasks[k].next == j
    ensures |p.buckets| == |t.tasks| && t.sids.Keys == p.index.Keys
    ensures forall i: nat | i < j && p.Match(k, i) :: p.IdAt(k, i) in Claimed(p, t)
  {
    assert forall i: nat | i < j && p.Match(k, i) :: PastCas(t.tasks[k], i);
  }

  /** In its own bucket a reached match has its contents and comes first. */
  lemma FirstOfBucket(p: Setup, k: nat, j: nat)
    requires p.Sound() && AlwaysSilent(p) && Reached(p, k, j)
    ensures p.Full(k, j) && forall i: nat | i < j && p.Match(k, i) :: p.IdAt(k, i) != p.IdAt(k, j)
  {
    hide Reachable, Setup.Sound, AlwaysSilent;
    var t := StandAt(p, k, j);
    var u := Claim(p, t, k);
    var v := Count(p, u, k);
  }

  /** And no other bucket has a match with its compact id. */
  lemma OnlyBucketWith(p: Setup, k: nat, j: nat, k': nat, j': nat)
    requires p.Sound() && AlwaysSilent(p) && Reached(p, k, j) && p.Match(k', j') && k != k'
    ensures p.IdAt(k, j) != p.IdAt(k', j')
  {
    hide Reachable, Setup.Sound, AlwaysSilent, Kept;
    var id := p.IdAt(k, j);
    if p.IdAt(k', j') == id {
      var t := StandAt(p, k, j);
      var u := Claim(p, t, k);
      assert HeldBy(p, u.tasks[k], k, id);
      assert u.tasks[k'] == Task(0, Fetch);
      var v := GoTo(p, u, k', j', id);
      assert v.tasks[k] == Task(j, Write(false));
      ReachableKept(p, v);
      HeldIsClaimed(p, v, k);
      var w := Claim(p, v, k');
    }
  }

  lemma HeldIsClaimed(p: Setup, t: State, k: nat)
    requires Kept(p, t) && k < |t.tasks| && t.tasks[k].stage.Write?
    ensures t.sids.Keys == p.index.Keys && p.Match(k, t.tasks[k].next) && p.IdAt(k, t.tasks[k].next) in Claimed(p, t)
  {
    assert TaskSane(p, t.tasks[k], k);
    assert PastCas(t.tasks[k], t.tasks[k].next);
  }

  /**
   Every schedule comes out without a duplicate and without a lack of contents exactly if
   the race is clean.
   */
  lemma CleanExact(p: Setup)
    requires p.Sound()
    ensures AlwaysSilent(p) <==> Clean(p)
  {
    hide Setup.Sound, CanRun, RunOf, Start, Reached;
    if Clean(p) {
      forall schedule | CanRun(p, Start(p), schedule) && AllFinished(RunOf(p, Start(p), schedule))
        ensures RunOf(p, Start(p), schedule).missing == []
      {
        CleanOutcome(p, schedule);
      }
    }
    if AlwaysSilent(p) {
      hide AlwaysSilent;
      forall k: nat, j: nat | Reached(p, k, j)
        ensures p.Full(k, j)
      {
        FirstOfBucket(p, k, j);
      }
      forall k: nat, j: nat, k': nat, j': nat | Reached(p, k, j) && Reached(p, k', j')
        ensures p.Match(k, j) && p.Match(k', j') && (p.IdAt(k, j) == p.IdAt(k', j') ==> k == k' && j == j')
      {
        ReachedMatches(p, k, j);
        ReachedMatches(p, k', j');
        FirstOfBucket(p, k, j);
        FirstOfBucket(p, k', j');
        if k != k' {
          OnlyBucketWith(p, k, j, k', j');
        }
      }
    }
  }

  lemma ReachedMatches(p: Setup, k: nat, j: nat)
    requires Reached(p, k, j)
    ensures p.Match(k, j)
  {
  }

  // ---------------------------------------------------------------- two hashes with one compact id

  /** In a block of two compact ids both hashes belong to the first one. */
  ghost predicate Colliding(p: Setup, h: Sha256, g: Sha256, a: CompactId, b: CompactId) {
    && a != b && p.placeholders == [Unresolved(a), Unresolved(b)] && p.index == map[a := 0, b := 1]
    && p.compactOf(h) == p.compactOf(g) == a && h in p.contents
    && h in p.sidOf && p.sidOf[h] != NULL_TX_SID && g in p.sidOf && p.sidOf[g] != NULL_TX_SID
  }

  lemma CollidingSound(p: Setup, h: Sha256, g: Sha256, a: CompactId, b: CompactId)
    requires Colliding(p, h, g, a, b) && (p.buckets == [[h, g]] || p.buckets == [[h], [g]])
    ensures p.Sound() && Reachable(p, Start(p))
  {
    assert forall k: nat, j: nat | p.Match(k, j) :: p.buckets[k][j] == h || p.buckets[k][j] == g;
    hide Reachable, Start;
    StartReachable(p);
  }

  /** The first hash of a single bucket is counted. */
  lemma FirstCounted(p: Setup, h: Sha256, g: Sha256, a: CompactId, b: CompactId) returns (s: State)
    requires Colliding(p, h, g, a, b) && p.buckets == [[h, g]]
    ensures p.Sound() && p.Match(0, 0) && Reachable(p, s)
    ensures s == State(map[a := p.sidOf[h], b := NULL_TX_SID], [p.Filled(0, 0), Unresolved(b)], 1, [], [Task(1, Fetch)])
  {
    CollidingSound(p, h, g, a, b);
    hide Reachable, Setup.Sound;
    assert p.Match(0, 0) && p.IdAt(0, 0) == a;
    s := Start(p);
    s := Fetches(p, s, 0);
    s := Swaps(p, s, 0);
    s := Writes(p, s, 0);
    s := Adds(p, s, 0);
    s := Checks(p, s, 0);
  }

  /** The second one takes the resolution back, and its place is listed. */
  lemma SecondTakesBack(p: Setup, h: Sha256, g: Sha256, a: CompactId, b: CompactId, first: State) returns (s: State)
    requires Colliding(p, h, g, a, b) && p.buckets == [[h, g]] && p.Sound() && p.Match(0, 0) && Reachable(p, first)
    requires first == State(map[a := p.sidOf[h], b := NULL_TX_SID], [p.Filled(0, 0), Unresolved(b)], 1, [], [Task(1, Fetch)])
    ensures Reachable(p, s)
    ensures s == first.(placeholders := [p.Filled(0, 0).(kind := MissingCompactId, sid := NULL_TX_SID), Unresolved(b)],
                        counter := 0, missing := [0], tasks := [Task(1, Check)])
  {
    hide Reachable, Setup.Sound;
    assert p.Match(0, 1) && p.IdAt(0, 1) == a;
    s := Fetches(p, first, 0);
    s := Swaps(p, s, 0);
    assert s == first.(tasks := [Task(1, Write(true))]);
    s := Writes(p, s, 0);
    s := Adds(p, s, 0);
  }

  /** The last item of a bucket is done, and the block is not complete. */
  lemma Ends(p: Setup, s: State, k: nat) returns (t: State)
    requires p.Sound() && Reachable(p, s) && k < |s.tasks| && s.tasks[k].stage.Check? && k < |p.buckets|
    requires s.tasks[k].next + 1 == |p.buckets[k]| && s.counter < |p.index|
    ensures Reachable(p, t) && Sane(p, t) && t == s.(tasks := s.tasks[k := Task(|p.buckets[k]|, Finished)])
  {
    t := Checks(p, s, k);
    t := Fetches(p, t, k);
    ReachableKept(p, t);
  }

  /** In the end nothing is counted, and the main loop will list the place once more. */
  lemma CollisionFails(p: Setup, h: Sha256, g: Sha256, a: CompactId, b: CompactId) returns (s: State)
    requires Colliding(p, h, g, a, b) && p.buckets == [[h, g]]
    ensures p.Sound() && Reachable(p, s) && Sane(p, s) && AllFinished(s)
    ensures s.missing == [0] && s.counter == 0 && TakenBack(p, s) == {a} && MissingIds(p, s) == {a, b}
  {
    s := FirstCounted(p, h, g, a, b);
    s := SecondTakesBack(p, h, g, a, b, s);
    hide Reachable, Setup.Sound, MissingIds, TakenBack, Claimed, Sane;
    s := Ends(p, s, 0);
    AtTheEnd(p, s, a, b);
  }

  /** What is claimed and missing in a block of two. */
  lemma AtTheEnd(p: Setup, s: State, a: CompactId, b: CompactId)
    requires Sane(p, s) && p.index == map[a := 0, b := 1] && a != b && s.sids[a] != NULL_TX_SID && s.sids[b] == NULL_TX_SID
    requires |s.placeholders| == 2 && s.placeholders[1].kind == MissingCompactId
    ensures MissingIds(p, s) == if s.placeholders[0].kind == MissingCompactId then {a, b} else {b}
    ensures TakenBack(p, s) == if s.placeholders[0].kind == MissingCompactId then {a} else {}
  {
    assert Claimed(p, s) == {a};
  }

  /** The sub-task of the first bucket has claimed the entry when that of the second finds the duplicate. */
  lemma DuplicateFirst(p: Setup, h: Sha256, g: Sha256, a: CompactId, b: CompactId) returns (s: State)
    requires Colliding(p, h, g, a, b) && p.buckets == [[h], [g]]
    ensures p.Sound() && Reachable(p, s)
    ensures s == State(map[a := p.sidOf[h], b := NULL_TX_SID], [Unresolved(a), Unresolved(b)], 0, [],
                       [Task(0, Write(false)), Task(0, Write(true))])
  {
    CollidingSound(p, h, g, a, b);
    hide Reachable, Setup.Sound;
    assert p.Match(0, 0) && p.IdAt(0, 0) == a && p.Match(1, 0) && p.IdAt(1, 0) == a;
    s := Start(p);
    s := Fetches(p, s, 0);
    s := Swaps(p, s, 0);
    s := Fetches(p, s, 1);
    s := Swaps(p, s, 1);
  }

  lemma DuplicateListed(p: Setup, h: Sha256, g: Sha256, a: CompactId, b: CompactId, first: State) returns (s: State)
    requires Colliding(p, h, g, a, b) && p.buckets == [[h], [g]] && p.Sound() && Reachable(p, first)
    requires first == State(map[a := p.sidOf[h], b := NULL_TX_SID], [Unresolved(a), Unresolved(b)], 0, [],
                            [Task(0, Write(false)), Task(0, Write(true))])
    ensures Reachable(p, s)
    ensures s == first.(counter := -1, missing := [0], tasks := [Task(0, Write(false)), Task(1, Finished)])
  {
    hide Reachable, Setup.Sound;
    assert p.Match(1, 0) && p.IdAt(1, 0) == a;
    s := Writes(p, first, 1);
    s := Adds(p, s, 1);
    s := Checks(p, s, 1);
    s := Fetches(p, s, 1);
  }

  lemma FirstWritesLate(p: Setup, h: Sha256, g: Sha256, a: CompactId, b: CompactId, first: State) returns (s: State)
    requires Colliding(p, h, g, a, b) && p.buckets == [[h], [g]] && p.Sound() && p.Match(0, 0) && Reachable(p, first)
    requires first == State(map[a := p.sidOf[h], b := NULL_TX_SID], [Unresolved(a), Unresolved(b)], -1, [0],
                            [Task(0, Write(false)), Task(1, Finished)])
    ensures Reachable(p, s)
    ensures s == first.(counter := 0, placeholders := [p.Filled(0, 0), Unresolved(b)],
                        tasks := [Task(0, Check), Task(1, Finished)])
  {
    hide Reachable, Setup.Sound;
    assert p.IdAt(0, 0) == a;
    s := Writes(p, first, 0);
    s := Adds(p, s, 0);
  }

  /** If the first one writes only then, the count comes out right, but a resolved place is listed. */
  lemma CollisionUnnoticed(p: Setup, h: Sha256, g: Sha256, a: CompactId, b: CompactId) returns (s: State)
    requires Colliding(p, h, g, a, b) && p.buckets == [[h], [g]]
    ensures p.Sound() && Reachable(p, s) && Sane(p, s) && AllFinished(s)
    ensures s.missing == [0] && s.counter == 0 && TakenBack(p, s) == {} && MissingIds(p, s) == {b}
  {
    assert p.Match(0, 0);
    s := DuplicateFirst(p, h, g, a, b);
    s := DuplicateListed(p, h, g, a, b, s);
    s := FirstWritesLate(p, h, g, a, b, s);
    hide Reachable, Setup.Sound, MissingIds, TakenBack, Claimed, Sane;
    s := Ends(p, s, 0);
    AtTheEnd(p, s, a, b);
  }
}
