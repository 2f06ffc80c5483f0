/**
 The race of the mapping sub-tasks. Each goes over a bucket of the not-seen pool, claims
 the map entry of a matching compact id by compare-and-swap, fills in the placeholder,
 counts, and stops early once everything has been counted. The steps of the sub-tasks
 interleave in any way.
 */
module CompactMapping {
  import opened Bytes
  import opened Wrappers
  import opened CompactBlockData

  datatype Setup = Setup(
    placeholders: seq<Placeholder>,
    index: map<CompactId, nat>,
    buckets: seq<seq<Sha256>>,
    sidOf: map<Sha256, ShortId>,
    contents: map<Sha256, seq<byte>>,
    compactOf: Sha256 -> CompactId)
  {
    /** Item j of bucket k has a short id and its compact id is in the block. */
    predicate Match(k: nat, j: nat) {
      k < |buckets| && j < |buckets[k]| && buckets[k][j] in sidOf && compactOf(buckets[k][j]) in index
    }

    function IdAt(k: nat, j: nat): (id: CompactId)
      requires Match(k, j)
      ensures id in index
    {
      compactOf(buckets[k][j])
    }

    /** Each compact id is recorded at its own, unresolved placeholder. */
    ghost predicate IndexValid() {
      forall id | id in index :: index[id] < |placeholders| && placeholders[index[id]] == Unresolved(id)
    }

    /** No hash is in two places of the pool, and no two hashes of the pool have the same compact id of the block. */
    ghost predicate OneEach() {
      forall k: nat, j: nat, k': nat, j': nat | Match(k, j) && Match(k', j') && IdAt(k, j) == IdAt(k', j') :: k == k' && j == j'
    }

    /** A known hash has a short id, and that is not the null id. */
    ghost predicate SidsKnown() {
      forall k: nat, j: nat | Match(k, j) :: sidOf[buckets[k][j]] != NULL_TX_SID
    }

    ghost predicate Sound() {
      IndexValid() && SidsKnown()
    }

    /** And the matches do not collide. */
    ghost predicate Valid() {
      Sound() && OneEach()
    }

    /** A match whose contents are there. */
    predicate Full(k: nat, j: nat) {
      Match(k, j) && buckets[k][j] in contents
    }

    /** The placeholder with the transaction that matches it. */
    function Filled(k: nat, j: nat): Placeholder
      requires Full(k, j)
    {
      Placeholder(ShortIdKind, Some(IdAt(k, j)), Some(contents[buckets[k][j]]), sidOf[buckets[k][j]])
    }

    /** Some item of the pool matches the compact id, and its contents are there. */
    ghost predicate Supplied(id: CompactId) {
      exists k: nat, j: nat :: Full(k, j) && IdAt(k, j) == id
    }

    ghost function Resolved(): set<CompactId> {
      set id | id in index && Supplied(id)
    }

    /** An item of the pool matches the compact id, but its contents are not there. */
    ghost predicate Lacking(id: CompactId) {
      exists k: nat, j: nat :: Match(k, j) && !Full(k, j) && IdAt(k, j) == id
    }

    ghost function Lacked(): set<CompactId> {
      set id | id in index && Lacking(id)
    }
  }

  /** Where a sub-task is with its current item. */
  datatype Stage = Fetch | Cas | Write(dup: bool) | Add(delta: int) | Check | Finished

  datatype Task = Task(next: nat, stage: Stage)

  datatype State = State(
    sids: map<CompactId, ShortId>, placeholders: seq<Placeholder>, counter: int, missing: seq<nat>, tasks: seq<Task>)

  /** What the steps need in order to make sense. */
  ghost predicate Sane(p: Setup, s: State) {
    && |s.tasks| == |p.buckets| && |s.placeholders| == |p.placeholders| && s.sids.Keys == p.index.Keys
    && (forall id | id in p.index :: p.index[id] < |p.placeholders|)
    && forall k | 0 <= k < |s.tasks| :: TaskSane(p, s.tasks[k], k)
  }

  predicate TaskSane(p: Setup, t: Task, k: nat)
    requires k < |p.buckets|
  {
    && t.next <= |p.buckets[k]|
    && (t.stage.Cas? || t.stage.Write? || t.stage.Add? ==> p.Match(k, t.next))
    && (t.stage.Check? ==> t.next < |p.buckets[k]|)
  }

  /** The shared parts after a step of sub-task k, and the sub-task. */
  ghost function StepTask(p: Setup, s: State, k: nat): (r: State)
    requires Sane(p, s) && k < |s.tasks| && !s.tasks[k].stage.Finished?
  {
    var t := s.tasks[k];
    match t.stage
    case Fetch =>
      if t.next >= |p.buckets[k]| then s.(tasks := s.tasks[k := Task(t.next, Finished)])
      else if p.buckets[k][t.next] !in p.sidOf then s.(tasks := s.tasks[k := Task(t.next + 1, Fetch)])
      else if p.compactOf(p.buckets[k][t.next]) !in p.index then s.(tasks := s.tasks[k := Task(t.next, Check)])
      else s.(tasks := s.tasks[k := Task(t.next, Cas)])
    case Cas =>
      var id, sid := p.IdAt(k, t.next), p.sidOf[p.buckets[k][t.next]];
      if s.sids[id] == NULL_TX_SID
      then s.(sids := s.sids[id := sid], tasks := s.tasks[k := Task(t.next, Write(false))])
      else s.(tasks := s.tasks[k := Task(t.next, Write(true))])
    case Write(dup) =>
      var i := p.index[p.IdAt(k, t.next)];
      if dup || p.buckets[k][t.next] !in p.contents
      then s.(missing := s.missing + [i],
              placeholders := s.placeholders[i := s.placeholders[i].(kind := MissingCompactId, sid := NULL_TX_SID)],
              tasks := s.tasks[k := Task(t.next, if dup then Add(-1) else Check)])
      else s.(placeholders := s.placeholders[i := s.placeholders[i].(kind := ShortIdKind, sid := p.sidOf[p.buckets[k][t.next]],
                                                                     contents := Some(p.contents[p.buckets[k][t.next]]))],
              tasks := s.tasks[k := Task(t.next, Add(1))])
    case Add(delta) =>
      s.(counter := s.counter + delta, tasks := s.tasks[k := Task(t.next, Check)])
    case Check =>
      s.(tasks := s.tasks[k := Task(t.next + 1, if s.counter >= |p.index| then Finished else Fetch)])
  }

  function Start(p: Setup): State {
    State(map id | id in p.index :: NULL_TX_SID, p.placeholders, 0, [], seq(|p.buckets|, _ => Task(0, Fetch)))
  }

  // ---------------------------------------------------------------- the invariant

  predicate PastCas(t: Task, j: nat) {
    j < t.next || (j == t.next && (t.stage.Write? || t.stage.Add? || t.stage.Check?))
  }

  predicate PastWrite(t: Task, j: nat) {
    j < t.next || (j == t.next && (t.stage.Add? || t.stage.Check?))
  }

  predicate PastAdd(t: Task, j: nat) {
    j < t.next || (j == t.next && t.stage.Check?)
  }

  /** No sub-task finds a duplicate, and whoever is finished has seen its bucket or everything counted. */
  ghost predicate TaskRight(p: Setup, t: Task, k: nat, counter: int)
    requires k < |p.buckets|
  {
    && TaskSane(p, t, k) && (t.stage.Write? ==> !t.stage.dup) && (t.stage.Add? ==> t.stage.delta == 1 && p.Full(k, t.next))
    && (t.stage.Finished? ==> t.next == |p.buckets[k]| || counter >= |p.index|)
  }

  ghost predicate TasksRight(p: Setup, s: State) {
    |s.tasks| == |p.buckets| && forall k | 0 <= k < |s.tasks| :: TaskRight(p, s.tasks[k], k, s.counter)
  }

  /** A map entry is claimed exactly once its match is past the compare-and-swap. */
  ghost predicate SidsRight(p: Setup, s: State) {
    && |s.tasks| == |p.buckets| && s.sids.Keys == p.index.Keys
    && forall k: nat, j: nat | p.Match(k, j) ::
         s.sids[p.IdAt(k, j)] == if PastCas(s.tasks[k], j) then p.sidOf[p.buckets[k][j]] else NULL_TX_SID
  }

  /** A placeholder is filled exactly once a match with contents is past the write; the others are as they were. */
  ghost predicate PlaceholdersRight(p: Setup, s: State)
    requires p.Valid()
  {
    && |s.tasks| == |p.buckets| && |s.placeholders| == |p.placeholders|
    && (forall k: nat, j: nat | p.Match(k, j) ::
          s.placeholders[p.index[p.IdAt(k, j)]]
          == if p.Full(k, j) && PastWrite(s.tasks[k], j) then p.Filled(k, j) else p.placeholders[p.index[p.IdAt(k, j)]])
    && (forall i | 0 <= i < |p.placeholders| && Untaken(p, i) :: s.placeholders[i] == p.placeholders[i])
  }

  /** No match belongs to the placeholder. */
  ghost predicate Untaken(p: Setup, i: nat) {
    forall k: nat, j: nat | p.Match(k, j) :: p.index[p.IdAt(k, j)] != i
  }

  ghost predicate Counted(p: Setup, s: State, id: CompactId)
    requires |s.tasks| == |p.buckets|
  {
    exists k: nat, j: nat :: p.Full(k, j) && p.IdAt(k, j) == id && PastAdd(s.tasks[k], j)
  }

  ghost function AllCounted(p: Setup, s: State): set<CompactId>
    requires |s.tasks| == |p.buckets|
  {
    set id | id in p.index && Counted(p, s, id)
  }

  /** A match without contents is past the write. */
  ghost predicate Reported(p: Setup, s: State, id: CompactId)
    requires |s.tasks| == |p.buckets|
  {
    exists k: nat, j: nat :: p.Match(k, j) && !p.Full(k, j) && p.IdAt(k, j) == id && PastWrite(s.tasks[k], j)
  }

  ghost function AllReported(p: Setup, s: State): set<CompactId>
    requires |s.tasks| == |p.buckets|
  {
    set id | id in p.index && Reported(p, s, id)
  }

  predicate NoRepeat(list: seq<nat>) {
    forall i, j | 0 <= i < j < |list| :: list[i] != list[j]
  }

  /** The list holds the places of these compact ids, each once, in some order. */
  ghost predicate Listed(p: Setup, list: seq<nat>, ids: set<CompactId>) {
    && ids <= p.index.Keys && |list| == |ids|
    && NoRepeat(list)
    && (forall i | i in list :: exists id :: id in ids && p.index[id] == i)
    && (forall id | id in ids :: p.index[id] in list)
  }

  ghost predicate Inv(p: Setup, s: State)
    requires p.Valid()
  {
    && TasksRight(p, s) && SidsRight(p, s) && PlaceholdersRight(p, s)
    && s.counter == |AllCounted(p, s)| && Listed(p, s.missing, AllReported(p, s))
  }

  lemma InvSane(p: Setup, s: State)
    requires p.Valid() && Inv(p, s)
    ensures Sane(p, s)
  {
    forall k | 0 <= k < |s.tasks|
      ensures TaskSane(p, s.tasks[k], k)
    {
      assert TaskRight(p, s.tasks[k], k, s.counter);
    }
  }

  lemma StartInv(p: Setup)
    requires p.Valid()
    ensures Inv(p, Start(p))
  {
    assert AllCounted(p, Start(p)) == {} && AllReported(p, Start(p)) == {};
  }

  // ---------------------------------------------------------------- one step at a time

  /** Another task's progress is not touched. */
  lemma OtherTask(p: Setup, s: State, k: nat, t: Task)
    requires TasksRight(p, s) && k < |s.tasks| && TaskRight(p, t, k, s.counter)
    ensures TasksRight(p, s.(tasks := s.tasks[k := t]))
  {
  }

  /** Moving on without touching anything shared: the passed item must not be a match. */
  lemma MoveKeeps(p: Setup, s: State, k: nat, t: Task)
    requires p.Valid() && Inv(p, s) && k < |s.tasks| && TaskRight(p, t, k, s.counter)
    requires forall j: nat | p.Match(k, j) :: PastCas(s.tasks[k], j) == PastCas(t, j)
    requires forall j: nat | p.Match(k, j) :: PastWrite(s.tasks[k], j) == PastWrite(t, j)
    requires forall j: nat | p.Match(k, j) :: PastAdd(s.tasks[k], j) == PastAdd(t, j)
    ensures Inv(p, s.(tasks := s.tasks[k := t]))
  {
    var d := s.(tasks := s.tasks[k := t]);
    OtherTask(p, s, k, t);
    SameCount(p, s, d, k);
    SameReports(p, s, d, k);
    MovedSids(p, s, k, t, s.placeholders, s.counter, s.missing);
    MovedPlaceholders(p, s, k, t, s.sids, s.counter);
    hide Setup.Valid, TaskRight, PastCas, PastWrite, PastAdd, AllCounted, AllReported, Listed, SidsRight, PlaceholdersRight;
  }

  lemma SameCount(p: Setup, s: State, d: State, k: nat)
    requires |s.tasks| == |p.buckets| == |d.tasks| && k < |s.tasks| && d.tasks == s.tasks[k := d.tasks[k]]
    requires forall j: nat | p.Full(k, j) :: PastAdd(s.tasks[k], j) == PastAdd(d.tasks[k], j)
    ensures AllCounted(p, s) == AllCounted(p, d)
  {
    CountedWithin(p, s, d, k);
    CountedWithin(p, d, s, k);
  }

  lemma CountedWithin(p: Setup, s: State, d: State, k: nat)
    requires |s.tasks| == |p.buckets| == |d.tasks| && k < |s.tasks| && d.tasks == s.tasks[k := d.tasks[k]]
    requires forall j: nat | p.Full(k, j) :: PastAdd(s.tasks[k], j) ==> PastAdd(d.tasks[k], j)
    ensures AllCounted(p, s) <= AllCounted(p, d)
  {
    forall id | id in AllCounted(p, s)
      ensures id in AllCounted(p, d)
    {
      var k': nat, j': nat :| p.Full(k', j') && p.IdAt(k', j') == id && PastAdd(s.tasks[k'], j');
      assert PastAdd(d.tasks[k'], j');
    }
  }

  lemma SameReports(p: Setup, s: State, d: State, k: nat)
    requires |s.tasks| == |p.buckets| == |d.tasks| && k < |s.tasks| && d.tasks == s.tasks[k := d.tasks[k]]
    requires forall j: nat | p.Match(k, j) && !p.Full(k, j) :: PastWrite(s.tasks[k], j) == PastWrite(d.tasks[k], j)
    ensures AllReported(p, s) == AllReported(p, d)
  {
    ReportedWithin(p, s, d, k);
    ReportedWithin(p, d, s, k);
  }

  lemma ReportedWithin(p: Setup, s: State, d: State, k: nat)
    requires |s.tasks| == |p.buckets| == |d.tasks| && k < |s.tasks| && d.tasks == s.tasks[k := d.tasks[k]]
    requires forall j: nat | p.Match(k, j) && !p.Full(k, j) :: PastWrite(s.tasks[k], j) ==> PastWrite(d.tasks[k], j)
    ensures AllReported(p, s) <= AllReported(p, d)
  {
    forall id | id in AllReported(p, s)
      ensures id in AllReported(p, d)
    {
      var k': nat, j': nat :| p.Match(k', j') && !p.Full(k', j') && p.IdAt(k', j') == id && PastWrite(s.tasks[k'], j');
      assert PastWrite(d.tasks[k'], j');
    }
  }

  /** Fetching and checking touch nothing shared, and pass no match that is not counted. */
  lemma FetchOrCheckIsSilent(p: Setup, s: State, k: nat)
    requires Sane(p, s) && k < |s.tasks| && (s.tasks[k].stage.Fetch? || s.tasks[k].stage.Check?)
    requires TaskRight(p, s.tasks[k], k, s.counter)
    ensures var d := StepTask(p, s, k);
            var t := s.tasks[k];
            && k < |d.tasks| && d == s.(tasks := s.tasks[k := d.tasks[k]])
            && TaskRight(p, d.tasks[k], k, s.counter)
            && (forall j: nat | p.Match(k, j) :: PastCas(t, j) == PastCas(d.tasks[k], j))
            && (forall j: nat | p.Match(k, j) :: PastWrite(t, j) == PastWrite(d.tasks[k], j))
            && (forall j: nat | p.Match(k, j) :: PastAdd(t, j) == PastAdd(d.tasks[k], j))
  {
  }

  lemma FetchOrCheckKeeps(p: Setup, s: State, k: nat)
    requires p.Valid() && Inv(p, s) && k < |s.tasks| && (s.tasks[k].stage.Fetch? || s.tasks[k].stage.Check?)
    ensures Sane(p, s) && Inv(p, StepTask(p, s, k))
  {
    InvSane(p, s);
    assert TaskRight(p, s.tasks[k], k, s.counter);
    hide Inv, Setup.Valid, TaskRight, StepTask, PastCas, PastWrite, PastAdd, Sane;
    FetchOrCheckIsSilent(p, s, k);
    MoveKeeps(p, s, k, StepTask(p, s, k).tasks[k]);
  }

  /** The entry of a matching item is still unclaimed, and its placeholder unresolved, until its sub-task gets there. */
  lemma Unclaimed(p: Setup, s: State, k: nat)
    requires p.Valid() && Inv(p, s) && k < |s.tasks| && p.Match(k, s.tasks[k].next)
    ensures var id := p.IdAt(k, s.tasks[k].next);
            && id in s.sids && p.index[id] < |s.placeholders|
            && (s.tasks[k].stage.Cas? ==> s.sids[id] == NULL_TX_SID)
            && (s.tasks[k].stage.Write? ==> s.placeholders[p.index[id]] == Unresolved(id))
  {
    hide TasksRight, AllCounted, Setup.OneEach, Setup.SidsKnown, AllReported, Listed;
  }

  lemma CasSids(p: Setup, s: State, k: nat, t: Task)
    requires p.OneEach() && SidsRight(p, s) && k < |s.tasks| && s.tasks[k].stage.Cas? && p.Match(k, s.tasks[k].next)
    requires t == Task(s.tasks[k].next, Write(false))
    ensures SidsRight(p, s.(sids := s.sids[p.IdAt(k, t.next) := p.sidOf[p.buckets[k][t.next]]], tasks := s.tasks[k := t]))
  {
    var id := p.IdAt(k, t.next);
    var d := s.(sids := s.sids[id := p.sidOf[p.buckets[k][t.next]]], tasks := s.tasks[k := t]);
    assert d.sids.Keys == s.sids.Keys;
    forall k': nat, j: nat | p.Match(k', j)
      ensures d.sids[p.IdAt(k', j)] == if PastCas(d.tasks[k'], j) then p.sidOf[p.buckets[k'][j]] else NULL_TX_SID
    {
      if p.IdAt(k', j) == id {
        assert k' == k && j == t.next;
      } else {
        assert k' == k ==> PastCas(s.tasks[k], j) == PastCas(t, j);
      }
    }
  }

  lemma MovedPlaceholders(p: Setup, s: State, k: nat, t: Task, sids: map<CompactId, ShortId>, counter: int)
    requires p.Valid() && PlaceholdersRight(p, s) && k < |s.tasks|
    requires forall j: nat | p.Match(k, j) :: PastWrite(s.tasks[k], j) == PastWrite(t, j)
    ensures PlaceholdersRight(p, s.(tasks := s.tasks[k := t], sids := sids, counter := counter))
  {
    hide Setup.Valid, PastWrite, Untaken;
  }

  lemma MovedSids(p: Setup, s: State, k: nat, t: Task, placeholders: seq<Placeholder>, counter: int, missing: seq<nat>)
    requires SidsRight(p, s) && k < |s.tasks|
    requires forall j: nat | p.Match(k, j) :: PastCas(s.tasks[k], j) == PastCas(t, j)
    ensures SidsRight(p, s.(tasks := s.tasks[k := t], placeholders := placeholders, counter := counter, missing := missing))
  {
    hide PastCas;
  }

  lemma CasStep(p: Setup, s: State, k: nat)
    requires p.Valid() && Inv(p, s) && Sane(p, s) && k < |s.tasks| && s.tasks[k].stage.Cas?
    ensures var t := Task(s.tasks[k].next, Write(false));
            && p.Match(k, t.next) && p.IdAt(k, t.next) in s.sids && TaskRight(p, t, k, s.counter)
            && StepTask(p, s, k) == s.(sids := s.sids[p.IdAt(k, t.next) := p.sidOf[p.buckets[k][t.next]]], tasks := s.tasks[k := t])
  {
    assert TaskRight(p, s.tasks[k], k, s.counter);
    Unclaimed(p, s, k);
  }

  lemma CasKeeps(p: Setup, s: State, k: nat)
    requires p.Valid() && Inv(p, s) && k < |s.tasks| && s.tasks[k].stage.Cas?
    ensures Sane(p, s) && Inv(p, StepTask(p, s, k))
  {
    InvSane(p, s);
    CasStep(p, s, k);
    hide StepTask, TasksRight, TaskRight, SidsRight, PlaceholdersRight, AllCounted, AllReported, Listed, Setup.IndexValid,
         Setup.OneEach, Setup.SidsKnown, Sane;
    var d, t := StepTask(p, s, k), Task(s.tasks[k].next, Write(false));
    CasSids(p, s, k, t);
    MovedPlaceholders(p, s, k, t, d.sids, s.counter);
    OtherTask(p, s, k, t);
    SameTasks(p, s.(tasks := s.tasks[k := t]), d);
    SameCount(p, s, d, k);
    SameReports(p, s, d, k);
    assert d == s.(tasks := s.tasks[k := t], sids := d.sids, counter := s.counter);
  }

  lemma SameTasks(p: Setup, s: State, d: State)
    requires TasksRight(p, s) && d.tasks == s.tasks && d.counter == s.counter
    ensures TasksRight(p, d)
  {
  }

  lemma SameIndexSameId(p: Setup, a: CompactId, b: CompactId)
    requires p.IndexValid() && a in p.index && b in p.index
    ensures p.index[a] == p.index[b] ==> a == b
  {
    assert p.placeholders[p.index[a]] == Unresolved(a) && p.placeholders[p.index[b]] == Unresolved(b);
  }

  lemma WritePlaceholders(p: Setup, s: State, k: nat, t: Task)
    requires p.Valid() && PlaceholdersRight(p, s) && k < |s.tasks| && s.tasks[k].stage.Write?
    requires p.Full(k, s.tasks[k].next) && t == Task(s.tasks[k].next, Add(1))
    ensures PlaceholdersRight(p, s.(placeholders := s.placeholders[p.index[p.IdAt(k, t.next)] := p.Filled(k, t.next)],
                                    tasks := s.tasks[k := t]))
  {
    var i := p.index[p.IdAt(k, t.next)];
    var d := s.(placeholders := s.placeholders[i := p.Filled(k, t.next)], tasks := s.tasks[k := t]);
    forall k': nat, j: nat | p.Match(k', j)
      ensures d.placeholders[p.index[p.IdAt(k', j)]]
              == if p.Full(k', j) && PastWrite(d.tasks[k'], j) then p.Filled(k', j) else p.placeholders[p.index[p.IdAt(k', j)]]
    {
      if p.index[p.IdAt(k', j)] == i {
        SameIndexSameId(p, p.IdAt(k', j), p.IdAt(k, t.next));
        assert k' == k && j == t.next;
      } else {
        assert k' == k ==> PastWrite(s.tasks[k], j) == PastWrite(t, j);
      }
    }
    assert forall i' | 0 <= i' < |p.placeholders| && Untaken(p, i') :: i' != i;
  }

  lemma FillStep(p: Setup, s: State, k: nat)
    requires p.Valid() && Inv(p, s) && Sane(p, s) && k < |s.tasks| && s.tasks[k].stage.Write? && p.Full(k, s.tasks[k].next)
    ensures var t := Task(s.tasks[k].next, Add(1));
            && TaskRight(p, t, k, s.counter) && p.index[p.IdAt(k, t.next)] < |s.placeholders|
            && StepTask(p, s, k) == s.(placeholders := s.placeholders[p.index[p.IdAt(k, t.next)] := p.Filled(k, t.next)],
                                       tasks := s.tasks[k := t])
  {
    assert TaskRight(p, s.tasks[k], k, s.counter);
    Unclaimed(p, s, k);
  }

  lemma FillShared(p: Setup, s: State, k: nat, d: State)
    requires p.Valid() && Inv(p, s) && k < |s.tasks| && s.tasks[k].stage.Write? && p.Full(k, s.tasks[k].next)
    requires var i := p.index[p.IdAt(k, s.tasks[k].next)];
             && i < |s.placeholders|
             && d == s.(placeholders := s.placeholders[i := p.Filled(k, s.tasks[k].next)],
                        tasks := s.tasks[k := Task(s.tasks[k].next, Add(1))])
    ensures SidsRight(p, d) && PlaceholdersRight(p, d)
  {
    hide TasksRight, SidsRight, PlaceholdersRight, AllCounted, AllReported, Listed, Setup.Valid;
    var t := Task(s.tasks[k].next, Add(1));
    WritePlaceholders(p, s, k, t);
    MovedSids(p, s, k, t, d.placeholders, s.counter, s.missing);
  }

  lemma FillKeeps(p: Setup, s: State, k: nat)
    requires p.Valid() && Inv(p, s) && k < |s.tasks| && s.tasks[k].stage.Write? && p.Full(k, s.tasks[k].next)
    ensures Sane(p, s) && Inv(p, StepTask(p, s, k))
  {
    InvSane(p, s);
    FillStep(p, s, k);
    hide StepTask, TasksRight, TaskRight, SidsRight, PlaceholdersRight, AllCounted, AllReported, Listed, Setup.Valid, Sane;
    var t := Task(s.tasks[k].next, Add(1));
    var d := s.(placeholders := s.placeholders[p.index[p.IdAt(k, t.next)] := p.Filled(k, t.next)], tasks := s.tasks[k := t]);
    FillShared(p, s, k, d);
    OtherTask(p, s, k, t);
    SameTasks(p, s.(tasks := s.tasks[k := t]), d);
    SameCount(p, s, d, k);
    SameReports(p, s, d, k);
  }

  /** Without contents the placeholder stays as it is, still unresolved. */
  lemma LackPlaceholders(p: Setup, s: State, k: nat, t: Task)
    requires p.Valid() && PlaceholdersRight(p, s) && k < |s.tasks| && s.tasks[k].stage.Write?
    requires p.Match(k, s.tasks[k].next) && !p.Full(k, s.tasks[k].next) && t == Task(s.tasks[k].next, Check)
    ensures PlaceholdersRight(p, s.(tasks := s.tasks[k := t]))
  {
    var d := s.(tasks := s.tasks[k := t]);
    forall k': nat, j: nat | p.Match(k', j)
      ensures d.placeholders[p.index[p.IdAt(k', j)]]
              == if p.Full(k', j) && PastWrite(d.tasks[k'], j) then p.Filled(k', j) else p.placeholders[p.index[p.IdAt(k', j)]]
    {
      assert k' == k && j != t.next ==> PastWrite(s.tasks[k], j) == PastWrite(t, j);
    }
  }

  /** A match without contents reports its compact id, which nobody has reported yet. */
  lemma ReportAdds(p: Setup, s: State, d: State, k: nat)
    requires p.OneEach() && |s.tasks| == |p.buckets| == |d.tasks| && k < |s.tasks|
    requires s.tasks[k].stage.Write? && p.Match(k, s.tasks[k].next) && !p.Full(k, s.tasks[k].next)
    requires d.tasks == s.tasks[k := Task(s.tasks[k].next, Check)]
    ensures p.IdAt(k, s.tasks[k].next) !in AllReported(p, s)
    ensures AllReported(p, d) == AllReported(p, s) + {p.IdAt(k, s.tasks[k].next)}
  {
    var j := s.tasks[k].next;
    ReportedWithin(p, s, d, k);
    assert PastWrite(d.tasks[k], j) && Reported(p, d, p.IdAt(k, j));
    forall id | id in AllReported(p, d) && id != p.IdAt(k, j)
      ensures id in AllReported(p, s)
    {
      var k': nat, j': nat :| p.Match(k', j') && !p.Full(k', j') && p.IdAt(k', j') == id && PastWrite(d.tasks[k'], j');
      assert PastWrite(s.tasks[k'], j');
    }
  }

  lemma NoRepeatSnoc(list: seq<nat>, x: nat)
    requires NoRepeat(list) && x !in list
    ensures NoRepeat(list + [x]) && forall y :: y in list + [x] <==> y in list || y == x
  {
  }

  lemma ListedNext(p: Setup, list: seq<nat>, ids: set<CompactId>, id: CompactId)
    requires p.IndexValid() && Listed(p, list, ids) && id in p.index && id !in ids
    ensures Listed(p, list + [p.index[id]], ids + {id})
  {
    var all, i := list + [p.index[id]], p.index[id];
    forall x | x in list
      ensures x != i
    {
      var other :| other in ids && p.index[other] == x;
      SameIndexSameId(p, other, id);
    }
    NoRepeatSnoc(list, i);
    hide NoRepeat, Setup.IndexValid;
    forall x | x in all
      ensures exists other :: other in ids + {id} && p.index[other] == x
    {
      if x == i {
        assert id in ids + {id};
      } else {
        var other :| other in ids && p.index[other] == x;
        assert other in ids + {id};
      }
    }
  }

  lemma LackStep(p: Setup, s: State, k: nat)
    requires p.Valid() && Inv(p, s) && k < |s.tasks| && s.tasks[k].stage.Write? && Sane(p, s)
    requires p.Match(k, s.tasks[k].next) && !p.Full(k, s.tasks[k].next)
    ensures var i := p.index[p.IdAt(k, s.tasks[k].next)];
            && TaskRight(p, Task(s.tasks[k].next, Check), k, s.counter)
            && StepTask(p, s, k) == s.(tasks := s.tasks[k := Task(s.tasks[k].next, Check)], missing := s.missing + [i])
  {
    assert TaskRight(p, s.tasks[k], k, s.counter);
    Unclaimed(p, s, k);
    var i := p.index[p.IdAt(k, s.tasks[k].next)];
    assert TaskRight(p, Task(s.tasks[k].next, Check), k, s.counter);
    assert s.placeholders[i].(kind := MissingCompactId, sid := NULL_TX_SID) == s.placeholders[i];
    hide Inv, Setup.Valid;
    assert s.placeholders[i := s.placeholders[i]] == s.placeholders;
  }

  lemma LackKeeps(p: Setup, s: State, k: nat)
    requires p.Valid() && Inv(p, s) && k < |s.tasks| && s.tasks[k].stage.Write?
    requires p.Match(k, s.tasks[k].next) && !p.Full(k, s.tasks[k].next)
    ensures Sane(p, s) && Inv(p, StepTask(p, s, k))
  {
    InvSane(p, s);
    LackStep(p, s, k);
    hide StepTask, TasksRight, TaskRight, SidsRight, PlaceholdersRight, AllCounted, AllReported, Listed, Setup.IndexValid,
         Setup.OneEach, Setup.SidsKnown, Sane;
    var t, id := Task(s.tasks[k].next, Check), p.IdAt(k, s.tasks[k].next);
    var d := StepTask(p, s, k);
    LackPlaceholders(p, s, k, t);
    PlaceholdersOnly(p, s.(tasks := s.tasks[k := t]), d);
    MovedSids(p, s, k, t, s.placeholders, s.counter, d.missing);
    OtherTask(p, s, k, t);
    SameTasks(p, s.(tasks := s.tasks[k := t]), d);
    SameCount(p, s, d, k);
    ReportAdds(p, s, d, k);
    ListedNext(p, s.missing, AllReported(p, s), id);
    assert d == s.(tasks := s.tasks[k := t], placeholders := s.placeholders, counter := s.counter, missing := d.missing);
  }

  lemma PlaceholdersOnly(p: Setup, s: State, d: State)
    requires p.Valid() && PlaceholdersRight(p, s) && d.tasks == s.tasks && d.placeholders == s.placeholders
    ensures PlaceholdersRight(p, d)
  {
  }

  lemma WriteKeeps(p: Setup, s: State, k: nat)
    requires p.Valid() && Inv(p, s) && k < |s.tasks| && s.tasks[k].stage.Write?
    ensures Sane(p, s) && Inv(p, StepTask(p, s, k))
  {
    InvSane(p, s);
    assert TaskSane(p, s.tasks[k], k);
    hide Inv, Setup.Valid, StepTask, Sane;
    if p.Full(k, s.tasks[k].next) {
      FillKeeps(p, s, k);
    } else {
      LackKeeps(p, s, k);
    }
  }

  /** Counting adds the compact id of the item, which nobody has counted yet. */
  lemma AddCounts(p: Setup, s: State, d: State, k: nat)
    requires p.OneEach() && |s.tasks| == |p.buckets| == |d.tasks| && k < |s.tasks|
    requires s.tasks[k].stage.Add? && p.Full(k, s.tasks[k].next)
    requires d.tasks == s.tasks[k := Task(s.tasks[k].next, Check)]
    ensures p.IdAt(k, s.tasks[k].next) !in AllCounted(p, s)
    ensures AllCounted(p, d) == AllCounted(p, s) + {p.IdAt(k, s.tasks[k].next)}
  {
    var j := s.tasks[k].next;
    CountedWithin(p, s, d, k);
    assert PastAdd(d.tasks[k], j) && Counted(p, d, p.IdAt(k, j));
    forall id | id in AllCounted(p, d) && id != p.IdAt(k, j)
      ensures id in AllCounted(p, s)
    {
      var k': nat, j': nat :| p.Full(k', j') && p.IdAt(k', j') == id && PastAdd(d.tasks[k'], j');
      assert PastAdd(s.tasks[k'], j');
    }
  }

  lemma AddStep(p: Setup, s: State, k: nat)
    requires p.Valid() && Inv(p, s) && Sane(p, s) && k < |s.tasks| && s.tasks[k].stage.Add?
    ensures var t := Task(s.tasks[k].next, Check);
            && p.Full(k, t.next) && TaskRight(p, t, k, s.counter + 1)
            && StepTask(p, s, k) == s.(tasks := s.tasks[k := t], counter := s.counter + 1)
  {
    assert TaskRight(p, s.tasks[k], k, s.counter);
  }

  lemma AddShared(p: Setup, s: State, k: nat, d: State)
    requires p.Valid() && Inv(p, s) && k < |s.tasks| && s.tasks[k].stage.Add?
    requires d == s.(tasks := s.tasks[k := Task(s.tasks[k].next, Check)], counter := s.counter + 1)
    ensures SidsRight(p, d) && PlaceholdersRight(p, d)
  {
    hide TasksRight, SidsRight, PlaceholdersRight, AllCounted, AllReported, Listed, Setup.Valid;
    var t := Task(s.tasks[k].next, Check);
    MovedSids(p, s, k, t, s.placeholders, d.counter, s.missing);
    MovedPlaceholders(p, s, k, t, s.sids, d.counter);
  }

  lemma AddAccount(p: Setup, s: State, k: nat, d: State)
    requires p.Valid() && Inv(p, s) && k < |s.tasks| && s.tasks[k].stage.Add? && p.Full(k, s.tasks[k].next)
    requires d == s.(tasks := s.tasks[k := Task(s.tasks[k].next, Check)], counter := s.counter + 1)
    ensures |d.tasks| == |p.buckets| && d.counter == |AllCounted(p, d)| && Listed(p, d.missing, AllReported(p, d))
  {
    hide SidsRight, PlaceholdersRight, AllCounted, AllReported, Listed, TaskRight;
    AddCounts(p, s, d, k);
    SameReports(p, s, d, k);
  }

  lemma AddKeeps(p: Setup, s: State, k: nat)
    requires p.Valid() && Inv(p, s) && k < |s.tasks| && s.tasks[k].stage.Add?
    ensures Sane(p, s) && Inv(p, StepTask(p, s, k))
  {
    InvSane(p, s);
    AddStep(p, s, k);
    hide StepTask, TasksRight, TaskRight, SidsRight, PlaceholdersRight, AllCounted, AllReported, Listed, Setup.Valid, Sane;
    var t := Task(s.tasks[k].next, Check);
    var d := s.(tasks := s.tasks[k := t], counter := s.counter + 1);
    MoreCounted(p, s, k, t);
    AddShared(p, s, k, d);
    AddAccount(p, s, k, d);
  }

  lemma MoreCounted(p: Setup, s: State, k: nat, t: Task)
    requires TasksRight(p, s) && k < |s.tasks| && TaskRight(p, t, k, s.counter + 1)
    ensures TasksRight(p, s.(tasks := s.tasks[k := t], counter := s.counter + 1))
  {
  }

  /** Every step of every sub-task keeps the invariant. */
  lemma StepKeeps(p: Setup, s: State, k: nat)
    requires p.Valid() && Inv(p, s) && k < |s.tasks| && !s.tasks[k].stage.Finished?
    ensures Sane(p, s) && Inv(p, StepTask(p, s, k))
  {
    hide Inv, Setup.Valid, StepTask;
    match s.tasks[k].stage
    case Cas => CasKeeps(p, s, k);
    case Write(_) => WriteKeeps(p, s, k);
    case Add(_) => AddKeeps(p, s, k);
    case _ => FetchOrCheckKeeps(p, s, k);
  }

  // ---------------------------------------------------------------- runs

  /** A schedule names the sub-task that takes each step; it has to have one left to take. */
  ghost predicate CanRun(p: Setup, s: State, schedule: seq<nat>)
    decreases |schedule|
  {
    schedule == []
    || (Sane(p, s) && schedule[0] < |s.tasks| && !s.tasks[schedule[0]].stage.Finished?
        && CanRun(p, StepTask(p, s, schedule[0]), schedule[1..]))
  }

  ghost function RunOf(p: Setup, s: State, schedule: seq<nat>): State
    requires CanRun(p, s, schedule)
    decreases |schedule|
  {
    if schedule == [] then s else RunOf(p, StepTask(p, s, schedule[0]), schedule[1..])
  }

  lemma {:induction false} RunKeeps(p: Setup, s: State, schedule: seq<nat>)
    requires p.Valid() && Inv(p, s) && CanRun(p, s, schedule)
    ensures Inv(p, RunOf(p, s, schedule))
    decreases |schedule|
  {
    hide Inv, Setup.Valid, StepTask, Sane;
    if schedule != [] {
      StepKeeps(p, s, schedule[0]);
      RunKeeps(p, StepTask(p, s, schedule[0]), schedule[1..]);
    }
  }

  predicate AllFinished(s: State) {
    forall k | 0 <= k < |s.tasks| :: s.tasks[k].stage.Finished?
  }

  lemma CountedAreResolved(p: Setup, s: State)
    requires p.Valid() && Inv(p, s)
    ensures AllCounted(p, s) <= p.Resolved()
  {
    forall id | id in AllCounted(p, s)
      ensures p.Supplied(id)
    {
      var k: nat, j: nat :| p.Full(k, j) && p.IdAt(k, j) == id && PastAdd(s.tasks[k], j);
    }
  }

  /** Whoever stopped early stopped because nothing was left to be resolved. */
  lemma AllPast(p: Setup, s: State, k: nat, j: nat)
    requires p.Valid() && Inv(p, s) && AllFinished(s) && p.Match(k, j)
    ensures k < |s.tasks| && PastAdd(s.tasks[k], j)
  {
    assert TaskRight(p, s.tasks[k], k, s.counter);
    if s.tasks[k].next < |p.buckets[k]| {
      SubsetOfSize(AllCounted(p, s), p.index.Keys);
      assert p.IdAt(k, j) in p.index.Keys;
      assert Counted(p, s, p.IdAt(k, j));
      var k': nat, j': nat :| p.Full(k', j') && p.IdAt(k', j') == p.IdAt(k, j) && PastAdd(s.tasks[k'], j');
      assert k' == k && j' == j;
    }
  }

  lemma SubsetOfSize<T>(a: set<T>, b: set<T>)
    requires a <= b && |a| >= |b|
    ensures a == b
  {
    assert |b - a| == |b| - |a|;
  }

  /** What the placeholders come to, whatever the schedule. */
  ghost predicate Outcome(p: Setup, placeholders: seq<Placeholder>)
    requires p.Valid()
  {
    && |placeholders| == |p.placeholders|
    && (forall k: nat, j: nat | p.Match(k, j) ::
          placeholders[p.index[p.IdAt(k, j)]] == if p.Full(k, j) then p.Filled(k, j) else p.placeholders[p.index[p.IdAt(k, j)]])
    && (forall i | 0 <= i < |p.placeholders| && Untaken(p, i) :: placeholders[i] == p.placeholders[i])
  }

  /**
   All placeholders that can be are resolved, the counter tells how many, and the matches
   without contents have been listed as missing, each once.
   */
  lemma FinishedOutcome(p: Setup, s: State)
    requires p.Valid() && Inv(p, s) && AllFinished(s)
    ensures Outcome(p, s.placeholders) && s.counter == |p.Resolved()| && Listed(p, s.missing, p.Lacked())
  {
    forall k: nat, j: nat | p.Match(k, j)
      ensures s.placeholders[p.index[p.IdAt(k, j)]]
              == if p.Full(k, j) then p.Filled(k, j) else p.placeholders[p.index[p.IdAt(k, j)]]
    {
      AllPast(p, s, k, j);
      assert PastWrite(s.tasks[k], j);
    }
    CountedAreResolved(p, s);
    forall id | id in p.Resolved()
      ensures id in AllCounted(p, s)
    {
      var k: nat, j: nat :| p.Full(k, j) && p.IdAt(k, j) == id;
      AllPast(p, s, k, j);
    }
    assert AllCounted(p, s) == p.Resolved();
    ReportedAreLacked(p, s);
  }

  lemma ReportedAreLacked(p: Setup, s: State)
    requires p.Valid() && Inv(p, s) && AllFinished(s)
    ensures AllReported(p, s) == p.Lacked()
  {
    forall id | id in p.Lacked()
      ensures id in AllReported(p, s)
    {
      var k: nat, j: nat :| p.Match(k, j) && !p.Full(k, j) && p.IdAt(k, j) == id;
      AllPast(p, s, k, j);
      assert PastWrite(s.tasks[k], j);
    }
    forall id | id in AllReported(p, s)
      ensures p.Lacking(id)
    {
      var k: nat, j: nat :| p.Match(k, j) && !p.Full(k, j) && p.IdAt(k, j) == id && PastWrite(s.tasks[k], j);
    }
  }

  lemma OutcomeUnique(p: Setup, a: seq<Placeholder>, b: seq<Placeholder>)
    requires p.Valid() && Outcome(p, a) && Outcome(p, b)
    ensures a == b
  {
    forall i | 0 <= i < |a|
      ensures a[i] == b[i]
    {
      if !Untaken(p, i) {
        var k: nat, j: nat :| p.Match(k, j) && p.index[p.IdAt(k, j)] == i;
      }
    }
  }

  lemma ListedSame(p: Setup, a: seq<nat>, b: seq<nat>, ids: set<CompactId>)
    requires Listed(p, a, ids) && Listed(p, b, ids)
    ensures |a| == |b| == |ids| && NoRepeat(a) && NoRepeat(b) && forall i :: i in a <==> i in b
  {
  }

  /**
   Any two schedules that let every sub-task finish end with the same placeholders and the
   same count, and with the same list of matches without contents, up to its order.
   */
  lemma ScheduleIndependent(p: Setup, a: seq<nat>, b: seq<nat>)
    requires p.Valid() && CanRun(p, Start(p), a) && CanRun(p, Start(p), b)
    requires AllFinished(RunOf(p, Start(p), a)) && AllFinished(RunOf(p, Start(p), b))
    ensures var s, t := RunOf(p, Start(p), a), RunOf(p, Start(p), b);
            && s.placeholders == t.placeholders && s.counter == t.counter == |p.Resolved()|
            && |s.missing| == |t.missing| == |p.Lacked()| && forall i :: i in s.missing <==> i in t.missing
  {
    hide Inv, Setup.Valid, StepTask, Sane, Start, RunOf, CanRun, Outcome, Setup.Resolved, Setup.Lacked, Listed;
    StartInv(p);
    RunKeeps(p, Start(p), a);
    RunKeeps(p, Start(p), b);
    var s, t := RunOf(p, Start(p), a), RunOf(p, Start(p), b);
    FinishedOutcome(p, s);
    FinishedOutcome(p, t);
    OutcomeUnique(p, s.placeholders, t.placeholders);
    ListedSame(p, s.missing, t.missing, p.Lacked());
  }

  // ---------------------------------------------------------------- every schedule ends

  function StageRank(stage: Stage): nat {
    match stage
    case Fetch => 5
    case Cas => 4
    case Write(_) => 3
    case Add(_) => 2
    case Check => 1
    case Finished => 0
  }

  function WorkOf(p: Setup, t: Task, k: nat): int
    requires k < |p.buckets|
  {
    6 * (|p.buckets[k]| - t.next) + StageRank(t.stage)
  }

  /** The work left to the first n sub-tasks. */
  function Work(p: Setup, tasks: seq<Task>, n: nat): int
    requires n <= |tasks| == |p.buckets|
  {
    if n == 0 then 0 else Work(p, tasks, n - 1) + WorkOf(p, tasks[n - 1], n - 1)
  }

  lemma {:induction false} LessWork(p: Setup, tasks: seq<Task>, k: nat, t: Task, n: nat)
    requires n <= |tasks| == |p.buckets| && k < |tasks| && WorkOf(p, t, k) < WorkOf(p, tasks[k], k)
    ensures Work(p, tasks[k := t], n) <= Work(p, tasks, n) - if k < n then 1 else 0
  {
    if n > 0 {
      LessWork(p, tasks, k, t, n - 1);
    }
  }

  lemma {:induction false} WorkLeft(p: Setup, s: State, n: nat)
    requires Sane(p, s) && n <= |s.tasks|
    ensures Work(p, s.tasks, n) >= 0
  {
    if n > 0 {
      WorkLeft(p, s, n - 1);
      assert TaskSane(p, s.tasks[n - 1], n - 1);
    }
  }

  lemma StepWorks(p: Setup, s: State, k: nat)
    requires Sane(p, s) && k < |s.tasks| && !s.tasks[k].stage.Finished?
    ensures var d := StepTask(p, s, k);
            && |d.tasks| == |p.buckets| && d.tasks == s.tasks[k := d.tasks[k]]
            && WorkOf(p, d.tasks[k], k) < WorkOf(p, s.tasks[k], k)
  {
    assert TaskSane(p, s.tasks[k], k);
  }

  /** No schedule is longer than the work there was at its beginning. */
  lemma {:induction false} SchedulesEnd(p: Setup, s: State, schedule: seq<nat>)
    requires p.Valid() && Inv(p, s) && CanRun(p, s, schedule)
    ensures Sane(p, s) && |schedule| <= Work(p, s.tasks, |s.tasks|)
    decreases |schedule|
  {
    hide Inv, Setup.Valid, StepTask, WorkOf;
    InvSane(p, s);
    WorkLeft(p, s, |s.tasks|);
    if schedule != [] {
      var k := schedule[0];
      var d := StepTask(p, s, k);
      StepKeeps(p, s, k);
      SchedulesEnd(p, d, schedule[1..]);
      StepWorks(p, s, k);
      LessWork(p, s.tasks, k, d.tasks[k], |s.tasks|);
    }
  }
}
