/**
 The bucketed set of the matcher: while readers are inside, its buckets are frozen and
 writes are queued; the last reader to leave carries them out, additions first.
 */
module BucketContainers {
  import opened Wrappers

  datatype Pool<T(==)> = Pool(
    buckets: seq<set<T>>,
    toAdd: seq<T>,
    toRemove: seq<(T, nat)>,
    readers: nat,
    current: nat,
    capacity: nat,
    stopped: bool)
  {
    predicate Valid() {
      current < |buckets| && forall r | r in toRemove :: r.1 < |buckets|
    }

    predicate Reading() {
      readers > 0
    }

    predicate WritePending() {
      toAdd != [] || toRemove != []
    }
  }

  /** The items of all buckets. */
  function Union<T>(buckets: seq<set<T>>): set<T> {
    set i: nat, x | i < |buckets| && x in buckets[i] :: x
  }

  predicate Disjoint<T(==)>(buckets: seq<set<T>>) {
    forall i, j | 0 <= i < j < |buckets| :: buckets[i] !! buckets[j]
  }

  function Removed<T>(queue: seq<(T, nat)>): set<T> {
    set r | r in queue :: r.0
  }

  function Added<T>(queue: seq<T>): set<T> {
    set x | x in queue
  }

  // ---------------------------------------------------------------- writes

  /** Inserts into the current bucket, or into the next one if that is full, and full or not. */
  function InsertNow<T>(p: Pool<T>, item: T): (r: Pool<T>)
    requires p.Valid()
    ensures r.Valid() && r == p.(buckets := r.buckets, current := r.current)
  {
    var idx := if |p.buckets[p.current]| >= p.capacity then (p.current + 1) % |p.buckets| else p.current;
    p.(current := idx, buckets := p.buckets[idx := p.buckets[idx] + {item}])
  }

  function FirstBucket<T>(buckets: seq<set<T>>, item: T): (i: nat)
    ensures i <= |buckets| && (i < |buckets| ==> item in buckets[i])
  {
    if buckets == [] then 0
    else if item in buckets[0] then 0
    else 1 + FirstBucket(buckets[1..], item)
  }

  function RemoveAt<T>(p: Pool<T>, item: T, i: nat): (r: Pool<T>)
    requires p.Valid() && i < |p.buckets|
    ensures r.Valid() && r == p.(buckets := r.buckets, current := r.current)
  {
    p.(buckets := p.buckets[i := p.buckets[i] - {item}])
  }

  function RemoveNow<T>(p: Pool<T>, item: T): (r: Pool<T>)
    requires p.Valid()
    ensures r.Valid() && r == p.(buckets := r.buckets)
  {
    var i := FirstBucket(p.buckets, item);
    if i < |p.buckets| then RemoveAt(p, item, i) else p
  }

  function FlushAdds<T>(p: Pool<T>): (r: Pool<T>)
    requires p.Valid()
    ensures r.Valid() && r.toAdd == [] && r.toRemove == p.toRemove && r.readers == p.readers && r.stopped == p.stopped
    decreases |p.toAdd|
  {
    if p.toAdd == [] then p else FlushAdds(InsertNow(p.(toAdd := p.toAdd[1..]), p.toAdd[0]))
  }

  function FlushRemoves<T>(p: Pool<T>): (r: Pool<T>)
    requires p.Valid()
    ensures r.Valid() && r.toAdd == p.toAdd && r.toRemove == [] && r.readers == p.readers && r.stopped == p.stopped
    decreases |p.toRemove|
  {
    if p.toRemove == [] then p
    else
      assert p.toRemove[0] in p.toRemove;
      FlushRemoves(RemoveAt(p.(toRemove := p.toRemove[1..]), p.toRemove[0].0, p.toRemove[0].1))
  }

  // ---------------------------------------------------------------- operations

  function Inserted<T>(p: Pool<T>, item: T): (r: Pool<T>)
    requires p.Valid()
    ensures r.Valid()
  {
    if p.Reading() then p.(toAdd := p.toAdd + [item]) else InsertNow(p, item)
  }

  function ErasedItem<T>(p: Pool<T>, item: T): (r: Pool<T>)
    requires p.Valid()
    ensures r.Valid()
  {
    if p.Reading() then
      var i := FirstBucket(p.buckets, item);
      if i < |p.buckets| then p.(toRemove := p.toRemove + [(item, i)]) else p
    else RemoveNow(p, item)
  }

  function Cleared<T>(p: Pool<T>, order: seq<(T, nat)>): (r: Pool<T>)
    requires p.Valid() && forall r | r in order :: r.1 < |p.buckets|
    ensures r.Valid()
  {
    if p.Reading() then p.(toRemove := p.toRemove + order)
    else p.(buckets := seq(|p.buckets|, _ => {}))
  }

  datatype Op<T> =
    | AcquireRead
    | ReleaseRead
    | Insert(item: T)
    | Erase(item: T)
    | Clear(order: seq<(T, nat)>)  // the order in which the items of frozen buckets are met
    | Stop

  /** What the source demands or waits for: a reader waits for queued writes, unless stopped. */
  ghost predicate Enabled<T>(p: Pool<T>, op: Op<T>) {
    match op
    case AcquireRead => !p.WritePending() || p.stopped
    case ReleaseRead => p.Reading()
    case Clear(order) => if p.Reading() then MeetsAll(p.buckets, order) else order == []
    case _ => true
  }

  ghost predicate MeetsAll<T>(buckets: seq<set<T>>, order: seq<(T, nat)>) {
    && (forall r | r in order :: r.1 < |buckets| && r.0 in buckets[r.1])
    && (forall i, x | 0 <= i < |buckets| && x in buckets[i] :: (x, i) in order)
  }

  ghost function Step<T>(p: Pool<T>, op: Op<T>): (r: Pool<T>)
    requires p.Valid() && Enabled(p, op)
    ensures r.Valid()
  {
    match op
    case AcquireRead => p.(readers := p.readers + 1)
    case ReleaseRead =>
      var q := p.(readers := p.readers - 1);
      if q.Reading() then q else FlushRemoves(FlushAdds(q))
    case Insert(item) => Inserted(p, item)
    case Erase(item) => ErasedItem(p, item)
    case Clear(order) => Cleared(p, order)
    case Stop => p.(stopped := true)
  }

  /** All readers leave. */
  ghost function AllLeft<T>(p: Pool<T>): (r: Pool<T>)
    requires p.Valid()
    ensures r.Valid() && !r.Reading()
    decreases p.readers
  {
    if p.Reading() then AllLeft(Step(p, ReleaseRead)) else p
  }

  lemma {:induction false} AllLeftFlushes<T>(p: Pool<T>)
    requires p.Valid() && p.Reading()
    ensures AllLeft(p) == FlushRemoves(FlushAdds(p.(readers := 0)))
    decreases p.readers
  {
    if p.readers > 1 {
      AllLeftFlushes(Step(p, ReleaseRead));
    }
  }

  /** The same operation on a plain set. */
  function SetStep<T>(s: set<T>, op: Op<T>): set<T> {
    match op
    case Insert(item) => s + {item}
    case Erase(item) => s - {item}
    case Clear(_) => {}
    case _ => s
  }

  /**
   What keeps a bucket set and its queues in step with a plain set: only absent items are
   inserted, and within one read window no item is both inserted and erased. Both can be
   told before the call, from the set and the queues.
   */
  ghost predicate Orderly<T>(p: Pool<T>, s: set<T>, op: Op<T>) {
    match op
    case Insert(item) => item !in s && item !in Removed(p.toRemove)
    case Erase(item) => item !in p.toAdd
    case Clear(_) => p.toAdd == []
    case _ => true
  }

  // ---------------------------------------------------------------- the invariant

  predicate QueuedOnce<T(==)>(queue: seq<T>) {
    forall i, j | 0 <= i < j < |queue| :: queue[i] != queue[j]
  }

  /** What is queued for addition is not there, nor queued for removal. */
  ghost predicate AddsApart<T>(p: Pool<T>) {
    forall x | x in p.toAdd :: x !in Union(p.buckets) && x !in Removed(p.toRemove)
  }

  /** A queued removal names the only bucket that may hold the item. */
  ghost predicate RemovalsRight<T>(buckets: seq<set<T>>, queue: seq<(T, nat)>) {
    forall r, j | r in queue && 0 <= j < |buckets| && r.0 in buckets[j] :: j == r.1
  }

  /** The set is what the buckets will hold once the queues are carried out. */
  ghost predicate Refines<T>(p: Pool<T>, s: set<T>) {
    && p.Valid() && Disjoint(p.buckets) && QueuedOnce(p.toAdd) && AddsApart(p)
    && RemovalsRight(p.buckets, p.toRemove)
    && s == Union(p.buckets) - Removed(p.toRemove) + Added(p.toAdd)
  }

  ghost predicate Inv<T>(p: Pool<T>, s: set<T>) {
    Refines(p, s) && (p.WritePending() ==> p.Reading())
  }

  lemma UnionInsert<T>(b: seq<set<T>>, i: nat, x: T)
    requires i < |b|
    ensures Union(b[i := b[i] + {x}]) == Union(b) + {x}
    ensures Disjoint(b) && x !in Union(b) ==> Disjoint(b[i := b[i] + {x}])
  {
    var c := b[i := b[i] + {x}];
    assert forall y | y in Union(b) :: y in Union(c) by {
      forall y | y in Union(b) ensures y in Union(c) {
        var j: nat :| j < |b| && y in b[j];
        assert y in c[j];
      }
    }
    assert x in c[i];
    if x !in Union(b) {
      assert forall j: nat | j < |b| :: x !in b[j];
    }
  }

  lemma UnionRemove<T>(b: seq<set<T>>, i: nat, x: T)
    requires i < |b| && Disjoint(b)
    requires forall j: nat | j < |b| && x in b[j] :: j == i
    ensures Union(b[i := b[i] - {x}]) == Union(b) - {x}
    ensures Disjoint(b[i := b[i] - {x}])
  {
    var c := b[i := b[i] - {x}];
    forall y | y in Union(b) - {x}
      ensures y in Union(c)
    {
      var j: nat :| j < |b| && y in b[j];
      assert y in c[j];
    }
  }

  lemma {:induction false} FirstBucketExact<T>(b: seq<set<T>>, x: T)
    ensures FirstBucket(b, x) < |b| <==> x in Union(b)
    ensures forall j: nat | j < |b| && x in b[j] :: FirstBucket(b, x) <= j
  {
    if b != [] && x !in b[0] {
      FirstBucketExact(b[1..], x);
      assert forall j: nat | 0 < j < |b| :: b[j] == b[1..][j - 1];
      if x in Union(b) {
        var j: nat :| j < |b| && x in b[j];
        assert x in b[1..][j - 1];
      }
      if x in Union(b[1..]) {
        var j: nat :| j < |b[1..]| && x in b[1..][j];
        assert x in b[j + 1];
      }
    }
  }

  // ---------------------------------------------------------------- it is kept

  lemma AddedFront<T>(queue: seq<T>)
    requires queue != []
    ensures Added(queue) == {queue[0]} + Added(queue[1..])
  {
    assert queue == [queue[0]] + queue[1..];
  }

  lemma RemovedFront<T>(queue: seq<(T, nat)>)
    requires queue != []
    ensures Removed(queue) == {queue[0].0} + Removed(queue[1..])
  {
    assert queue == [queue[0]] + queue[1..];
  }

  lemma RemovedAppend<T>(a: seq<(T, nat)>, b: seq<(T, nat)>)
    ensures Removed(a + b) == Removed(a) + Removed(b)
  {
    assert forall r | r in a + b :: r in a || r in b;
    forall x | x in Removed(a) + Removed(b)
      ensures x in Removed(a + b)
    {
      var r :| (r in a || r in b) && r.0 == x;
      assert r in a + b;
    }
  }

  lemma AddedSnoc<T>(queue: seq<T>, x: T)
    ensures Added(queue + [x]) == Added(queue) + {x}
  {
    assert forall y | y in queue :: y in queue + [x];
    assert x in queue + [x];
  }

  lemma RemovalsRightInsert<T>(buckets: seq<set<T>>, queue: seq<(T, nat)>, i: nat, item: T)
    requires RemovalsRight(buckets, queue) && i < |buckets| && item !in Removed(queue)
    ensures RemovalsRight(buckets[i := buckets[i] + {item}], queue)
  {
  }

  /** An absent item that no bucket holds and no removal is queued for goes into a bucket. */
  lemma InsertNowRefines<T>(p: Pool<T>, s: set<T>, item: T)
    requires Refines(p, s) && item !in Union(p.buckets) && item !in Removed(p.toRemove) && item !in p.toAdd
    ensures Refines(InsertNow(p, item), s + {item})
  {
    hide Disjoint, Union, Removed, Added, QueuedOnce, RemovalsRight;
    var q := InsertNow(p, item);
    UnionInsert(p.buckets, q.current, item);
    RemovalsRightInsert(p.buckets, p.toRemove, q.current, item);
  }

  lemma QueuedOnceFront<T>(queue: seq<T>)
    requires QueuedOnce(queue) && queue != []
    ensures QueuedOnce(queue[1..]) && queue[0] !in queue[1..]
  {
    forall i, j | 0 <= i < j < |queue[1..]|
      ensures queue[1..][i] != queue[1..][j]
    {
      assert queue[i + 1] != queue[j + 1];
    }
    forall i | 0 <= i < |queue[1..]|
      ensures queue[1..][i] != queue[0]
    {
      assert queue[0] != queue[i + 1];
    }
  }

  lemma FlushAddRefines<T>(p: Pool<T>, s: set<T>)
    requires Refines(p, s) && p.toAdd != []
    ensures Refines(InsertNow(p.(toAdd := p.toAdd[1..]), p.toAdd[0]), s)
  {
    hide Disjoint, Union, Removed, Added, QueuedOnce, RemovalsRight, InsertNow;
    var x, q := p.toAdd[0], p.(toAdd := p.toAdd[1..]);
    AddedFront(p.toAdd);
    QueuedOnceFront(p.toAdd);
    var s' := Union(p.buckets) - Removed(p.toRemove) + Added(q.toAdd);
    assert Refines(q, s');
    InsertNowRefines(q, s', x);
    assert s' + {x} == s;
  }

  lemma {:induction false} FlushAddsRefines<T>(p: Pool<T>, s: set<T>)
    requires Refines(p, s)
    ensures Refines(FlushAdds(p), s)
    decreases |p.toAdd|
  {
    hide Refines, InsertNow;
    if p.toAdd != [] {
      FlushAddRefines(p, s);
      RefinesValid(p, s);
      FlushAddsRefines(InsertNow(p.(toAdd := p.toAdd[1..]), p.toAdd[0]), s);
    }
  }

  lemma RefinesValid<T>(p: Pool<T>, s: set<T>)
    requires Refines(p, s)
    ensures p.Valid()
  {
  }

  lemma RemovalsRightRemove<T>(buckets: seq<set<T>>, queue: seq<(T, nat)>, i: nat, item: T)
    requires RemovalsRight(buckets, queue) && i < |buckets|
    ensures RemovalsRight(buckets[i := buckets[i] - {item}], queue)
  {
  }

  lemma AddedWithout<T>(queue: seq<T>, item: T)
    requires item !in queue
    ensures Added(queue) - {item} == Added(queue)
  {
  }

  /** Taking an item out of its bucket; whether a removal of it is queued makes no difference. */
  lemma RemoveAtRefines<T>(p: Pool<T>, s: set<T>, item: T, i: nat)
    requires Refines(p, s) && i < |p.buckets| && item !in p.toAdd
    requires forall j: nat | j < |p.buckets| && item in p.buckets[j] :: j == i
    ensures Refines(RemoveAt(p, item, i), s - {item})
  {
    hide Disjoint, Union, Removed, Added, QueuedOnce, RemovalsRight;
    UnionRemove(p.buckets, i, item);
    RemovalsRightRemove(p.buckets, p.toRemove, i, item);
    AddedWithout(p.toAdd, item);
  }

  lemma RemovalsRightFront<T>(buckets: seq<set<T>>, queue: seq<(T, nat)>)
    requires RemovalsRight(buckets, queue) && queue != []
    ensures RemovalsRight(buckets, queue[1..])
    ensures forall j: nat | j < |buckets| && queue[0].0 in buckets[j] :: j == queue[0].1
  {
    assert queue[0] in queue && forall r | r in queue[1..] :: r in queue;
  }

  lemma FlushRemoveRefines<T>(p: Pool<T>, s: set<T>)
    requires Refines(p, s) && p.toRemove != []
    ensures p.toRemove[0] in p.toRemove && p.toRemove[0].1 < |p.buckets|
    ensures Refines(RemoveAt(p.(toRemove := p.toRemove[1..]), p.toRemove[0].0, p.toRemove[0].1), s)
  {
    hide Disjoint, Union, Removed, Added, QueuedOnce, RemovalsRight, RemoveAt;
    var r, q := p.toRemove[0], p.(toRemove := p.toRemove[1..]);
    assert r in p.toRemove;
    RemovedFront(p.toRemove);
    RemovalsRightFront(p.buckets, p.toRemove);
    var s' := Union(p.buckets) - Removed(q.toRemove) + Added(q.toAdd);
    assert Refines(q, s');
    RemoveAtRefines(q, s', r.0, r.1);
    AddedWithout(p.toAdd, r.0);
    assert s' - {r.0} == s;
  }

  lemma {:induction false} FlushRemovesRefines<T>(p: Pool<T>, s: set<T>)
    requires Refines(p, s)
    ensures Refines(FlushRemoves(p), s)
    decreases |p.toRemove|
  {
    hide Refines, RemoveAt;
    if p.toRemove != [] {
      FlushRemoveRefines(p, s);
      RefinesValid(p, s);
      FlushRemovesRefines(RemoveAt(p.(toRemove := p.toRemove[1..]), p.toRemove[0].0, p.toRemove[0].1), s);
    }
  }

  /** The first bucket that holds the item is the only one. */
  lemma OnlyBucket<T>(buckets: seq<set<T>>, item: T)
    requires Disjoint(buckets)
    ensures FirstBucket(buckets, item) < |buckets| <==> item in Union(buckets)
    ensures forall j: nat | j < |buckets| && item in buckets[j] :: j == FirstBucket(buckets, item)
  {
    FirstBucketExact(buckets, item);
    var i := FirstBucket(buckets, item);
    if i < |buckets| {
      assert forall j: nat | i < j < |buckets| :: buckets[i] !! buckets[j];
    } else {
      assert forall j: nat | j < |buckets| :: item in buckets[j] ==> item in Union(buckets);
    }
  }

  lemma NothingQueued<T>(p: Pool<T>)
    requires p.toAdd == [] && p.toRemove == []
    ensures Added(p.toAdd) == {} && Removed(p.toRemove) == {}
  {
  }

  lemma InsertKeeps<T>(p: Pool<T>, s: set<T>, item: T)
    requires Inv(p, s) && Orderly(p, s, Insert(item))
    ensures Inv(Step(p, Insert(item)), SetStep(s, Insert(item)))
  {
    hide Disjoint, Union, RemovalsRight, InsertNow;
    if p.Reading() {
      var q := p.toAdd + [item];
      AddedSnoc(p.toAdd, item);
      assert item !in p.toAdd;
    } else {
      NothingQueued(p);
      InsertNowRefines(p, s, item);
    }
  }

  lemma RemovalsRightAppend<T>(buckets: seq<set<T>>, a: seq<(T, nat)>, b: seq<(T, nat)>)
    requires RemovalsRight(buckets, a) && RemovalsRight(buckets, b)
    ensures RemovalsRight(buckets, a + b)
  {
    assert forall r | r in a + b :: r in a || r in b;
  }

  /** Queueing removals of items that are not queued for addition. */
  lemma QueueRemovals<T>(p: Pool<T>, s: set<T>, more: seq<(T, nat)>)
    requires Refines(p, s) && RemovalsRight(p.buckets, more) && (forall r | r in more :: r.1 < |p.buckets|)
    requires forall x | x in p.toAdd :: x !in Removed(more)
    ensures Refines(p.(toRemove := p.toRemove + more), s - Removed(more))
  {
    hide Disjoint, Union, Removed, QueuedOnce, RemovalsRight;
    RemovedAppend(p.toRemove, more);
    RemovalsRightAppend(p.buckets, p.toRemove, more);
    assert forall r | r in p.toRemove + more :: r in p.toRemove || r in more;
    assert Added(p.toAdd) - Removed(more) == Added(p.toAdd);
  }

  lemma EraseKeeps<T>(p: Pool<T>, s: set<T>, item: T)
    requires Inv(p, s) && Orderly(p, s, Erase(item))
    ensures Inv(Step(p, Erase(item)), SetStep(s, Erase(item)))
  {
    hide Disjoint, Union, AddsApart, QueuedOnce, FirstBucket;
    OnlyBucket(p.buckets, item);
    var i := FirstBucket(p.buckets, item);
    if i < |p.buckets| {
      if p.Reading() {
        assert Removed([(item, i)]) == {item};
        QueueRemovals(p, s, [(item, i)]);
      } else {
        RemoveAtRefines(p, s, item, i);
      }
    } else {
      AddedWithout(p.toAdd, item);
      assert s - {item} == s;
    }
  }

  lemma MeetsAllRight<T>(buckets: seq<set<T>>, order: seq<(T, nat)>)
    requires Disjoint(buckets) && MeetsAll(buckets, order)
    ensures RemovalsRight(buckets, order) && Removed(order) == Union(buckets)
  {
    forall r, j | r in order && 0 <= j < |buckets| && r.0 in buckets[j]
      ensures j == r.1
    {
      assert r.0 in buckets[r.1];
    }
    forall x | x in Union(buckets)
      ensures x in Removed(order)
    {
      var i: nat :| i < |buckets| && x in buckets[i];
      assert (x, i) in order;
    }
  }

  lemma ClearKeeps<T>(p: Pool<T>, s: set<T>, order: seq<(T, nat)>)
    requires Inv(p, s) && Enabled(p, Clear(order)) && Orderly(p, s, Clear(order))
    ensures Inv(Step(p, Clear(order)), {})
  {
    if p.Reading() {
      MeetsAllRight(p.buckets, order);
      hide Union, Removed, Disjoint, RemovalsRight, QueuedOnce;
      QueueRemovals(p, s, order);
      assert Added(p.toAdd) == {};
      assert s - Removed(order) == {};
    } else {
      NothingQueued(p);
    }
  }

  /** Every operation keeps the buckets in step with the plain set. */
  lemma StepKeeps<T>(p: Pool<T>, s: set<T>, op: Op<T>)
    requires Inv(p, s) && Enabled(p, op) && Orderly(p, s, op)
    ensures Inv(Step(p, op), SetStep(s, op))
  {
    match op
    case Insert(item) => InsertKeeps(p, s, item);
    case Erase(item) => EraseKeeps(p, s, item);
    case Clear(order) => ClearKeeps(p, s, order);
    case ReleaseRead =>
      hide Disjoint, Union, Removed, Added, QueuedOnce, RemovalsRight;
      var q := p.(readers := p.readers - 1);
      assert Refines(q, s);
      FlushAddsRefines(q, s);
      FlushRemovesRefines(FlushAdds(q), s);
    case AcquireRead =>
      hide Disjoint, Union, Removed, Added, QueuedOnce, RemovalsRight;
    case Stop =>
      hide Disjoint, Union, Removed, Added, QueuedOnce, RemovalsRight;
  }

  // ---------------------------------------------------------------- runs

  /** Every operation of the run is possible when it comes. */
  ghost predicate CanRun<T>(p: Pool<T>, ops: seq<Op<T>>)
    requires p.Valid()
    decreases |ops|
  {
    ops == [] || (Enabled(p, ops[0]) && CanRun(Step(p, ops[0]), ops[1..]))
  }

  ghost function Run<T>(p: Pool<T>, ops: seq<Op<T>>): (r: Pool<T>)
    requires p.Valid() && CanRun(p, ops)
    ensures r.Valid()
    decreases |ops|
  {
    if ops == [] then p else Run(Step(p, ops[0]), ops[1..])
  }

  function SetRun<T>(s: set<T>, ops: seq<Op<T>>): set<T>
    decreases |ops|
  {
    if ops == [] then s else SetRun(SetStep(s, ops[0]), ops[1..])
  }

  ghost predicate OrderlyRun<T>(p: Pool<T>, s: set<T>, ops: seq<Op<T>>)
    requires p.Valid() && CanRun(p, ops)
    decreases |ops|
  {
    ops == [] || (Orderly(p, s, ops[0]) && OrderlyRun(Step(p, ops[0]), SetStep(s, ops[0]), ops[1..]))
  }

  lemma InvValid<T>(p: Pool<T>, s: set<T>)
    requires Inv(p, s)
    ensures p.Valid()
  {
  }

  lemma {:induction false} RunKeeps<T>(p: Pool<T>, s: set<T>, ops: seq<Op<T>>)
    requires Inv(p, s) && CanRun(p, ops) && OrderlyRun(p, s, ops)
    ensures Inv(Run(p, ops), SetRun(s, ops))
    decreases |ops|
  {
    InvValid(p, s);
    hide Inv, Step, Orderly, Enabled, SetStep;
    if ops != [] {
      StepKeeps(p, s, ops[0]);
      InvValid(Step(p, ops[0]), SetStep(s, ops[0]));
      RunKeeps(Step(p, ops[0]), SetStep(s, ops[0]), ops[1..]);
    }
  }

  /**
   After an orderly run, once nobody reads, the buckets are pairwise disjoint and together
   hold what the operations one after the other would have left in a plain set.
   */
  lemma SettledRun<T>(p: Pool<T>, s: set<T>, ops: seq<Op<T>>)
    requires Inv(p, s) && CanRun(p, ops) && OrderlyRun(p, s, ops)
    ensures var q := Run(p, ops);
            !q.Reading() ==> Disjoint(q.buckets) && Union(q.buckets) == SetRun(s, ops) && !q.WritePending()
  {
    hide Disjoint, Union, QueuedOnce, AddsApart, RemovalsRight;
    RunKeeps(p, s, ops);
    if !Run(p, ops).Reading() {
      NothingQueued(Run(p, ops));
    }
  }

  /** Queued writes imply a reader, however the operations come. */
  lemma {:induction false} PendingMeansReading<T>(p: Pool<T>, ops: seq<Op<T>>)
    requires p.Valid() && CanRun(p, ops) && (p.WritePending() ==> p.Reading())
    ensures Run(p, ops).WritePending() ==> Run(p, ops).Reading()
    decreases |ops|
  {
    hide FlushAdds, FlushRemoves, InsertNow, RemoveNow, MeetsAll, FirstBucket;
    if ops != [] {
      PendingMeansReading(Step(p, ops[0]), ops[1..]);
    }
  }

  /** There is a reader at every point of the run. */
  ghost predicate ReadThroughout<T>(p: Pool<T>, ops: seq<Op<T>>)
    requires p.Valid() && CanRun(p, ops)
    decreases |ops|
  {
    p.Reading() && (ops != [] ==> ReadThroughout(Step(p, ops[0]), ops[1..]))
  }

  /** As long as anybody reads no bucket changes, however the operations come. */
  lemma {:induction false} FrozenWhileRead<T>(p: Pool<T>, ops: seq<Op<T>>)
    requires p.Valid() && CanRun(p, ops) && ReadThroughout(p, ops)
    ensures Run(p, ops).buckets == p.buckets
    decreases |ops|
  {
    hide FlushAdds, FlushRemoves, InsertNow, RemoveNow, MeetsAll, FirstBucket;
    if ops != [] {
      FrozenWhileRead(Step(p, ops[0]), ops[1..]);
    }
  }

  // ---------------------------------------------------------------- the container

  /** The items of the first n buckets have been met. */
  ghost predicate Met<T>(buckets: seq<set<T>>, n: nat, order: seq<(T, nat)>) {
    && (forall r | r in order :: r.1 < n <= |buckets| && r.0 in buckets[r.1])
    && (forall i, x | 0 <= i < n <= |buckets| && x in buckets[i] :: (x, i) in order)
  }

  lemma MeetsNext<T>(buckets: seq<set<T>>, i: nat, order: seq<(T, nat)>, met: seq<(T, nat)>)
    requires i < |buckets| && Met(buckets, i, order)
    requires forall r | r in met :: r.1 == i && r.0 in buckets[i]
    requires forall x | x in buckets[i] :: (x, i) in met
    ensures Met(buckets, i + 1, order + met)
  {
    assert forall r | r in order + met :: r in order || r in met;
    assert forall r | r in order || r in met :: r in order + met;
  }

  class SafeBucketContainer<T(==)> {
    var buckets: seq<set<T>>
    var itemsToAdd: seq<T>
    var itemsToRemove: seq<(T, nat)>
    var readerCount: nat
    var currentBucketIdx: nat
    var stopRequested: bool
    const bucketCapacity: nat

    function State(): Pool<T>
      reads this
    {
      Pool(buckets, itemsToAdd, itemsToRemove, readerCount, currentBucketIdx, bucketCapacity, stopRequested)
    }

    ghost predicate Valid()
      reads this
    {
      State().Valid()
    }

    constructor (bucketCapacity: nat, bucketCount: nat)
      requires bucketCount > 0
      ensures Valid() && Inv(State(), {}) && |buckets| == bucketCount && this.bucketCapacity == bucketCapacity
      ensures forall i | 0 <= i < |buckets| :: buckets[i] == {}
      ensures itemsToAdd == [] && itemsToRemove == [] && readerCount == 0
    {
      this.bucketCapacity := bucketCapacity;
      buckets := seq(bucketCount, _ => {});
      itemsToAdd, itemsToRemove := [], [];
      readerCount, currentBucketIdx, stopRequested := 0, 0, false;
    }

    /** The step a waiting reader takes under the lock, once the wait is over. */
    method TakeRead()
      requires Valid() && Enabled(State(), AcquireRead)
      modifies this`readerCount
      ensures State() == Step(old(State()), AcquireRead)
    {
      readerCount := readerCount + 1;
    }

    method LeaveRead()
      requires Valid() && Enabled(State(), ReleaseRead)
      modifies this
      ensures State() == Step(old(State()), ReleaseRead)
    {
      hide FlushAdds, FlushRemoves;
      readerCount := readerCount - 1;
      if readerCount > 0 {
        return;
      }
      CarryOutAdds();
      CarryOutRemovals();
    }

    method CarryOutAdds()
      requires Valid()
      modifies this
      ensures Valid() && State() == FlushAdds(old(State()))
    {
      hide InsertNow;
      ghost var p := State();
      while itemsToAdd != []
        invariant Valid() && FlushAdds(State()) == FlushAdds(p)
        decreases |itemsToAdd|
      {
        var item := itemsToAdd[0];
        itemsToAdd := itemsToAdd[1..];
        InsertToContainer(item);
      }
    }

    method CarryOutRemovals()
      requires Valid()
      modifies this
      ensures Valid() && State() == FlushRemoves(old(State()))
    {
      ghost var p := State();
      while itemsToRemove != []
        invariant Valid() && FlushRemoves(State()) == FlushRemoves(p)
        decreases |itemsToRemove|
      {
        ghost var q := State();
        var (item, idx) := itemsToRemove[0];
        assert itemsToRemove[0] in itemsToRemove;
        itemsToRemove := itemsToRemove[1..];
        buckets := buckets[idx := buckets[idx] - {item}];
        assert FlushRemoves(State()) == FlushRemoves(q);
      }
    }

    method Insert(item: T)
      requires Valid()
      modifies this
      ensures State() == Step(old(State()), Op.Insert(item))
    {
      if readerCount > 0 {
        itemsToAdd := itemsToAdd + [item];
      } else {
        InsertToContainer(item);
      }
    }

    method InsertToContainer(item: T)
      requires Valid()
      modifies this`buckets, this`currentBucketIdx
      ensures Valid() && State() == InsertNow(old(State()), item)
    {
      if |buckets[currentBucketIdx]| >= bucketCapacity {
        currentBucketIdx := (currentBucketIdx + 1) % |buckets|;
      }
      buckets := buckets[currentBucketIdx := buckets[currentBucketIdx] + {item}];
    }

    method FindBucket(item: T) returns (idx: nat)
      ensures idx == FirstBucket(buckets, item)
    {
      idx := 0;
      assert buckets[0..] == buckets;
      while idx < |buckets| && item !in buckets[idx]
        invariant idx <= |buckets|
        invariant FirstBucket(buckets, item) == idx + FirstBucket(buckets[idx..], item)
      {
        assert buckets[idx..][1..] == buckets[idx + 1..];
        idx := idx + 1;
      }
    }

    method Erase(item: T)
      requires Valid()
      modifies this
      ensures State() == Step(old(State()), Op.Erase(item))
    {
      var idx := FindBucket(item);
      if idx < |buckets| {
        if readerCount > 0 {
          itemsToRemove := itemsToRemove + [(item, idx)];
        } else {
          buckets := buckets[idx := buckets[idx] - {item}];
        }
      }
    }

    /** Clears every bucket, or queues the removal of every item, in the order they are met. */
    method Clear() returns (ghost order: seq<(T, nat)>)
      requires Valid()
      modifies this
      ensures Enabled(old(State()), Op.Clear(order)) && State() == Step(old(State()), Op.Clear(order))
    {
      hide Pool.Valid;
      order := [];
      ghost var was := State();
      for i := 0 to |buckets|
        invariant |buckets| == |was.buckets| && readerCount == was.readers
        invariant !was.Reading() ==> State() == was.(buckets := buckets) && order == [] && forall j | 0 <= j < i :: buckets[j] == {}
        invariant was.Reading() ==> State() == was.(toRemove := was.toRemove + order) && Met(buckets, i, order)
      {
        if readerCount > 0 {
          ghost var met := QueueBucket(i);
          MeetsNext(buckets, i, order, met);
          assert was.toRemove + order + met == was.toRemove + (order + met);
          order := order + met;
        } else {
          buckets := buckets[i := {}];
        }
      }
      if !was.Reading() {
        assert buckets == seq(|was.buckets|, _ => {});
      }
    }

    /** Queues the removal of every item of one bucket. */
    method QueueBucket(i: nat) returns (ghost met: seq<(T, nat)>)
      requires i < |buckets|
      modifies this`itemsToRemove
      ensures itemsToRemove == old(itemsToRemove) + met
      ensures forall r | r in met :: r.1 == i && r.0 in buckets[i]
      ensures forall x | x in buckets[i] :: (x, i) in met
    {
      met := [];
      var rest := buckets[i];
      while rest != {}
        invariant rest <= buckets[i] && itemsToRemove == old(itemsToRemove) + met
        invariant forall r | r in met :: r.1 == i && r.0 in buckets[i]
        invariant forall x | x in buckets[i] :: x in rest || (x, i) in met
        decreases rest
      {
        var item :| item in rest;
        ghost var before := met;
        met := met + [(item, i)];
        itemsToRemove := itemsToRemove + [(item, i)];
        rest := rest - {item};
        assert forall r | r in before :: r in met;
        assert met[|before|] == (item, i);
      }
    }

    method RequestStop()
      requires Valid()
      modifies this`stopRequested
      ensures State() == Step(old(State()), Stop)
    {
      stopRequested := true;
    }
  }
}
