/**
 What a read window of the bucketed set comes to: which items are there once all readers
 have left, whatever was inserted, erased and cleared while they were inside.
 */
module ReadWindows {
  import opened BucketContainers

  // ---------------------------------------------------------------- the flush, item by item

  /** Carrying out the additions puts the item into this bucket. */
  predicate Lands<T(==)>(p: Pool<T>, item: T, i: nat)
    requires p.Valid()
    decreases |p.toAdd|
  {
    && p.toAdd != []
    && var q := InsertNow(p.(toAdd := p.toAdd[1..]), p.toAdd[0]);
       (p.toAdd[0] == item && q.current == i) || Lands(q, item, i)
  }

  /** What lands was queued for addition. */
  lemma {:induction false} LandsWasQueued<T>(p: Pool<T>, item: T, i: nat)
    requires p.Valid() && Lands(p, item, i)
    ensures item in p.toAdd && i < |p.buckets|
    decreases |p.toAdd|
  {
    var q := InsertNow(p.(toAdd := p.toAdd[1..]), p.toAdd[0]);
    assert q.toAdd == p.toAdd[1..] && |q.buckets| == |p.buckets|;
    if !(p.toAdd[0] == item && q.current == i) {
      LandsWasQueued(q, item, i);
    }
  }

  /** What is queued lands. */
  lemma {:induction false} LandingOf<T>(p: Pool<T>, item: T) returns (i: nat)
    requires p.Valid() && item in p.toAdd
    ensures i < |p.buckets| && Lands(p, item, i)
    decreases |p.toAdd|
  {
    var q := InsertNow(p.(toAdd := p.toAdd[1..]), p.toAdd[0]);
    assert q.toAdd == p.toAdd[1..] && |q.buckets| == |p.buckets|;
    if p.toAdd[0] == item {
      i := q.current;
    } else {
      i := LandingOf(q, item);
    }
  }

  /** Where items land depends on the buckets and the additions only. */
  lemma {:induction false} SameLands<T>(p: Pool<T>, q: Pool<T>, item: T, i: nat)
    requires p.Valid() && q.Valid() && q == p.(toRemove := q.toRemove, readers := q.readers, stopped := q.stopped)
    ensures Lands(p, item, i) == Lands(q, item, i)
    decreases |p.toAdd|
  {
    if p.toAdd != [] {
      var x := p.toAdd[0];
      SameLands(InsertNow(p.(toAdd := p.toAdd[1..]), x), InsertNow(q.(toAdd := q.toAdd[1..]), x), item, i);
    }
  }

  lemma {:induction false} AddsExact<T>(p: Pool<T>, item: T, i: nat)
    requires p.Valid() && i < |p.buckets|
    ensures |FlushAdds(p).buckets| == |p.buckets|
    ensures item in FlushAdds(p).buckets[i] <==> item in p.buckets[i] || Lands(p, item, i)
    decreases |p.toAdd|
  {
    if p.toAdd != [] {
      AddsExact(InsertNow(p.(toAdd := p.toAdd[1..]), p.toAdd[0]), item, i);
    }
  }

  /** Carrying out the removals takes the item out of exactly the buckets it is queued with. */
  lemma {:induction false} RemovalsExact<T>(p: Pool<T>, item: T, i: nat)
    requires p.Valid() && i < |p.buckets|
    ensures |FlushRemoves(p).buckets| == |p.buckets|
    ensures item in FlushRemoves(p).buckets[i] <==> item in p.buckets[i] && (item, i) !in p.toRemove
    decreases |p.toRemove|
  {
    if p.toRemove != [] {
      var r := p.toRemove[0];
      assert r in p.toRemove;
      assert (item, i) in p.toRemove <==> (item, i) == r || (item, i) in p.toRemove[1..];
      RemovalsExact(RemoveAt(p.(toRemove := p.toRemove[1..]), r.0, r.1), item, i);
    }
  }

  lemma SameLength<T>(p: Pool<T>, item: T)
    requires p.Valid()
    ensures |FlushRemoves(FlushAdds(p)).buckets| == |p.buckets|
  {
    AddsExact(p, item, 0);
    RemovalsExact(FlushAdds(p), item, 0);
  }

  /** The item is in the bucket, or lands there, and is not queued for removal from it. */
  predicate StaysIn<T(==)>(p: Pool<T>, item: T, i: nat)
    requires p.Valid() && i < |p.buckets|
  {
    (item in p.buckets[i] || Lands(p, item, i)) && (item, i) !in p.toRemove
  }

  /** Which items are there once all readers have left, for any number of readers and any queues. */
  lemma WindowExact<T>(p: Pool<T>, item: T)
    requires p.Valid() && p.Reading()
    ensures item in Union(AllLeft(p).buckets) <==> exists i: nat :: i < |p.buckets| && StaysIn(p, item, i)
  {
    hide FlushAdds, FlushRemoves, Lands;
    var q := p.(readers := 0);
    AllLeftFlushes(p);
    var left := AllLeft(p).buckets;
    assert left == FlushRemoves(FlushAdds(q)).buckets;
    forall i: nat | i < |p.buckets|
      ensures |left| == |p.buckets| && (item in left[i] <==> StaysIn(p, item, i))
    {
      SameLands(p, q, item, i);
      AddsExact(q, item, i);
      RemovalsExact(FlushAdds(q), item, i);
    }
    assert |left| == |p.buckets| by { SameLength(q, item); }
    hide StaysIn, AllLeft;
    if item in Union(left) {
      var i: nat :| i < |left| && item in left[i];
      assert StaysIn(p, item, i);
    }
    if exists i: nat :: i < |p.buckets| && StaysIn(p, item, i) {
      var i: nat :| i < |p.buckets| && StaysIn(p, item, i);
      assert item in left[i];
    }
  }

  // ---------------------------------------------------------------- all that happens in a window

  /** The additions a run queues. */
  function Inserts<T>(ops: seq<Op<T>>): seq<T> {
    if ops == [] then [] else (if ops[0].Insert? then [ops[0].item] else []) + Inserts(ops[1..])
  }

  /** The removals an operation queues: where the item is found, or all that is met. */
  function Removal<T>(buckets: seq<set<T>>, op: Op<T>): seq<(T, nat)> {
    match op
    case Erase(x) =>
      var i := FirstBucket(buckets, x);
      if i < |buckets| then [(x, i)] else []
    case Clear(order) => order
    case _ => []
  }

  function Removals<T>(buckets: seq<set<T>>, ops: seq<Op<T>>): seq<(T, nat)> {
    if ops == [] then [] else Removal(buckets, ops[0]) + Removals(buckets, ops[1..])
  }

  /** A step that leaves a reader inside only queues. */
  lemma StepQueues<T>(p: Pool<T>, op: Op<T>)
    requires p.Valid() && Enabled(p, op) && p.Reading() && Step(p, op).Reading()
    ensures var q := Step(p, op);
            && q.buckets == p.buckets && q.current == p.current && q.capacity == p.capacity
            && q.toAdd == p.toAdd + (if op.Insert? then [op.item] else [])
            && q.toRemove == p.toRemove + Removal(p.buckets, op)
  {
    hide FirstBucket, MeetsAll, FlushAdds, FlushRemoves, InsertNow, RemoveNow;
  }

  lemma ReadOn<T>(p: Pool<T>, ops: seq<Op<T>>)
    requires p.Valid() && CanRun(p, ops) && ReadThroughout(p, ops)
    ensures p.Reading()
    ensures ops != [] ==> Enabled(p, ops[0]) && CanRun(Step(p, ops[0]), ops[1..]) && ReadThroughout(Step(p, ops[0]), ops[1..])
    ensures ops != [] ==> Step(p, ops[0]).Reading() && Run(p, ops) == Run(Step(p, ops[0]), ops[1..])
  {
    hide Step, Enabled;
  }

  /** As long as there is a reader a run only queues. */
  lemma {:induction false} WindowQueues<T>(p: Pool<T>, ops: seq<Op<T>>)
    requires p.Valid() && CanRun(p, ops) && ReadThroughout(p, ops)
    ensures var q := Run(p, ops);
            && q.Reading() && q.buckets == p.buckets && q.current == p.current && q.capacity == p.capacity
            && q.toAdd == p.toAdd + Inserts(ops) && q.toRemove == p.toRemove + Removals(p.buckets, ops)
    decreases |ops|
  {
    ReadOn(p, ops);
    hide Step, Enabled, Removal, CanRun, ReadThroughout;
    if ops != [] {
      hide Run;
      StepQueues(p, ops[0]);
      WindowQueues(Step(p, ops[0]), ops[1..]);
    }
  }

  lemma {:induction false} InsertsExact<T>(ops: seq<Op<T>>, item: T)
    ensures item in Inserts(ops) <==> Op.Insert(item) in ops
  {
    if ops != [] {
      InsertsExact(ops[1..], item);
      assert ops == [ops[0]] + ops[1..];
    }
  }

  /** The operation erases the item, or clears. */
  predicate Touches<T(==)>(op: Op<T>, item: T) {
    op == Erase(item) || op.Clear?
  }

  predicate Touched<T(==)>(ops: seq<Op<T>>, item: T) {
    exists op | op in ops :: Touches(op, item)
  }

  lemma RemovalOf<T>(p: Pool<T>, op: Op<T>, item: T, i: nat)
    requires p.Valid() && p.Reading() && Enabled(p, op) && Disjoint(p.buckets) && i < |p.buckets|
    ensures (item, i) in Removal(p.buckets, op) <==> Touches(op, item) && item in p.buckets[i]
  {
    hide FirstBucket;
    OnlyBucket(p.buckets, item);
  }

  lemma {:induction false} RemovalsOf<T>(p: Pool<T>, ops: seq<Op<T>>, item: T, i: nat)
    requires p.Valid() && CanRun(p, ops) && ReadThroughout(p, ops) && Disjoint(p.buckets) && i < |p.buckets|
    ensures (item, i) in Removals(p.buckets, ops) <==> Touched(ops, item) && item in p.buckets[i]
    decreases |ops|
  {
    hide Step, Enabled, Removal, Disjoint, Touches;
    if ops != [] {
      RemovalOf(p, ops[0], item, i);
      StepQueues(p, ops[0]);
      RemovalsOf(Step(p, ops[0]), ops[1..], item, i);
      assert ops == [ops[0]] + ops[1..];
    }
  }

  lemma NotQueued<T>(queue: seq<(T, nat)>, item: T, i: nat)
    requires item !in Removed(queue)
    ensures (item, i) !in queue
  {
  }

  /** An item that no bucket holds is there afterwards exactly if it was inserted: erasing it changes nothing. */
  lemma AbsentItemExact<T>(p: Pool<T>, ops: seq<Op<T>>, item: T)
    requires p.Valid() && CanRun(p, ops) && ReadThroughout(p, ops) && Disjoint(p.buckets)
    requires item !in Union(p.buckets) && item !in Removed(p.toRemove)
    ensures item in Union(AllLeft(Run(p, ops)).buckets) <==> item in p.toAdd || Op.Insert(item) in ops
  {
    hide Lands, Inserts, Removals, AllLeft;
    var q := Run(p, ops);
    WindowQueues(p, ops);
    WindowExact(q, item);
    InsertsExact(ops, item);
    forall i: nat | i < |p.buckets|
      ensures StaysIn(q, item, i) <==> Lands(q, item, i)
    {
      RemovalsOf(p, ops, item, i);
      NotQueued(p.toRemove, item, i);
    }
    if item in q.toAdd {
      var i := LandingOf(q, item);
      assert StaysIn(q, item, i);
    } else if i: nat :| i < |q.buckets| && StaysIn(q, item, i) {
      LandsWasQueued(q, item, i);
    }
  }

  /** An item in a bucket is there afterwards exactly if it was never erased, or landed in another bucket. */
  lemma PresentItemExact<T>(p: Pool<T>, ops: seq<Op<T>>, item: T, b: nat)
    requires p.Valid() && CanRun(p, ops) && ReadThroughout(p, ops) && Disjoint(p.buckets)
    requires b < |p.buckets| && item in p.buckets[b] && item !in Removed(p.toRemove)
    ensures var q := Run(p, ops);
            item in Union(AllLeft(q).buckets)
            <==> !Touched(ops, item) || exists i: nat :: i < |p.buckets| && i != b && Lands(q, item, i)
  {
    hide Lands, Inserts, Removals, AllLeft, Touched;
    var q := Run(p, ops);
    WindowQueues(p, ops);
    WindowExact(q, item);
    forall i: nat | i < |p.buckets|
      ensures StaysIn(q, item, i) <==> if i == b then !Touched(ops, item) else Lands(q, item, i)
    {
      RemovalsOf(p, ops, item, i);
      NotQueued(p.toRemove, item, i);
    }
    if !Touched(ops, item) {
      assert StaysIn(q, item, b);
    } else if i: nat :| i < |q.buckets| && StaysIn(q, item, i) {
      assert i != b && Lands(q, item, i);
    }
  }

  // ---------------------------------------------------------------- the last one queued

  /** The last addition goes where the ones before it leave the current bucket. */
  lemma {:induction false} LastLands<T>(p: Pool<T>, item: T, i: nat)
    requires p.Valid() && item !in p.toAdd
    ensures Lands(p.(toAdd := p.toAdd + [item]), item, i) <==> i == InsertNow(FlushAdds(p), item).current
    decreases |p.toAdd|
  {
    var q := p.(toAdd := p.toAdd + [item]);
    if p.toAdd == [] {
      assert q.toAdd[1..] == [];
    } else {
      assert q.toAdd[1..] == p.toAdd[1..] + [item];
      LastLands(InsertNow(p.(toAdd := p.toAdd[1..]), p.toAdd[0]), item, i);
    }
  }

  /** An item that lands in one bucket only, and is queued for removal from where it is. */
  lemma OneLanding<T>(q: Pool<T>, item: T, at: nat)
    requires q.Valid() && q.Reading() && at < |q.buckets| && Lands(q, item, at)
    requires forall i: nat | Lands(q, item, i) :: i == at
    requires forall i: nat | i < |q.buckets| && item in q.buckets[i] :: (item, i) in q.toRemove
    ensures item in Union(AllLeft(q).buckets) <==> (item, at) !in q.toRemove
  {
    hide Lands, AllLeft, Union;
    WindowExact(q, item);
    if (item, at) !in q.toRemove {
      assert StaysIn(q, item, at);
    }
  }

  /** Where the last one lands, and nowhere else. */
  lemma LastLandsAt<T>(p: Pool<T>, q: Pool<T>, item: T)
    requires p.Valid() && item !in p.toAdd
    requires q.Valid() && q == p.(toAdd := p.toAdd + [item], toRemove := q.toRemove)
    ensures var at := InsertNow(FlushAdds(p), item).current;
            at < |q.buckets| && Lands(q, item, at) && forall i: nat | Lands(q, item, i) :: i == at
  {
    hide Lands, FlushAdds, InsertNow;
    forall i: nat
      ensures Lands(q, item, i) <==> i == InsertNow(FlushAdds(p), item).current
    {
      SameLands(p.(toAdd := p.toAdd + [item]), q, item, i);
      LastLands(p, item, i);
    }
    LandsWasQueued(q, item, InsertNow(FlushAdds(p), item).current);
  }

  /**
   Erased and inserted again while there are readers, an item survives exactly if the bucket
   it goes to is neither the one it was in nor one from which it was queued for removal before.
   */
  lemma EraseThenInsertExact<T>(p: Pool<T>, item: T)
    requires p.Valid() && p.Reading() && Disjoint(p.buckets) && item !in p.toAdd
    ensures var i := InsertNow(FlushAdds(p), item).current;
            item in Union(AllLeft(Inserted(ErasedItem(p, item), item)).buckets)
            <==> i != FirstBucket(p.buckets, item) && (item, i) !in p.toRemove
  {
    var q := Inserted(ErasedItem(p, item), item);
    EraseInsertQueues(p, item);
    hide Lands, FlushAdds, InsertNow, FirstBucket, Disjoint, AllLeft, ErasedItem, Inserted, Union;
    LastLandsAt(p, q, item);
    OneLanding(q, item, InsertNow(FlushAdds(p), item).current);
  }

  lemma EraseInsertQueues<T>(p: Pool<T>, item: T)
    requires p.Valid() && p.Reading() && Disjoint(p.buckets)
    ensures var q, i := Inserted(ErasedItem(p, item), item), FirstBucket(p.buckets, item);
            && q.Valid() && q.Reading() && q == p.(toAdd := p.toAdd + [item], toRemove := q.toRemove)
            && (forall r :: r in q.toRemove <==> r in p.toRemove || (i < |p.buckets| && r == (item, i)))
            && forall j: nat | j < |p.buckets| && item in p.buckets[j] :: j == i
  {
    OnlyBucket(p.buckets, item);
    hide FirstBucket, Disjoint;
  }

  /** A bucket with room takes it back, and then loses it. */
  lemma ErasedAndInsertedLost()
    ensures var p := Pool([{1}, {}], [], [], 1, 0, 10, false);
            p.Valid() && 1 in Union(p.buckets) && 1 !in Union(AllLeft(Inserted(ErasedItem(p, 1), 1)).buckets)
  {
    var p := Pool([{1}, {}], [], [], 1, 0, 10, false);
    assert 1 in p.buckets[0];
    EraseThenInsertExact(p, 1);
  }

  // ---------------------------------------------------------------- a reader that never leaves

  /** No more readers leave than there are others, so that one stays inside. */
  predicate OneStays<T>(ops: seq<Op<T>>, others: nat)
    decreases |ops|
  {
    ops == []
    || match ops[0]
       case AcquireRead => OneStays(ops[1..], others + 1)
       case ReleaseRead => others > 0 && OneStays(ops[1..], others - 1)
       case _ => OneStays(ops[1..], others)
  }

  /**
   If a reader never leaves, nothing that is queued is ever carried out, and as soon as
   anything is queued no other reader gets in until a stop is requested.
   */
  lemma {:induction false} LeftOpen<T>(p: Pool<T>, ops: seq<Op<T>>, others: nat)
    requires p.Valid() && CanRun(p, ops) && p.readers > others && OneStays(ops, others)
    ensures ReadThroughout(p, ops) && Run(p, ops).buckets == p.buckets
    ensures p.WritePending() && !p.stopped && Op.Stop !in ops ==> Op.AcquireRead !in ops && !Enabled(Run(p, ops), AcquireRead)
    decreases |ops|
  {
    hide FirstBucket, MeetsAll;
    if ops != [] {
      assert ops == [ops[0]] + ops[1..];
      var left := match ops[0] case AcquireRead => others + 1 case ReleaseRead => others - 1 case _ => others;
      LeftOpen(Step(p, ops[0]), ops[1..], left);
    }
  }
}
