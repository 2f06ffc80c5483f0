/**
 What the not-seen pool promises the short id map: it holds only known hashes, even when
 a hash is erased and inserted again while readers are inside.
 */
module PoolTracking {
  import opened BucketContainers
  import opened ReadWindows

  /** Who is queued for addition is known, and if a bucket holds it, it is queued for removal there. */
  ghost predicate AddsKnown<T>(p: Pool<T>, known: set<T>) {
    && QueuedOnce(p.toAdd) && (forall x | x in p.toAdd :: x in known)
    && forall x, i | x in p.toAdd && 0 <= i < |p.buckets| && x in p.buckets[i] :: (x, i) in p.toRemove
  }

  /** Whatever a bucket holds is known or on its way out. */
  ghost predicate BucketsKnown<T>(buckets: seq<set<T>>, queue: seq<(T, nat)>, known: set<T>) {
    forall x, i | 0 <= i < |buckets| && x in buckets[i] :: x in known || (x, i) in queue
  }

  /** No item stays in two buckets. */
  ghost predicate ApartAtLast<T>(buckets: seq<set<T>>, queue: seq<(T, nat)>) {
    forall x, i, j | 0 <= i < j < |buckets| && x in buckets[i] && x in buckets[j] :: (x, i) in queue || (x, j) in queue
  }

  /** What holds while queued writes are carried out. */
  ghost predicate Tracking<T>(p: Pool<T>, known: set<T>) {
    p.Valid() && AddsKnown(p, known) && BucketsKnown(p.buckets, p.toRemove, known) && ApartAtLast(p.buckets, p.toRemove)
  }

  /** What holds between the operations. */
  ghost predicate Tracked<T>(p: Pool<T>, known: set<T>) {
    Tracking(p, known) && Disjoint(p.buckets) && (p.WritePending() ==> p.Reading())
  }

  /** With nobody reading, the pool is a subset of what is known. */
  lemma OnlyKnown<T>(p: Pool<T>, known: set<T>)
    requires Tracked(p, known) && !p.Reading()
    ensures Union(p.buckets) <= known
  {
  }

  lemma NothingTracked<T>(p: Pool<T>)
    requires p.Valid() && p.toAdd == [] && p.toRemove == [] && forall i | 0 <= i < |p.buckets| :: p.buckets[i] == {}
    ensures Tracked(p, {})
  {
  }

  // ---------------------------------------------------------------- the flush

  lemma InsertTracking<T>(buckets: seq<set<T>>, queue: seq<(T, nat)>, known: set<T>, item: T, idx: nat)
    requires idx < |buckets| && BucketsKnown(buckets, queue, known) && ApartAtLast(buckets, queue)
    requires item in known && forall i | 0 <= i < |buckets| && item in buckets[i] :: (item, i) in queue
    ensures var after := buckets[idx := buckets[idx] + {item}];
            BucketsKnown(after, queue, known) && ApartAtLast(after, queue)
  {
    var after := buckets[idx := buckets[idx] + {item}];
    forall x, i, j | 0 <= i < j < |after| && x in after[i] && x in after[j]
      ensures (x, i) in queue || (x, j) in queue
    {
      if x == item {
        assert i != idx ==> x in buckets[i];
        assert j != idx ==> x in buckets[j];
      } else {
        assert x in buckets[i] && x in buckets[j];
      }
    }
  }

  lemma FlushAddTracking<T>(p: Pool<T>, known: set<T>)
    requires Tracking(p, known) && p.toAdd != []
    ensures Tracking(InsertNow(p.(toAdd := p.toAdd[1..]), p.toAdd[0]), known)
  {
    hide BucketsKnown, ApartAtLast;
    var x, rest := p.toAdd[0], p.toAdd[1..];
    var q := InsertNow(p.(toAdd := rest), x);
    QueuedOnceFront(p.toAdd);
    InsertTracking(p.buckets, p.toRemove, known, x, q.current);
    forall y, i | y in rest && 0 <= i < |q.buckets| && y in q.buckets[i]
      ensures (y, i) in q.toRemove
    {
      assert y in p.toAdd && y in p.buckets[i];
    }
  }

  lemma {:induction false} FlushAddsTracking<T>(p: Pool<T>, known: set<T>)
    requires Tracking(p, known)
    ensures Tracking(FlushAdds(p), known)
    decreases |p.toAdd|
  {
    TrackingValid(p, known);
    hide Tracking, InsertNow;
    if p.toAdd != [] {
      FlushAddTracking(p, known);
      FlushAddsTracking(InsertNow(p.(toAdd := p.toAdd[1..]), p.toAdd[0]), known);
    }
  }

  lemma TrackingValid<T>(p: Pool<T>, known: set<T>)
    requires Tracking(p, known)
    ensures p.Valid()
  {
  }

  lemma RemoveTracking<T>(buckets: seq<set<T>>, queue: seq<(T, nat)>, known: set<T>)
    requires queue != [] && queue[0].1 < |buckets|
    requires BucketsKnown(buckets, queue, known) && ApartAtLast(buckets, queue)
    ensures var after := buckets[queue[0].1 := buckets[queue[0].1] - {queue[0].0}];
            BucketsKnown(after, queue[1..], known) && ApartAtLast(after, queue[1..])
  {
    var after := buckets[queue[0].1 := buckets[queue[0].1] - {queue[0].0}];
    assert forall x, i | 0 <= i < |after| && x in after[i] :: x in buckets[i] && (x, i) != queue[0];
    assert forall r | r in queue && r != queue[0] :: r in queue[1..];
  }

  lemma FlushRemoveTracking<T>(p: Pool<T>, known: set<T>)
    requires Tracking(p, known) && p.toRemove != [] && p.toAdd == []
    ensures p.toRemove[0] in p.toRemove && p.toRemove[0].1 < |p.buckets|
    ensures Tracking(RemoveAt(p.(toRemove := p.toRemove[1..]), p.toRemove[0].0, p.toRemove[0].1), known)
  {
    hide BucketsKnown, ApartAtLast;
    assert p.toRemove[0] in p.toRemove;
    RemoveTracking(p.buckets, p.toRemove, known);
  }

  lemma {:induction false} FlushRemovesTracking<T>(p: Pool<T>, known: set<T>)
    requires Tracking(p, known) && p.toAdd == []
    ensures Tracking(FlushRemoves(p), known)
    decreases |p.toRemove|
  {
    TrackingValid(p, known);
    hide Tracking, RemoveAt;
    if p.toRemove != [] {
      FlushRemoveTracking(p, known);
      FlushRemovesTracking(RemoveAt(p.(toRemove := p.toRemove[1..]), p.toRemove[0].0, p.toRemove[0].1), known);
    }
  }

  // ---------------------------------------------------------------- the operations

  /** Entering and leaving never make the pool hold an unknown item. */
  lemma ReadersKeepTracked<T>(p: Pool<T>, known: set<T>)
    requires Tracked(p, known)
    ensures Enabled(p, AcquireRead) ==> Tracked(Step(p, AcquireRead), known)
    ensures Enabled(p, ReleaseRead) ==> Tracked(Step(p, ReleaseRead), known)
  {
    hide BucketsKnown, AddsKnown, ApartAtLast, FlushAdds, FlushRemoves, Disjoint;
    if p.Reading() {
      var q := p.(readers := p.readers - 1);
      LessReaders(p, known);
      FlushAddsTracking(q, known);
      FlushRemovesTracking(FlushAdds(q), known);
      SettledApart(FlushRemoves(FlushAdds(q)), known);
    }
    LessReaders(p, known);
  }

  lemma LessReaders<T>(p: Pool<T>, known: set<T>)
    requires Tracking(p, known)
    ensures p.Reading() ==> Tracking(p.(readers := p.readers - 1), known)
    ensures Tracking(p.(readers := p.readers + 1), known)
  {
  }

  lemma SettledApart<T>(p: Pool<T>, known: set<T>)
    requires Tracking(p, known) && p.toRemove == []
    ensures Disjoint(p.buckets)
  {
  }

  lemma InsertNowTracked<T>(p: Pool<T>, known: set<T>, item: T)
    requires Tracked(p, known) && item !in known && !p.Reading()
    ensures Tracked(InsertNow(p, item), known + {item})
  {
    var q := InsertNow(p, item);
    assert forall i | 0 <= i < |p.buckets| :: item !in p.buckets[i];
    assert forall x, i | 0 <= i < |q.buckets| && x in q.buckets[i] :: x == item || x in p.buckets[i];
    InsertTracking(p.buckets, p.toRemove, known + {item}, item, q.current);
    hide InsertNow, BucketsKnown, ApartAtLast;
    SettledApart(q, known + {item});
  }

  /** A hash that was unknown goes in, to be known from now on. */
  lemma InsertKeepsTracked<T>(p: Pool<T>, known: set<T>, item: T)
    requires Tracked(p, known) && item !in known
    ensures Tracked(Inserted(p, item), known + {item})
  {
    if p.Reading() {
      hide ApartAtLast, Disjoint;
      assert item !in p.toAdd;
      assert forall x | x in p.toAdd + [item] :: x in p.toAdd || x == item;
    } else {
      hide Tracked, InsertNow;
      InsertNowTracked(p, known, item);
    }
  }

  /** A hash that is taken out may stay known. */
  lemma EraseKeepsTracked<T>(p: Pool<T>, known: set<T>, item: T)
    requires Tracked(p, known)
    ensures Tracked(ErasedItem(p, item), known)
  {
    hide FirstBucket, FlushAdds, FlushRemoves;
    OnlyBucket(p.buckets, item);
    var i := FirstBucket(p.buckets, item);
    if p.Reading() && i < |p.buckets| {
      var queue := p.toRemove + [(item, i)];
      assert forall r | r in p.toRemove :: r in queue;
      assert forall r | r in queue :: r in p.toRemove || r == (item, i);
    }
  }

  /** A hash that is taken out may be forgotten, unless it is queued for addition. */
  lemma EraseForgets<T>(p: Pool<T>, known: set<T>, item: T)
    requires Tracked(p, known) && item !in p.toAdd
    ensures Tracked(ErasedItem(p, item), known - {item})
  {
    EraseKeepsTracked(p, known, item);
    hide FirstBucket;
    OnlyBucket(p.buckets, item);
    var q := ErasedItem(p, item);
    forall x, i | 0 <= i < |q.buckets| && x in q.buckets[i]
      ensures x in known - {item} || (x, i) in q.toRemove
    {
      if x == item {
        assert x in p.buckets[i];
        assert (item, i) == q.toRemove[|q.toRemove| - 1];
      }
    }
  }

  /** Clearing forgets all, if nothing is queued for addition. */
  lemma ClearForgets<T>(p: Pool<T>, known: set<T>, order: seq<(T, nat)>)
    requires Tracked(p, known) && Enabled(p, Clear(order)) && p.toAdd == []
    ensures Tracked(Cleared(p, order), {})
  {
    if p.Reading() {
      var queue := p.toRemove + order;
      assert forall r | r in order :: r in queue;
      hide ApartAtLast;
      assert BucketsKnown(p.buckets, queue, {});
      assert ApartAtLast(p.buckets, queue) by {
        ApartFromDisjoint(p.buckets, queue);
      }
    }
  }

  lemma ApartFromDisjoint<T>(buckets: seq<set<T>>, queue: seq<(T, nat)>)
    requires Disjoint(buckets)
    ensures ApartAtLast(buckets, queue)
  {
  }

  // ---------------------------------------------------------------- taken out while it is queued

  /** What is queued for addition has to be known. */
  lemma QueuedIsKnown<T>(p: Pool<T>, known: set<T>)
    ensures Tracked(p, known) ==> forall x | x in p.toAdd :: x in known
  {
  }

  /**
   Taken out while it is queued for addition, a hash is in the pool again when all readers
   have left, exactly if it lands in a bucket from which it is not queued for removal.
   */
  lemma ErasedComesBackExact<T>(p: Pool<T>, known: set<T>, item: T)
    requires Tracked(p, known) && item in p.toAdd
    ensures p.Valid()
    ensures item in Union(AllLeft(ErasedItem(p, item)).buckets) <==> exists i: nat :: Lands(p, item, i) && (item, i) !in p.toRemove
  {
    hide FirstBucket, Lands, AllLeft;
    var q := ErasedItem(p, item);
    ErasedQueue(p, known, item);
    WindowExact(q, item);
    forall i: nat | i < |p.buckets|
      ensures StaysIn(q, item, i) <==> Lands(p, item, i) && (item, i) !in p.toRemove
    {
      SameLands(p, q, item, i);
    }
    if i: nat :| Lands(p, item, i) && (item, i) !in p.toRemove {
      LandsWasQueued(p, item, i);
      assert StaysIn(q, item, i);
    }
  }

  /** An item in a bucket is already queued for removal there, so taking it out queues nothing new. */
  lemma ErasedQueue<T>(p: Pool<T>, known: set<T>, item: T)
    requires Tracked(p, known) && item in p.toAdd
    ensures var q := ErasedItem(p, item);
            && q == p.(toRemove := q.toRemove)
            && forall r :: r in q.toRemove <==> r in p.toRemove
  {
    hide FirstBucket;
  }
}
