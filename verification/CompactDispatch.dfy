/** Which buckets of the pool get a mapping sub-task, and the sorting of the missing indices. */
module CompactDispatch {
  import opened Bytes
  import opened Wrappers
  import B = BucketContainers

  // ---------------------------------------------------------------- dispatch

  /** Non-empty buckets get a sub-task; an empty last one does if no other did. */
  predicate Enqueued(sizes: seq<nat>, idx: nat)
    requires idx < |sizes|
  {
    sizes[idx] > 0 || (idx == |sizes| - 1 && forall i | 0 <= i < idx :: sizes[i] == 0)
  }

  /** The buckets that get sub-tasks, in order. The index of the last sub-task is one less than their number. */
  method Dispatch(sizes: seq<nat>) returns (enqueued: seq<nat>, taskIdx: int)
    ensures taskIdx == |enqueued| - 1 && (sizes != [] ==> taskIdx >= 0)
    ensures forall i, j | 0 <= i < j < |enqueued| :: enqueued[i] < enqueued[j]
    ensures forall idx: nat :: idx in enqueued <==> idx < |sizes| && Enqueued(sizes, idx)
  {
    enqueued, taskIdx := [], -1;
    for idx := 0 to |sizes|
      invariant taskIdx == |enqueued| - 1
      invariant forall i | 0 <= i < |enqueued| :: enqueued[i] < idx
      invariant forall i, j | 0 <= i < j < |enqueued| :: enqueued[i] < enqueued[j]
      invariant forall i | 0 <= i < idx :: i in enqueued <==> Enqueued(sizes, i)
      invariant idx < |sizes| ==> (taskIdx < 0 <==> forall i | 0 <= i < idx :: sizes[i] == 0)
      invariant idx == |sizes| > 0 ==> taskIdx >= 0
    {
      if sizes[idx] == 0 && (idx < |sizes| - 1 || taskIdx >= 0) {
        continue;
      }
      ghost var before := enqueued;
      enqueued := enqueued + [idx];
      taskIdx := taskIdx + 1;
      assert enqueued[|before|] == idx;
      assert forall i | i in before :: i in enqueued;
    }
  }

  // ---------------------------------------------------------------- sorting

  predicate Sorted(s: seq<nat>) {
    forall i, j | 0 <= i < j < |s| :: s[i] <= s[j]
  }

  function Insert(x: nat, s: seq<nat>): seq<nat> {
    if s == [] || x <= s[0] then [x] + s else [s[0]] + Insert(x, s[1..])
  }

  lemma {:induction false} InsertKeeps(x: nat, s: seq<nat>)
    ensures multiset(Insert(x, s)) == multiset(s) + multiset{x} && |Insert(x, s)| == |s| + 1
  {
    if s != [] && x > s[0] {
      InsertKeeps(x, s[1..]);
      assert s == [s[0]] + s[1..];
    }
  }

  lemma {:induction false} InsertSorts(x: nat, s: seq<nat>, low: nat)
    requires Sorted(s) && low <= x && forall i | 0 <= i < |s| :: low <= s[i]
    ensures Sorted(Insert(x, s)) && forall i | 0 <= i < |Insert(x, s)| :: low <= Insert(x, s)[i]
    decreases |s|
  {
    if s != [] && x > s[0] {
      InsertSorts(x, s[1..], s[0]);
    }
  }

  method Sort(s: seq<nat>) returns (r: seq<nat>)
    ensures Sorted(r) && multiset(r) == multiset(s) && |r| == |s|
  {
    r := [];
    for i := 0 to |s|
      invariant Sorted(r) && multiset(r) == multiset(s[..i]) && |r| == i
    {
      InsertSorts(s[i], r, 0);
      InsertKeeps(s[i], r);
      assert s[..i + 1] == s[..i] + [s[i]];
      r := Insert(s[i], r);
    }
    assert s[..|s|] == s;
  }

  // ---------------------------------------------------------------- the pool

  ghost predicate InPool(pool: seq<set<Sha256>>, h: Sha256) {
    exists i :: 0 <= i < |pool| && h in pool[i]
  }

  /** The order lists every element of the set once. */
  ghost predicate Lists(order: seq<Sha256>, s: set<Sha256>) {
    && (forall i, j | 0 <= i < j < |order| :: order[i] != order[j])
    && (forall x | x in order :: x in s) && (forall x | x in s :: x in order)
  }

  method Meet(s: set<Sha256>) returns (order: seq<Sha256>)
    ensures Lists(order, s)
  {
    order := [];
    var rest := s;
    while rest != {}
      invariant rest <= s && Lists(order, s - rest)
      decreases rest
    {
      var x :| x in rest;
      ghost var before := order;
      order := order + [x];
      assert forall i | 0 <= i < |before| :: order[i] == before[i];
      assert order[|before|] == x;
      assert forall y | y in before :: y in order;
      rest := rest - {x};
    }
    assert s - rest == s;
  }

  /** The buckets of the sub-tasks hold exactly the hashes of the pool. */
  ghost predicate Gathers(buckets: seq<seq<Sha256>>, pool: seq<set<Sha256>>) {
    && (forall k, j | 0 <= k < |buckets| && 0 <= j < |buckets[k]| :: InPool(pool, buckets[k][j]))
    && (forall h | InPool(pool, h) :: exists k, j :: 0 <= k < |buckets| && 0 <= j < |buckets[k]| && buckets[k][j] == h)
  }

  /** And each in one place. */
  ghost predicate Covers(buckets: seq<seq<Sha256>>, pool: seq<set<Sha256>>) {
    && Gathers(buckets, pool)
    && (forall k, j, k', j' | 0 <= k < |buckets| && 0 <= j < |buckets[k]| && 0 <= k' < |buckets| && 0 <= j' < |buckets[k']|
                              && buckets[k][j] == buckets[k'][j'] :: k == k' && j == j')
  }

  ghost predicate BucketOf(buckets: seq<seq<Sha256>>, pool: seq<set<Sha256>>, enqueued: seq<nat>, k: nat) {
    k < |buckets| && k < |enqueued| && enqueued[k] < |pool| && Lists(buckets[k], pool[enqueued[k]])
  }

  lemma EnqueuedGathers(buckets: seq<seq<Sha256>>, pool: seq<set<Sha256>>, enqueued: seq<nat>)
    requires |buckets| == |enqueued| && forall k | 0 <= k < |buckets| :: BucketOf(buckets, pool, enqueued, k)
    requires forall i | 0 <= i < |pool| && pool[i] != {} :: i in enqueued
    ensures Gathers(buckets, pool)
  {
    forall k, j | 0 <= k < |buckets| && 0 <= j < |buckets[k]|
      ensures InPool(pool, buckets[k][j])
    {
      assert BucketOf(buckets, pool, enqueued, k);
    }
    forall h | InPool(pool, h)
      ensures exists k, j :: 0 <= k < |buckets| && 0 <= j < |buckets[k]| && buckets[k][j] == h
    {
      var i :| 0 <= i < |pool| && h in pool[i];
      var k :| 0 <= k < |enqueued| && enqueued[k] == i;
      assert BucketOf(buckets, pool, enqueued, k);
      assert h in buckets[k];
    }
  }

  lemma EnqueuedCovers(buckets: seq<seq<Sha256>>, pool: seq<set<Sha256>>, enqueued: seq<nat>)
    requires B.Disjoint(pool) && |buckets| == |enqueued| && forall k | 0 <= k < |buckets| :: BucketOf(buckets, pool, enqueued, k)
    requires Gathers(buckets, pool) && forall i, j | 0 <= i < j < |enqueued| :: enqueued[i] < enqueued[j]
    ensures Covers(buckets, pool)
  {
    forall k, j, k', j' | 0 <= k < |buckets| && 0 <= j < |buckets[k]| && 0 <= k' < |buckets| && 0 <= j' < |buckets[k']|
                          && buckets[k][j] == buckets[k'][j']
      ensures k == k' && j == j'
    {
      OnePlace(buckets, pool, enqueued, k, j, k', j');
    }
  }

  lemma OnePlace(buckets: seq<seq<Sha256>>, pool: seq<set<Sha256>>, enqueued: seq<nat>, k: nat, j: nat, k': nat, j': nat)
    requires B.Disjoint(pool) && BucketOf(buckets, pool, enqueued, k) && BucketOf(buckets, pool, enqueued, k')
    requires forall i, j | 0 <= i < j < |enqueued| :: enqueued[i] < enqueued[j]
    requires j < |buckets[k]| && j' < |buckets[k']| && buckets[k][j] == buckets[k'][j']
    ensures k == k' && j == j'
  {
    var a, b := enqueued[k], enqueued[k'];
    assert buckets[k][j] in pool[a] && buckets[k'][j'] in pool[b];
  }

  /** Gives every bucket that gets a sub-task an order in which it is gone over. */
  method OrderPool(pool: seq<set<Sha256>>) returns (buckets: seq<seq<Sha256>>)
    ensures Gathers(buckets, pool) && (B.Disjoint(pool) ==> Covers(buckets, pool))
  {
    var sizes := seq(|pool|, i requires 0 <= i < |pool| => |pool[i]|);
    var enqueued, taskIdx := Dispatch(sizes);
    assert forall idx | idx in enqueued :: idx < |pool|;
    buckets := [];
    for k := 0 to |enqueued|
      invariant |buckets| == k && forall i | 0 <= i < k :: BucketOf(buckets, pool, enqueued, i)
    {
      assert enqueued[k] in enqueued;
      var order := Meet(pool[enqueued[k]]);
      ghost var before := buckets;
      buckets := buckets + [order];
      forall i | 0 <= i < |buckets|
        ensures BucketOf(buckets, pool, enqueued, i)
      {
        assert i < k ==> BucketOf(before, pool, enqueued, i);
      }
    }
    forall i | 0 <= i < |pool| && pool[i] != {}
      ensures i in enqueued
    {
      assert sizes[i] > 0;
    }
    EnqueuedGathers(buckets, pool, enqueued);
    if B.Disjoint(pool) {
      EnqueuedCovers(buckets, pool, enqueued);
    }
  }
}
