/** How the dispatch loops spread transactions over the pool of sub-tasks. */
module Partition {
  import opened Bytes

  /** How many transactions make a bulk. */
  function BulkSize(txCount: nat, poolSize: nat, minimalTxCount: nat): (r: nat)
    requires poolSize >= 1
    ensures r >= 1
  {
    Max(txCount / poolSize, Max(poolSize, minimalTxCount))
  }

  /** The sub-task that is current when transaction `count` is reached. */
  function TaskIndex(count: nat, bulk: nat, poolSize: nat): (r: nat)
    requires bulk >= 1 && poolSize >= 1
    ensures r < poolSize
  {
    Min(count / bulk, poolSize - 1)
  }

  lemma DivNext(c: nat, b: nat)
    requires b >= 1 && c >= 1
    ensures (c - 1) / b <= c / b <= (c - 1) / b + 1
    ensures c / b != (c - 1) / b ==> c == (c / b) * b
  {
    var q, r := (c - 1) / b, (c - 1) % b;
    assert c - 1 == b * q + r;
    if r + 1 < b {
      DivUnique(c, b, q, r + 1);
    } else {
      assert c == b * q + b == b * (q + 1);
      DivUnique(c, b, q + 1, 0);
    }
  }

  lemma {:induction false} MulStrict(b: nat, x: nat, y: nat)
    requires x < y
    ensures b * x + b <= b * y
  {
    assert b * y == b * (y - 1) + b;
    if x < y - 1 {
      MulStrict(b, x, y - 1);
    }
  }

  lemma DivUnique(c: nat, b: nat, q: nat, r: nat)
    requires b >= 1 && r < b && c == b * q + r
    ensures c / b == q
  {
    var q' := c / b;
    assert c == b * q' + c % b;
    if q' < q {
      MulStrict(b, q', q);
    } else if q < q' {
      MulStrict(b, q, q');
    }
  }

  /** The index rises by at most one, and when it rises a full bulk lies behind. */
  lemma TaskIndexNext(count: nat, bulk: nat, poolSize: nat)
    requires bulk >= 1 && poolSize >= 1 && count >= 1
    ensures TaskIndex(count - 1, bulk, poolSize) <= TaskIndex(count, bulk, poolSize)
    ensures TaskIndex(count, bulk, poolSize) <= TaskIndex(count - 1, bulk, poolSize) + 1
    ensures TaskIndex(count, bulk, poolSize) != TaskIndex(count - 1, bulk, poolSize)
            ==> count == TaskIndex(count, bulk, poolSize) * bulk
  {
    DivNext(count, bulk);
  }

  lemma TaskIndexStart(bulk: nat, poolSize: nat)
    requires bulk >= 1 && poolSize >= 1
    ensures TaskIndex(0, bulk, poolSize) == 0
  {
    DivUnique(0, bulk, 0, 0);
  }

  /** `n` bulks that tile the transactions 0 up to `total`: consecutive, disjoint and complete. */
  ghost predicate Cuts(cuts: seq<nat>, n: nat, total: nat) {
    && |cuts| == n + 1 && cuts[0] == 0 && cuts[n] == total
    && forall i, j | 0 <= i <= j <= n :: cuts[i] <= cuts[j]
  }

  /** The sub-task of the last transaction. */
  function LastIndex(txCount: nat, bulk: nat, poolSize: nat): (r: nat)
    requires bulk >= 1 && poolSize >= 1
    ensures r < poolSize
  {
    if txCount == 0 then 0 else TaskIndex(txCount - 1, bulk, poolSize)
  }

  /** Where the bulks begin, and where the last one ends. */
  function BulkCuts(txCount: nat, bulk: nat, poolSize: nat): (cuts: seq<nat>)
    requires bulk >= 1 && poolSize >= 1
    ensures |cuts| == LastIndex(txCount, bulk, poolSize) + 2 && Cuts(cuts, |cuts| - 1, txCount)
  {
    var cuts := seq(LastIndex(txCount, bulk, poolSize) + 1, k => k * bulk) + [txCount];
    BulksTile(cuts, txCount, bulk, poolSize);
    cuts
  }

  lemma BulksTile(cuts: seq<nat>, txCount: nat, bulk: nat, poolSize: nat)
    requires bulk >= 1 && poolSize >= 1 && |cuts| == LastIndex(txCount, bulk, poolSize) + 2
    requires (forall k | 0 <= k < |cuts| - 1 :: cuts[k] == k * bulk) && cuts[|cuts| - 1] == txCount
    ensures Cuts(cuts, |cuts| - 1, txCount)
  {
    var last := LastIndex(txCount, bulk, poolSize);
    forall i, j | 0 <= i <= j <= last
      ensures i * bulk <= j * bulk <= txCount
    {
      MulMonotone(i, j, bulk);
      MulMonotone(j, last, bulk);
      if txCount > 0 {
        MulMonotone(last, (txCount - 1) / bulk, bulk);
        assert txCount - 1 == bulk * ((txCount - 1) / bulk) + (txCount - 1) % bulk;
      } else {
        assert j * bulk == 0;
      }
    }
  }

  lemma MulMonotone(x: nat, y: nat, b: nat)
    requires x <= y
    ensures x * b <= y * b
  {
  }

  lemma DivMonotone(x: nat, y: nat, b: nat)
    requires b >= 1 && x <= y
    ensures x / b <= y / b
  {
    assert x == b * (x / b) + x % b && y == b * (y / b) + y % b;
    if y / b < x / b {
      MulStrict(b, y / b, x / b);
    }
  }
}
