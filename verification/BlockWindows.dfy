/** The window of recent blocks: how many are tracked, and in which order they leave. */
module BlockWindows {
  import opened Bytes
  import opened Wrappers
  import opened OrderedMaps
  import opened ServiceState
  import opened ServiceRemoval
  import S = ServiceRuns

  type Window = seq<Entry<Sha256, seq<ShortId>>>

  /** The window after a block has been seen. */
  function NextWindow(window: Window, block: Sha256, sids: seq<ShortId>, n: nat): Window {
    var w := Windowed(window, block, sids);
    if |w| >= n then w[1..] else w
  }

  lemma SeenWindow(c: Containers, block: Sha256, sids: seq<ShortId>, n: nat, rs: seq<SidRemoval>)
    requires c.Valid()
    ensures SeenBlock(c, block, sids, n, rs).window == NextWindow(c.window, block, sids, n)
  {
    hide Emplaced, RemovedSids, Lookup;
    ErasedFront(Windowed(c.window, block, sids));
  }

  // ---------------------------------------------------------------- runs

  /** The window, when each of its blocks was first seen, and the blocks that were finished, with theirs. */
  datatype Tracker = Tracker(window: Window, stamps: seq<nat>, evicted: seq<(Sha256, nat)>, clock: nat)

  function PlaceOf(window: Window, block: Sha256): (p: nat)
    ensures p <= |window| && (p < |window| ==> window[p].key == block)
    ensures p < |window| <==> Has(window, block)
  {
    if window == [] then 0
    else if window[0].key == block then 0
    else
      var p := PlaceOf(window[1..], block);
      assert p < |window[1..]| ==> window[p + 1].key == block;
      assert forall i | 0 < i < |window| :: window[i] == window[1..][i - 1];
      p + 1
  }

  /** What an operation of the service means for its window. */
  function Step(t: Tracker, op: S.Op): Tracker
    requires |t.stamps| == |t.window|
  {
    match op
    case SeeBlock(block, sids, n, _) =>
      var stamps := if Has(t.window, block) then t.stamps else t.stamps + [t.clock];
      var w := Windowed(t.window, block, sids);
      Tracker(NextWindow(t.window, block, sids, n),
              if |w| >= n then stamps[1..] else stamps,
              if |w| >= n then t.evicted + [(w[0].key, stamps[0])] else t.evicted,
              t.clock + 1)
    case CleanUpBlock(block) =>
      var p := PlaceOf(t.window, block);
      Tracker(Erased(t.window, block),
              if p < |t.window| then t.stamps[..p] + t.stamps[p + 1..] else t.stamps,
              t.evicted, t.clock + 1)
    case ClearAll(_, _) => t.(window := [], stamps := [])
    case _ => t
  }

  function StampsOf(evicted: seq<(Sha256, nat)>): (r: seq<nat>)
    ensures |r| == |evicted|
  {
    seq(|evicted|, i requires 0 <= i < |evicted| => evicted[i].1)
  }

  predicate Increasing(s: seq<nat>) {
    forall i, j | 0 <= i < j < |s| :: s[i] < s[j]
  }

  predicate Below(s: seq<nat>, clock: nat) {
    forall i | 0 <= i < |s| :: s[i] < clock
  }

  /** Who was finished was seen before whoever is still tracked, and all in order. */
  ghost predicate InOrder(t: Tracker) {
    && |t.stamps| == |t.window| && Distinct(t.window)
    && Increasing(StampsOf(t.evicted) + t.stamps)
    && Below(StampsOf(t.evicted) + t.stamps, t.clock)
  }

  lemma IncreasingSnoc(s: seq<nat>, clock: nat)
    requires Increasing(s) && Below(s, clock)
    ensures Increasing(s + [clock]) && Below(s + [clock], clock + 1)
  {
  }

  lemma IncreasingWithout(s: seq<nat>, p: nat, clock: nat)
    requires Increasing(s) && p < |s| && Below(s, clock)
    ensures Increasing(s[..p] + s[p + 1..]) && Below(s[..p] + s[p + 1..], clock)
  {
  }

  lemma DistinctEmplaced(window: Window, block: Sha256, sids: seq<ShortId>)
    requires Distinct(window)
    ensures Distinct(Windowed(window, block, sids))
  {
  }

  lemma SeeKeeps(t: Tracker, block: Sha256, sids: seq<ShortId>, n: nat, rs: seq<SidRemoval>)
    requires InOrder(t)
    ensures var r := Step(t, S.SeeBlock(block, sids, n, rs));
            InOrder(r) && |r.window| <= if |t.window| + 1 < n then |t.window| + 1 else |t.window|
  {
    var all := StampsOf(t.evicted) + t.stamps;
    DistinctEmplaced(t.window, block, sids);
    var w := Windowed(t.window, block, sids);
    var stamps := if Has(t.window, block) then t.stamps else t.stamps + [t.clock];
    assert |stamps| == |w|;
    hide Has;
    if !Has(t.window, block) {
      IncreasingSnoc(all, t.clock);
      assert all + [t.clock] == StampsOf(t.evicted) + stamps;
    }
    if |w| >= n {
      var evicted := t.evicted + [(w[0].key, stamps[0])];
      assert StampsOf(evicted) + stamps[1..] == StampsOf(t.evicted) + stamps;
    }
  }

  lemma CleanUpKeeps(t: Tracker, block: Sha256)
    requires InOrder(t)
    ensures var r := Step(t, S.CleanUpBlock(block)); InOrder(r) && |r.window| <= |t.window|
  {
    hide Increasing, Below, Distinct, Erased, StampsOf, Has, PlaceOf;
    var p := PlaceOf(t.window, block);
    if p < |t.window| {
      ErasedAt(t.window, p);
      var before := StampsOf(t.evicted);
      IncreasingWithout(before + t.stamps, |before| + p, t.clock);
      WithoutInside(before, t.stamps, p);
      DistinctWithout(t.window, p);
      BelowMore(before + (t.stamps[..p] + t.stamps[p + 1..]), t.clock);
    } else {
      ErasedNothing(t.window, block);
      BelowMore(StampsOf(t.evicted) + t.stamps, t.clock);
    }
  }

  lemma BelowMore(s: seq<nat>, clock: nat)
    requires Below(s, clock)
    ensures Below(s, clock + 1)
  {
  }

  lemma WithoutInside(a: seq<nat>, b: seq<nat>, p: nat)
    requires p < |b|
    ensures (a + b)[..|a| + p] + (a + b)[|a| + p + 1..] == a + (b[..p] + b[p + 1..])
  {
  }

  lemma DistinctWithout(window: Window, p: nat)
    requires Distinct(window) && p < |window|
    ensures Distinct(window[..p] + window[p + 1..])
  {
  }

  lemma ClearKeeps(t: Tracker)
    requires InOrder(t)
    ensures InOrder(t.(window := [], stamps := []))
  {
    var all := StampsOf(t.evicted) + t.stamps;
    assert forall i | 0 <= i < |t.evicted| :: StampsOf(t.evicted)[i] == all[i];
  }

  /** Every operation keeps the order, and the window stays below the count it is given. */
  lemma StepKeeps(t: Tracker, op: S.Op, n: nat)
    requires InOrder(t) && |t.window| < n && (op.SeeBlock? ==> op.n <= n)
    ensures InOrder(Step(t, op)) && |Step(t, op).window| < n
  {
    match op
    case SeeBlock(block, sids, k, rs) => SeeKeeps(t, block, sids, k, rs);
    case CleanUpBlock(block) => CleanUpKeeps(t, block);
    case ClearAll(_, _) => ClearKeeps(t);
    case _ =>
  }

  function Run(t: Tracker, ops: seq<S.Op>): Tracker
    requires InOrder(t)
    decreases |ops|
  {
    if ops == [] then t
    else
      StepOrder(t, ops[0]);
      Run(Step(t, ops[0]), ops[1..])
  }

  lemma StepOrder(t: Tracker, op: S.Op)
    requires InOrder(t)
    ensures InOrder(Step(t, op))
  {
    StepKeeps(t, op, |t.window| + 1 + if op.SeeBlock? then op.n else 0);
  }

  lemma StepWindow(t: Tracker, c: Containers, op: S.Op)
    requires c.Valid() && S.Possible(c, op) && InOrder(t) && c.window == t.window
    ensures S.Do(c, op).window == Step(t, op).window
  {
    hide Has, Windowed, Erased, Emplaced, Lookup, SeenBlock, InOrder;
    if op.SeeBlock? {
      SeenWindow(c, op.block, op.sids, op.n, op.rs);
    }
  }

  /** After a block fewer than n are tracked exactly if at most n were together with it; a lowered count can break that. */
  lemma WindowBoundExact(c: Containers, block: Sha256, sids: seq<ShortId>, n: nat, rs: seq<SidRemoval>)
    requires c.Valid() && n >= 1
    ensures |SeenBlock(c, block, sids, n, rs).window| < n <==> |c.window| + (if Has(c.window, block) then 0 else 1) <= n
  {
    SeenWindow(c, block, sids, n, rs);
    hide SeenBlock, Lookup;
  }

  /**
   Throughout any run of the service that starts below the count, fewer than n blocks are
   tracked, and blocks are finished in the order in which they were first seen, whatever
   is cleaned up, cleared, removed and delivered in between.
   */
  lemma {:induction false} FirstSeenFirstFinished(t: Tracker, c: Containers, ops: seq<S.Op>, n: nat)
    requires c.Valid() && S.CanRun(c, ops)
    requires InOrder(t) && c.window == t.window && |t.window| < n
    requires forall i | 0 <= i < |ops| && ops[i].SeeBlock? :: ops[i].n <= n
    ensures var r := Run(t, ops);
            && S.Run(c, ops).window == r.window && |r.window| < n
            && Increasing(StampsOf(r.evicted)) && |r.stamps| == |r.window|
            && forall i, j | 0 <= i < |r.evicted| && 0 <= j < |r.stamps| :: r.evicted[i].1 < r.stamps[j]
    decreases |ops|
  {
    hide Step, S.Do, S.Possible, Increasing, Below, Distinct, StampsOf;
    if ops != [] {
      StepWindow(t, c, ops[0]);
      StepKeeps(t, ops[0], n);
      FirstSeenFirstFinished(Step(t, ops[0]), S.Do(c, ops[0]), ops[1..], n);
    } else {
      OrderSpelledOut(t);
    }
  }

  lemma OrderSpelledOut(t: Tracker)
    requires InOrder(t)
    ensures Increasing(StampsOf(t.evicted))
    ensures forall i, j | 0 <= i < |t.evicted| && 0 <= j < |t.stamps| :: t.evicted[i].1 < t.stamps[j]
  {
    var all, m := StampsOf(t.evicted) + t.stamps, |t.evicted|;
    assert forall i | 0 <= i < m :: all[i] == t.evicted[i].1;
    assert forall j | 0 <= j < |t.stamps| :: all[m + j] == t.stamps[j];
  }
}
