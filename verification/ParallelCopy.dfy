/**
 Sub-tasks that rebuild a block inside one shared buffer.

 The main thread cuts the block into consecutive bulks and hands one bulk to each
 sub-task, extending the shared buffer before it enqueues. The sub-tasks then copy
 their chunks at offsets that were computed beforehand, while the main thread goes on
 enqueueing and, for Bitcoin, copies the block header. Every atomic action is one call
 that touches the shared buffer. `Next` lets any thread take the next action, so a
 `Run` is an arbitrary schedule, and what is proved of runs holds for all of them.
 */
module ParallelCopy {
  import opened Bytes
  import opened Buffers

  function Flatten(chunks: seq<seq<byte>>): seq<byte> {
    if chunks == [] then [] else Flatten(chunks[..|chunks| - 1]) + chunks[|chunks| - 1]
  }

  lemma FlattenSnoc(chunks: seq<seq<byte>>, x: seq<byte>)
    ensures Flatten(chunks + [x]) == Flatten(chunks) + x
  {
    assert (chunks + [x])[..|chunks|] == chunks;
  }

  lemma {:induction false} FlattenAppend(a: seq<seq<byte>>, b: seq<seq<byte>>)
    ensures Flatten(a + b) == Flatten(a) + Flatten(b)
  {
    if b == [] {
      assert a + b == a;
    } else {
      var b' := b[..|b| - 1];
      FlattenAppend(a, b');
      assert (a + b)[..|a + b| - 1] == a + b';
    }
  }

  /**
   What is to be copied where: the chunks in order, the offset of the first, and the
   cuts between the bulks. Task k copies the chunks from `cuts[k]` up to `cuts[k + 1]`.
   */
  datatype Plan = Plan(chunks: seq<seq<byte>>, base: nat, cuts: seq<nat>, header: seq<byte>, extendLast: bool) {
    function Tasks(): nat
      requires |cuts| >= 1
    {
      |cuts| - 1
    }

    ghost predicate Valid() {
      && |cuts| >= 2 && cuts[0] == 0 && cuts[Tasks()] == |chunks|
      && (forall i, j | 0 <= i <= j < |cuts| :: cuts[i] <= cuts[j])
      && |header| <= base
    }

    /** The offset of chunk j; the end of the block for j one past the last chunk. */
    function Off(j: nat): nat
      requires j <= |chunks|
    {
      base + |Flatten(chunks[..j])|
    }

    /** Up to where the buffer is extended before anything is copied behind the header. */
    function Extent(): nat
      requires |cuts| >= 2 && cuts[|cuts| - 2] <= |chunks|
    {
      Off(if extendLast then |chunks| else cuts[|cuts| - 2])
    }

    lemma OffStep(j: nat)
      requires j < |chunks|
      ensures Off(j + 1) == Off(j) + |chunks[j]|
    {
      assert chunks[..j + 1] == chunks[..j] + [chunks[j]];
      FlattenSnoc(chunks[..j], chunks[j]);
    }

    lemma OffMonotone(i: nat, j: nat)
      requires i <= j <= |chunks|
      ensures base <= Off(i) <= Off(j)
    {
      assert chunks[..j] == chunks[..i] + chunks[i..j];
      FlattenAppend(chunks[..i], chunks[i..j]);
    }
  }

  /** Where a sub-task is: its next chunk, and the output offset it carries along. */
  datatype Cursor = Cursor(next: nat, at: nat)

  datatype State = State(buf: Buffer, enqueued: nat, headerDone: bool, tasks: seq<Cursor>)

  ghost predicate Init(p: Plan, s: State)
    requires p.Valid()
  {
    && s.buf.Valid() && p.cuts[p.Tasks() - 1] <= |p.chunks| && p.Extent() <= s.buf.capacity
    && s.buf.length == (if p.extendLast then 0 else p.base)
    && s.enqueued == 0
    && s.headerDone == (p.header == [])
    && |s.tasks| == p.Tasks()
    && (forall k | 0 <= k < p.Tasks() :: s.tasks[k] == Cursor(p.cuts[k], p.Off(p.cuts[k])))
  }

  /** Whether the buffer is extended to the end of bulk k before task k is enqueued. */
  predicate Extends(p: Plan, k: nat)
    requires |p.cuts| >= 1
  {
    p.extendLast || k + 1 < p.Tasks()
  }

  /** The main thread extends the buffer and enqueues the next task. */
  ghost predicate EnqueueStep(p: Plan, s: State, t: State)
    requires p.Valid() && s.buf.Valid()
  {
    && s.enqueued < p.Tasks()
    && t == s.(enqueued := s.enqueued + 1,
               buf := if Extends(p, s.enqueued) then s.buf.Resize(p.Off(p.cuts[s.enqueued + 1])) else s.buf)
  }

  /** The main thread copies the header, after the last task was enqueued. */
  ghost predicate HeaderStep(p: Plan, s: State, t: State)
    requires p.Valid() && s.buf.Valid()
  {
    && s.enqueued == p.Tasks() && !s.headerDone
    && t == s.(headerDone := true, buf := s.buf.CopyFromBuffer(p.header, 0, 0, |p.header|))
  }

  /** One chunk into the shared buffer; an empty chunk is skipped. */
  function CopyChunk(buf: Buffer, at: nat, chunk: seq<byte>): Buffer
    requires buf.Valid()
  {
    if chunk == [] then buf else buf.CopyFromBuffer(chunk, at, 0, |chunk|)
  }

  /** An enqueued sub-task copies its next chunk to its output offset. */
  ghost predicate CopyStep(p: Plan, s: State, t: State, k: nat)
    requires p.Valid() && s.buf.Valid()
  {
    && k < |s.tasks| && k < s.enqueued && k < p.Tasks()
    && s.tasks[k].next < p.cuts[k + 1] <= |p.chunks|
    && var Cursor(j, at) := s.tasks[k];
       t == s.(buf := CopyChunk(s.buf, at, p.chunks[j]),
               tasks := s.tasks[k := Cursor(j + 1, at + |p.chunks[j]|)])
  }

  ghost predicate Next(p: Plan, s: State, t: State)
    requires p.Valid() && s.buf.Valid()
  {
    EnqueueStep(p, s, t) || HeaderStep(p, s, t) || exists k: nat :: CopyStep(p, s, t, k)
  }

  /** The buffer length at each moment: it follows the enqueued bulks, except behind an unextended last bulk. */
  ghost predicate LengthInv(p: Plan, s: State)
    requires p.Valid() && |s.tasks| == p.Tasks() && s.enqueued <= p.Tasks()
  {
    && p.cuts[s.enqueued] <= |p.chunks|
    && s.buf.length ==
       if s.enqueued == 0 then (if p.extendLast then 0 else p.base)
       else if Extends(p, s.enqueued - 1) then p.Off(p.cuts[s.enqueued])
       else s.tasks[p.Tasks() - 1].at
  }

  ghost predicate CursorInv(p: Plan, s: State, k: nat)
    requires p.Valid() && |s.tasks| == p.Tasks() && k < p.Tasks()
  {
    && p.cuts[k] <= s.tasks[k].next <= p.cuts[k + 1] <= |p.chunks|
    && s.tasks[k].at == p.Off(s.tasks[k].next)
    && (k >= s.enqueued ==> s.tasks[k].next == p.cuts[k])
  }

  /** Every chunk behind a cursor is in place. */
  ghost predicate CopiedInv(p: Plan, s: State, k: nat)
    requires p.Valid() && |s.tasks| == p.Tasks() && k < p.Tasks()
  {
    forall j | p.cuts[k] <= j < s.tasks[k].next && j < |p.chunks| :: At(s.buf.store, p.Off(j), p.chunks[j])
  }

  ghost predicate Inv(p: Plan, s: State)
    requires p.Valid()
  {
    && s.buf.Valid() && p.cuts[p.Tasks() - 1] <= |p.chunks| && p.Extent() <= s.buf.capacity
    && |s.tasks| == p.Tasks() && s.enqueued <= p.Tasks()
    && LengthInv(p, s)
    && (forall k | 0 <= k < p.Tasks() :: CursorInv(p, s, k))
    && (forall k | 0 <= k < p.Tasks() :: CopiedInv(p, s, k))
    && (s.headerDone ==> At(s.buf.store, 0, p.header))
  }

  ghost predicate Done(p: Plan, s: State)
    requires p.Valid()
  {
    && s.enqueued == p.Tasks() && s.headerDone && |s.tasks| == p.Tasks()
    && forall k | 0 <= k < p.Tasks() :: s.tasks[k].next == p.cuts[k + 1]
  }

  /** Some thread can act. */
  ghost predicate CanAct(p: Plan, s: State)
    requires p.Valid() && s.buf.Valid()
  {
    exists t :: Next(p, s, t)
  }

  /** A schedule: a state sequence that starts initially and lets one thread act at each step. */
  ghost predicate Run(p: Plan, run: seq<State>)
    requires p.Valid()
  {
    && run != [] && Init(p, run[0])
    && (forall i | 0 <= i < |run| :: run[i].buf.Valid())
    && forall i | 0 <= i < |run| - 1 :: Next(p, run[i], run[i + 1])
  }

  // ---------------------------------------------------------------- proofs

  lemma InitInv(p: Plan, s: State)
    requires p.Valid() && Init(p, s)
    ensures Inv(p, s)
  {
    forall k | 0 <= k < p.Tasks()
      ensures CursorInv(p, s, k) && CopiedInv(p, s, k)
    {
      assert p.cuts[k] <= p.cuts[k + 1] <= p.cuts[p.Tasks()];
    }
  }

  lemma EnqueueInv(p: Plan, s: State, t: State)
    requires p.Valid() && Inv(p, s) && EnqueueStep(p, s, t)
    ensures Inv(p, t)
  {
    assert CursorInv(p, s, s.enqueued);
    p.OffMonotone(p.cuts[s.enqueued + 1], |p.chunks|);
    forall k | 0 <= k < p.Tasks()
      ensures CursorInv(p, t, k) && CopiedInv(p, t, k)
    {
      assert CursorInv(p, s, k) && CopiedInv(p, s, k);
    }
    assert LengthInv(p, s);
  }

  lemma HeaderInv(p: Plan, s: State, t: State)
    requires p.Valid() && Inv(p, s) && HeaderStep(p, s, t)
    ensures Inv(p, t)
    ensures t.buf.length == s.buf.length
  {
    var m := p.Tasks();
    assert CursorInv(p, s, m - 1);
    p.OffMonotone(s.tasks[m - 1].next, |p.chunks|);
    p.OffMonotone(p.cuts[m], |p.chunks|);
    forall k | 0 <= k < m
      ensures CursorInv(p, t, k) && CopiedInv(p, t, k)
    {
      assert CursorInv(p, s, k) && CopiedInv(p, s, k);
      forall j | p.cuts[k] <= j < s.tasks[k].next && j < |p.chunks|
        ensures At(t.buf.store, p.Off(j), p.chunks[j])
      {
        p.OffMonotone(j, |p.chunks|);
        assert At(s.buf.store, p.Off(j), p.chunks[j]);
        CopyElsewhere(s.buf, p.header, 0, 0, |p.header|, p.Off(j), p.Off(j) + |p.chunks[j]|);
      }
    }
  }

  /** Two different chunks never share a byte. */
  lemma ChunksDisjoint(p: Plan, i: nat, j: nat)
    requires i < |p.chunks| && j < |p.chunks| && i != j
    ensures p.Off(i) + |p.chunks[i]| <= p.Off(j) || p.Off(j) + |p.chunks[j]| <= p.Off(i)
  {
    p.OffStep(i);
    p.OffStep(j);
    if i < j { p.OffMonotone(i + 1, j); } else { p.OffMonotone(j + 1, i); }
  }

  /** A chunk fits below the buffer length, unless it belongs to an unextended last bulk and lands right behind it. */
  lemma ChunkRoom(p: Plan, s: State, k: nat)
    requires p.Valid() && Inv(p, s)
    requires k < s.enqueued && s.tasks[k].next < p.cuts[k + 1]
    ensures var Cursor(j, at) := s.tasks[k];
            && j < |p.chunks| && at == p.Off(j) && at + |p.chunks[j]| <= p.Off(|p.chunks|)
            && (at + |p.chunks[j]| <= s.buf.length || (k == p.Tasks() - 1 && !p.extendLast && at == s.buf.length))
  {
    assert CursorInv(p, s, k);
    var j := s.tasks[k].next;
    p.OffStep(j);
    p.OffMonotone(j + 1, |p.chunks|);
    p.OffMonotone(j + 1, p.cuts[k + 1]);
    if Extends(p, s.enqueued - 1) {
      assert p.cuts[k + 1] <= p.cuts[s.enqueued];
      p.OffMonotone(p.cuts[k + 1], p.cuts[s.enqueued]);
    } else if k < p.Tasks() - 1 {
      assert CursorInv(p, s, p.Tasks() - 1);
      assert p.cuts[k + 1] <= p.cuts[p.Tasks() - 1];
      p.OffMonotone(p.cuts[k + 1], s.tasks[p.Tasks() - 1].next);
    }
  }

  lemma CopyInv(p: Plan, s: State, t: State, k: nat)
    requires p.Valid() && Inv(p, s) && CopyStep(p, s, t, k)
    ensures Inv(p, t)
    ensures p.extendLast ==> t.buf.length == s.buf.length
    ensures p.extendLast ==> t.buf.capacity == s.buf.capacity
  {
    hide At;
    ChunkRoom(p, s, k);
    var Cursor(j, at) := s.tasks[k];
    var chunk := p.chunks[j];
    p.OffStep(j);
    assert At(t.buf.store, at, chunk) by { CopyChunkPlaces(s.buf, at, chunk); }
    forall k' | 0 <= k' < p.Tasks()
      ensures CursorInv(p, t, k') && CopiedInv(p, t, k')
    {
      assert CursorInv(p, s, k') && CopiedInv(p, s, k');
      assert CursorInv(p, s, k);
      forall i | p.cuts[k'] <= i < t.tasks[k'].next && i < |p.chunks|
        ensures At(t.buf.store, p.Off(i), p.chunks[i])
      {
        if i != j {
          assert p.cuts[k'] <= i < s.tasks[k'].next;
          assert At(s.buf.store, p.Off(i), p.chunks[i]);
          ChunksDisjoint(p, i, j);
          CopyChunkKeeps(s.buf, at, chunk, p.Off(i), p.chunks[i]);
        }
      }
    }
    if s.headerDone {
      p.OffMonotone(0, j);
      CopyChunkKeeps(s.buf, at, chunk, 0, p.header);
    }
  }

  lemma CopyChunkPlaces(buf: Buffer, at: nat, chunk: seq<byte>)
    requires buf.Valid() && at <= buf.capacity
    ensures At(CopyChunk(buf, at, chunk).store, at, chunk)
  {
    assert chunk[0..|chunk|] == chunk;
  }

  lemma CopyChunkKeeps(buf: Buffer, at: nat, chunk: seq<byte>, off: nat, x: seq<byte>)
    requires buf.Valid() && At(buf.store, off, x)
    requires off + |x| <= at || at + |chunk| <= off
    ensures At(CopyChunk(buf, at, chunk).store, off, x)
  {
    if chunk != [] {
      CopyElsewhere(buf, chunk, at, 0, |chunk|, off, off + |x|);
    }
  }

  lemma NextInv(p: Plan, s: State, t: State)
    requires p.Valid() && Inv(p, s) && Next(p, s, t)
    ensures Inv(p, t)
  {
    if EnqueueStep(p, s, t) {
      EnqueueInv(p, s, t);
    } else if HeaderStep(p, s, t) {
      HeaderInv(p, s, t);
    } else {
      var k: nat :| CopyStep(p, s, t, k);
      CopyInv(p, s, t, k);
    }
  }

  /** Every state of every schedule satisfies the invariant. */
  lemma {:induction false} RunInv(p: Plan, run: seq<State>, i: nat)
    requires p.Valid() && Run(p, run) && i < |run|
    ensures Inv(p, run[i])
  {
    if i == 0 {
      InitInv(p, run[0]);
    } else {
      RunInv(p, run, i - 1);
      NextInv(p, run[i - 1], run[i]);
    }
  }

  /** Pre-extended sub-tasks never change the length of the shared buffer, in any schedule. */
  lemma SubTasksNeverResize(p: Plan, run: seq<State>, i: nat, k: nat)
    requires p.Valid() && p.extendLast && Run(p, run) && i + 1 < |run|
    requires CopyStep(p, run[i], run[i + 1], k)
    ensures run[i + 1].buf.length == run[i].buf.length
    ensures run[i + 1].buf.capacity == run[i].buf.capacity
  {
    RunInv(p, run, i);
    CopyInv(p, run[i], run[i + 1], k);
  }

  lemma {:induction false} ChunksFlatten(p: Plan, store: seq<byte>, n: nat)
    requires n <= |p.chunks| && p.base <= |store|
    requires forall j | 0 <= j < n :: At(store, p.Off(j), p.chunks[j])
    ensures At(store, p.base, Flatten(p.chunks[..n]))
  {
    if n > 0 {
      ChunksFlatten(p, store, n - 1);
      assert p.chunks[..n] == p.chunks[..n - 1] + [p.chunks[n - 1]];
      FlattenSnoc(p.chunks[..n - 1], p.chunks[n - 1]);
      AtJoin(store, p.base, Flatten(p.chunks[..n - 1]), p.chunks[n - 1]);
    }
  }

  /** The task that chunk j belongs to. */
  lemma {:induction false} OwnerExists(cuts: seq<nat>, j: nat) returns (k: nat)
    requires |cuts| >= 2 && cuts[0] <= j < cuts[|cuts| - 1]
    ensures k < |cuts| - 1 && cuts[k] <= j < cuts[k + 1]
    decreases |cuts|
  {
    if cuts[|cuts| - 2] <= j {
      k := |cuts| - 2;
    } else {
      k := OwnerExists(cuts[..|cuts| - 1], j);
    }
  }

  /** When everything is done, the buffer holds the header and all chunks, and nothing behind them. */
  lemma DoneContents(p: Plan, s: State)
    requires p.Valid() && Inv(p, s) && Done(p, s)
    ensures s.buf.length == p.Off(|p.chunks|)
    ensures At(s.buf.store, 0, p.header)
    ensures At(s.buf.store, p.base, Flatten(p.chunks))
  {
    hide At, Flatten;
    forall j | 0 <= j < |p.chunks|
      ensures At(s.buf.store, p.Off(j), p.chunks[j])
    {
      var k := OwnerExists(p.cuts, j);
      assert CopiedInv(p, s, k);
    }
    p.OffMonotone(0, |p.chunks|);
    assert p.chunks[..|p.chunks|] == p.chunks;
    ChunksFlatten(p, s.buf.store, |p.chunks|);
    assert CursorInv(p, s, p.Tasks() - 1);
  }

  /** Schedule independence: however the threads interleaved, the finished buffer is the same. */
  lemma ScheduleIndependent(p: Plan, run: seq<State>)
    requires p.Valid() && Run(p, run)
    requires Done(p, run[|run| - 1])
    ensures var buf := run[|run| - 1].buf;
            && buf.length == p.Off(|p.chunks|)
            && At(buf.store, 0, p.header)
            && At(buf.store, p.base, Flatten(p.chunks))
  {
    hide At, Flatten, Next, Inv, Done;
    RunInv(p, run, |run| - 1);
    DoneContents(p, run[|run| - 1]);
  }

  /** The plan's state when every task is enqueued and none has started. */
  ghost function Dispatched(p: Plan, buf: Buffer): State
    requires p.Valid()
  {
    State(buf, p.Tasks(), p.header == [],
          seq(p.Tasks(), k requires 0 <= k < p.Tasks() => CutsInside(p, k); Cursor(p.cuts[k], p.Off(p.cuts[k]))))
  }

  lemma CutsInside(p: Plan, k: nat)
    requires p.Valid() && k <= p.Tasks()
    ensures p.cuts[k] <= |p.chunks|
  {
  }

  /** A plan whose buffer has been extended is ready to run, under any schedule. */
  lemma DispatchedInv(p: Plan, buf: Buffer)
    requires p.Valid() && buf.Valid() && p.cuts[p.Tasks() - 1] <= |p.chunks|
    requires buf.length == if p.extendLast then p.Off(|p.chunks|) else p.Off(p.cuts[p.Tasks() - 1])
    ensures Inv(p, Dispatched(p, buf))
  {
    hide Flatten;
    var s := Dispatched(p, buf);
    forall k | 0 <= k < p.Tasks()
      ensures CursorInv(p, s, k) && CopiedInv(p, s, k)
    {
    }
  }

  /** A sub-task's copy, as an action of the plan. */
  lemma TakeStep(p: Plan, s: State, k: nat) returns (t: State)
    requires p.Valid() && Inv(p, s) && k < s.enqueued && s.tasks[k].next < p.cuts[k + 1] <= |p.chunks|
    ensures CopyStep(p, s, t, k) && Inv(p, t)
    ensures p.extendLast ==> t.buf.length == s.buf.length
    ensures t.buf == CopyChunk(s.buf, s.tasks[k].at, p.chunks[s.tasks[k].next])
    ensures t.enqueued == s.enqueued && t.headerDone == s.headerDone
    ensures t.tasks == s.tasks[k := Cursor(s.tasks[k].next + 1, s.tasks[k].at + |p.chunks[s.tasks[k].next]|)]
  {
    var Cursor(j, at) := s.tasks[k];
    t := s.(buf := CopyChunk(s.buf, at, p.chunks[j]), tasks := s.tasks[k := Cursor(j + 1, at + |p.chunks[j]|)]);
    CopyInv(p, s, t, k);
  }

  lemma CursorOf(p: Plan, s: State, k: nat)
    requires p.Valid() && Inv(p, s) && k < p.Tasks()
    ensures |s.tasks| == p.Tasks() && s.tasks[k].next <= |p.chunks| && s.tasks[k].at == p.Off(s.tasks[k].next)
  {
    assert CursorInv(p, s, k);
  }

  /** No schedule gets stuck: some thread can act until everything is done. */
  lemma Progress(p: Plan, s: State) returns (t: State)
    requires p.Valid() && Inv(p, s) && !Done(p, s)
    ensures Next(p, s, t)
  {
    if s.enqueued < p.Tasks() {
      t := s.(enqueued := s.enqueued + 1,
              buf := if Extends(p, s.enqueued) then s.buf.Resize(p.Off(p.cuts[s.enqueued + 1])) else s.buf);
      assert EnqueueStep(p, s, t);
    } else if !s.headerDone {
      t := s.(headerDone := true, buf := s.buf.CopyFromBuffer(p.header, 0, 0, |p.header|));
      assert HeaderStep(p, s, t);
    } else {
      var k :| 0 <= k < p.Tasks() && s.tasks[k].next != p.cuts[k + 1];
      assert CursorInv(p, s, k);
      var Cursor(j, at) := s.tasks[k];
      t := s.(buf := CopyChunk(s.buf, at, p.chunks[j]), tasks := s.tasks[k := Cursor(j + 1, at + |p.chunks[j]|)]);
      assert CopyStep(p, s, t, k);
    }
  }

  /** The actions a state still has ahead of it. */
  ghost function Remaining(p: Plan, s: State): int
    requires p.Valid()
  {
    p.Tasks() - s.enqueued + (if s.headerDone then 0 else 1) + SumNat(p.cuts) - SumNext(s.tasks)
  }

  ghost function SumNext(ts: seq<Cursor>): nat {
    if ts == [] then 0 else SumNext(ts[..|ts| - 1]) + ts[|ts| - 1].next
  }

  ghost function SumNat(xs: seq<nat>): nat {
    if xs == [] then 0 else SumNat(xs[..|xs| - 1]) + xs[|xs| - 1]
  }

  lemma {:induction false} SumNextUpdate(ts: seq<Cursor>, k: nat, c: Cursor)
    requires k < |ts|
    ensures SumNext(ts[k := c]) == SumNext(ts) - ts[k].next + c.next
  {
    var n := |ts| - 1;
    if k < n {
      SumNextUpdate(ts[..n], k, c);
      assert ts[k := c][..n] == ts[..n][k := c];
    } else {
      assert ts[k := c][..n] == ts[..n];
    }
  }

  lemma {:induction false} SumNextBound(p: Plan, s: State, m: nat)
    requires p.Valid() && Inv(p, s) && m <= p.Tasks()
    ensures SumNext(s.tasks[..m]) <= SumNat(p.cuts[..m + 1])
  {
    if m > 0 {
      SumNextBound(p, s, m - 1);
      assert CursorInv(p, s, m - 1);
      assert s.tasks[..m][..m - 1] == s.tasks[..m - 1];
      assert p.cuts[..m + 1][..m] == p.cuts[..m];
    }
  }

  /** Each action uses up one of the remaining ones. */
  lemma RunsTerminate(p: Plan, s: State, t: State)
    requires p.Valid() && Inv(p, s) && Next(p, s, t)
    ensures 0 <= Remaining(p, t) == Remaining(p, s) - 1
  {
    hide Flatten, At;
    NextInv(p, s, t);
    RemainingNonNegative(p, t);
    if !EnqueueStep(p, s, t) && !HeaderStep(p, s, t) {
      var k: nat :| CopyStep(p, s, t, k);
      SumNextUpdate(s.tasks, k, t.tasks[k]);
    }
  }

  lemma RemainingNonNegative(p: Plan, s: State)
    requires p.Valid() && Inv(p, s)
    ensures 0 <= Remaining(p, s)
  {
    SumNextBound(p, s, p.Tasks());
    assert s.tasks[..p.Tasks()] == s.tasks && p.cuts[..p.Tasks() + 1] == p.cuts;
  }

  /** How many actions a complete schedule takes: an enqueueing for each task, a copy for each chunk, and the header. */
  function Actions(p: Plan): nat
    requires |p.cuts| >= 1
  {
    p.Tasks() + |p.chunks| + if p.header == [] then 0 else 1
  }

  lemma {:induction false} SumNextAtStart(p: Plan, s: State, m: nat)
    requires p.Valid() && m <= p.Tasks() == |s.tasks| && forall k | 0 <= k < p.Tasks() :: s.tasks[k].next == p.cuts[k]
    ensures SumNext(s.tasks[..m]) == SumNat(p.cuts[..m])
  {
    if m > 0 {
      SumNextAtStart(p, s, m - 1);
      assert s.tasks[..m][..m - 1] == s.tasks[..m - 1];
      assert p.cuts[..m][..m - 1] == p.cuts[..m - 1];
    }
  }

  lemma RemainingAtStart(p: Plan, s: State)
    requires p.Valid() && Init(p, s)
    ensures Remaining(p, s) == Actions(p)
  {
    SumNextAtStart(p, s, p.Tasks());
    assert s.tasks[..p.Tasks()] == s.tasks;
    assert p.cuts[..|p.cuts| - 1] == p.cuts[..p.Tasks()];
  }

  lemma {:induction false} ActionsTaken(p: Plan, run: seq<State>, i: nat)
    requires p.Valid() && Run(p, run) && i < |run|
    ensures Remaining(p, run[i]) == Actions(p) - i
  {
    hide Inv, Next, Remaining, Init;
    if i == 0 {
      RemainingAtStart(p, run[0]);
    } else {
      ActionsTaken(p, run, i - 1);
      RunInv(p, run, i - 1);
      RunsTerminate(p, run[i - 1], run[i]);
    }
  }

  lemma {:induction false} SumNextAtEnd(p: Plan, s: State, m: nat)
    requires p.Valid() && m <= p.Tasks() == |s.tasks| && forall k | 0 <= k < p.Tasks() :: s.tasks[k].next == p.cuts[k + 1]
    ensures SumNext(s.tasks[..m]) == SumNat(p.cuts[..m + 1])
  {
    if m > 0 {
      SumNextAtEnd(p, s, m - 1);
      assert s.tasks[..m][..m - 1] == s.tasks[..m - 1];
      assert p.cuts[..m + 1][..m] == p.cuts[..m];
    }
  }

  lemma RemainingWhenDone(p: Plan, s: State)
    requires p.Valid() && Done(p, s)
    ensures Remaining(p, s) == 0
  {
    SumNextAtEnd(p, s, p.Tasks());
    assert s.tasks[..p.Tasks()] == s.tasks && p.cuts[..p.Tasks() + 1] == p.cuts;
  }

  /**
   Every schedule is done after the same number of actions and can go on until then, and
   when it is done the buffer holds the header and the chunks, and nothing behind them.
   */
  lemma EverySchedule(p: Plan, run: seq<State>)
    requires p.Valid() && Run(p, run)
    ensures |run| <= Actions(p) + 1
    ensures Done(p, run[|run| - 1]) <==> |run| == Actions(p) + 1
    ensures !Done(p, run[|run| - 1]) ==> CanAct(p, run[|run| - 1])
    ensures Done(p, run[|run| - 1]) ==>
              var buf := run[|run| - 1].buf;
              buf.length == p.Off(|p.chunks|) && At(buf.store, 0, p.header) && At(buf.store, p.base, Flatten(p.chunks))
  {
    hide At, Flatten, Inv, Next, Remaining, Init, Done;
    var last := run[|run| - 1];
    RunInv(p, run, |run| - 1);
    ActionsTaken(p, run, |run| - 1);
    RemainingNonNegative(p, last);
    if Done(p, last) {
      RemainingWhenDone(p, last);
      ScheduleIndependent(p, run);
    } else {
      var t := Progress(p, last);
      RunsTerminate(p, last, t);
    }
  }
}
