/**
 What every step of the stream staging allocator keeps, and safety over whole runs:
 no two allocations that the device may still use ever share a byte.
 */
module StreamSafety {
  import opened Wrappers
  import opened StreamModel

  // ---------------------------------------------------------------- the invariant

  ghost predicate QueueOk(s: State, stream: nat)
    requires stream in s.queues
  {
    var q := s.queues[stream];
    && q.pinned <= |q.chunks|
    && (!q.open ==> q.pinned == |q.chunks|)
    && (forall j | 0 <= j < q.pinned ::
          && q.chunks[j].event.Recorded?
          && q.chunks[j].event.stream == stream
          && q.chunks[j].event.mark <= Count(s.issued, stream))
  }

  /** Events of the chunks in front of the transaction head belong to the queue's own stream. */
  ghost predicate QueuesOk(s: State) {
    forall stream | stream in s.queues :: QueueOk(s, stream)
  }

  predicate ChunkOk(c: Chunk) {
    && 0 < c.capacity && c.capacity % ALIGNMENT == 0
    && c.available <= c.capacity && c.available % ALIGNMENT == 0
    && Aligned(c.ptr)
  }

  ghost predicate ChunksOk(s: State) {
    forall l | HasLoc(s, l) :: ChunkOk(At(s, l))
  }

  /** Chunks in different places are different memory: no chunk is in two queues, or in a queue and free. */
  ghost predicate ChunksDisjoint(s: State) {
    forall l, m | HasLoc(s, l) && HasLoc(s, m) && l != m :: Disjoint(At(s, l).Extent(), At(s, m).Extent())
  }

  /** Every free chunk has the current capacity. */
  predicate FreeOk(s: State) {
    && 0 < s.capacity && s.capacity % ALIGNMENT == 0
    && forall i | 0 <= i < |s.free| :: s.free[i].capacity == s.capacity
  }

  predicate Within(c: Chunk, r: Region) {
    && c.ptr.host + c.available <= r.ptr.host
    && r.ptr.host + r.size <= c.ptr.host + c.capacity
    && r.ptr.device - c.ptr.device == r.ptr.host - c.ptr.host
  }

  /**
   Chunk `j` of the queue of `a.stream` holds `a`, in its used part, and will not be drained
   before the device is done with `a`.
   */
  ghost predicate Holds(s: State, a: Allocation, j: nat) {
    && a.stream in s.queues
    && var q := s.queues[a.stream];
    && j < |q.chunks|
    && Within(q.chunks[j], a.extent)
    && (a.mark.None? ==> q.open && q.pinned <= j)
    && (a.mark.Some? && j < q.pinned ==> q.chunks[j].event.Recorded? && a.mark.value <= q.chunks[j].event.mark)
  }

  ghost predicate AllocationOk(s: State, a: Allocation) {
    && a.extent.size % ALIGNMENT == 0
    && Aligned(a.extent.ptr)
    && (a.mark.Some? ==> a.mark.value <= Count(s.issued, a.stream))
    && (InFlight(s, a) ==> exists j: nat :: Holds(s, a, j))
  }

  ghost predicate LogOk(s: State) {
    forall k | 0 <= k < |s.log| :: AllocationOk(s, s.log[k])
  }

  /** Any two allocations the device may still use are disjoint memory. */
  ghost predicate Safe(s: State) {
    forall j, k | 0 <= j < k < |s.log| && InFlight(s, s.log[j]) && InFlight(s, s.log[k]) ::
      Disjoint(s.log[j].extent, s.log[k].extent)
  }

  ghost predicate Inv(s: State) {
    && QueuesOk(s)
    && ChunksOk(s)
    && ChunksDisjoint(s)
    && FreeOk(s)
    && LogOk(s)
    && Safe(s)
  }

  lemma InitInv()
    ensures Inv(INIT)
  {
  }

  // ---------------------------------------------------------------- chunks stay apart

  /** If every chunk of `t` is a chunk of `s`, each from another place, then they stay disjoint. */
  lemma MovedChunks(s: State, t: State, back: Loc -> Loc)
    requires ChunksDisjoint(s)
    requires forall l | HasLoc(t, l) :: HasLoc(s, back(l)) && At(s, back(l)).Extent() == At(t, l).Extent()
    requires forall l, m | HasLoc(t, l) && HasLoc(t, m) && l != m :: back(l) != back(m)
    ensures ChunksDisjoint(t)
  {
    forall l, m | HasLoc(t, l) && HasLoc(t, m) && l != m
      ensures Disjoint(At(t, l).Extent(), At(t, m).Extent())
    {
      assert Disjoint(At(s, back(l)).Extent(), At(s, back(m)).Extent());
    }
  }

  /** Different places hold chunks at different addresses. */
  lemma PlacesDiffer(s: State, l: Loc, m: Loc)
    requires ChunksOk(s) && ChunksDisjoint(s) && HasLoc(s, l) && HasLoc(s, m)
    ensures l != m ==> At(s, l).ptr.host != At(s, m).ptr.host && At(s, l).ptr.device != At(s, m).ptr.device
  {
    assert ChunkOk(At(s, l)) && ChunkOk(At(s, m));
    if l != m {
      assert Disjoint(At(s, l).Extent(), At(s, m).Extent());
    }
  }

  lemma DrainChunks(s: State, stream: nat)
    requires ChunksOk(s) && ChunksDisjoint(s) && Enabled(s, Drain(stream))
    ensures ChunksDisjoint(Apply(s, Drain(stream))) && ChunksOk(Apply(s, Drain(stream)))
  {
    var t := Apply(s, Drain(stream));
    var kept := s.queues[stream].chunks[0].capacity == s.capacity;
    var back := (l: Loc) =>
      if l.InQueue? then (if l.stream == stream then InQueue(stream, l.index + 1) else l)
      else if !kept then l
      else if l.index == 0 then InQueue(stream, 0)
      else InFree(l.index - 1);
    forall l | HasLoc(t, l) ensures HasLoc(s, back(l)) && At(s, back(l)) == At(t, l) {
    }
    MovedChunks(s, t, back);
  }

  lemma CarveQueue(q: Queue, size: nat)
    requires q.HasTail() && size <= q.Tail().available
    ensures var r := q.Carve(size);
      && |r.chunks| == |q.chunks|
      && (forall j | 0 <= j < |q.chunks| ::
            && r.chunks[j].Extent() == q.chunks[j].Extent()
            && r.chunks[j].event == q.chunks[j].event
            && r.chunks[j].available == q.chunks[j].available - (if j == |q.chunks| - 1 then size else 0))
      && r.pinned < |r.chunks|
  {
  }

  lemma CarveChunks(s: State, stream: nat, size: nat)
    requires ChunksOk(s) && ChunksDisjoint(s) && Enabled(s, Carve(stream, size))
    ensures ChunksDisjoint(Apply(s, Carve(stream, size))) && ChunksOk(Apply(s, Carve(stream, size)))
  {
    var t := Apply(s, Carve(stream, size));
    CarveQueue(s.queues[stream], size);
    forall l | HasLoc(t, l)
      ensures HasLoc(s, l) && At(s, l).Extent() == At(t, l).Extent() && ChunkOk(At(t, l))
    {
      assert ChunkOk(At(s, l));
    }
    MovedChunks(s, t, l => l);
  }

  /** Where the chunks were before one of the free list was put to use. */
  function ReusedFrom(s: State, stream: nat, l: Loc): Loc
    requires stream in s.queues
  {
    if l.InFree? then InFree(l.index + 1)
    else if l == InQueue(stream, |s.queues[stream].chunks|) then InFree(0)
    else l
  }

  lemma ReusePlaces(s: State, stream: nat, size: nat, l: Loc)
    requires Enabled(s, Reuse(stream, size)) && HasLoc(Apply(s, Reuse(stream, size)), l)
    ensures var t := Apply(s, Reuse(stream, size));
      var b := ReusedFrom(s, stream, l);
      && HasLoc(s, b) && At(s, b).Extent() == At(t, l).Extent()
      && At(t, l).available == (if b == InFree(0) then s.capacity - size else At(s, b).available)
  {
    CarveQueue(Reused(s, stream), size);
  }

  lemma ReuseChunks(s: State, stream: nat, size: nat)
    requires ChunksOk(s) && ChunksDisjoint(s) && FreeOk(s) && Enabled(s, Reuse(stream, size))
    ensures ChunksDisjoint(Apply(s, Reuse(stream, size))) && ChunksOk(Apply(s, Reuse(stream, size)))
  {
    var t := Apply(s, Reuse(stream, size));
    var back := (l: Loc) => ReusedFrom(s, stream, l);
    forall l | HasLoc(t, l)
      ensures HasLoc(s, back(l)) && At(s, back(l)).Extent() == At(t, l).Extent() && ChunkOk(At(t, l))
    {
      ReusePlaces(s, stream, size, l);
      assert ChunkOk(At(s, back(l)));
    }
    MovedChunks(s, t, back);
  }

  lemma AttachPlaces(s: State, stream: nat, ptr: DualPointer, size: nat, l: Loc)
    requires Enabled(s, Attach(stream, ptr, size)) && HasLoc(Apply(s, Attach(stream, ptr, size)), l)
    ensures var t := Apply(s, Attach(stream, ptr, size));
      var last := |s.queues[stream].chunks|;
      if l == InQueue(stream, last) then At(t, l).Extent() == Region(ptr, s.capacity) && At(t,
          l).available == s.capacity - size
      else HasLoc(s, l) && At(s, l) == At(t, l)
  {
    CarveQueue(Attached(s, stream, ptr), size);
  }

  lemma AttachChunks(s: State, stream: nat, ptr: DualPointer, size: nat)
    requires ChunksOk(s) && ChunksDisjoint(s) && FreeOk(s) && Enabled(s, Attach(stream, ptr, size))
    ensures ChunksDisjoint(Apply(s, Attach(stream, ptr, size)))
    ensures ChunksOk(Apply(s, Attach(stream, ptr, size)))
  {
    var t := Apply(s, Attach(stream, ptr, size));
    forall l | HasLoc(t, l) ensures ChunkOk(At(t, l)) {
      AttachPlaces(s, stream, ptr, size, l);
    }
    forall l, m | HasLoc(t, l) && HasLoc(t, m) && l != m
      ensures Disjoint(At(t, l).Extent(), At(t, m).Extent())
    {
      AttachPlaces(s, stream, ptr, size, l);
      AttachPlaces(s, stream, ptr, size, m);
    }
  }

  lemma StepChunks(s: State, step: Step)
    requires Inv(s) && Enabled(s, step)
    ensures ChunksDisjoint(Apply(s, step)) && ChunksOk(Apply(s, step))
  {
    var t := Apply(s, step);
    match step {
      case Drain(stream) => DrainChunks(s, stream);
      case Carve(stream, size) => CarveChunks(s, stream, size);
      case Reuse(stream, size) => ReuseChunks(s, stream, size);
      case Attach(stream, ptr, size) => AttachChunks(s, stream, ptr, size);
      case _ =>
        forall l | HasLoc(t, l)
          ensures HasLoc(s, l) && At(s, l).Extent() == At(t, l).Extent() && ChunkOk(At(t, l))
        {
          assert ChunkOk(At(s, l));
        }
        MovedChunks(s, t, l => l);
    }
  }

  // ---------------------------------------------------------------- queues stay well formed

  lemma StepQueues(s: State, step: Step)
    requires Inv(s) && Enabled(s, step)
    ensures QueuesOk(Apply(s, step)) && FreeOk(Apply(s, step))
  {
    var t := Apply(s, step);
    forall stream | stream in t.queues ensures QueueOk(t, stream) {
      assert stream in s.queues ==> QueueOk(s, stream);
    }
  }

  // ---------------------------------------------------------------- allocations stay held

  /** What happens to allocation `k` of the log in a step that logs nothing new. */
  lemma KeptAllocation(s: State, step: Step, k: nat)
    requires Inv(s) && Enabled(s, step) && k < |s.log|
    requires !step.Carve? && !step.Reuse? && !step.Attach?
    ensures var t := Apply(s, step);
      && |t.log| == |s.log|
      && t.log[k].extent == s.log[k].extent
      && AllocationOk(t, t.log[k])
      && (InFlight(t, t.log[k]) ==> InFlight(s, s.log[k]))
  {
    var t := Apply(s, step);
    var a := s.log[k];
    assert AllocationOk(s, a);
    if InFlight(t, t.log[k]) {
      assert InFlight(s, a);
      var j: nat :| Holds(s, a, j);
      assert QueueOk(s, a.stream);
      if step.Drain? && step.stream == a.stream {
        assert Holds(t, t.log[k], j - 1);
      } else {
        assert Holds(t, t.log[k], j);
      }
    }
  }

  /** Sub-ranges of two disjoint chunks are disjoint. */
  lemma PartsDisjoint(c: Chunk, r: Region, d: Chunk, u: Region)
    requires ChunkOk(c) && ChunkOk(d)
    requires Disjoint(c.Extent(), d.Extent()) && Within(c, r) && Within(d, u)
    ensures Disjoint(r, u)
  {
  }

  /**
   A carving step from `s` to `t`: `q` is the old queue of `stream`, possibly with one chunk
   appended because the old tail could not serve the request.
   */
  ghost predicate CarvingStep(s: State, t: State, stream: nat, q: Queue, size: nat) {
    && stream in s.queues && s.queues[stream].open
    && var before := s.queues[stream];
    && q.open && q.pinned == before.pinned
    && (q.chunks == before.chunks
        || (|q.chunks| == |before.chunks| + 1 && q.chunks[..|before.chunks|] == before.chunks))
    && q.HasTail() && size <= q.Tail().available && size % ALIGNMENT == 0
    && q.Tail().available % ALIGNMENT == 0 && q.Tail().available <= q.Tail().capacity && Aligned(q.Tail().ptr)
    && t.queues == s.queues[stream := q.Carve(size)]
    && t.log == s.log + [Allocation(Carved(q, size), stream, None)]
    && t.issued == s.issued && t.completed == s.completed
  }

  lemma CarvingStepOf(s: State, step: Step)
    returns (q: Queue)
    requires Inv(s) && Enabled(s, step)
    requires step.Carve? || step.Reuse? || step.Attach?
    ensures CarvingStep(s, Apply(s, step), step.stream, q, step.size)
  {
    match step {
      case Carve(stream, size) =>
        q := s.queues[stream];
        assert ChunkOk(At(s, InQueue(stream, |q.chunks| - 1)));
      case Reuse(stream, size) =>
        q := Reused(s, stream);
        assert ChunkOk(At(s, InFree(0)));
      case Attach(stream, ptr, size) =>
        q := Attached(s, stream, ptr);
    }
  }

  lemma CarvedAllocation(s: State, t: State, stream: nat, q: Queue, size: nat)
    requires CarvingStep(s, t, stream, q, size)
    ensures Holds(t, t.log[|s.log|], |q.chunks| - 1)
    ensures AllocationOk(t, t.log[|s.log|])
  {
    CarveQueue(q, size);
    assert Holds(t, t.log[|s.log|], |q.chunks| - 1);
  }

  /** An older allocation is still held, and the new one is other memory. */
  lemma OlderAllocation(s: State, t: State, stream: nat, q: Queue, size: nat, k: nat)
    requires Inv(s) && CarvingStep(s, t, stream, q, size) && ChunksDisjoint(t) && ChunksOk(t) && k < |s.log|
    ensures AllocationOk(t, t.log[k])
    ensures InFlight(t, t.log[k]) ==> Disjoint(t.log[k].extent, t.log[|s.log|].extent)
  {
    var a, b := t.log[k], t.log[|s.log|];
    assert AllocationOk(s, a);
    CarveQueue(q, size);
    CarvedAllocation(s, t, stream, q, size);
    if InFlight(t, a) {
      assert InFlight(s, a);
      var j: nat :| Holds(s, a, j);
      assert Holds(t, a, j);
      var l, m := InQueue(a.stream, j), InQueue(stream, |q.chunks| - 1);
      if l != m {
        PartsDisjoint(At(t, l), a.extent, At(t, m), b.extent);
      }
    }
  }

  lemma StepLog(s: State, step: Step)
    requires Inv(s) && Enabled(s, step)
    ensures LogOk(Apply(s, step)) && Safe(Apply(s, step))
  {
    var t := Apply(s, step);
    if step.Carve? || step.Reuse? || step.Attach? {
      StepChunks(s, step);
      var q := CarvingStepOf(s, step);
      CarvedAllocation(s, t, step.stream, q, step.size);
      forall k | 0 <= k < |s.log|
        ensures AllocationOk(t, t.log[k])
        ensures InFlight(t, t.log[k]) ==> Disjoint(t.log[k].extent, t.log[|s.log|].extent)
      {
        OlderAllocation(s, t, step.stream, q, step.size, k);
      }
      forall j, k | 0 <= j < k < |t.log| && InFlight(t, t.log[j]) && InFlight(t, t.log[k])
        ensures Disjoint(t.log[j].extent, t.log[k].extent)
      {
        assert t.log[j] == s.log[j];
        if k < |s.log| {
          assert t.log[k] == s.log[k];
        }
      }
    } else {
      forall k | 0 <= k < |s.log|
        ensures |t.log| == |s.log| && t.log[k].extent == s.log[k].extent
        ensures AllocationOk(t, t.log[k]) && (InFlight(t, t.log[k]) ==> InFlight(s, s.log[k]))
      {
        KeptAllocation(s, step, k);
      }
    }
  }

  /** Every step keeps the invariant. */
  lemma StepInv(s: State, step: Step)
    requires Inv(s) && Enabled(s, step)
    ensures Inv(Apply(s, step))
  {
    StepChunks(s, step);
    StepQueues(s, step);
    StepLog(s, step);
  }

  // ---------------------------------------------------------------- whole runs

  /** A run is a sequence of steps, each enabled in the state the steps before it lead to. */
  ghost predicate Legal(s: State, steps: seq<Step>)
    decreases |steps|, 0
  {
    steps != [] ==>
      var before := steps[..|steps| - 1];
      Legal(s, before) && Enabled(Run(s, before), steps[|steps| - 1])
  }

  ghost function Run(s: State, steps: seq<Step>): State
    requires Legal(s, steps)
    decreases |steps|, 1
  {
    if steps == [] then s else Apply(Run(s, steps[..|steps| - 1]), steps[|steps| - 1])
  }

  lemma RunAppend(s: State, steps: seq<Step>, step: Step)
    requires Legal(s, steps) && Enabled(Run(s, steps), step)
    ensures Legal(s, steps + [step]) && Run(s, steps + [step]) == Apply(Run(s, steps), step)
  {
    assert (steps + [step])[..|steps|] == steps;
  }

  lemma {:induction false} RunInv(s: State, steps: seq<Step>)
    requires Inv(s) && Legal(s, steps)
    ensures Inv(Run(s, steps))
    decreases |steps|
  {
    if steps != [] {
      var before := steps[..|steps| - 1];
      RunInv(s, before);
      StepInv(Run(s, before), steps[|steps| - 1]);
    }
  }

  lemma ReachableInv(steps: seq<Step>)
    requires Legal(INIT, steps)
    ensures Inv(Run(INIT, steps))
  {
    InitInv();
    RunInv(INIT, steps);
  }

  lemma {:induction false} RunConcat(s: State, first: seq<Step>, second: seq<Step>)
    requires Legal(s, first) && Legal(Run(s, first), second)
    ensures Legal(s, first + second) && Run(s, first + second) == Run(Run(s, first), second)
    decreases |second|
  {
    hide Enabled, Apply;
    if second == [] {
      assert first + second == first;
    } else {
      var before := second[..|second| - 1];
      RunConcat(s, first, before);
      RunAppend(s, first + before, second[|second| - 1]);
      assert first + second == (first + before) + [second[|second| - 1]];
    }
  }

  /** `b` is memory of a chunk that the pool still owns. */
  ghost predicate Backed(s: State, b: Region) {
    exists l | HasLoc(s, l) :: Within(At(s, l), b)
  }

  /**
   Memory safety over all runs, over any number of streams: allocations whose transaction is
   open, or whose events the device has not reached, are pairwise disjoint, aligned, inside a
   chunk that was not freed, and disjoint from everything on the free list.
   */
  lemma RunSafe(steps: seq<Step>)
    requires Legal(INIT, steps)
    ensures var s := Run(INIT, steps);
      && Safe(s)
      && forall k | 0 <= k < |s.log| ::
           && Aligned(s.log[k].extent.ptr)
           && (InFlight(s, s.log[k]) ==>
                && Backed(s, s.log[k].extent)
                && forall i | 0 <= i < |s.free| :: Disjoint(s.log[k].extent, s.free[i].Extent()))
  {
    ReachableInv(steps);
    var s := Run(INIT, steps);
    forall k | 0 <= k < |s.log| && InFlight(s, s.log[k])
      ensures Backed(s, s.log[k].extent)
      ensures forall i | 0 <= i < |s.free| :: Disjoint(s.log[k].extent, s.free[i].Extent())
    {
      var a := s.log[k];
      assert AllocationOk(s, a);
      var j: nat :| Holds(s, a, j);
      var l := InQueue(a.stream, j);
      assert Within(At(s, l), a.extent);
      forall i | 0 <= i < |s.free| ensures Disjoint(a.extent, s.free[i].Extent()) {
        assert Disjoint(At(s, l).Extent(), At(s, InFree(i)).Extent());
      }
    }
  }

  /**
   The memory a caller receives is not used by any earlier allocation that the device may
   still use, whatever happened before.
   */
  lemma FreshAllocation(steps: seq<Step>, step: Step)
    requires Legal(INIT, steps) && Enabled(Run(INIT, steps), step)
    requires step.Carve? || step.Reuse? || step.Attach?
    ensures var s := Run(INIT, steps);
      var t := Apply(s, step);
      && |t.log| == |s.log| + 1
      && t.log[|s.log|].extent.size == step.size
      && forall k | 0 <= k < |s.log| && InFlight(s, s.log[k]) ::
           Disjoint(s.log[k].extent, t.log[|s.log|].extent)
  {
    var s := Run(INIT, steps);
    ReachableInv(steps);
    StepInv(s, step);
    var t := Apply(s, step);
    forall k | 0 <= k < |s.log| && InFlight(s, s.log[k])
      ensures Disjoint(s.log[k].extent, t.log[|s.log|].extent)
    {
      assert t.log[k] == s.log[k] && InFlight(t, t.log[k]);
    }
  }

  // ---------------------------------------------------------------- nothing is stuck

  ghost predicate Idle(s: State) {
    forall stream: nat :: Count(s.issued, stream) <= Count(s.completed, stream)
  }

  /** Once its device work is done, the queue of a stream without a transaction can be dissolved. */
  lemma {:induction false} DissolveQueue(s: State, stream: nat) returns (steps: seq<Step>)
    requires Inv(s) && Idle(s) && stream in s.queues && !s.queues[stream].open
    ensures Legal(s, steps) && forall step | step in steps :: step.Drain? || step.Retire?
    ensures Run(s, steps).queues == s.queues - {stream}
    ensures Run(s, steps).issued == s.issued && Run(s, steps).completed == s.completed
    decreases |s.queues[stream].chunks|
  {
    assert QueueOk(s, stream);
    if s.queues[stream].HasTail() {
      StepInv(s, Drain(stream));
      var t := Apply(s, Drain(stream));
      var rest := DissolveQueue(t, stream);
      steps := [Drain(stream)] + rest;
      RunAppend(s, [], Drain(stream));
      RunConcat(s, [Drain(stream)], rest);
      assert t.queues - {stream} == s.queues - {stream};
    } else {
      steps := [Retire(stream)];
      RunAppend(s, [], Retire(stream));
    }
  }

  /**
   No chunk is ever stuck in a queue: when the device is idle and no transaction is open,
   reclaiming alone leads to a pool without queues.
   */
  lemma {:induction false} DissolveAll(s: State) returns (steps: seq<Step>)
    requires Inv(s) && Idle(s) && forall stream | stream in s.queues :: !s.queues[stream].open
    ensures Legal(s, steps) && forall step | step in steps :: step.Drain? || step.Retire?
    ensures Run(s, steps).queues == map[]
    decreases |s.queues|
  {
    if s.queues == map[] {
      steps := [];
    } else {
      var stream :| stream in s.queues;
      var first := DissolveQueue(s, stream);
      var t := Run(s, first);
      RunInv(s, first);
      assert t.queues.Keys == s.queues.Keys - {stream};
      assert |t.queues| == |t.queues.Keys| < |s.queues.Keys| == |s.queues|;
      var second := DissolveAll(t);
      RunConcat(s, first, second);
      steps := first + second;
    }
  }
}
