/**
 Which memory the allocator holds: after any run, exactly the memory of the chunks in its
 queues and on its free list.  Nothing is leaked, and nothing is freed twice.
 */
module StreamMemory {
  import M = StreamModel
  import S = StreamSafety

  function HostRange(r: M.Region): (int, nat) { (r.ptr.host, r.size) }

  function DeviceRange(r: M.Region): (int, nat) { (r.ptr.device, r.size) }

  /** `ranges` are the ranges of the chunks of `m`. */
  ghost predicate Exactly(ranges: set<(int, nat)>, m: M.State, of: M.Region -> (int, nat)) {
    && (forall l | M.HasLoc(m, l) :: of(M.At(m, l).Extent()) in ranges)
    && (forall h | h in ranges :: exists l :: M.HasLoc(m, l) && h == of(M.At(m, l).Extent()))
  }

  ghost function FreeRanges(free: seq<M.Chunk>, of: M.Region -> (int, nat)): set<(int, nat)> {
    set i | 0 <= i < |free| :: of(free[i].Extent())
  }

  /** What one step allocates and frees. */
  ghost function After(ranges: set<(int, nat)>, m: M.State, step: M.Step, of: M.Region -> (int, nat)): set<(int, nat)>
    requires M.Enabled(m, step)
  {
    match step
    case Drain(stream) =>
      var c := m.queues[stream].chunks[0];
      if c.capacity == m.capacity then ranges else ranges - {of(c.Extent())}
    case Grow(_) => ranges - FreeRanges(m.free, of)
    case Attach(_, ptr, _) => ranges + {of(M.Region(ptr, m.capacity))}
    case _ => ranges
  }

  /** The memory held after a run. */
  ghost function Held(steps: seq<M.Step>, of: M.Region -> (int, nat)): set<(int, nat)>
    requires S.Legal(M.INIT, steps)
    decreases |steps|
  {
    if steps == [] then {} else
      var before := steps[..|steps| - 1];
      After(Held(before, of), S.Run(M.INIT, before), steps[|steps| - 1], of)
  }

  lemma HeldAppend(steps: seq<M.Step>, step: M.Step, of: M.Region -> (int, nat))
    requires S.Legal(M.INIT, steps) && M.Enabled(S.Run(M.INIT, steps), step)
    ensures S.Legal(M.INIT, steps + [step])
    ensures Held(steps + [step], of) == After(Held(steps, of), S.Run(M.INIT, steps), step, of)
  {
    S.RunAppend(M.INIT, steps, step);
    assert (steps + [step])[..|steps|] == steps;
  }

  ghost predicate Separates(m: M.State, of: M.Region -> (int, nat)) {
    forall l, k | M.HasLoc(m, l) && M.HasLoc(m, k) && l != k :: of(M.At(m, l).Extent()) != of(M.At(m, k).Extent())
  }

  lemma Separated(m: M.State)
    requires S.Inv(m)
    ensures Separates(m, HostRange) && Separates(m, DeviceRange)
  {
    forall l, k | M.HasLoc(m, l) && M.HasLoc(m, k) && l != k
      ensures HostRange(M.At(m, l).Extent()) != HostRange(M.At(m, k).Extent())
      ensures DeviceRange(M.At(m, l).Extent()) != DeviceRange(M.At(m, k).Extent())
    {
      S.PlacesDiffer(m, l, k);
    }
  }

  /** The chunks of `t` are those of `m` that are not at a place in `gone`. */
  lemma Fewer(m: M.State, t: M.State, ranges: set<(int, nat)>, of: M.Region -> (int, nat),
              gone: M.Loc -> bool, left: set<(int, nat)>, back: M.Loc -> M.Loc, forth: M.Loc -> M.Loc)
    requires Exactly(ranges, m, of) && Separates(m, of)
    requires forall l | M.HasLoc(t, l) ::
      M.HasLoc(m, back(l)) && !gone(back(l)) && M.At(m, back(l)).Extent() == M.At(t, l).Extent()
    requires forall l | M.HasLoc(m, l) && !gone(l) ::
      M.HasLoc(t, forth(l)) && M.At(t, forth(l)).Extent() == M.At(m, l).Extent()
    requires forall h :: h in left <==> h in ranges && forall l | M.HasLoc(m, l) && gone(l) ::
      h != of(M.At(m, l).Extent())
    ensures Exactly(left, t, of)
  {
    forall h | h in left ensures exists l :: M.HasLoc(t, l) && h == of(M.At(t, l).Extent()) {
      var l :| M.HasLoc(m, l) && h == of(M.At(m, l).Extent());
      assert M.HasLoc(t, forth(l));
    }
    forall l | M.HasLoc(t, l) ensures of(M.At(t, l).Extent()) in left {
      forall k | M.HasLoc(m, k) && gone(k) ensures of(M.At(t, l).Extent()) != of(M.At(m, k).Extent()) {
        assert back(l) != k;
      }
    }
  }

  lemma DrainKept(m: M.State, stream: nat, ranges: set<(int, nat)>, of: M.Region -> (int, nat))
    requires Exactly(ranges, m, of) && Separates(m, of) && M.Enabled(m, M.Drain(stream))
    requires m.queues[stream].chunks[0].capacity == m.capacity
    ensures Exactly(ranges, M.Apply(m, M.Drain(stream)), of)
  {
    hide Exactly, Separates;
    var back := (l: M.Loc) =>
      if l.InQueue? then (if l.stream == stream then M.InQueue(stream, l.index + 1) else l)
      else if l.index == 0 then M.InQueue(stream, 0)
      else M.InFree(l.index - 1);
    var forth := (l: M.Loc) =>
      if l.InFree? then M.InFree(l.index + 1)
      else if l.stream != stream then l
      else if l.index == 0 then M.InFree(0)
      else M.InQueue(stream, l.index - 1);
    Fewer(m, M.Apply(m, M.Drain(stream)), ranges, of, _ => false, ranges, back, forth);
  }

  lemma DrainDeleted(m: M.State, stream: nat, ranges: set<(int, nat)>, of: M.Region -> (int, nat))
    requires Exactly(ranges, m, of) && Separates(m, of) && M.Enabled(m, M.Drain(stream))
    requires m.queues[stream].chunks[0].capacity != m.capacity
    ensures Exactly(ranges - {of(m.queues[stream].chunks[0].Extent())}, M.Apply(m, M.Drain(stream)), of)
  {
    var first := M.InQueue(stream, 0);
    assert M.HasLoc(m, first);
    var back := (l: M.Loc) => if l.InQueue? && l.stream == stream then M.InQueue(stream, l.index + 1) else l;
    var forth := (l: M.Loc) =>
      if l.InQueue? && l.stream == stream && 0 < l.index then M.InQueue(stream, l.index - 1) else l;
    Fewer(m, M.Apply(m, M.Drain(stream)), ranges, of, l => l == first,
          ranges - {of(M.At(m, first).Extent())}, back, forth);
  }

  lemma GrowRanges(m: M.State, capacity: nat, ranges: set<(int, nat)>, of: M.Region -> (int, nat))
    requires Exactly(ranges, m, of) && Separates(m, of) && M.Enabled(m, M.Grow(capacity))
    ensures Exactly(ranges - FreeRanges(m.free, of), M.Apply(m, M.Grow(capacity)), of)
  {
    var left := ranges - FreeRanges(m.free, of);
    forall h
      ensures h in left <==> h in ranges && forall l | M.HasLoc(m, l) && l.InFree? :: h != of(M.At(m, l).Extent())
    {
      if h in FreeRanges(m.free, of) {
        var i :| 0 <= i < |m.free| && h == of(m.free[i].Extent());
        assert M.HasLoc(m, M.InFree(i));
      }
    }
    Fewer(m, M.Apply(m, M.Grow(capacity)), ranges, of, (l: M.Loc) => l.InFree?, left, l => l, l => l);
  }

  lemma AttachRanges(m: M.State, stream: nat, ptr: M.DualPointer, size: nat, ranges: set<(int, nat)>,
                     of: M.Region -> (int, nat))
    requires Exactly(ranges, m, of) && M.Enabled(m, M.Attach(stream, ptr, size))
    ensures Exactly(ranges + {of(M.Region(ptr, m.capacity))}, M.Apply(m, M.Attach(stream, ptr, size)), of)
  {
    var t := M.Apply(m, M.Attach(stream, ptr, size));
    var more := ranges + {of(M.Region(ptr, m.capacity))};
    var last := |m.queues[stream].chunks|;
    S.CarveQueue(M.Attached(m, stream, ptr), size);
    forall l | M.HasLoc(t, l) ensures of(M.At(t, l).Extent()) in more {
      S.AttachPlaces(m, stream, ptr, size, l);
    }
    forall h | h in more ensures exists l :: M.HasLoc(t, l) && h == of(M.At(t, l).Extent()) {
      if h in ranges {
        var l :| M.HasLoc(m, l) && h == of(M.At(m, l).Extent());
        S.AttachPlaces(m, stream, ptr, size, l);
      } else {
        S.AttachPlaces(m, stream, ptr, size, M.InQueue(stream, last));
      }
    }
  }

  lemma ReuseRanges(m: M.State, stream: nat, size: nat, ranges: set<(int, nat)>, of: M.Region -> (int, nat))
    requires Exactly(ranges, m, of) && M.Enabled(m, M.Reuse(stream, size))
    ensures Exactly(ranges, M.Apply(m, M.Reuse(stream, size)), of)
  {
    var t := M.Apply(m, M.Reuse(stream, size));
    forall l | M.HasLoc(t, l) ensures of(M.At(t, l).Extent()) in ranges {
      S.ReusePlaces(m, stream, size, l);
    }
    var last := |m.queues[stream].chunks|;
    forall h | h in ranges ensures exists l :: M.HasLoc(t, l) && h == of(M.At(t, l).Extent()) {
      var k :| M.HasLoc(m, k) && h == of(M.At(m, k).Extent());
      var l := if !k.InFree? then k else if k.index == 0 then M.InQueue(stream, last) else M.InFree(k.index - 1);
      S.ReusePlaces(m, stream, size, l);
    }
  }

  lemma SamePlaces(m: M.State, step: M.Step, ranges: set<(int, nat)>, of: M.Region -> (int, nat))
    requires Exactly(ranges, m, of) && Separates(m, of) && M.Enabled(m, step)
    requires !step.Drain? && !step.Grow? && !step.Attach? && !step.Reuse?
    ensures Exactly(ranges, M.Apply(m, step), of)
  {
    if step.Carve? {
      S.CarveQueue(m.queues[step.stream], step.size);
    }
    Fewer(m, M.Apply(m, step), ranges, of, _ => false, ranges, l => l, l => l);
  }

  lemma StepRanges(m: M.State, step: M.Step, ranges: set<(int, nat)>, of: M.Region -> (int, nat))
    requires Exactly(ranges, m, of) && Separates(m, of) && M.Enabled(m, step)
    ensures Exactly(After(ranges, m, step, of), M.Apply(m, step), of)
  {
    match step {
      case Drain(stream) =>
        if m.queues[stream].chunks[0].capacity == m.capacity {
          DrainKept(m, stream, ranges, of);
        } else {
          DrainDeleted(m, stream, ranges, of);
        }
      case Grow(capacity) => GrowRanges(m, capacity, ranges, of);
      case Attach(stream, ptr, size) => AttachRanges(m, stream, ptr, size, ranges, of);
      case Reuse(stream, size) => ReuseRanges(m, stream, size, ranges, of);
      case _ => SamePlaces(m, step, ranges, of);
    }
  }

  /** No leak and no memory used after it is freed, in any run. */
  lemma {:induction false} HeldExactly(steps: seq<M.Step>, of: M.Region -> (int, nat))
    requires S.Legal(M.INIT, steps) && (of == HostRange || of == DeviceRange)
    ensures Exactly(Held(steps, of), S.Run(M.INIT, steps), of)
    decreases |steps|
  {
    if steps != [] {
      var before := steps[..|steps| - 1];
      HeldExactly(before, of);
      S.ReachableInv(before);
      Separated(S.Run(M.INIT, before));
      StepRanges(S.Run(M.INIT, before), steps[|steps| - 1], Held(before, of), of);
    }
  }

  lemma Inside(ranges: set<(int, nat)>, m: M.State, of: M.Region -> (int, nat), l: M.Loc)
    requires Exactly(ranges, m, of) && M.HasLoc(m, l)
    ensures of(M.At(m, l).Extent()) in ranges
  {
  }

  lemma HeldOf(steps: seq<M.Step>, of: M.Region -> (int, nat), l: M.Loc)
    requires S.Legal(M.INIT, steps) && M.HasLoc(S.Run(M.INIT, steps), l) && (of == HostRange || of == DeviceRange)
    ensures of(M.At(S.Run(M.INIT, steps), l).Extent()) in Held(steps, of)
  {
    HeldExactly(steps, of);
    Inside(Held(steps, of), S.Run(M.INIT, steps), of, l);
  }

  /** The memory of every chunk is held. */
  lemma HeldAt(steps: seq<M.Step>, l: M.Loc)
    requires S.Legal(M.INIT, steps) && M.HasLoc(S.Run(M.INIT, steps), l)
    ensures HostRange(M.At(S.Run(M.INIT, steps), l).Extent()) in Held(steps, HostRange)
    ensures DeviceRange(M.At(S.Run(M.INIT, steps), l).Extent()) in Held(steps, DeviceRange)
  {
    HeldOf(steps, HostRange, l);
    HeldOf(steps, DeviceRange, l);
  }
}
