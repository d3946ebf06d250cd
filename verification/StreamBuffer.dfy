/**
 The stream staging allocator: a pool of stream buffers, and transactions on them.

 Every method is proved to perform exactly the steps of StreamModel that its contract says
 it appends to the history.  Since a valid pool is one whose history is a legal run and
 whose linked structures stand for the state that this run leads to, all that StreamSafety
 and StreamMemory prove about runs holds of the pool.
 */
module StreamBuffer {
  import opened Wrappers
  import opened Bits
  import opened StreamAllocate
  import opened StreamHeap
  import M = StreamModel
  import S = StreamSafety
  import opened StreamMemory

  ghost function StateOf(history: seq<M.Step>): M.State
    requires S.Legal(M.INIT, history)
  {
    S.Run(M.INIT, history)
  }

  ghost predicate InUse(driver: Driver, r: M.Region)
    reads driver
  {
    HostRange(r) in driver.hostRanges && DeviceRange(r) in driver.deviceRanges
  }

  /** What a step does to the state and to the memory held. */
  lemma Extend(history: seq<M.Step>, step: M.Step)
    requires S.Legal(M.INIT, history) && M.Enabled(StateOf(history), step)
    ensures S.Legal(M.INIT, history + [step])
    ensures StateOf(history + [step]) == M.Apply(StateOf(history), step)
    ensures Held(history + [step], HostRange) == After(Held(history, HostRange), StateOf(history), step, HostRange)
    ensures Held(history + [step], DeviceRange) ==
      After(Held(history, DeviceRange), StateOf(history), step, DeviceRange)
  {
    HeldAppend(history, step, HostRange);
    HeldAppend(history, step, DeviceRange);
    S.RunAppend(M.INIT, history, step);
  }

  lemma PlaceHeld(history: seq<M.Step>, l: M.Loc)
    requires S.Legal(M.INIT, history) && M.HasLoc(StateOf(history), l)
    ensures HostRange(M.At(StateOf(history), l).Extent()) in Held(history, HostRange)
    ensures DeviceRange(M.At(StateOf(history), l).Extent()) in Held(history, DeviceRange)
  {
    HeldAt(history, l);
  }

  lemma ChunksApart(history: seq<M.Step>)
    requires S.Legal(M.INIT, history)
    ensures S.ChunksOk(StateOf(history)) && S.ChunksDisjoint(StateOf(history))
  {
    S.ReachableInv(history);
  }

  /** The first chunk of queue `i` can be unlinked, leaving it in no list. */
  lemma DrainLinks(history: seq<M.Step>, v: Snapshot, n: nat, i: nat, sb: StreamBuffer, c: M.Chunk, p: M.State)
    requires S.Legal(M.INIT, history) && Tied(v, StateOf(history), n) && i < n && v.buffers[i] == sb
    requires M.Enabled(StateOf(history), M.Drain(v.ids[i]))
    requires p == PopState(StateOf(history), v.ids[i]) && c == StateOf(history).queues[v.ids[i]].chunks[0]
    ensures CanPop(v, n, sb, c, p)
  {
    ChunksApart(history);
    PopTied(v, StateOf(history), n, i);
  }

  /** Popping the first chunk of `sb`, whose value is `c`, leads to `p` and leaves the chunk in no list. */
  ghost predicate CanPop(v: Snapshot, n: nat, sb: StreamBuffer, c: M.Chunk, p: M.State) {
    && sb in v.buffer
    && var b := v.buffer[sb];
    && b.head != null && b.head in v.chunk && b.chunks != []
    && v.chunk[b.head].value == c
    && var w := v.(buffer := v.buffer[sb := PopRecord(v.chunk, b)]);
    && Tied(w, p, n) && Detached(w, n, b.head)
  }

  /** What is left of `ranges` once a chunk is reclaimed. */
  ghost function LessChunk(ranges: set<(int, nat)>, c: M.Chunk, capacity: nat,
                           of: M.Region -> (int, nat)): set<(int, nat)> {
    if c.capacity == capacity then ranges else ranges - {of(c.Extent())}
  }

  /** The state and the memory held after the first chunk of a queue is reclaimed. */
  lemma DrainRun(history: seq<M.Step>, stream: nat, c: M.Chunk, p: M.State, after: seq<M.Step>)
    requires S.Legal(M.INIT, history) && M.Enabled(StateOf(history), M.Drain(stream))
    requires p == PopState(StateOf(history), stream) && c == StateOf(history).queues[stream].chunks[0]
    requires after == history + [M.Drain(stream)]
    ensures S.Legal(M.INIT, after)
    ensures StateOf(after) == p.(free := M.Reclaim(c, p.capacity, p.free))
    ensures p.issued == StateOf(history).issued && p.completed == StateOf(history).completed
    ensures HostRange(c.Extent()) in Held(history, HostRange) && DeviceRange(c.Extent()) in Held(history, DeviceRange)
    ensures Held(after, HostRange) == LessChunk(Held(history, HostRange), c, p.capacity, HostRange)
    ensures Held(after, DeviceRange) == LessChunk(Held(history, DeviceRange), c, p.capacity, DeviceRange)
  {
    Extend(history, M.Drain(stream));
    PlaceHeld(history, M.InQueue(stream, 0));
  }

  /** What the head and the transaction head of queue `i` say about its state. */
  lemma HeadFacts(v: Snapshot, m: M.State, n: nat, i: nat)
    requires Tied(v, m, n) && i < n
    ensures n <= |v.ids| == |v.buffers| && v.ids[i] in m.queues && v.buffers[i] in v.buffer
    ensures var b, q := v.buffer[v.buffers[i]], m.queues[v.ids[i]];
      && (b.head == null <==> !q.HasTail()) && b.openTransaction == q.open
      && (b.head != b.transactionHead ==> b.head != null && b.head in v.chunk && 0 < q.pinned && q.HasTail())
      && (b.head == b.transactionHead ==> q.pinned == 0)
      && (b.head != null ==> b.head in v.chunk && v.chunk[b.head].value == q.chunks[0])
  {
    EntryAt(v, m, n, i);
    var b, q := v.buffer[v.buffers[i]], m.queues[v.ids[i]];
    if 0 < q.pinned < |q.chunks| && b.chunks[0] == b.chunks[q.pinned] {
      NoRepeat(v.chunk, b.head, b.chunks, q.chunks, 0, q.pinned);
    }
  }

  /** No chunk is in a list twice. */
  lemma {:induction false} NoRepeat(chunk: map<Chunk, ChunkRecord>, head: Chunk?, cs: seq<Chunk>, values: seq<M.Chunk>,
                                    a: nat, b: nat)
    requires IsList(chunk, head, cs, values) && a < b < |cs|
    ensures cs[a] != cs[b]
    decreases |cs| - b
  {
    assert chunk[cs[a]].next == cs[a + 1];
    if b + 1 < |cs| {
      NoRepeat(chunk, head, cs, values, a + 1, b + 1);
    } else {
      assert chunk[cs[b]].next == null;
    }
  }

  /** All chunks in front of the transaction head are gone, or the first one was said not to be ready. */
  predicate Settled(m: M.State, stream: nat, no: seq<M.Event>)
    requires stream in m.queues
  {
    var q := m.queues[stream];
    q.pinned == 0 || (q.HasTail() && q.chunks[0].event in no)
  }

  /** Every queue is settled, and none is left that is empty and has no transaction. */
  ghost predicate Reclaimed(m: M.State, no: seq<M.Event>) {
    forall stream | stream in m.queues ::
      Settled(m, stream, no) && (m.queues[stream].HasTail() || m.queues[stream].open)
  }

  /** If the driver never says no, only streams with an open transaction are left, with nothing to reclaim. */
  lemma ReclaimedExactly(m: M.State, stream: nat)
    requires S.Inv(m) && Reclaimed(m, []) && stream in m.queues
    ensures m.queues[stream].open && m.queues[stream].pinned == 0
  {
    assert Settled(m, stream, []);
    assert S.QueueOk(m, stream);
  }

  /** Only the queue of `stream` differs. */
  ghost predicate OthersKept(m: M.State, t: M.State, stream: nat) {
    && t.queues.Keys == m.queues.Keys
    && forall s | s in m.queues && s != stream :: t.queues[s] == m.queues[s]
  }

  /** The first `n` entries are settled, and have a chunk or a transaction. */
  ghost predicate FirstSettled(ids: seq<nat>, m: M.State, n: nat, no: seq<M.Event>) {
    n <= |ids| && forall k | 0 <= k < n ::
      ids[k] in m.queues && Settled(m, ids[k], no) && (m.queues[ids[k]].HasTail() || m.queues[ids[k]].open)
  }

  /** What happens to another queue does not concern the first entries. */
  lemma OthersSettled(ids: seq<nat>, m: M.State, t: M.State, i: nat, no: seq<M.Event>, k: nat, l: nat)
    requires k <= l <= |no| && FirstSettled(ids, m, i, no[k..l]) && i < |ids| && OthersKept(m, t, ids[i])
    requires forall j | 0 <= j < i :: ids[j] != ids[i]
    ensures FirstSettled(ids, t, i, no[k..])
  {
    assert no[k..] == no[k..l] + no[l..];
    forall j | 0 <= j < i ensures ids[j] in t.queues && t.queues[ids[j]] == m.queues[ids[j]] {
    }
  }

  lemma OneMoreSettled(ids: seq<nat>, m: M.State, i: nat, no: seq<M.Event>)
    requires FirstSettled(ids, m, i, no) && i < |ids| && ids[i] in m.queues && Settled(m, ids[i], no)
    requires m.queues[ids[i]].HasTail() || m.queues[ids[i]].open
    ensures FirstSettled(ids, m, i + 1, no)
  {
  }

  lemma ReclaimsSelf(h: seq<M.Step>)
    ensures Reclaims(h, h)
  {
  }

  lemma DistinctIds(v: Snapshot, m: M.State, n: nat, i: nat)
    requires Tied(v, m, n) && i < n
    ensures forall j | 0 <= j < i :: v.ids[j] != v.ids[i]
  {
    EntryAt(v, m, n, i);
  }

  lemma DropSettled(v: Snapshot, m: M.State, t: M.State, n: nat, i: nat, no: seq<M.Event>)
    requires FirstSettled(v.ids, m, i, no) && i < n <= |v.ids| == |v.buffers| && v.buffers[i] in v.buffer
    requires t.queues == m.queues - {v.ids[i]} && forall j | 0 <= j < i :: v.ids[j] != v.ids[i]
    ensures FirstSettled(RetireSnapshot(v, n, i).ids, t, i, no)
  {
    var ids := RetireSnapshot(v, n, i).ids;
    forall k | 0 <= k < i ensures ids[k] in t.queues && Settled(t, ids[k], no) {
      assert ids[k] == v.ids[k];
    }
  }

  lemma AllSettled(v: Snapshot, m: M.State, n: nat, no: seq<M.Event>)
    requires Tied(v, m, n) && FirstSettled(v.ids, m, n, no)
    ensures Reclaimed(m, no)
  {
    forall stream | stream in m.queues
      ensures Settled(m, stream, no) && (m.queues[stream].HasTail() || m.queues[stream].open)
    {
      var i :| 0 <= i < n && v.ids[i] == stream;
    }
  }

  /** More answers do no harm. */
  lemma SettledMore(m: M.State, stream: nat, no: seq<M.Event>, k: nat, l: nat)
    requires k <= l <= |no| && stream in m.queues && Settled(m, stream, no[l..])
    ensures Settled(m, stream, no[k..])
  {
    assert no[k..] == no[k..l] + no[l..];
  }

  lemma DrainOthers(history: seq<M.Step>, stream: nat)
    requires S.Legal(M.INIT, history) && M.Enabled(StateOf(history), M.Drain(stream))
    ensures S.Legal(M.INIT, history + [M.Drain(stream)])
    ensures OthersKept(StateOf(history), StateOf(history + [M.Drain(stream)]), stream)
  {
    S.RunAppend(M.INIT, history, M.Drain(stream));
  }

  /** Since `h`, nothing but reclaiming happened. */
  ghost predicate Reclaims(h: seq<M.Step>, after: seq<M.Step>) {
    || after == h
    || (after != [] && IsReclaim(after[|after| - 1]) && Reclaims(h, after[..|after| - 1]))
  }

  predicate IsReclaim(step: M.Step) {
    step.Drain? || step.Retire?
  }

  lemma ReclaimsOne(h: seq<M.Step>, step: M.Step)
    requires IsReclaim(step)
    ensures Reclaims(h, h + [step])
  {
    assert (h + [step])[..|h|] == h;
  }

  lemma {:induction false} ReclaimsTrans(h: seq<M.Step>, middle: seq<M.Step>, after: seq<M.Step>)
    requires Reclaims(h, middle) && Reclaims(middle, after)
    ensures Reclaims(h, after)
  {
    if after != middle {
      ReclaimsTrans(h, middle, after[..|after| - 1]);
    }
  }

  /** `sb` is the stream buffer of stream `id`, on which a transaction is open. */
  ghost predicate OpenEntry(v: Snapshot, m: M.State, n: nat, id: nat, sb: StreamBuffer) {
    && n <= |v.ids| && n <= |v.buffers|
    && (exists i :: 0 <= i < n && v.ids[i] == id && v.buffers[i] == sb)
    && id in m.queues && m.queues[id].open
  }

  /** Reclaiming concerns neither the capacity, nor open transactions, nor what they carved. */
  lemma {:induction false} ReclaimsKeep(h: seq<M.Step>, after: seq<M.Step>, id: nat)
    requires S.Legal(M.INIT, after) && Reclaims(h, after)
    ensures S.Legal(M.INIT, h)
    ensures var m, t := StateOf(h), StateOf(after);
      && t.capacity == m.capacity && t.log == m.log && t.completed == m.completed
      && (id in m.queues && m.queues[id].open ==>
            && id in t.queues && t.queues[id].open
            && (t.queues[id].HasTail() ==> m.queues[id].HasTail() && t.queues[id].Tail() == m.queues[id].Tail()))
    decreases |after|
  {
    if after != h {
      ReclaimsKeep(h, after[..|after| - 1], id);
    }
  }

  lemma ReclaimsKeepEntry(h: seq<M.Step>, after: seq<M.Step>, v: Snapshot, w: Snapshot, n: nat, id: nat,
                          sb: StreamBuffer)
    requires S.Legal(M.INIT, h) && S.Legal(M.INIT, after) && Reclaims(h, after)
    requires OpenEntry(v, StateOf(h), n, id, sb) && w.ids == v.ids && w.buffers == v.buffers
    ensures OpenEntry(w, StateOf(after), n, id, sb)
  {
    ReclaimsKeep(h, after, id);
  }

  lemma RetireKeeps(v: Snapshot, m: M.State, n: nat, i: nat, id: nat, sb: StreamBuffer)
    requires OpenEntry(v, m, n, id, sb) && |v.ids| == |v.buffers| && i < n && v.buffers[i] in v.buffer && v.ids[i] != id
    ensures OpenEntry(RetireSnapshot(v, n, i), m.(queues := m.queues - {v.ids[i]}), n - 1, id, sb)
  {
    var k :| 0 <= k < n && v.ids[k] == id && v.buffers[k] == sb;
    var w := RetireSnapshot(v, n, i);
    var j := if k == n - 1 then i else k;
    assert w.ids[j] == id && w.buffers[j] == sb;
  }

  lemma ResizeKeeps(v: Snapshot, m: M.State, n: nat, id: nat, sb: StreamBuffer)
    requires OpenEntry(v, m, n, id, sb)
    ensures OpenEntry(v.(ids := v.ids[..n], buffers := v.buffers[..n]), m, n, id, sb)
  {
    var k :| 0 <= k < n && v.ids[k] == id && v.buffers[k] == sb;
    assert v.ids[..n][k] == id && v.buffers[..n][k] == sb;
  }

  /** A step that touches neither the device nor its memory leads from `m` to `t`. */
  ghost predicate QuietStep(history: seq<M.Step>, after: seq<M.Step>, t: M.State)
    requires S.Legal(M.INIT, history)
  {
    && S.Legal(M.INIT, after) && StateOf(after) == t
    && t.issued == StateOf(history).issued && t.completed == StateOf(history).completed
    && Held(after, HostRange) == Held(history, HostRange)
    && Held(after, DeviceRange) == Held(history, DeviceRange)
  }

  /** The state after an empty queue is dropped. */
  lemma RetireRun(history: seq<M.Step>, stream: nat, t: M.State)
    requires S.Legal(M.INIT, history) && M.Enabled(StateOf(history), M.Retire(stream))
    requires t == StateOf(history).(queues := StateOf(history).queues - {stream})
    ensures QuietStep(history, history + [M.Retire(stream)], t)
  {
    Extend(history, M.Retire(stream));
  }

  // ---------------------------------------------------------------- opening and closing

  lemma OpenRun(history: seq<M.Step>, stream: nat, t: M.State)
    requires S.Legal(M.INIT, history) && M.Enabled(StateOf(history), M.Open(stream))
    requires t == StateOf(history).(queues := StateOf(history).queues[stream := M.OpenQueue(StateOf(history), stream)])
    ensures QuietStep(history, history + [M.Open(stream)], t)
  {
    Extend(history, M.Open(stream));
  }

  /** Opening a transaction on a stream that has a queue. */
  lemma ReopenTied(v: Snapshot, m: M.State, n: nat, i: nat)
    requires Tied(v, m, n) && i < n && v.ids[i] in m.queues
    ensures v.buffers[i] in v.buffer
    ensures var b := v.buffer[v.buffers[i]].(openTransaction := true, transactionHead := null);
      Tied(v.(buffer := v.buffer[v.buffers[i] := b]), m.(queues := m.queues[v.ids[i] := M.OpenQueue(m, v.ids[i])]), n)
  {
    EntryAt(v, m, n, i);
    var b := v.buffer[v.buffers[i]].(openTransaction := true, transactionHead := null);
    assert IsQueue(v.chunk, b, M.OpenQueue(m, v.ids[i]));
    Replaced(v, m, n, i, b, M.OpenQueue(m, v.ids[i]));
  }

  /** A buffer object of which nothing was known joins the snapshot. */
  lemma NewBufferTied(v: Snapshot, m: M.State, n: nat, sb: StreamBuffer)
    requires Tied(v, m, n) && sb !in v.buffer
    ensures Tied(v.(buffer := v.buffer[sb := FRESH_RECORD]), m, n)
    ensures sb !in v.idle && sb !in v.buffers[..n]
  {
    Spread(v, m, n);
    var w := v.(buffer := v.buffer[sb := FRESH_RECORD]);
    forall k | 0 <= k < n ensures IsEntry(w, m, k) && v.buffers[k] != sb {
      assert IsEntry(v, m, k);
    }
    Gather(w, m, n);
  }

  /** Opening a transaction on a stream whose buffer was just added. */
  lemma FirstOpen(v: Snapshot, m: M.State, id: nat, sb: StreamBuffer)
    requires Tied(v, m, |v.buffers|) && id !in m.queues
    requires sb in v.buffer && v.buffer[sb] == FRESH_RECORD && sb !in v.idle && sb !in v.buffers
    ensures var w := v.(ids := v.ids + [id], buffers := v.buffers + [sb]);
      var b := FRESH_RECORD.(openTransaction := true, transactionHead := null);
      Tied(w.(buffer := w.buffer[sb := b]), m.(queues := m.queues[id := M.OpenQueue(m, id)]), |v.buffers| + 1)
  {
    var q := M.Queue(false, [], 0);
    PushTied(v, m, id, sb, q);
    var w, t := v.(ids := v.ids + [id], buffers := v.buffers + [sb]), m.(queues := m.queues[id := q]);
    var b := FRESH_RECORD.(openTransaction := true, transactionHead := null);
    Replaced(w, t, |v.buffers| + 1, |v.buffers|, b, M.OpenQueue(m, id));
    assert t.queues[id := M.OpenQueue(m, id)] == m.queues[id := M.OpenQueue(m, id)];
  }

  lemma NotFound(v: Snapshot, m: M.State, id: nat)
    requires Tied(v, m, |v.buffers|) && id !in v.ids
    ensures id !in m.queues
  {
  }

  // ---------------------------------------------------------------- memory

  /** Memory that the driver says is unused is apart from all chunks. */
  lemma FreshFrom(history: seq<M.Step>, ptr: M.DualPointer, size: nat)
    requires S.Legal(M.INIT, history)
    requires Driver.Unused(Held(history, HostRange), ptr.host, size)
    requires Driver.Unused(Held(history, DeviceRange), ptr.device, size)
    ensures M.FreshRegion(StateOf(history), M.Region(ptr, size))
  {
    forall l | M.HasLoc(StateOf(history), l)
      ensures M.Disjoint(M.At(StateOf(history), l).Extent(), M.Region(ptr, size))
    {
      PlaceHeld(history, l);
    }
  }

  /** Free chunks are held, at different addresses. */
  lemma FreeHeld(history: seq<M.Step>, i: nat)
    requires S.Legal(M.INIT, history) && i < |StateOf(history).free|
    ensures var free := StateOf(history).free;
      && HostRange(free[i].Extent()) in Held(history, HostRange)
      && DeviceRange(free[i].Extent()) in Held(history, DeviceRange)
      && forall j | 0 <= j < i ::
           HostRange(free[i].Extent()) != HostRange(free[j].Extent())
             && DeviceRange(free[i].Extent()) != DeviceRange(free[j].Extent())
  {
    var free := StateOf(history).free;
    PlaceHeld(history, M.InFree(i));
    ChunksApart(history);
    forall j | 0 <= j < i
      ensures HostRange(free[i].Extent()) != HostRange(free[j].Extent())
      ensures DeviceRange(free[i].Extent()) != DeviceRange(free[j].Extent())
    {
      S.PlacesDiffer(StateOf(history), M.InFree(i), M.InFree(j));
    }
  }

  lemma FreeRangesMore(free: seq<M.Chunk>, k: nat, of: M.Region -> (int, nat))
    requires k < |free|
    ensures FreeRanges(free[..k + 1], of) == FreeRanges(free[..k], of) + {of(free[k].Extent())}
  {
    var a, b := FreeRanges(free[..k + 1], of), FreeRanges(free[..k], of) + {of(free[k].Extent())};
    forall h ensures h in a <==> h in b {
      if h in a {
        var i :| 0 <= i < k + 1 && h == of(free[..k + 1][i].Extent());
        assert i < k ==> free[..k][i] == free[i];
      }
      if h in FreeRanges(free[..k], of) {
        var i :| 0 <= i < k && h == of(free[..k][i].Extent());
        assert free[..k + 1][i] == free[i];
      }
      assert free[..k + 1][k] == free[k];
    }
  }

  /** The state and the memory held after the free chunks are deleted. */
  lemma GrowRun(history: seq<M.Step>, capacity: nat, after: seq<M.Step>)
    requires S.Legal(M.INIT, history) && M.Enabled(StateOf(history), M.Grow(capacity))
    requires after == history + [M.Grow(capacity)]
    ensures S.Legal(M.INIT, after)
    ensures StateOf(after) == StateOf(history).(capacity := capacity, free := [])
    ensures Held(after, HostRange) == Held(history, HostRange) - FreeRanges(StateOf(history).free, HostRange)
    ensures Held(after, DeviceRange) == Held(history, DeviceRange) - FreeRanges(StateOf(history).free, DeviceRange)
  {
    Extend(history, M.Grow(capacity));
  }

  // ---------------------------------------------------------------- serving an allocation

  /** Where the memory for an allocation will come from: the last chunk, a free chunk, or a new one. */
  datatype Source = FromTail | FromFree | FromNew(ptr: M.DualPointer)

  function CarvingStep(source: Source, id: nat, size: nat): M.Step {
    match source
    case FromTail => M.Carve(id, size)
    case FromFree => M.Reuse(id, size)
    case FromNew(ptr) => M.Attach(id, ptr, size)
  }

  /** What the driver holds beyond the history: a chunk that was allocated but is not in use yet. */
  ghost predicate HoldsExtra(driver: Driver, history: seq<M.Step>, source: Source)
    requires S.Legal(M.INIT, history)
    reads driver
  {
    && driver.issued == StateOf(history).issued && driver.completed == StateOf(history).completed
    && driver.hostRanges == Held(history, HostRange) +
         (if source.FromNew? then {HostRange(M.Region(source.ptr, StateOf(history).capacity))} else {})
    && driver.deviceRanges == Held(history, DeviceRange) +
         (if source.FromNew? then {DeviceRange(M.Region(source.ptr, StateOf(history).capacity))} else {})
  }

  /** `c` is ready to be appended to a queue. */
  ghost predicate Offered(v: Snapshot, history: seq<M.Step>, n: nat, c: Chunk, source: Source)
    requires S.Legal(M.INIT, history)
  {
    match source
    case FromTail => false
    case FromFree => CanReuse(v, StateOf(history), n, c)
    case FromNew(ptr) => CanAttach(v, StateOf(history), n, c, ptr)
  }

  /** Appending `c`, whose value is `value`, to the queue of `sb` and carving from it leads to `t`. */
  ghost predicate CanServe(v: Snapshot, n: nat, i: nat, sb: StreamBuffer, c: Chunk, size: nat, value: M.Chunk,
                           t: M.State) {
    && i < n && n <= |v.buffers| && v.buffers[i] == sb && sb in v.buffer
    && (v.buffer[sb].tail != null ==> v.buffer[sb].tail in v.chunk)
    && var w := Append(v, i, c);
    && w.buffer[sb].tail == c && c in w.chunk && w.chunk[c].value == value && size <= value.available
    && Tied(CarveSnapshot(w, i, size), t, n)
  }

  /** The step that carves from an offered chunk, and what it leads to. */
  lemma CarveOffered(history: seq<M.Step>, v: Snapshot, n: nat, i: nat, id: nat, sb: StreamBuffer, c: Chunk, size: nat,
                     source: Source)
    requires S.Legal(M.INIT, history) && Offered(v, history, n, c, source)
    requires i < n && n <= |v.buffers| && n <= |v.ids| && v.ids[i] == id && v.buffers[i] == sb
    requires M.NeedsChunk(StateOf(history), id, size) && size <= StateOf(history).capacity && size % M.ALIGNMENT == 0
    ensures M.Enabled(StateOf(history), CarvingStep(source, id, size))
    ensures CanServe(v, n, i, sb, c, size, CarvedTail(StateOf(history), id, source),
                     M.Apply(StateOf(history), CarvingStep(source, id, size)))
  {
    ChunksApart(history);
    if source.FromFree? {
      ReuseLinks(v, StateOf(history), n, i, c, size);
    } else {
      AttachLinks(v, StateOf(history), n, i, c, source.ptr, size);
    }
  }

  /** The chunk that is carved. */
  ghost function CarvedTail(m: M.State, id: nat, source: Source): M.Chunk
    requires id in m.queues && (source.FromTail? ==> m.queues[id].HasTail()) && (source.FromFree? ==> m.free != [])
  {
    match source
    case FromTail => m.queues[id].Tail()
    case FromFree => M.Reused(m, id).Tail()
    case FromNew(ptr) => M.Attached(m, id, ptr).Tail()
  }

  /** The state after a carving step, as far as a caller is concerned. */
  ghost predicate Served(history: seq<M.Step>, after: seq<M.Step>, id: nat, ptr: M.DualPointer, size: nat)
    requires S.Legal(M.INIT, history) && S.Legal(M.INIT, after)
  {
    && StateOf(after).log == StateOf(history).log + [M.Allocation(M.Region(ptr, size), id, None)]
    && StateOf(after).completed == StateOf(history).completed
  }

  /** What a carving step logs, and what memory it holds. */
  lemma CarveRun(history: seq<M.Step>, id: nat, size: nat, source: Source, after: seq<M.Step>)
    requires S.Legal(M.INIT, history) && M.Enabled(StateOf(history), CarvingStep(source, id, size))
    requires after == history + [CarvingStep(source, id, size)]
    ensures S.Legal(M.INIT, after) && StateOf(after) == M.Apply(StateOf(history), CarvingStep(source, id, size))
    ensures StateOf(after).issued == StateOf(history).issued && StateOf(after).completed == StateOf(history).completed
    ensures Held(after, HostRange) == Held(history, HostRange) +
      (if source.FromNew? then {HostRange(M.Region(source.ptr, StateOf(history).capacity))} else {})
    ensures Held(after, DeviceRange) == Held(history, DeviceRange) +
      (if source.FromNew? then {DeviceRange(M.Region(source.ptr, StateOf(history).capacity))} else {})
  {
    hide S.Run, S.Legal, Held;
    Extend(history, CarvingStep(source, id, size));
  }

  lemma CarveServes(history: seq<M.Step>, id: nat, size: nat, source: Source, after: seq<M.Step>, c: M.Chunk)
    requires S.Legal(M.INIT, history) && M.Enabled(StateOf(history), CarvingStep(source, id, size))
    requires S.Legal(M.INIT, after) && StateOf(after) == M.Apply(StateOf(history), CarvingStep(source, id, size))
    requires c == CarvedTail(StateOf(history), id, source)
    ensures size <= c.available && Served(history, after, id, c.ptr.Offset(c.available - size), size)
  {
    hide S.Run, S.Legal;
  }

  /** No chunk can serve the allocation but one that the driver would have to provide. */
  predicate NoChunk(m: M.State, size: nat) {
    size <= m.capacity / M.MIN_CHUNK_TO_ALLOCATION_RATIO ==> m.free == []
  }

  /** `c` can serve the allocation; it is new only if there is no free chunk. */
  ghost predicate HasChunk(driver: Driver, v: Snapshot, history: seq<M.Step>, n: nat, size: nat, c: Chunk,
                           source: Source)
    requires S.Legal(M.INIT, history)
    reads driver
  {
    && size <= StateOf(history).capacity / M.MIN_CHUNK_TO_ALLOCATION_RATIO
    && (source.FromFree? <==> StateOf(history).free != [])
    && Offered(v, history, n, c, source)
    && HoldsExtra(driver, history, source)
  }

  /** How the history may grow while a chunk for `size` bytes is looked for. */
  ghost predicate Prepared(h: seq<M.Step>, after: seq<M.Step>, size: nat, no: seq<M.Event>)
    requires S.Legal(M.INIT, h)
  {
    var m := StateOf(h);
    if size <= m.capacity / M.MIN_CHUNK_TO_ALLOCATION_RATIO then
      if m.free != [] then after == h
      else Reclaims(h, after) && S.Legal(M.INIT, after) && Reclaimed(StateOf(after), no)
    else if 0 < m.capacity && Grown(m.capacity, size).Some? then
      after == h + [M.Grow(Grown(m.capacity, size).value)]
    else
      after == h
  }

  lemma GrowKeeps(history: seq<M.Step>, size: nat, capacity: nat)
    requires S.Legal(M.INIT, history) && 0 < StateOf(history).capacity
    requires StateOf(history).capacity / M.MIN_CHUNK_TO_ALLOCATION_RATIO < size
    requires Grown(StateOf(history).capacity, size) == Some(capacity)
    ensures M.Enabled(StateOf(history), M.Grow(capacity)) && size <= capacity / M.MIN_CHUNK_TO_ALLOCATION_RATIO
  {
    var c := StateOf(history).capacity;
    GrownFits(c, size);
    S.ReachableInv(history);
    MultipleOfMultiple(capacity, c, M.ALIGNMENT);
  }

  lemma CapacityPositive(history: seq<M.Step>)
    requires S.Legal(M.INIT, history)
    ensures 0 < StateOf(history).capacity
  {
    S.ReachableInv(history);
  }

  /** Carving from the last chunk of a queue that a transaction is open on. */
  lemma CarveOwn(history: seq<M.Step>, v: Snapshot, n: nat, i: nat, id: nat, sb: StreamBuffer, size: nat, c: M.Chunk,
                 t: M.State)
    requires S.Legal(M.INIT, history) && Tied(v, StateOf(history), n)
    requires i < n && v.ids[i] == id && v.buffers[i] == sb && M.Enabled(StateOf(history), M.Carve(id, size))
    requires c == CarvedTail(StateOf(history), id, FromTail) && t == M.Apply(StateOf(history), M.Carve(id, size))
    ensures CanCarve(v, n, i, sb, size, c, t)
  {
    ChunksApart(history);
    TailIsLone(v, StateOf(history), n, i);
    CarveLinks(v, StateOf(history), n, i, size, t);
  }

  /** Carving from the last chunk of `sb`, whose value is `value`, leads to `t`. */
  ghost predicate CanCarve(v: Snapshot, n: nat, i: nat, sb: StreamBuffer, size: nat, value: M.Chunk, t: M.State) {
    && i < n && n <= |v.buffers| && v.buffers[i] == sb && sb in v.buffer
    && v.buffer[sb].tail != null && v.buffer[sb].tail in v.chunk && v.chunk[v.buffer[sb].tail].value == value
    && size <= value.available
    && Tied(CarveSnapshot(v, i, size), t, n)
  }

  /** What the last chunk of queue `i` says about its state. */
  lemma TailFacts(v: Snapshot, m: M.State, n: nat, i: nat)
    requires Tied(v, m, n) && i < n
    ensures v.ids[i] in m.queues && v.buffers[i] in v.buffer
    ensures var b, q := v.buffer[v.buffers[i]], m.queues[v.ids[i]];
      && (b.tail == null <==> !q.HasTail())
      && (b.tail != null ==> b.tail in v.chunk && v.chunk[b.tail].value == q.Tail())
  {
    EntryAt(v, m, n, i);
  }

  /** `ptr` is `size` aligned bytes that no allocation still in flight contains. */
  ghost predicate Apart(m: M.State, ptr: M.DualPointer, size: nat) {
    && M.Aligned(ptr)
    && forall k | 0 <= k < |m.log| && M.InFlight(m, m.log[k]) :: M.Disjoint(m.log[k].extent, M.Region(ptr, size))
  }

  lemma ServedApart(history: seq<M.Step>, id: nat, size: nat, source: Source, ptr: M.DualPointer)
    requires S.Legal(M.INIT, history) && M.Enabled(StateOf(history), CarvingStep(source, id, size))
    requires S.Legal(M.INIT, history + [CarvingStep(source, id, size)])
    requires Served(history, history + [CarvingStep(source, id, size)], id, ptr, size)
    ensures Apart(StateOf(history), ptr, size)
  {
    var step := CarvingStep(source, id, size);
    S.RunAppend(M.INIT, history, step);
    S.FreshAllocation(history, step);
    S.RunSafe(history + [step]);
  }

  lemma CarveKeepsOpen(v: Snapshot, w: Snapshot, m: M.State, n: nat, id: nat, sb: StreamBuffer, source: Source,
                       size: nat)
    requires OpenEntry(v, m, n, id, sb) && w.ids == v.ids && w.buffers == v.buffers
    requires M.Enabled(m, CarvingStep(source, id, size))
    ensures OpenEntry(w, M.Apply(m, CarvingStep(source, id, size)), n, id, sb)
  {
  }

  /**
   What a call that asks for `size` bytes (a multiple of the alignment) does.  The history
   first grows to `middle` while a chunk is looked for, but only if the last chunk of the
   queue has no room; then the bytes are carved, and they are apart from everything that the
   device may still use.  It fails only if the driver was needed.
   */
  ghost predicate Outcome(h: seq<M.Step>, after: seq<M.Step>, id: nat, size: nat,
                          r: Option<M.DualPointer>, middle: seq<M.Step>, source: Source, no: seq<M.Event>)
    requires S.Legal(M.INIT, h)
  {
    && S.Legal(M.INIT, middle) && S.Legal(M.INIT, after)
    && (if M.NeedsChunk(StateOf(h), id, size) then
          && Prepared(h, middle, size, no)
          && (r.Some? ==> !source.FromTail? && (source.FromFree? <==> StateOf(middle).free != []))
        else
          middle == h && r.Some? && source.FromTail?)
    && (r.None? ==> after == middle && NoChunk(StateOf(middle), size))
    && (r.Some? ==>
          && M.Enabled(StateOf(middle), CarvingStep(source, id, size))
          && after == middle + [CarvingStep(source, id, size)]
          && Served(middle, after, id, r.value, size)
          && Apart(StateOf(middle), r.value, size))
  }

  /** What a carving step means for the caller. */
  lemma CarveDone(h: seq<M.Step>, after: seq<M.Step>, v: Snapshot, w: Snapshot, n: nat, id: nat, sb: StreamBuffer,
                  source: Source, size: nat, c: M.Chunk, ptr: M.DualPointer)
    requires S.Legal(M.INIT, h) && M.Enabled(StateOf(h), CarvingStep(source, id, size))
    requires after == h + [CarvingStep(source, id, size)]
    requires OpenEntry(v, StateOf(h), n, id, sb) && w.ids == v.ids && w.buffers == v.buffers
    requires c == CarvedTail(StateOf(h), id, source) && ptr == c.ptr.Offset(c.available - size)
    ensures S.Legal(M.INIT, after) && OpenEntry(w, StateOf(after), n, id, sb)
    ensures Served(h, after, id, ptr, size) && Apart(StateOf(h), ptr, size)
  {
    hide S.Run, Held, OpenEntry, Served, Apart, S.Legal;
    CarveRun(h, id, size, source, after);
    CarveServes(h, id, size, source, after, c);
    CarveKeepsOpen(v, w, StateOf(h), n, id, sb, source, size);
    ServedApart(h, id, size, source, ptr);
  }

  // ---------------------------------------------------------------- closing

  lemma RecordMore(chunk: map<Chunk, ChunkRecord>, cs: seq<Chunk>, c: Chunk, e: M.Event)
    requires c in chunk
    ensures c in RecordChunks(chunk, cs, e)
    ensures var r := RecordChunks(chunk, cs, e);
      RecordChunks(chunk, cs + [c], e) == r[c := r[c].(value := r[c].value.(event := e))]
  {
  }

  /** Recording `e` on the chunks that the transaction used, and ending it, leads to `t`. */
  ghost predicate CanClose(v: Snapshot, n: nat, i: nat, sb: StreamBuffer, pinned: nat, e: M.Event, t: M.State) {
    && i < n && n <= |v.buffers| && v.buffers[i] == sb && sb in v.buffer && pinned <= |v.buffer[sb].chunks|
    && Tied(CloseSnapshot(v, i, pinned, e), t, n)
    && v.buffer[sb].transactionHead == (if pinned == |v.buffer[sb].chunks| then null else v.buffer[sb].chunks[pinned])
    && LinkedFrom(v.chunk, v.buffer[sb].chunks)
  }

  /** Events are recorded on the chunks at the positions from `pinned` to `k`. */
  ghost function Recorded(v: Snapshot, cs: seq<Chunk>, pinned: nat, k: nat, e: M.Event): Snapshot
    requires pinned <= k <= |cs|
  {
    if k == pinned then v else v.(chunk := RecordChunks(v.chunk, cs[pinned..k], e))
  }

  /** Recording one more event changes no link. */
  lemma RecordedMore(v: Snapshot, cs: seq<Chunk>, pinned: nat, k: nat, e: M.Event)
    requires pinned <= k < |cs| && cs[k] in v.chunk
    ensures var w := Recorded(v, cs, pinned, k, e);
      && cs[k] in w.chunk && w.chunk[cs[k]].next == v.chunk[cs[k]].next
      && var r := w.chunk[cs[k]];
      Recorded(v, cs, pinned, k + 1, e) == w.(chunk := w.chunk[cs[k] := r.(value := r.value.(event := e))])
  {
    RecordMore(v.chunk, cs[pinned..k], cs[k], e);
    assert cs[pinned..k] + [cs[k]] == cs[pinned..k + 1];
    if k == pinned {
      assert RecordChunks(v.chunk, cs[pinned..k], e) == v.chunk;
    }
  }

  lemma AllRecorded(v: Snapshot, i: nat, pinned: nat, e: M.Event)
    requires i < |v.buffers| && v.buffers[i] in v.buffer && pinned <= |v.buffer[v.buffers[i]].chunks|
    ensures var b := v.buffer[v.buffers[i]];
      Recorded(v, b.chunks, pinned, |b.chunks|, e).(buffer := v.buffer[v.buffers[i] := CloseRecord(b)]) ==
        CloseSnapshot(v, i, pinned, e)
  {
    assert RecordChunks(v.chunk, [], e) == v.chunk;
  }

  /** Each chunk of `cs` points to the next one. */
  ghost predicate LinkedFrom(chunk: map<Chunk, ChunkRecord>, cs: seq<Chunk>) {
    && (forall a | 0 <= a < |cs| :: cs[a] in chunk)
    && (forall a {:trigger chunk[cs[a]]} | 0 <= a < |cs| ::
        chunk[cs[a]].next == if a + 1 < |cs| then cs[a + 1] else null)
  }

  lemma CloseLinks(history: seq<M.Step>, v: Snapshot, n: nat, i: nat, sb: StreamBuffer, id: nat, after: seq<M.Step>)
    requires S.Legal(M.INIT, history) && Tied(v, StateOf(history), n)
    requires i < n && v.ids[i] == id && v.buffers[i] == sb && M.Enabled(StateOf(history), M.Close(id))
    requires after == history + [M.Close(id)]
    ensures var m := StateOf(history); var e := M.Recorded(id, M.Count(m.issued, id));
      && S.Legal(M.INIT, after) && StateOf(after).issued == m.issued && StateOf(after).completed == m.completed
      && StateOf(after) == M.Apply(m, M.Close(id))
      && Held(after, HostRange) == Held(history, HostRange) && Held(after, DeviceRange) == Held(history, DeviceRange)
      && CanClose(v, n, i, sb, m.queues[id].pinned, e, StateOf(after))
  {
    var m := StateOf(history);
    var e := M.Recorded(id, M.Count(m.issued, id));
    ChunksApart(history);
    Extend(history, M.Close(id));
    EntryAt(v, m, n, i);
    CloseTied(v, m, n, i, e);
    SameLinks(CloseSnapshot(v, i, m.queues[id].pinned, e), m.(queues := m.queues[id := M.CloseQueue(m.queues[id], e)]),
              StateOf(after), n);
  }

  /** A step of the device alone concerns neither the lists nor the memory. */
  lemma DeviceRun(history: seq<M.Step>, v: Snapshot, n: nat, step: M.Step, after: seq<M.Step>)
    requires S.Legal(M.INIT, history) && Tied(v, StateOf(history), n)
    requires (step.Submit? || step.Finish?) && M.Enabled(StateOf(history), step) && after == history + [step]
    ensures S.Legal(M.INIT, after) && Tied(v, StateOf(after), n)
    ensures var m := StateOf(history);
      && StateOf(after).issued == (if step.Submit? then M.Advanced(m.issued, step.stream) else m.issued)
      && StateOf(after).completed == (if step.Submit? then m.completed else M.Advanced(m.completed, step.stream))
    ensures Held(after, HostRange) == Held(history, HostRange) && Held(after, DeviceRange) == Held(history, DeviceRange)
  {
    Extend(history, step);
    SameLinks(v, StateOf(history), StateOf(after), n);
  }

  /** The last allocation is `size` bytes at `ptr`, for stream `id`. */
  ghost predicate LastGiven(m: M.State, id: nat, ptr: M.DualPointer, size: nat, mark: Option<nat>) {
    m.log != [] && m.log[|m.log| - 1] == M.Allocation(M.Region(ptr, size), id, mark)
  }

  lemma OutcomeLogged(h: seq<M.Step>, after: seq<M.Step>, id: nat, size: nat, ptr: M.DualPointer, middle: seq<M.Step>,
                      source: Source, no: seq<M.Event>)
    requires S.Legal(M.INIT, h) && Outcome(h, after, id, size, Some(ptr), middle, source, no)
    ensures S.Legal(M.INIT, after) && LastGiven(StateOf(after), id, ptr, size, None)
  {
    hide S.Legal, S.Run, Prepared, Apart, M.Enabled;
  }

  /** Issuing work changes neither queues nor allocations. */
  lemma SubmitKeeps(history: seq<M.Step>, id: nat)
    requires S.Legal(M.INIT, history)
    ensures S.Legal(M.INIT, history + [M.Submit(id)])
    ensures var m, t := StateOf(history), StateOf(history + [M.Submit(id)]); t.log == m.log && t.queues == m.queues
  {
    S.RunAppend(M.INIT, history, M.Submit(id));
  }

  /** Closing marks what the transaction was given with all work issued so far. */
  lemma CloseMarks(history: seq<M.Step>, id: nat, after: seq<M.Step>)
    requires S.Legal(M.INIT, history) && M.Enabled(StateOf(history), M.Close(id)) && after == history + [M.Close(id)]
    ensures S.Legal(M.INIT, after) && M.Enabled(StateOf(after), M.Open(id))
    ensures forall ptr, size | LastGiven(StateOf(history), id, ptr, size, None) ::
      LastGiven(StateOf(after), id, ptr, size, Some(M.Count(StateOf(after).issued, id)))
  {
    S.RunAppend(M.INIT, history, M.Close(id));
  }

  lemma NothingRecorded(v: Snapshot, cs: seq<Chunk>, pinned: nat, e: M.Event)
    requires pinned <= |cs|
    ensures Recorded(v, cs, pinned, pinned, e) == v
  {
  }

  class StreamBufferPool {
    var streamIds: seq<nat>
    var streamBuffers: seq<StreamBuffer>
    var curChunkCapacity: nat
    var chunkFreelist: Chunk?
    var sbFreelist: StreamBuffer?

    ghost var history: seq<M.Step>  // every step since the pool was created
    ghost var view: Snapshot        // the fields of the pool and of all its chunks and stream buffers

    /** `view` is what the fields are. */
    ghost predicate Linked()
      reads this`streamIds, this`streamBuffers, this`curChunkCapacity, this`chunkFreelist, this`sbFreelist
      reads this`view, view.chunk.Keys, view.buffer.Keys
    {
      && view.ids == streamIds && view.buffers == streamBuffers && view.capacity == curChunkCapacity
      && view.chunkFreelist == chunkFreelist && view.sbFreelist == sbFreelist
      && (forall c | c in view.chunk :: view.chunk[c] == ChunkRecord(c.Value(), c.next))
      && (forall b | b in view.buffer :: view.buffer[b] == b.Value())
    }

    /** The device is where the history says it is, and holds the memory the history says it holds. */
    ghost predicate DeviceTied(driver: Driver)
      requires S.Legal(M.INIT, history)
      reads this`history, driver
    {
      && driver.issued == StateOf(history).issued && driver.completed == StateOf(history).completed
      && driver.hostRanges == Held(history, HostRange)
      && driver.deviceRanges == Held(history, DeviceRange)
    }

    /** The pool is valid, but for entries from `n` on in its vectors. */
    ghost predicate ValidUpTo(driver: Driver, n: nat)
      reads this, view.chunk.Keys, view.buffer.Keys, driver
    {
      && Linked()
      && S.Legal(M.INIT, history)
      && Tied(view, StateOf(history), n)
      && DeviceTied(driver)
    }

    ghost predicate Valid(driver: Driver)
      reads this, view.chunk.Keys, view.buffer.Keys, driver
    {
      ValidUpTo(driver, |streamBuffers|)
    }

    constructor ()
      ensures history == [] && view.chunk == map[] && view.buffer == map[]
      ensures Linked() && S.Legal(M.INIT, history) && Tied(view, StateOf(history), |streamBuffers|)
      ensures forall driver: Driver :: driver.Untouched() ==> Valid(driver)
      ensures forall id: nat :: M.Enabled(StateOf(history), M.Open(id))
    {
      streamIds, streamBuffers := [], [];
      curChunkCapacity := M.INITIAL_CHUNK_CAPACITY;
      chunkFreelist, sbFreelist := null, null;
      history := [];
      view := Snapshot([], [], M.INITIAL_CHUNK_CAPACITY, null, null, map[], map[], [], []);
    }

    // -------------------------------------------------------------- reclaiming

    static method DeleteChunk(driver: Driver, chunk: Chunk)
      requires InUse(driver, chunk.Value().Extent())
      modifies driver`hostRanges, driver`deviceRanges
      ensures driver.hostRanges == old(driver.hostRanges) - {HostRange(chunk.Value().Extent())}
      ensures driver.deviceRanges == old(driver.deviceRanges) - {DeviceRange(chunk.Value().Extent())}
    {
      driver.MemFreeHost(chunk.ptr.host, chunk.capacity);
      driver.MemFree(chunk.ptr.device, chunk.capacity);
    }

    method LinkFree(chunk: Chunk)
      requires Linked() && chunk in view.chunk
      modifies this`chunkFreelist, this`view, chunk`next
      ensures Linked() && view == PushFree(old(view), chunk)
    {
      chunk.next := chunkFreelist;
      chunkFreelist := chunk;
      view := PushFree(view, chunk);
    }

    /** Keep a chunk on the free list, or delete it if its capacity is outdated. */
    method ReclaimChunk(driver: Driver, chunk: Chunk, ghost n: nat, ghost m: M.State)
      requires Linked() && Tied(view, m, n) && Detached(view, n, chunk)
      requires InUse(driver, chunk.Value().Extent())
      modifies this`chunkFreelist, this`view, chunk`next
      modifies driver`hostRanges, driver`deviceRanges
      ensures Linked() && view.chunk.Keys == old(view.chunk.Keys) && view.buffer == old(view.buffer)
      ensures Tied(view, m.(free := M.Reclaim(old(chunk.Value()), m.capacity, m.free)), n)
      ensures driver.hostRanges == LessChunk(old(driver.hostRanges), old(chunk.Value()), m.capacity, HostRange)
      ensures driver.deviceRanges == LessChunk(old(driver.deviceRanges), old(chunk.Value()), m.capacity, DeviceRange)
    {
      hide AreEntries, IsList, Covers, IsIdleList;
      if chunk.capacity == curChunkCapacity {
        PushFreeTied(view, m, n, chunk);
        LinkFree(chunk);
      } else {
        DeleteChunk(driver, chunk);
      }
    }

    method UnlinkHead(sb: StreamBuffer) returns (chunk: Chunk)
      requires Linked() && sb in view.buffer && sb.head != null && sb.head in view.chunk && sb.chunks != []
      modifies this`view, sb`head, sb`tail, sb`chunks
      ensures Linked() && chunk == old(sb.head) && |sb.chunks| < |old(sb.chunks)|
      ensures view == old(view.(buffer := view.buffer[sb := PopRecord(view.chunk, view.buffer[sb])]))
    {
      chunk := sb.head;
      sb.head := chunk.next;
      if sb.head == null {
        sb.tail := null;
      }
      sb.chunks := sb.chunks[1..];
      view := view.(buffer := view.buffer[sb := PopRecord(view.chunk, view.buffer[sb])]);
    }

    /** Unlink the first chunk of a queue and reclaim it. */
    method DrainLists(driver: Driver, ghost n: nat, sb: StreamBuffer, ghost c: M.Chunk, ghost p: M.State)
      requires Linked() && CanPop(view, n, sb, c, p) && InUse(driver, c.Extent())
      modifies this`view, this`chunkFreelist, view.chunk.Keys, sb`head, sb`tail, sb`chunks
      modifies driver`hostRanges, driver`deviceRanges
      ensures Linked() && view.chunk.Keys == old(view.chunk.Keys) && view.buffer.Keys == old(view.buffer.Keys)
      ensures streamIds == old(streamIds) && streamBuffers == old(streamBuffers)
      ensures |sb.chunks| < |old(sb.chunks)| && driver.issued == old(driver.issued)
      ensures driver.completed == old(driver.completed)
      ensures Tied(view, p.(free := M.Reclaim(c, p.capacity, p.free)), n)
      ensures driver.hostRanges == LessChunk(old(driver.hostRanges), c, p.capacity, HostRange)
      ensures driver.deviceRanges == LessChunk(old(driver.deviceRanges), c, p.capacity, DeviceRange)
    {
      hide Tied, S.Legal, S.Run, Held, M.Enabled, M.Apply, PopRecord;
      assert view.buffer[sb] == sb.Value();
      assert view.chunk[sb.head].value == sb.head.Value();
      var chunk := UnlinkHead(sb);
      ReclaimChunk(driver, chunk, n, p);
    }

    /** The history catches up with what the pool and the device already are. */
    ghost method Record(driver: Driver, n: nat, after: seq<M.Step>, m: M.State)
      requires Linked() && S.Legal(M.INIT, after) && m == StateOf(after) && Tied(view, m, n)
      requires driver.issued == m.issued && driver.completed == m.completed
      requires driver.hostRanges == Held(after, HostRange) && driver.deviceRanges == Held(after, DeviceRange)
      modifies this`history
      ensures history == after && ValidUpTo(driver, n)
      ensures streamIds == old(streamIds) && streamBuffers == old(streamBuffers)
    {
      history := after;
    }

    /** Move the first chunk of queue `i`, whose event is complete, off the queue. */
    method DrainHead(driver: Driver, ghost n: nat, ghost i: nat, sb: StreamBuffer)
      requires ValidUpTo(driver, n)
      requires i < n && streamBuffers[i] == sb && M.Enabled(StateOf(history), M.Drain(streamIds[i]))
      modifies this`history, this`view, this`chunkFreelist, view.chunk.Keys, sb`head, sb`tail, sb`chunks
      modifies driver`hostRanges, driver`deviceRanges
      ensures history == old(history) + [M.Drain(streamIds[i])] && |sb.chunks| < |old(sb.chunks)|
      ensures view.chunk.Keys == old(view.chunk.Keys) && view.buffer.Keys == old(view.buffer.Keys)
      ensures ValidUpTo(driver, n)
      ensures streamIds == old(streamIds) && streamBuffers == old(streamBuffers)
    {
      hide S.Legal, S.Run, Held, M.Apply, CanPop, AreEntries, IsList, Covers, IsIdleList;
      ghost var stream := streamIds[i];
      ghost var c, p, after := StateOf(history).queues[stream].chunks[0], PopState(StateOf(history), stream),
        history + [M.Drain(stream)];
      DrainLinks(history, view, n, i, sb, c, p);
      DrainRun(history, stream, c, p, after);
      DrainLists(driver, n, sb, c, p);
      Record(driver, n, after, p.(free := M.Reclaim(c, p.capacity, p.free)));
    }

    /** Reclaim the first chunk of queue `i`, if it is in front of the transaction head and its event is complete. */
    method TryDrain(driver: Driver, ghost n: nat, ghost i: nat, sb: StreamBuffer) returns (drained: bool)
      requires ValidUpTo(driver, n) && i < n && streamBuffers[i] == sb
      modifies this`history, this`view, this`chunkFreelist, view.chunk.Keys, sb`head, sb`tail, sb`chunks
      modifies driver`hostRanges, driver`deviceRanges, driver.log`no
      ensures ValidUpTo(driver, n) && old(driver.log.no) <= driver.log.no
      ensures streamIds == old(streamIds) && streamBuffers == old(streamBuffers)
      ensures view.chunk.Keys == old(view.chunk.Keys) && view.buffer.Keys == old(view.buffer.Keys)
      ensures drained ==> M.Enabled(old(StateOf(history)), M.Drain(streamIds[i]))
      ensures drained ==> history == old(history) + [M.Drain(streamIds[i])] && |sb.chunks| < |old(sb.chunks)|
      ensures !drained ==> history == old(history) && sb.chunks == old(sb.chunks)
      ensures streamIds[i] in StateOf(history).queues
      ensures !drained ==> Settled(StateOf(history), streamIds[i], driver.log.no[|old(driver.log.no)|..])
    {
      hide S.Legal, S.Run, Held, M.Apply, AreEntries, IsList, Covers, IsIdleList;
      HeadFacts(view, StateOf(history), n, i);
      assert view.buffer[sb] == sb.Value();
      if sb.head == sb.transactionHead {
        return false;
      }
      var chunk := sb.head;
      assert view.chunk[chunk].value == chunk.Value();
      ghost var no := driver.log.no;
      drained := driver.EventQuery(chunk.event);
      if drained {
        DrainHead(driver, n, i, sb);
        HeadFacts(view, StateOf(history), n, i);
      } else {
        assert driver.log.no[|no|..] == [chunk.event];
      }
    }

    /**
     Reclaim the chunks in front of the transaction head whose events are complete: until none
     is left, or the driver says that the first one is not.
     */
    method PollEvents(driver: Driver, ghost n: nat, ghost i: nat, sb: StreamBuffer)
      requires ValidUpTo(driver, n) && i < n && streamBuffers[i] == sb
      modifies this`history, this`view, this`chunkFreelist, view.chunk.Keys, sb`head, sb`tail, sb`chunks
      modifies driver`hostRanges, driver`deviceRanges, driver.log`no
      ensures ValidUpTo(driver, n) && Reclaims(old(history), history) && old(driver.log.no) <= driver.log.no
      ensures streamIds == old(streamIds) && streamBuffers == old(streamBuffers)
      ensures view.chunk.Keys == old(view.chunk.Keys) && view.buffer.Keys == old(view.buffer.Keys)
      ensures streamIds[i] in StateOf(history).queues
      ensures Settled(StateOf(history), streamIds[i], driver.log.no[|old(driver.log.no)|..])
      ensures OthersKept(old(StateOf(history)), StateOf(history), streamIds[i])
    {
      hide S.Legal, S.Run, Held, M.Apply, AreEntries, IsList, Covers, IsIdleList, Reclaims, Settled;
      ghost var start, no := history, driver.log.no;
      ReclaimsSelf(start);
      var more := true;
      while more
        invariant ValidUpTo(driver, n) && no <= driver.log.no
        invariant S.Legal(M.INIT, start) && Reclaims(start, history)
        invariant OthersKept(StateOf(start), StateOf(history), streamIds[i])
        invariant streamIds == old(streamIds) && streamBuffers == old(streamBuffers)
        invariant view.chunk.Keys == old(view.chunk.Keys) && view.buffer.Keys == old(view.buffer.Keys)
        invariant !more ==>
          && streamIds[i] in StateOf(history).queues
          && Settled(StateOf(history), streamIds[i], driver.log.no[|no|..])
        decreases |sb.chunks|, more
      {
        more := TryDrainSince(driver, n, i, sb, start, no);
      }
    }

    method TryDrainSince(driver: Driver, ghost n: nat, ghost i: nat, sb: StreamBuffer, ghost start: seq<M.Step>,
                         ghost no: seq<M.Event>)
      returns (drained: bool)
      requires ValidUpTo(driver, n) && i < n && streamBuffers[i] == sb && no <= driver.log.no
      requires S.Legal(M.INIT, start) && Reclaims(start, history)
      requires OthersKept(StateOf(start), StateOf(history), streamIds[i])
      modifies this`history, this`view, this`chunkFreelist, view.chunk.Keys, sb`head, sb`tail, sb`chunks
      modifies driver`hostRanges, driver`deviceRanges, driver.log`no
      ensures ValidUpTo(driver, n) && Reclaims(start, history) && no <= driver.log.no
      ensures OthersKept(StateOf(start), StateOf(history), streamIds[i])
      ensures streamIds == old(streamIds) && streamBuffers == old(streamBuffers)
      ensures view.chunk.Keys == old(view.chunk.Keys) && view.buffer.Keys == old(view.buffer.Keys)
      ensures if drained then |sb.chunks| < |old(sb.chunks)| else sb.chunks == old(sb.chunks)
      ensures !drained ==>
        && streamIds[i] in StateOf(history).queues
        && Settled(StateOf(history), streamIds[i], driver.log.no[|no|..])
    {
      hide S.Legal, S.Run, Held, M.Apply, AreEntries, IsList, Covers, IsIdleList, Reclaims, Settled;
      ghost var before, answers := history, driver.log.no;
      ReclaimsOne(before, M.Drain(streamIds[i]));
      drained := TryDrain(driver, n, i, sb);
      ReclaimsSelf(before);
      ReclaimsTrans(start, before, history);
      if drained {
        DrainOthers(before, streamIds[i]);
      } else {
        SettledMore(StateOf(history), streamIds[i], driver.log.no, |no|, |answers|);
      }
    }

    method LinkIdle(sb: StreamBuffer)
      requires Linked() && sb in view.buffer
      modifies this`sbFreelist, this`view, sb`nextFree
      ensures Linked() && view == old(view.(
        buffer := view.buffer[sb := view.buffer[sb].(nextFree := sbFreelist)], sbFreelist := sb,
          idle := [sb] + view.idle))
    {
      sb.nextFree := sbFreelist;
      view := view.(buffer := view.buffer[sb := view.buffer[sb].(nextFree := sbFreelist)], sbFreelist := sb,
                    idle := [sb] + view.idle);
      sbFreelist := sb;
    }

    method UnlinkEntry(n: nat, i: nat, sb: StreamBuffer)
      requires Linked() && i < n <= |streamIds| == |streamBuffers| && sb == streamBuffers[i] && sb in view.buffer
      modifies this`streamIds, this`streamBuffers, this`sbFreelist, this`view, sb`nextFree
      ensures Linked() && view == RetireSnapshot(old(view), n, i)
    {
      LinkIdle(sb);
      streamBuffers := streamBuffers[i := streamBuffers[n - 1]];
      streamIds := streamIds[i := streamIds[n - 1]];
      view := view.(ids := streamIds, buffers := streamBuffers);
    }

    /** Drop entry `i`, whose queue is empty and has no open transaction. */
    method RetireEntry(driver: Driver, n: nat, i: nat, sb: StreamBuffer, ghost id: nat, ghost own: StreamBuffer)
      requires ValidUpTo(driver, n) && i < n && M.Enabled(StateOf(history), M.Retire(streamIds[i]))
      requires streamBuffers[i] == sb && sb in view.buffer && |view.ids| == |view.buffers|
      requires OpenEntry(view, StateOf(history), n, id, own)
      modifies this`streamIds, this`streamBuffers, this`sbFreelist, this`view, this`history, sb`nextFree
      ensures ValidUpTo(driver, n - 1) && history == old(history + [M.Retire(streamIds[i])])
      ensures OpenEntry(view, StateOf(history), n - 1, id, own)
      ensures |streamBuffers| == old(|streamBuffers|) && view == RetireSnapshot(old(view), n, i)
      ensures StateOf(history).queues == old(StateOf(history).queues - {streamIds[i]})
      ensures view.chunk.Keys == old(view.chunk.Keys) && view.buffer.Keys == old(view.buffer.Keys)
    {
      hide S.Legal, S.Run, Held, M.Apply, IsQueue, IsList, Covers, IsIdleList;
      ghost var stream := streamIds[i];
      ghost var t := StateOf(history).(queues := StateOf(history).queues - {stream});
      RetireTied(view, StateOf(history), n, i);
      RetireKeeps(view, StateOf(history), n, i, id, own);
      RetireRun(history, stream, t);
      UnlinkEntry(n, i, sb);
      history := history + [M.Retire(stream)];
    }

    method Resize(n: nat)
      requires Linked() && n <= |streamIds| == |streamBuffers|
      modifies this`streamIds, this`streamBuffers, this`view
      ensures Linked() && view == old(view.(ids := view.ids[..n], buffers := view.buffers[..n]))
    {
      streamIds := streamIds[..n];
      streamBuffers := streamBuffers[..n];
      view := view.(ids := view.ids[..n], buffers := view.buffers[..n]);
    }

    /** Drop idle entry `i`; the entries before it stay settled. */
    method DropEntry(driver: Driver, n: nat, i: nat, sb: StreamBuffer, ghost start: seq<M.Step>,
                     ghost no: seq<M.Event>, ghost id: nat, ghost own: StreamBuffer)
      requires ValidUpTo(driver, n) && i < n && M.Enabled(StateOf(history), M.Retire(streamIds[i]))
      requires streamBuffers[i] == sb && sb in view.buffer && n <= |view.ids| == |view.buffers|
      requires OpenEntry(view, StateOf(history), n, id, own) && Reclaims(start, history)
      requires FirstSettled(view.ids, StateOf(history), i, no)
      requires forall j | 0 <= j < i :: view.ids[j] != view.ids[i]
      modifies this`streamIds, this`streamBuffers, this`sbFreelist, this`view, this`history, sb`nextFree
      ensures ValidUpTo(driver, n - 1) && Reclaims(start, history)
      ensures OpenEntry(view, StateOf(history), n - 1, id, own)
      ensures |streamBuffers| == old(|streamBuffers|)
      ensures FirstSettled(view.ids, StateOf(history), i, no)
      ensures view.chunk.Keys == old(view.chunk.Keys) && view.buffer.Keys == old(view.buffer.Keys)
    {
      hide S.Legal, S.Run, Held, M.Apply, Reclaims, Tied, FirstSettled, OpenEntry, RetireSnapshot;
      ghost var before, v, t := history, view, StateOf(history);
      ReclaimsOne(before, M.Retire(streamIds[i]));
      RetireEntry(driver, n, i, sb, id, own);
      ReclaimsTrans(start, before, history);
      DropSettled(v, t, StateOf(history), n, i, no);
    }

    /**
     Reclaim from queue `i`; drop it if it becomes idle.  Only reclaiming happened since
     `start`, and the open transaction on stream `id` is kept.
     */
    method ReclaimEntry(driver: Driver, n: nat, i: nat, ghost start: seq<M.Step>, ghost no: seq<M.Event>,
                        ghost id: nat, ghost own: StreamBuffer)
      returns (dropped: bool)
      requires ValidUpTo(driver, n) && i < n && Reclaims(start, history) && no <= driver.log.no
      requires OpenEntry(view, StateOf(history), n, id, own)
      requires FirstSettled(view.ids, StateOf(history), i, driver.log.no[|no|..])
      modifies this`streamIds, this`streamBuffers, this`chunkFreelist, this`sbFreelist, this`view, this`history
      modifies view.chunk.Keys, view.buffer.Keys, driver`hostRanges, driver`deviceRanges, driver.log`no
      ensures dropped ==> ValidUpTo(driver, n - 1) && OpenEntry(view, StateOf(history), n - 1, id, own)
      ensures !dropped ==> ValidUpTo(driver, n) && OpenEntry(view, StateOf(history), n, id, own)
      ensures Reclaims(start, history) && |streamBuffers| == old(|streamBuffers|) && no <= driver.log.no
      ensures FirstSettled(view.ids, StateOf(history), if dropped then i else i + 1, driver.log.no[|no|..])
      ensures view.chunk.Keys == old(view.chunk.Keys) && view.buffer.Keys == old(view.buffer.Keys)
    {
      hide S.Legal, S.Run, Held, M.Apply, Reclaims, AreEntries, IsQueue, IsList, Covers, IsIdleList,
        FirstSettled, OthersKept, Settled, OpenEntry, RetireSnapshot, DeviceTied, Tied;
      ghost var m, answers := StateOf(history), driver.log.no;
      HeadFacts(view, m, n, i);
      var sb := streamBuffers[i];
      PollEvents(driver, n, i, sb);
      ReclaimsTrans(start, old(history), history);
      ReclaimsKeepEntry(old(history), history, old(view), view, n, id, own);
      HeadFacts(view, StateOf(history), n, i);
      DistinctIds(view, StateOf(history), n, i);
      assert driver.log.no[|no|..|answers|] == answers[|no|..];
      OthersSettled(view.ids, m, StateOf(history), i, driver.log.no, |no|, |answers|);
      assert view.buffer[sb] == sb.Value();
      dropped := sb.head == null && !sb.openTransaction;
      if dropped {
        DropEntry(driver, n, i, sb, start, driver.log.no[|no|..], id, own);
      } else {
        SettledMore(StateOf(history), streamIds[i], driver.log.no, |no|, |answers|);
        OneMoreSettled(view.ids, StateOf(history), i, driver.log.no[|no|..]);
      }
    }

    /** Visit all entries; the last one takes the place of a dropped one. */
    method ReclaimEntries(driver: Driver, ghost id: nat, ghost own: StreamBuffer) returns (n: nat)
      requires Valid(driver) && OpenEntry(view, StateOf(history), |streamBuffers|, id, own)
      modifies this`streamIds, this`streamBuffers, this`chunkFreelist, this`sbFreelist, this`view, this`history
      modifies view.chunk.Keys, view.buffer.Keys, driver`hostRanges, driver`deviceRanges, driver.log`no
      ensures n <= |streamBuffers| && ValidUpTo(driver, n)
      ensures OpenEntry(view, StateOf(history), n, id, own)
      ensures Reclaims(old(history), history) && old(driver.log.no) <= driver.log.no
      ensures FirstSettled(view.ids, StateOf(history), n, driver.log.no[|old(driver.log.no)|..])
      ensures view.chunk.Keys == old(view.chunk.Keys) && view.buffer.Keys == old(view.buffer.Keys)
    {
      hide S.Legal, S.Run, Held, M.Apply, OpenEntry, Reclaims, AreEntries, IsList, Covers, IsIdleList;
      var i := 0;
      n := |streamBuffers|;
      ghost var start, no := history, driver.log.no;
      ReclaimsSelf(start);
      while i < n
        invariant i <= n <= |streamBuffers|
        invariant ValidUpTo(driver, n) && no <= driver.log.no
        invariant OpenEntry(view, StateOf(history), n, id, own)
        invariant Reclaims(start, history)
        invariant FirstSettled(view.ids, StateOf(history), i, driver.log.no[|no|..])
        invariant view.chunk.Keys == old(view.chunk.Keys) && view.buffer.Keys == old(view.buffer.Keys)
      {
        var dropped := ReclaimEntry(driver, n, i, start, no, id, own);
        i, n := if dropped then i else i + 1, if dropped then n - 1 else n;
      }
    }

    /**
     Reclaim what can be reclaimed from every queue, and drop the queues that become idle, on
     behalf of the open transaction on stream `id`: in every queue that is left, the driver
     said no, or there is nothing more to reclaim, and none is idle.
     */
    method Reclaim(driver: Driver, ghost id: nat, ghost own: StreamBuffer)
      requires Valid(driver) && OpenEntry(view, StateOf(history), |streamBuffers|, id, own)
      modifies this`streamIds, this`streamBuffers, this`chunkFreelist, this`sbFreelist, this`view, this`history
      modifies view.chunk.Keys, view.buffer.Keys, driver`hostRanges, driver`deviceRanges, driver.log`no
      ensures Valid(driver)
      ensures OpenEntry(view, StateOf(history), |streamBuffers|, id, own)
      ensures Reclaims(old(history), history) && old(driver.log.no) <= driver.log.no
      ensures Reclaimed(StateOf(history), driver.log.no[|old(driver.log.no)|..])
      ensures view.chunk.Keys == old(view.chunk.Keys) && view.buffer.Keys == old(view.buffer.Keys)
    {
      hide S.Legal, S.Run, Held, M.Apply, OpenEntry, Reclaims, AreEntries, IsList, Covers, IsIdleList, FirstSettled,
        Reclaimed;
      var n := ReclaimEntries(driver, id, own);
      AllSettled(view, StateOf(history), n, driver.log.no[|old(driver.log.no)|..]);
      ResizeTied(view, StateOf(history), n);
      ResizeKeeps(view, StateOf(history), n, id, own);
      Resize(n);
    }

    // -------------------------------------------------------------- opening a transaction

    method FindStream(streamId: nat) returns (i: Option<nat>)
      ensures i.None? ==> streamId !in streamIds
      ensures i.Some? ==> i.value < |streamIds| && streamIds[i.value] == streamId
    {
      for k := 0 to |streamIds|
        invariant streamId !in streamIds[..k]
      {
        if streamIds[k] == streamId {
          return Some(k);
        }
      }
      return None;
    }

    method UnlinkIdle(sb: StreamBuffer)
      requires Linked() && sbFreelist == sb && view.idle != [] && view.idle[0] == sb && sb in view.buffer
      modifies this`sbFreelist, this`view, sb
      ensures Linked() && view == old(view.(
        buffer := view.buffer[sb := FRESH_RECORD], sbFreelist := view.buffer[sb].nextFree, idle := view.idle[1..]))
    {
      sbFreelist := sb.nextFree;
      view := view.(buffer := view.buffer[sb := FRESH_RECORD], sbFreelist := sbFreelist, idle := view.idle[1..]);
      sb.Reset();
    }

    method NewStreamBuffer() returns (sb: StreamBuffer)
      requires Linked()
      modifies this`view
      ensures fresh(sb) && sb !in old(view).buffer
      ensures Linked() && view == old(view).(buffer := old(view).buffer[sb := FRESH_RECORD])
    {
      sb := new StreamBuffer();
      view := view.(buffer := view.buffer[sb := FRESH_RECORD]);
    }

    /** Push a stream buffer in its initial state, and open a transaction on it. */
    method PushOpen(id: nat, sb: StreamBuffer)
      requires Linked() && sb in view.buffer && view.buffer[sb] == FRESH_RECORD
      modifies this`streamIds, this`streamBuffers, this`view, sb`openTransaction, sb`transactionHead
      ensures Linked() && view == old(view.(ids := view.ids + [id], buffers := view.buffers + [sb],
        buffer := view.buffer[sb := FRESH_RECORD.(openTransaction := true, transactionHead := null)]))
    {
      PushEntry(id, sb);
      StartTransaction(sb);
    }

    /** A stream buffer in its initial state: a retired one, or a new one. */
    method AllocStreamBuffer(ghost m: M.State) returns (sb: StreamBuffer)
      requires Linked() && Tied(view, m, |streamBuffers|)
      modifies this`sbFreelist, this`view, view.buffer.Keys
      ensures Linked() && Tied(view, m, |streamBuffers|)
      ensures sb in view.buffer && view.buffer[sb] == FRESH_RECORD && sb !in view.idle && sb !in streamBuffers
      ensures view.chunk == old(view.chunk) && fresh(view.buffer.Keys - old(view.buffer.Keys))
    {
      assert streamBuffers[..|streamBuffers|] == streamBuffers;
      if sbFreelist != null {
        TakeIdleTied(view, m, |streamBuffers|, FRESH_RECORD);
        sb := sbFreelist;
        UnlinkIdle(sb);
      } else {
        ghost var v := view;
        sb := NewStreamBuffer();
        NewBufferTied(v, m, |streamBuffers|, sb);
      }
    }

    method PushEntry(streamId: nat, sb: StreamBuffer)
      requires Linked() && sb in view.buffer
      modifies this`streamIds, this`streamBuffers, this`view
      ensures Linked() && view == old(view.(ids := view.ids + [streamId], buffers := view.buffers + [sb]))
    {
      streamIds := streamIds + [streamId];
      streamBuffers := streamBuffers + [sb];
      view := view.(ids := streamIds, buffers := streamBuffers);
    }

    method StartTransaction(sb: StreamBuffer)
      requires Linked() && sb in view.buffer
      modifies this`view, sb`openTransaction, sb`transactionHead
      ensures Linked() && view == old(view.(
        buffer := view.buffer[sb := view.buffer[sb].(openTransaction := true, transactionHead := null)]))
    {
      sb.openTransaction := true;
      sb.transactionHead := null;
      view := view.(buffer := view.buffer[sb := view.buffer[sb].(openTransaction := true, transactionHead := null)]);
    }

    /**
     Open a transaction on a stream, whose id is missing if the driver failed to say it.  The
     program aborts exactly if the stream has one open.
     */
    method Open(driver: Driver, streamId: Option<nat>) returns (sb: StreamBuffer?, aborted: bool)
      requires Valid(driver)
      modifies this`streamIds, this`streamBuffers, this`sbFreelist, this`view, this`history, view.buffer.Keys
      ensures Valid(driver)
      ensures aborted <==> streamId.Some? && !M.Enabled(old(StateOf(history)), M.Open(streamId.value))
      ensures streamId.None? || aborted ==> sb == null && history == old(history) && view == old(view)
      ensures streamId.Some? && !aborted ==>
        && sb != null && history == old(history) + [M.Open(streamId.value)]
        && OpenEntry(view, StateOf(history), |streamBuffers|, streamId.value, sb)
      ensures view.chunk.Keys == old(view.chunk.Keys) && fresh(view.buffer.Keys - old(view.buffer.Keys))
    {
      hide S.Legal, S.Run, Held, Tied, M.Apply, OpenEntry;
      aborted := false;
      if streamId.None? {
        return null, false;
      }
      var i := FindStream(streamId.value);
      if i.None? {
        NotFound(view, StateOf(history), streamId.value);
        sb := OpenNew(driver, streamId.value);
      } else {
        sb, aborted := OpenKnown(driver, streamId.value, i.value);
      }
    }

    method AddEntry(id: nat, ghost m: M.State) returns (sb: StreamBuffer)
      requires Linked() && Tied(view, m, |streamBuffers|) && id !in m.queues
      modifies this`streamIds, this`streamBuffers, this`sbFreelist, this`view, view.buffer.Keys
      ensures Linked() && Tied(view, m.(queues := m.queues[id := M.OpenQueue(m, id)]), |streamBuffers|)
      ensures 0 < |streamIds| == |streamBuffers|
      ensures streamIds[|streamIds| - 1] == id && streamBuffers[|streamIds| - 1] == sb
      ensures view.chunk.Keys == old(view.chunk.Keys) && fresh(view.buffer.Keys - old(view.buffer.Keys))
    {
      hide Tied, S.Legal, S.Run, Held, M.Enabled, M.Apply, M.OpenQueue;
      sb := AllocStreamBuffer(m);
      FirstOpen(view, m, id, sb);
      PushOpen(id, sb);
    }

    method OpenNew(driver: Driver, id: nat) returns (sb: StreamBuffer)
      requires Valid(driver) && id !in streamIds
      modifies this`streamIds, this`streamBuffers, this`sbFreelist, this`view, this`history, view.buffer.Keys
      ensures Valid(driver) && history == old(history) + [M.Open(id)]
      ensures OpenEntry(view, StateOf(history), |streamBuffers|, id, sb)
      ensures view.chunk.Keys == old(view.chunk.Keys) && fresh(view.buffer.Keys - old(view.buffer.Keys))
    {
      hide S.Legal, S.Run, Held, M.Apply, AreEntries, IsList, IsIdleList;
      ghost var m := StateOf(history);
      ghost var t := m.(queues := m.queues[id := M.OpenQueue(m, id)]);
      NotFound(view, m, id);
      OpenRun(history, id, t);
      sb := AddEntry(id, m);
      history := history + [M.Open(id)];
    }

    method OpenKnown(driver: Driver, id: nat, i: nat) returns (sb: StreamBuffer?, aborted: bool)
      requires Valid(driver) && i < |streamIds| && streamIds[i] == id
      modifies this`view, this`history, view.buffer.Keys
      ensures Valid(driver) && (aborted <==> !M.Enabled(old(StateOf(history)), M.Open(id)))
      ensures aborted ==> sb == null && history == old(history) && view == old(view)
      ensures !aborted ==>
        && sb != null && history == old(history) + [M.Open(id)]
        && OpenEntry(view, StateOf(history), |streamBuffers|, id, sb)
      ensures view.chunk.Keys == old(view.chunk.Keys) && view.buffer.Keys == old(view.buffer.Keys)
    {
      hide S.Legal, S.Run, Held, M.Apply, AreEntries, IsList, Covers, IsIdleList;
      ghost var m := StateOf(history);
      HeadFacts(view, m, |streamBuffers|, i);
      assert streamBuffers[i].openTransaction == m.queues[id].open by {
        assert view.buffer[streamBuffers[i]] == streamBuffers[i].Value();
      }
      if streamBuffers[i].openTransaction {
        return null, true;
      }
      aborted := false;
      sb := OpenClosed(driver, id, i);
    }

    method OpenClosed(driver: Driver, id: nat, i: nat) returns (sb: StreamBuffer)
      requires Valid(driver) && i < |streamIds| && streamIds[i] == id && M.Enabled(StateOf(history), M.Open(id))
      modifies this`view, this`history, view.buffer.Keys
      ensures Valid(driver) && history == old(history) + [M.Open(id)]
      ensures OpenEntry(view, StateOf(history), |streamBuffers|, id, sb)
      ensures view.chunk.Keys == old(view.chunk.Keys) && view.buffer.Keys == old(view.buffer.Keys)
    {
      hide S.Legal, S.Run, Held, M.Apply, AreEntries, IsList, Covers, IsIdleList;
      ghost var m := StateOf(history);
      ghost var t := m.(queues := m.queues[id := M.OpenQueue(m, id)]);
      HeadFacts(view, m, |streamBuffers|, i);
      OpenRun(history, id, t);
      ReopenTied(view, m, |streamBuffers|, i);
      sb := streamBuffers[i];
      StartTransaction(sb);
      history := history + [M.Open(id)];
    }

    // -------------------------------------------------------------- getting a chunk

    method DropFirst(driver: Driver, chunk: Chunk) returns (next: Chunk?)
      requires chunk.Value().capacity == chunk.capacity && InUse(driver, chunk.Value().Extent())
      modifies driver`hostRanges, driver`deviceRanges
      ensures next == chunk.next
      ensures driver.hostRanges == old(driver.hostRanges) - {HostRange(chunk.Value().Extent())}
      ensures driver.deviceRanges == old(driver.deviceRanges) - {DeviceRange(chunk.Value().Extent())}
    {
      next := chunk.next;
      DeleteChunk(driver, chunk);
    }

    /** The device still holds everything but the first `k` chunks of the free list. */
    ghost predicate HoldsBut(driver: Driver, k: nat)
      requires S.Legal(M.INIT, history) && k <= |StateOf(history).free|
      reads this`history, driver
    {
      && driver.hostRanges == Held(history, HostRange) - FreeRanges(StateOf(history).free[..k], HostRange)
      && driver.deviceRanges == Held(history, DeviceRange) - FreeRanges(StateOf(history).free[..k], DeviceRange)
    }

    /** Delete the chunk at position `k` of the free list, and go to the next. */
    method DeleteNext(driver: Driver, chunk: Chunk, ghost k: nat) returns (next: Chunk?)
      requires Linked() && S.Legal(M.INIT, history) && k < |view.free| && chunk == view.free[k]
      requires IsList(view.chunk, chunkFreelist, view.free, StateOf(history).free) && HoldsBut(driver, k)
      modifies driver`hostRanges, driver`deviceRanges
      ensures HoldsBut(driver, k + 1) && next == if k + 1 < |view.free| then view.free[k + 1] else null
    {
      assert view.chunk[chunk] == ChunkRecord(chunk.Value(), chunk.next);
      FreeHeld(history, k);
      FreeRangesMore(StateOf(history).free, k, HostRange);
      FreeRangesMore(StateOf(history).free, k, DeviceRange);
      hide S.Run, S.Legal, Held;
      next := DropFirst(driver, chunk);
    }

    /** Delete the chunks of the free list. */
    method DeleteFreeChunks(driver: Driver)
      requires Linked() && S.Legal(M.INIT, history) && DeviceTied(driver)
      requires IsList(view.chunk, chunkFreelist, view.free, StateOf(history).free)
      modifies this`chunkFreelist, this`view, driver`hostRanges, driver`deviceRanges
      ensures Linked() && view == old(view).(chunkFreelist := null, free := [])
      ensures driver.hostRanges == Held(history, HostRange) - FreeRanges(StateOf(history).free, HostRange)
      ensures driver.deviceRanges == Held(history, DeviceRange) - FreeRanges(StateOf(history).free, DeviceRange)
    {
      ghost var n, k := |view.free|, 0;
      var chunk := chunkFreelist;
      hide S.Run, S.Legal, Held, StateOf, Linked;
      while chunk != null
        invariant 0 <= k <= n && chunk == (if k < n then view.free[k] else null) && HoldsBut(driver, k)
        decreases n - k
        modifies driver`hostRanges, driver`deviceRanges
      {
        chunk := DeleteNext(driver, chunk, k);
        k := k + 1;
      }
      assert StateOf(history).free[..k] == StateOf(history).free;
      ClearFree();
    }

    method ClearFree()
      requires Linked()
      modifies this`chunkFreelist, this`view
      ensures Linked() && view == old(view).(chunkFreelist := null, free := [])
    {
      chunkFreelist := null;
      view := view.(chunkFreelist := null, free := []);
    }

    /** Device and host memory and an event, or nothing at all. */
    method NewChunk(driver: Driver, capacity: nat) returns (chunk: Chunk?)
      requires Linked() && 0 < capacity
      modifies this`view, driver`hostRanges, driver`deviceRanges
      ensures chunk == null ==>
        view == old(view) && driver.hostRanges == old(driver.hostRanges)
          && driver.deviceRanges == old(driver.deviceRanges)
      ensures chunk != null ==>
        && fresh(chunk) && chunk !in old(view).chunk && M.Aligned(chunk.ptr)
        && Driver.Unused(old(driver.hostRanges), chunk.ptr.host, capacity)
        && Driver.Unused(old(driver.deviceRanges), chunk.ptr.device, capacity)
        && driver.hostRanges == old(driver.hostRanges) + {HostRange(M.Region(chunk.ptr, capacity))}
        && driver.deviceRanges == old(driver.deviceRanges) + {DeviceRange(M.Region(chunk.ptr, capacity))}
        && view == old(view).(chunk := old(view).chunk[
             chunk := ChunkRecord(M.Chunk(chunk.ptr, capacity, capacity, M.Unrecorded), null)])
      ensures Linked()
    {
      var device := driver.MemAlloc(capacity);
      if device.None? {
        return null;
      }
      assert (device.value, capacity) !in old(driver.deviceRanges);
      var host := driver.MemAllocHost(capacity);
      if host.None? {
        driver.MemFree(device.value, capacity);
        return null;
      }
      assert (host.value, capacity) !in old(driver.hostRanges);
      var created := driver.EventCreate();
      if !created {
        driver.MemFree(device.value, capacity);
        driver.MemFreeHost(host.value, capacity);
        return null;
      }
      chunk := new Chunk(M.DualPointer(host.value, device.value), capacity);
      view := view.(chunk := view.chunk[chunk := ChunkRecord(chunk.Value(), null)]);
    }

    /** Allocate a chunk of the current capacity. */
    method OfferNew(driver: Driver) returns (chunk: Chunk?, ghost source: Source)
      requires Valid(driver)
      modifies this`view, driver`hostRanges, driver`deviceRanges
      ensures Linked() && view.ids == old(view.ids) && view.buffers == old(view.buffers)
      ensures view.buffer == old(view.buffer)
      ensures chunk == null ==> Valid(driver)
      ensures chunk != null ==>
        && source.FromNew? && Offered(view, history, |streamBuffers|, chunk, source)
          && HoldsExtra(driver, history, source)
      ensures view.chunk.Keys == old(view.chunk.Keys) + (if chunk == null then {} else {chunk})
      ensures chunk != null ==> fresh(chunk)
    {
      hide S.Legal, S.Run, Held, M.Enabled, M.Apply, AreEntries, IsList, Covers, IsIdleList;
      ChunksApart(history);
      S.ReachableInv(history);
      ghost var v := view;
      chunk := NewChunk(driver, curChunkCapacity);
      source := FromTail;
      if chunk != null {
        source := FromNew(chunk.ptr);
        assert view.chunk.Keys == v.chunk.Keys + {chunk};
        NewChunkTied(v, StateOf(history), |streamBuffers|, chunk, view.chunk[chunk]);
        FreshFrom(history, chunk.ptr, curChunkCapacity);
      }
    }

    method UnlinkFree(chunk: Chunk)
      requires Linked() && chunkFreelist == chunk && view.free != [] && view.free[0] == chunk && chunk in view.chunk
      modifies this`chunkFreelist, this`view, chunk`available, chunk`next
      ensures Linked() && view == TakeFree(old(view))
    {
      chunkFreelist := chunk.next;
      chunk.available := curChunkCapacity;
      chunk.next := null;
      view := TakeFree(view);
    }

    /** Take the first chunk of the free list, which has the current capacity. */
    method OfferFree(driver: Driver) returns (chunk: Chunk)
      requires Valid(driver) && chunkFreelist != null
      modifies this`chunkFreelist, this`view, view.chunk.Keys
      ensures Linked() && view.ids == old(view.ids) && view.buffers == old(view.buffers)
      ensures view.buffer == old(view.buffer)
      ensures Offered(view, history, |streamBuffers|, chunk, FromFree) && DeviceTied(driver)
      ensures view.chunk.Keys == old(view.chunk.Keys) && chunk in view.chunk.Keys
    {
      ChunksApart(history);
      S.ReachableInv(history);
      TakeFreeTied(view, StateOf(history), |streamBuffers|);
      chunk := chunkFreelist;
      assert view.chunk[chunk].value == chunk.Value() == StateOf(history).free[0];
      assert chunk.capacity == curChunkCapacity;  // checked at run time by the program
      UnlinkFree(chunk);
    }

    /** Double the capacity until the allocation fits; at least once. */
    static method GrowCapacity(capacity: nat, size: nat) returns (r: Option<nat>)
      requires 0 < capacity
      ensures r == Grown(capacity, size)
    {
      var c := capacity;
      while true
        invariant 0 < c && Grown(c, size) == Grown(capacity, size)
        decreases M.SIZE_MAX - c
      {
        if c >= M.SIZE_MAX / 2 {
          return None;
        }
        c := c * 2;
        if !(c / M.MIN_CHUNK_TO_ALLOCATION_RATIO < size) {
          return Some(c);
        }
      }
    }

    /** Raise the capacity, and delete the free chunks, which do not have it. */
    method Grow(driver: Driver, capacity: nat, ghost id: nat, ghost own: StreamBuffer)
      requires Valid(driver) && M.Enabled(StateOf(history), M.Grow(capacity))
      requires OpenEntry(view, StateOf(history), |streamBuffers|, id, own)
      modifies this`curChunkCapacity, this`chunkFreelist, this`view, this`history, driver`hostRanges,
        driver`deviceRanges
      ensures Valid(driver) && history == old(history) + [M.Grow(capacity)]
      ensures OpenEntry(view, StateOf(history), |streamBuffers|, id, own)
      ensures view.chunk == old(view.chunk) && view.buffer == old(view.buffer)
    {
      hide S.Legal, S.Run, Held, M.Apply, AreEntries, IsList, Covers, IsIdleList;
      ghost var after := history + [M.Grow(capacity)];
      GrowTied(view, StateOf(history), |streamBuffers|, capacity);
      GrowRun(history, capacity, after);
      curChunkCapacity := capacity;
      view := view.(capacity := capacity);
      DeleteFreeChunks(driver);
      history := after;
    }

    /** Make sure that there is a free chunk, if reclaiming can provide one. */
    method Replenish(driver: Driver, size: nat, ghost id: nat, ghost own: StreamBuffer)
      requires Valid(driver) && OpenEntry(view, StateOf(history), |streamBuffers|, id, own)
      requires M.NeedsChunk(StateOf(history), id, size) && size <= curChunkCapacity / M.MIN_CHUNK_TO_ALLOCATION_RATIO
      modifies this`streamIds, this`streamBuffers, this`chunkFreelist, this`sbFreelist, this`view, this`history
      modifies view.chunk.Keys, view.buffer.Keys, driver`hostRanges, driver`deviceRanges, driver.log`no
      ensures Valid(driver) && OpenEntry(view, StateOf(history), |streamBuffers|, id, own)
      ensures M.NeedsChunk(StateOf(history), id, size) && old(driver.log.no) <= driver.log.no
      ensures Prepared(old(history), history, size, driver.log.no[|old(driver.log.no)|..])
      ensures StateOf(history).capacity == old(StateOf(history).capacity)
      ensures view.chunk.Keys == old(view.chunk.Keys) && view.buffer.Keys == old(view.buffer.Keys)
    {
      if chunkFreelist == null {
        Reclaim(driver, id, own);
        ReclaimsKeep(old(history), history, id);
      }
    }

    /** Raise the capacity so that the allocation fits four times, unless it would leave the range. */
    method MakeRoom(driver: Driver, size: nat, ghost id: nat, ghost own: StreamBuffer) returns (ok: bool)
      requires Valid(driver) && OpenEntry(view, StateOf(history), |streamBuffers|, id, own)
      requires M.NeedsChunk(StateOf(history), id, size) && curChunkCapacity / M.MIN_CHUNK_TO_ALLOCATION_RATIO < size
      modifies this`curChunkCapacity, this`chunkFreelist, this`view, this`history, driver`hostRanges,
        driver`deviceRanges
      ensures Valid(driver) && OpenEntry(view, StateOf(history), |streamBuffers|, id, own)
      ensures Prepared(old(history), history, size, []) && M.NeedsChunk(StateOf(history), id, size)
      ensures ok <==> size <= StateOf(history).capacity / M.MIN_CHUNK_TO_ALLOCATION_RATIO
      ensures ok ==> StateOf(history).free == []
      ensures view.chunk.Keys == old(view.chunk.Keys) && view.buffer.Keys == old(view.buffer.Keys)
    {
      CapacityPositive(history);
      var capacity := GrowCapacity(curChunkCapacity, size);
      ok := capacity.Some?;
      if ok {
        GrowKeeps(history, size, capacity.value);
        GrowRun(history, capacity.value, history + [M.Grow(capacity.value)]);
        Grow(driver, capacity.value, id, own);
      }
    }

    /** A chunk off the free list, or a new one if that is empty. */
    method OfferAny(driver: Driver) returns (chunk: Chunk?, ghost source: Source)
      requires Valid(driver)
      modifies this`chunkFreelist, this`view, view.chunk.Keys, driver`hostRanges, driver`deviceRanges
      ensures Linked() && view.ids == old(view.ids) && view.buffers == old(view.buffers)
      ensures view.buffer == old(view.buffer)
      ensures chunk == null ==> Valid(driver) && StateOf(history).free == []
      ensures chunk != null ==>
        && (source.FromFree? <==> StateOf(history).free != [])
        && Offered(view, history, |streamBuffers|, chunk, source) && HoldsExtra(driver, history, source)
      ensures view.chunk.Keys == old(view.chunk.Keys) + (if chunk == null then {} else {chunk})
      ensures chunk != null ==> fresh(chunk) || chunk in old(view.chunk.Keys)
    {
      if chunkFreelist != null {
        chunk := OfferFree(driver);
        source := FromFree;
      } else {
        chunk, source := OfferNew(driver);
      }
    }

    /** The allocation is served from the free list, or from a new chunk. */
    method AllocateSmall(driver: Driver, size: nat, ghost id: nat, ghost own: StreamBuffer)
      returns (chunk: Chunk?, ghost source: Source)
      requires Valid(driver) && OpenEntry(view, StateOf(history), |streamBuffers|, id, own)
      requires M.NeedsChunk(StateOf(history), id, size) && size <= curChunkCapacity / M.MIN_CHUNK_TO_ALLOCATION_RATIO
      modifies this, view.chunk.Keys, view.buffer.Keys, driver`hostRanges, driver`deviceRanges, driver.log`no
      ensures S.Legal(M.INIT, history) && old(driver.log.no) <= driver.log.no
      ensures Prepared(old(history), history, size, driver.log.no[|old(driver.log.no)|..])
      ensures Linked() && OpenEntry(view, StateOf(history), |streamBuffers|, id, own)
      ensures M.NeedsChunk(StateOf(history), id, size)
      ensures chunk == null ==> Valid(driver) && NoChunk(StateOf(history), size)
      ensures chunk != null ==> HasChunk(driver, view, history, |streamBuffers|, size, chunk, source)
      ensures view.buffer.Keys == old(view.buffer.Keys)
      ensures view.chunk.Keys == old(view.chunk.Keys) + (if chunk == null then {} else {chunk})
      ensures chunk != null ==> fresh(chunk) || chunk in old(view.chunk.Keys)
    {
      hide S.Legal, S.Run, Held, M.Apply, AreEntries, IsList, IsIdleList, Covers, Prepared, Offered, HoldsExtra;
      Replenish(driver, size, id, own);
      chunk, source := OfferAny(driver);
    }

    /** The capacity is raised first. */
    method AllocateLarge(driver: Driver, size: nat, ghost id: nat, ghost own: StreamBuffer)
      returns (chunk: Chunk?, ghost source: Source)
      requires Valid(driver) && OpenEntry(view, StateOf(history), |streamBuffers|, id, own)
      requires M.NeedsChunk(StateOf(history), id, size) && curChunkCapacity / M.MIN_CHUNK_TO_ALLOCATION_RATIO < size
      modifies this, view.chunk.Keys, view.buffer.Keys, driver`hostRanges, driver`deviceRanges, driver.log`no
      ensures S.Legal(M.INIT, history) && old(driver.log.no) <= driver.log.no
      ensures Prepared(old(history), history, size, driver.log.no[|old(driver.log.no)|..])
      ensures Linked() && OpenEntry(view, StateOf(history), |streamBuffers|, id, own)
      ensures M.NeedsChunk(StateOf(history), id, size)
      ensures chunk == null ==> Valid(driver) && NoChunk(StateOf(history), size)
      ensures chunk != null ==> HasChunk(driver, view, history, |streamBuffers|, size, chunk, source)
      ensures view.buffer.Keys == old(view.buffer.Keys)
      ensures view.chunk.Keys == old(view.chunk.Keys) + (if chunk == null then {} else {chunk})
      ensures chunk != null ==> fresh(chunk) || chunk in old(view.chunk.Keys)
    {
      hide Tied, S.Legal, S.Run, Held, M.Enabled, M.Apply, Prepared, Offered, HoldsExtra;
      assert driver.log.no[|driver.log.no|..] == [];
      var ok := MakeRoom(driver, size, id, own);
      if ok {
        chunk, source := OfferNew(driver);
      } else {
        chunk, source := null, FromTail;
      }
    }

    /** A chunk that can serve `size` bytes for the open transaction on stream `id`. */
    method AllocateChunk(driver: Driver, size: nat, ghost id: nat, ghost own: StreamBuffer)
      returns (chunk: Chunk?, ghost source: Source)
      requires Valid(driver) && OpenEntry(view, StateOf(history), |streamBuffers|, id, own)
      requires M.NeedsChunk(StateOf(history), id, size)
      modifies this, view.chunk.Keys, view.buffer.Keys, driver`hostRanges, driver`deviceRanges, driver.log`no
      ensures S.Legal(M.INIT, history) && old(driver.log.no) <= driver.log.no
      ensures Prepared(old(history), history, size, driver.log.no[|old(driver.log.no)|..])
      ensures Linked() && OpenEntry(view, StateOf(history), |streamBuffers|, id, own)
      ensures M.NeedsChunk(StateOf(history), id, size)
      ensures chunk == null ==> Valid(driver) && NoChunk(StateOf(history), size)
      ensures chunk != null ==> HasChunk(driver, view, history, |streamBuffers|, size, chunk, source)
      ensures view.buffer.Keys == old(view.buffer.Keys)
      ensures view.chunk.Keys == old(view.chunk.Keys) + (if chunk == null then {} else {chunk})
      ensures chunk != null ==> fresh(chunk) || chunk in old(view.chunk.Keys)
    {
      if curChunkCapacity / M.MIN_CHUNK_TO_ALLOCATION_RATIO >= size {
        chunk, source := AllocateSmall(driver, size, id, own);
      } else {
        chunk, source := AllocateLarge(driver, size, id, own);
      }
    }

    // -------------------------------------------------------------- serving an allocation

    method LinkNext(last: Chunk, chunk: Chunk)
      requires Linked() && last in view.chunk
      modifies this`view, last`next
      ensures Linked() && view == old(view.(chunk := view.chunk[last := view.chunk[last].(next := chunk)]))
    {
      last.next := chunk;
      view := view.(chunk := view.chunk[last := view.chunk[last].(next := chunk)]);
    }

    method LinkLast(sb: StreamBuffer, head: Chunk?, chunk: Chunk)
      requires Linked() && sb in view.buffer
      modifies this`view, sb`head, sb`tail, sb`chunks
      ensures var b := old(view.buffer[sb]);
        Linked() && view ==
          old(view.(buffer := view.buffer[sb := b.(head := head, tail := chunk, chunks := b.chunks + [chunk])]))
    {
      ghost var b := view.buffer[sb];
      sb.head, sb.tail := head, chunk;
      sb.chunks := sb.chunks + [chunk];
      view := view.(buffer := view.buffer[sb := b.(head := head, tail := chunk, chunks := b.chunks + [chunk])]);
    }

    /** Append a chunk to the queue of `sb`. */
    method LinkTail(sb: StreamBuffer, chunk: Chunk, ghost i: nat)
      requires Linked() && i < |streamBuffers| && streamBuffers[i] == sb && sb in view.buffer
      requires sb.tail != null ==> sb.tail in view.chunk
      modifies this`view, sb`head, sb`tail, sb`chunks, view.chunk.Keys`next
      ensures view.buffer.Keys == old(view.buffer.Keys)
      ensures Linked() && old(view.buffer[sb] == sb.Value()) && view == Append(old(view), i, chunk)
    {
      assert view.buffer[sb] == sb.Value();
      if sb.tail != null {
        LinkNext(sb.tail, chunk);
        LinkLast(sb, sb.head, chunk);
      } else {
        LinkLast(sb, chunk, chunk);
      }
    }

    /** Take `size` bytes off the last chunk of `sb`. */
    method CarveTail(sb: StreamBuffer, chunk: Chunk, size: nat, ghost i: nat, ghost c: M.Chunk)
      returns (ptr: M.DualPointer)
      requires Linked() && i < |streamBuffers| && streamBuffers[i] == sb && sb in view.buffer
      requires view.buffer[sb].tail == chunk && chunk in view.chunk && view.chunk[chunk].value == c
      requires size <= c.available
      modifies this`view, sb`transactionHead, chunk`available
      ensures Linked() && view == CarveSnapshot(old(view), i, size)
      ensures ptr == c.ptr.Offset(c.available - size)
    {
      assert view.buffer[sb] == sb.Value() && view.chunk[chunk].value == chunk.Value();
      ghost var w := CarveSnapshot(view, i, size);
      if sb.transactionHead == null {
        sb.transactionHead := chunk;
      }
      chunk.available := chunk.available - size;
      ptr := chunk.ptr.Offset(chunk.available);
      view := w;
    }

    method CarveLast(sb: StreamBuffer, size: nat, ghost i: nat, ghost c: M.Chunk, ghost t: M.State)
      returns (ptr: M.DualPointer)
      requires Linked() && CanCarve(view, |streamBuffers|, i, sb, size, c, t)
      modifies this`view, sb, view.chunk.Keys
      ensures Linked() && Tied(view, t, |streamBuffers|)
      ensures ptr == c.ptr.Offset(c.available - size)
      ensures view.chunk.Keys == old(view.chunk.Keys) && view.buffer.Keys == old(view.buffer.Keys)
    {
      assert view.buffer[sb] == sb.Value();
      ptr := CarveTail(sb, sb.tail, size, i, c);
    }

    /** Serve an allocation from the last chunk of the queue. */
    method AllocateFromTail(driver: Driver, sb: StreamBuffer, size: nat, ghost i: nat, ghost id: nat, ghost c: M.Chunk)
      returns (ptr: M.DualPointer)
      requires Valid(driver) && i < |streamBuffers| && streamIds[i] == id && streamBuffers[i] == sb
      requires M.Enabled(StateOf(history), M.Carve(id, size)) && c == CarvedTail(StateOf(history), id, FromTail)
      modifies this`view, this`history, view.buffer.Keys, view.chunk.Keys
      ensures Valid(driver) && history == old(history) + [M.Carve(id, size)]
      ensures ptr == c.ptr.Offset(c.available - size)
      ensures view.chunk.Keys == old(view.chunk.Keys) && view.buffer.Keys == old(view.buffer.Keys)
    {
      hide Tied, S.Legal, S.Run, Held, M.Enabled, M.Apply, CanCarve, CarvedTail, Served;
      ghost var after := history + [CarvingStep(FromTail, id, size)];
      CarveRun(history, id, size, FromTail, after);
      CarveOwn(history, view, |streamBuffers|, i, id, sb, size, c, StateOf(after));
      ptr := CarveLast(sb, size, i, c, StateOf(after));
      Record(driver, |streamBuffers|, after, StateOf(after));
    }

    /** Append a chunk and carve from it. */
    method LinkAndCarve(sb: StreamBuffer, chunk: Chunk, size: nat, ghost i: nat, ghost c: M.Chunk, ghost t: M.State)
      returns (ptr: M.DualPointer)
      requires Linked() && CanServe(view, |streamBuffers|, i, sb, chunk, size, c, t)
      modifies this`view, view.buffer.Keys, view.chunk.Keys
      ensures Linked() && Tied(view, t, |streamBuffers|)
      ensures ptr == c.ptr.Offset(c.available - size)
      ensures view.chunk.Keys == old(view.chunk.Keys) && view.buffer.Keys == old(view.buffer.Keys)
    {
      hide Tied;
      LinkTail(sb, chunk, i);
      ptr := CarveLast(sb, size, i, c, t);
    }

    /** Serve an allocation from a chunk that is appended to the queue. */
    method AllocateFromOffer(driver: Driver, sb: StreamBuffer, chunk: Chunk, size: nat, ghost i: nat, ghost id: nat,
        ghost source: Source, ghost c: M.Chunk)
      returns (ptr: M.DualPointer)
      requires Linked() && S.Legal(M.INIT, history)
      requires HasChunk(driver, view, history, |streamBuffers|, size, chunk, source)
      requires i < |streamBuffers| && i < |streamIds| && streamIds[i] == id && streamBuffers[i] == sb
      requires M.NeedsChunk(StateOf(history), id, size) && size % M.ALIGNMENT == 0
      requires c == CarvedTail(StateOf(history), id, source)
      modifies this`view, this`history, view.buffer.Keys, view.chunk.Keys
      ensures Valid(driver) && M.Enabled(StateOf(old(history)), CarvingStep(source, id, size))
      ensures history == old(history) + [CarvingStep(source, id, size)]
      ensures ptr == c.ptr.Offset(c.available - size)
      ensures view.chunk.Keys == old(view.chunk.Keys) && view.buffer.Keys == old(view.buffer.Keys)
    {
      hide S.Legal, S.Run, Held, M.Apply, AreEntries, IsList, IsIdleList, Covers, CanServe, CarvedTail, M.NeedsChunk;
      ghost var after := history + [CarvingStep(source, id, size)];
      CarveOffered(history, view, |streamBuffers|, i, id, sb, chunk, size, source);
      CarveRun(history, id, size, source, after);
      ptr := LinkAndCarve(sb, chunk, size, i, c, StateOf(after));
      Record(driver, |streamBuffers|, after, StateOf(after));
    }

    /** Append an offered chunk to the queue of the open transaction, and carve from it. */
    method AllocateFrom(driver: Driver, sb: StreamBuffer, chunk: Chunk, size: nat, ghost id: nat, ghost source: Source)
      returns (ptr: M.DualPointer)
      requires Linked() && S.Legal(M.INIT, history) && OpenEntry(view, StateOf(history), |streamBuffers|, id, sb)
      requires M.NeedsChunk(StateOf(history), id, size) && size % M.ALIGNMENT == 0
      requires HasChunk(driver, view, history, |streamBuffers|, size, chunk, source)
      modifies this`view, this`history, view.chunk.Keys, view.buffer.Keys
      ensures Valid(driver) && OpenEntry(view, StateOf(history), |streamBuffers|, id, sb)
      ensures M.Enabled(StateOf(old(history)), CarvingStep(source, id, size))
      ensures history == old(history) + [CarvingStep(source, id, size)]
      ensures Served(old(history), history, id, ptr, size) && Apart(StateOf(old(history)), ptr, size)
      ensures view.chunk.Keys == old(view.chunk.Keys) && view.buffer.Keys == old(view.buffer.Keys)
    {
      hide S.Legal, S.Run, Held, Tied, M.Apply, CanServe, CanReuse, CanAttach, HoldsExtra, Served, Apart;
      ghost var v, before, n := view, history, |streamBuffers|;
      ghost var i: nat :| i < n && streamIds[i] == id && streamBuffers[i] == sb;
      ghost var c := CarvedTail(StateOf(before), id, source);
      ptr := AllocateFromOffer(driver, sb, chunk, size, i, id, source, c);
      CarveDone(before, history, v, view, n, id, sb, source, size, c, ptr);
    }

    /** The last chunk has no room: get another one first. */
    method AllocateMore(driver: Driver, sb: StreamBuffer, size: nat, ghost id: nat)
      returns (r: Option<M.DualPointer>, ghost middle: seq<M.Step>, ghost source: Source)
      requires Valid(driver) && OpenEntry(view, StateOf(history), |streamBuffers|, id, sb)
      requires M.NeedsChunk(StateOf(history), id, size) && size % M.ALIGNMENT == 0
      modifies this, view.chunk.Keys, view.buffer.Keys, driver`hostRanges, driver`deviceRanges, driver.log`no
      ensures Valid(driver) && OpenEntry(view, StateOf(history), |streamBuffers|, id, sb)
      ensures old(driver.log.no) <= driver.log.no
      ensures Outcome(old(history), history, id, size, r, middle, source, driver.log.no[|old(driver.log.no)|..])
      ensures view.buffer.Keys == old(view.buffer.Keys) && fresh(view.chunk.Keys - old(view.chunk.Keys))
    {
      hide S.Legal, S.Run, Held, M.Apply, Tied, Prepared, CanReuse, CanAttach,
        HoldsExtra, OpenEntry, Served, Apart, NoChunk, M.Enabled, Linked, DeviceTied;
      var chunk;
      chunk, source := AllocateChunk(driver, size, id, sb);
      middle := history;
      if chunk == null {
        return None, middle, source;
      }
      var ptr := AllocateFrom(driver, sb, chunk, size, id, source);
      r := Some(ptr);
    }

    /** The last chunk has room. */
    method AllocateHere(driver: Driver, sb: StreamBuffer, size: nat, ghost id: nat) returns (ptr: M.DualPointer)
      requires Valid(driver) && OpenEntry(view, StateOf(history), |streamBuffers|, id, sb)
      requires M.Enabled(StateOf(history), M.Carve(id, size))
      modifies this, view.chunk.Keys, view.buffer.Keys
      ensures Valid(driver) && OpenEntry(view, StateOf(history), |streamBuffers|, id, sb)
      ensures Outcome(old(history), history, id, size, Some(ptr), old(history), FromTail, [])
      ensures view.chunk.Keys == old(view.chunk.Keys) && view.buffer.Keys == old(view.buffer.Keys)
    {
      hide S.Legal, S.Run, Held, M.Apply, AreEntries, IsList, IsIdleList, Covers, Served, Apart;
      ghost var v, m, middle := view, StateOf(history), history;
      ghost var i: nat :| i < |streamBuffers| && streamIds[i] == id && streamBuffers[i] == sb;
      ghost var c := CarvedTail(m, id, FromTail);
      ptr := AllocateFromTail(driver, sb, size, i, id, c);
      CarveDone(middle, history, v, view, |streamBuffers|, id, sb, FromTail, size, c, ptr);
    }

    method HasRoom(driver: Driver, sb: StreamBuffer, size: nat, ghost id: nat) returns (room: bool)
      requires Valid(driver) && OpenEntry(view, StateOf(history), |streamBuffers|, id, sb)
      requires size % M.ALIGNMENT == 0
      ensures room ==> M.Enabled(StateOf(history), M.Carve(id, size))
      ensures !room ==> M.NeedsChunk(StateOf(history), id, size)
    {
      ghost var i: nat :| i < |streamBuffers| && streamIds[i] == id && streamBuffers[i] == sb;
      TailFacts(view, StateOf(history), |streamBuffers|, i);
      assert view.buffer[sb] == sb.Value();
      var chunk := sb.tail;
      assert chunk != null ==> view.chunk[chunk].value == chunk.Value();
      room := chunk != null && size <= chunk.available;
    }

    /**
     Allocate `size` bytes, rounded up to the alignment, from the open transaction on stream
     `id`.  Sizes that cannot be rounded up are refused.
     */
    method Allocate(driver: Driver, sb: StreamBuffer, size: nat, ghost id: nat)
      returns (r: Option<M.DualPointer>, ghost middle: seq<M.Step>, ghost source: Source)
      requires Valid(driver) && OpenEntry(view, StateOf(history), |streamBuffers|, id, sb)
      modifies this, view.chunk.Keys, view.buffer.Keys, driver`hostRanges, driver`deviceRanges, driver.log`no
      ensures Valid(driver) && OpenEntry(view, StateOf(history), |streamBuffers|, id, sb)
      ensures M.SIZE_MAX - M.ALIGNMENT <= size ==> r.None? && history == old(history)
      ensures size < M.SIZE_MAX - M.ALIGNMENT ==> exists n: nat ::
        && IsRoundUp(size, M.ALIGNMENT, n) && old(driver.log.no) <= driver.log.no
        && Outcome(old(history), history, id, n, r, middle, source, driver.log.no[|old(driver.log.no)|..])
      ensures view.buffer.Keys == old(view.buffer.Keys) && fresh(view.chunk.Keys - old(view.chunk.Keys))
    {
      hide Tied, S.Legal, S.Run, Held, M.Enabled, M.Apply, OpenEntry, Outcome, RoundUp, IsRoundUp;
      if size >= M.SIZE_MAX - M.ALIGNMENT {
        return None, history, FromTail;
      }
      RoundUpIsRoundUp(size);
      var n: nat := RoundUp(size);
      var room := HasRoom(driver, sb, n, id);
      if room {
        ghost var start := history;
        assert driver.log.no[|driver.log.no|..] == [];
        var ptr := AllocateHere(driver, sb, n, id);
        r, middle, source := Some(ptr), start, FromTail;
      } else {
        r, middle, source := AllocateMore(driver, sb, n, id);
      }
    }

    // -------------------------------------------------------------- closing a transaction

    method RecordOne(driver: Driver, chunk: Chunk, stream: nat, ghost e: M.Event) returns (aborted: bool)
      requires Linked() && chunk in view.chunk && e == M.Recorded(stream, M.Count(driver.issued, stream))
      requires !driver.log.failed
      modifies this`view, chunk`event, driver.log`failed
      ensures aborted <==> driver.log.failed
      ensures !aborted ==>
        var r := old(view).chunk[chunk];
        Linked() && view == old(view).(chunk := old(view).chunk[chunk := r.(value := r.value.(event := e))])
    {
      var event := driver.EventRecord(stream);
      aborted := event.None?;
      if !aborted {
        ghost var r := view.chunk[chunk];
        chunk.event := event.value;
        view := view.(chunk := view.chunk[chunk := r.(value := r.value.(event := e))]);
      }
    }

    /** The loop body: record an event on the chunk at position `k` of `cs`, and go to the next. */
    method RecordNext(driver: Driver, chunk: Chunk, stream: nat, ghost v: Snapshot, ghost cs: seq<Chunk>,
        ghost pinned: nat, ghost k: nat, ghost e: M.Event)
      returns (next: Chunk?, aborted: bool)
      requires pinned <= k < |cs| && Linked() && view == Recorded(v, cs, pinned, k, e) && LinkedFrom(v.chunk, cs)
      requires chunk == cs[k] && e == M.Recorded(stream, M.Count(driver.issued, stream)) && !driver.log.failed
      modifies this`view, v.chunk.Keys, driver.log`failed
      ensures aborted <==> driver.log.failed
      ensures !aborted ==> Linked() && view == Recorded(v, cs, pinned, k + 1, e)
      ensures !aborted ==> next == if k + 1 < |cs| then cs[k + 1] else null
    {
      RecordedMore(v, cs, pinned, k, e);
      hide Recorded;
      aborted := RecordOne(driver, chunk, stream, e);
      next := chunk.next;
    }

    /** Record an event on every chunk from the transaction head on; the program aborts if one cannot be recorded. */
    method RecordEvents(driver: Driver, sb: StreamBuffer, stream: nat, ghost pinned: nat, ghost e: M.Event)
      returns (aborted: bool)
      requires Linked() && sb in view.buffer && pinned <= |view.buffer[sb].chunks| && !driver.log.failed
      requires LinkedFrom(view.chunk, view.buffer[sb].chunks)
      requires view.buffer[sb].transactionHead ==
        (if pinned == |view.buffer[sb].chunks| then null else view.buffer[sb].chunks[pinned])
      requires e == M.Recorded(stream, M.Count(driver.issued, stream))
      modifies this`view, view.chunk.Keys, driver.log`failed
      ensures aborted <==> driver.log.failed
      ensures !aborted ==>
        var cs := old(view).buffer[sb].chunks; Linked() && view == Recorded(old(view), cs, pinned, |cs|, e)
    {
      ghost var v, cs, k := view, view.buffer[sb].chunks, pinned;
      assert view.buffer[sb] == sb.Value();
      NothingRecorded(v, cs, pinned, e);
      hide Recorded;
      var chunk := sb.transactionHead;
      while chunk != null
        invariant pinned <= k <= |cs| && chunk == if k < |cs| then cs[k] else null
        invariant Linked() && view == Recorded(v, cs, pinned, k, e) && !driver.log.failed
        decreases |cs| - k
        modifies this`view, v.chunk.Keys, driver.log`failed
      {
        chunk, aborted := RecordNext(driver, chunk, stream, v, cs, pinned, k, e);
        if aborted {
          return;
        }
        k := k + 1;
      }
      aborted := false;
    }

    method EndTransaction(sb: StreamBuffer)
      requires Linked() && sb in view.buffer
      modifies this`view, sb`openTransaction, sb`transactionHead
      ensures Linked() && view == old(view.(buffer := view.buffer[sb := CloseRecord(view.buffer[sb])]))
    {
      sb.openTransaction := false;
      sb.transactionHead := null;
      view := view.(buffer := view.buffer[sb := CloseRecord(view.buffer[sb])]);
    }

    method CloseLists(driver: Driver, sb: StreamBuffer, stream: nat, ghost i: nat, ghost pinned: nat, ghost e: M.Event,
                      ghost t: M.State)
      returns (aborted: bool)
      requires Linked() && CanClose(view, |streamBuffers|, i, sb, pinned, e, t) && !driver.log.failed
      requires e == M.Recorded(stream, M.Count(driver.issued, stream))
      modifies this`view, view.chunk.Keys, view.buffer.Keys, driver.log`failed
      ensures aborted <==> driver.log.failed
      ensures !aborted ==> Linked() && Tied(view, t, |streamBuffers|)
      ensures !aborted ==> view.chunk.Keys == old(view.chunk.Keys) && view.buffer.Keys == old(view.buffer.Keys)
    {
      AllRecorded(view, i, pinned, e);
      aborted := RecordEvents(driver, sb, stream, pinned, e);
      if !aborted {
        EndTransaction(sb);
      }
    }

    /** Close the open transaction on stream `id`. */
    method CloseOpen(driver: Driver, sb: StreamBuffer, id: nat) returns (aborted: bool)
      requires Valid(driver) && OpenEntry(view, StateOf(history), |streamBuffers|, id, sb) && !driver.log.failed
      modifies this`view, this`history, view.chunk.Keys, view.buffer.Keys, driver.log`failed
      ensures aborted <==> driver.log.failed
      ensures !aborted ==> Valid(driver) && history == old(history) + [M.Close(id)]
      ensures !aborted ==> view.chunk.Keys == old(view.chunk.Keys) && view.buffer.Keys == old(view.buffer.Keys)
    {
      hide Tied, S.Legal, S.Run, Held, M.Enabled, M.Apply, CanClose;
      ghost var i: nat :| i < |streamBuffers| && streamIds[i] == id && streamBuffers[i] == sb;
      ghost var after := history + [M.Close(id)];
      CloseLinks(history, view, |streamBuffers|, i, sb, id, after);
      aborted := CloseLists(driver, sb, id, i, StateOf(history).queues[id].pinned,
                            M.Recorded(id, M.Count(StateOf(history).issued, id)), StateOf(after));
      if !aborted {
        Record(driver, |streamBuffers|, after, StateOf(after));
      }
    }

    /**
     Close a transaction; one that was never opened, or is closed already, has no stream buffer.
     The program aborts exactly if the driver cannot record an event.
     */
    method Close(driver: Driver, sb: StreamBuffer?, id: nat) returns (aborted: bool)
      requires Valid(driver) && !driver.log.failed
      requires sb != null ==> OpenEntry(view, StateOf(history), |streamBuffers|, id, sb)
      modifies this`view, this`history, view.chunk.Keys, view.buffer.Keys, driver.log`failed
      ensures aborted <==> driver.log.failed
      ensures sb == null ==> !aborted
      ensures !aborted ==> Valid(driver)
      ensures !aborted ==> history == if sb == null then old(history) else old(history) + [M.Close(id)]
      ensures !aborted ==> view.chunk.Keys == old(view.chunk.Keys) && view.buffer.Keys == old(view.buffer.Keys)
    {
      aborted := false;
      if sb != null {
        aborted := CloseOpen(driver, sb, id);
      }
    }

    // -------------------------------------------------------------- the device meanwhile

    /** Work is issued to a stream. */
    method Submit(driver: Driver, stream: nat)
      requires Valid(driver)
      modifies this`history, driver`issued
      ensures Valid(driver) && history == old(history) + [M.Submit(stream)]
    {
      hide S.Legal, S.Run, Held, AreEntries, IsList, IsIdleList, Covers, M.Apply;
      ghost var after := history + [M.Submit(stream)];
      DeviceRun(history, view, |streamBuffers|, M.Submit(stream), after);
      driver.issued := M.Advanced(driver.issued, stream);
      Record(driver, |streamBuffers|, after, StateOf(after));
    }

    /** The device completes a unit of work. */
    method Finish(driver: Driver, stream: nat)
      requires Valid(driver) && M.Enabled(StateOf(history), M.Finish(stream))
      modifies this`history, driver`completed
      ensures Valid(driver) && history == old(history) + [M.Finish(stream)]
    {
      hide S.Legal, S.Run, Held, AreEntries, IsList, IsIdleList, Covers, M.Apply;
      ghost var after := history + [M.Finish(stream)];
      DeviceRun(history, view, |streamBuffers|, M.Finish(stream), after);
      driver.completed := M.Advanced(driver.completed, stream);
      Record(driver, |streamBuffers|, after, StateOf(after));
    }

    // -------------------------------------------------------------- a launch

    /** Issue the copy of the staged bytes and the kernel, and close. */
    method IssueAndClose(driver: Driver, sb: StreamBuffer, id: nat, issue: bool) returns (aborted: bool)
      requires Valid(driver) && OpenEntry(view, StateOf(history), |streamBuffers|, id, sb) && !driver.log.failed
      modifies this`view, this`history, view.chunk.Keys, view.buffer.Keys, driver`issued, driver.log`failed
      ensures aborted <==> driver.log.failed
      ensures !aborted ==> Valid(driver) && M.Enabled(StateOf(history), M.Open(id))
      ensures !aborted ==> forall ptr, n | LastGiven(old(StateOf(history)), id, ptr, n, None) ::
        LastGiven(StateOf(history), id, ptr, n, Some(M.Count(StateOf(history).issued, id)))
    {
      hide S.Legal, S.Run, Held, Tied, M.Apply;
      if issue {
        SubmitKeeps(history, id);
        Submit(driver, id);
        SubmitKeeps(history, id);
        Submit(driver, id);
      }
      CloseMarks(history, id, history + [M.Close(id)]);
      aborted := Close(driver, sb, id);
    }

    /**
     A launch with staged arguments: open a transaction, allocate, issue the copy and the
     kernel, and close the transaction in any case.  The bytes are in flight until all of the
     work issued to the stream by then has completed.
     */
    method Launch(driver: Driver, streamId: Option<nat>, size: nat) returns (r: Option<M.DualPointer>, aborted: bool)
      requires Valid(driver) && !driver.log.failed
      modifies this, view.chunk.Keys, view.buffer.Keys, driver, driver.log
      ensures aborted <==>
        driver.log.failed || (streamId.Some? && !M.Enabled(old(StateOf(history)), M.Open(streamId.value)))
      ensures !aborted ==> Valid(driver)
      ensures streamId.None? ==> r.None? && history == old(history) && !aborted
      ensures streamId.Some? && !aborted ==> M.Enabled(StateOf(history), M.Open(streamId.value))
      ensures r.Some? && !aborted ==> streamId.Some? && exists n: nat ::
        && IsRoundUp(size, M.ALIGNMENT, n)
        && LastGiven(StateOf(history), streamId.value, r.value, n,
                     Some(M.Count(StateOf(history).issued, streamId.value)))
    {
      hide S.Legal, S.Run, Held, Tied, M.Apply, M.Enabled, Outcome, LastGiven, OpenEntry, IsRoundUp;
      var sb;
      sb, aborted := Open(driver, streamId);
      if sb == null {
        return None, aborted;
      }
      ghost var before, no := history, driver.log.no;
      ghost var middle, source;
      r, middle, source := Allocate(driver, sb, size, streamId.value);
      if r.Some? {
        ghost var n: nat :| IsRoundUp(size, M.ALIGNMENT, n)
          && Outcome(before, history, streamId.value, n, r, middle, source, driver.log.no[|no|..]);
        OutcomeLogged(before, history, streamId.value, n, r.value, middle, source, driver.log.no[|no|..]);
      }
      aborted := IssueAndClose(driver, sb, streamId.value, r.Some?);
    }
  }
}
