/**
 Serving an allocation: rounding its size, growing the chunk capacity, and what carving it
 from the last chunk of a queue, or from a chunk appended to the queue, means for the
 linked structures.
 */
module StreamAllocate {
  import opened Wrappers
  import opened Bits
  import opened StreamHeap
  import M = StreamModel
  import S = StreamSafety

  // ---------------------------------------------------------------- sizes

  /** The size rounded up to the alignment, by masking. */
  function RoundUp(size: nat): int {
    BitAnd(size + M.ALIGNMENT - 1, BitNot(M.ALIGNMENT - 1))
  }

  lemma RoundUpIsRoundUp(size: nat)
    ensures IsRoundUp(size, M.ALIGNMENT, RoundUp(size)) && RoundUp(size) % M.ALIGNMENT == 0 && size <= RoundUp(size)
  {
    assert Pow2(4) == 16 by {
      assert Pow2(0) == 1 && Pow2(1) == 2 && Pow2(2) == 4 && Pow2(3) == 8;
    }
    RoundUpByMask(size, 4);
  }

  /** The capacity doubled until at least four allocations fit, if that stays in range. */
  function Grown(capacity: nat, size: nat): (r: Option<nat>)
    requires 0 < capacity
    decreases M.SIZE_MAX - capacity
  {
    if capacity >= M.SIZE_MAX / 2 then None
    else if 2 * capacity / M.MIN_CHUNK_TO_ALLOCATION_RATIO < size then Grown(2 * capacity, size)
    else Some(2 * capacity)
  }

  /** The capacity doubled `k` times stays in range, and the allocation fits four times. */
  predicate Fits(capacity: nat, size: nat, k: nat) {
    var c := capacity * Pow2(k);
    c < M.SIZE_MAX - 1 && size <= c / M.MIN_CHUNK_TO_ALLOCATION_RATIO
  }

  lemma DoubledOnce(capacity: nat, size: nat, k: nat)
    ensures Fits(2 * capacity, size, k) <==> Fits(capacity, size, k + 1)
  {
    assert 2 * capacity * Pow2(k) == capacity * (2 * Pow2(k));
  }

  lemma TooLarge(capacity: nat, size: nat, k: nat)
    requires 0 < k && M.SIZE_MAX / 2 <= capacity
    ensures !Fits(capacity, size, k)
  {
    AtLeastOnce(2 * capacity, Pow2(k - 1));
    assert capacity * Pow2(k) == 2 * capacity * Pow2(k - 1);
  }

  /** After `k` doublings, at least one, the allocation fits for the first time. */
  ghost predicate FitsFirst(capacity: nat, size: nat, k: nat) {
    0 < k && Fits(capacity, size, k) && forall j: nat | 0 < j < k :: !Fits(capacity, size, j)
  }

  ghost predicate NeverFits(capacity: nat, size: nat) {
    forall k: nat | 0 < k :: !Fits(capacity, size, k)
  }

  /** The capacity is doubled, at least once, until the allocation fits; if no doubling does, growing fails. */
  lemma {:induction false} GrownExactly(capacity: nat, size: nat)
    requires 0 < capacity
    ensures Grown(capacity, size).None? <==> NeverFits(capacity, size)
    ensures Grown(capacity, size).Some? ==>
      exists k: nat :: FitsFirst(capacity, size, k) && Grown(capacity, size).value == capacity * Pow2(k)
    decreases M.SIZE_MAX - capacity
  {
    assert Pow2(1) == 2 * Pow2(0);
    if capacity >= M.SIZE_MAX / 2 {
      forall k: nat | 0 < k ensures !Fits(capacity, size, k) {
        TooLarge(capacity, size, k);
      }
    } else if 2 * capacity / M.MIN_CHUNK_TO_ALLOCATION_RATIO < size {
      GrownExactly(2 * capacity, size);
      if Grown(2 * capacity, size).None? {
        NeverLater(capacity, size);
      } else {
        var k: nat :| FitsFirst(2 * capacity, size, k) && Grown(2 * capacity, size).value == 2 * capacity * Pow2(k);
        FirstLater(capacity, size, k);
      }
    } else {
      assert FitsFirst(capacity, size, 1) && 2 * capacity == capacity * Pow2(1);
    }
  }

  lemma NeverLater(capacity: nat, size: nat)
    requires !Fits(capacity, size, 1) && NeverFits(2 * capacity, size)
    ensures NeverFits(capacity, size)
  {
    forall k: nat | 0 < k ensures !Fits(capacity, size, k) {
      if 1 < k {
        DoubledOnce(capacity, size, k - 1);
      }
    }
  }

  lemma FirstLater(capacity: nat, size: nat, k: nat)
    requires !Fits(capacity, size, 1) && FitsFirst(2 * capacity, size, k)
    ensures FitsFirst(capacity, size, k + 1) && 2 * capacity * Pow2(k) == capacity * Pow2(k + 1)
  {
    assert 2 * capacity * Pow2(k) == capacity * (2 * Pow2(k));
    DoubledOnce(capacity, size, k);
    forall j: nat | 0 < j < k + 1 ensures !Fits(capacity, size, j) {
      if 1 < j {
        DoubledOnce(capacity, size, j - 1);
      }
    }
  }

  /** What growing gives is a larger multiple of the capacity that is big enough. */
  lemma GrownFits(capacity: nat, size: nat)
    requires 0 < capacity && Grown(capacity, size).Some?
    ensures var c := Grown(capacity, size).value;
      capacity < c <= M.SIZE_MAX && c % capacity == 0 && size <= c / M.MIN_CHUNK_TO_ALLOCATION_RATIO
  {
    GrownExactly(capacity, size);
    var k: nat :| FitsFirst(capacity, size, k) && Grown(capacity, size).value == capacity * Pow2(k);
    LargerMultiple(capacity, Pow2(k - 1), Pow2(k), capacity * Pow2(k));
  }

  lemma LargerMultiple(a: nat, h: nat, q: nat, c: nat)
    requires 0 < a && 0 < h && q == 2 * h && c == a * q
    ensures a < c && c % a == 0
  {
    AtLeastOnce(a, h);
    assert c == 2 * (a * h);
    ModUnique(c, a, q, 0);
  }

  // ---------------------------------------------------------------- carving

  lemma SameLinks(v: Snapshot, m: M.State, t: M.State, n: nat)
    requires Tied(v, m, n) && t.queues == m.queues && t.free == m.free && t.capacity == m.capacity
    ensures Tied(v, t, n)
  {
    Spread(v, m, n);
    forall k | 0 <= k < n ensures IsEntry(v, t, k) {
      assert IsEntry(v, m, k);
    }
    Gather(v, t, n);
    forall id | id in t.queues ensures exists i :: 0 <= i < n && v.ids[i] == id {
      assert id in m.queues;
    }
  }

  /** The last chunk of queue `i` is in one place only. */
  ghost predicate LoneTail(v: Snapshot, n: nat, i: nat) {
    && i < |v.buffers| && v.buffers[i] in v.buffer
    && var b := v.buffer[v.buffers[i]];
    && b.tail != null && b.tail !in v.free
    && (forall a, k | 0 <= a < k < |b.chunks| :: b.chunks[a] != b.chunks[k])
    && (forall k | 0 <= k < n <= |v.buffers| && k != i && v.buffers[k] in v.buffer ::
        b.tail !in v.buffer[v.buffers[k]].chunks)
  }

  lemma TailIsLone(v: Snapshot, m: M.State, n: nat, i: nat)
    requires Tied(v, m, n) && S.ChunksOk(m) && S.ChunksDisjoint(m)
    requires i < n && v.ids[i] in m.queues && m.queues[v.ids[i]].HasTail()
    ensures LoneTail(v, n, i)
  {
    EntryAt(v, m, n, i);
    var b := v.buffer[v.buffers[i]];
    forall a, k | 0 <= a < k < |b.chunks| ensures b.chunks[a] != b.chunks[k] {
      PlaceOf(v, m, n, i, a);
    }
    PlaceOf(v, m, n, i, |b.chunks| - 1);
  }

  /** `t` is `m` with `size` bytes carved from the queue `q` of `stream`. */
  ghost predicate CarvedTo(m: M.State, t: M.State, stream: nat, q: M.Queue, size: nat) {
    && q.HasTail() && size <= q.Tail().available
    && t.queues == m.queues[stream := q.Carve(size)]
    && t.capacity == m.capacity
  }

  /** Carving from the last chunk of queue `i`, when it has room. */
  lemma CarveLinks(v: Snapshot, m: M.State, n: nat, i: nat, size: nat, t: M.State)
    requires Tied(v, m, n) && i < n && v.ids[i] in m.queues && LoneTail(v, n, i)
    requires CarvedTo(m, t, v.ids[i], m.queues[v.ids[i]], size) && t.free == m.free
    ensures var b := v.buffer[v.buffers[i]];
      b.tail in v.chunk && v.chunk[b.tail].value == m.queues[v.ids[i]].Tail()
    ensures Tied(CarveSnapshot(v, i, size), t, n)
  {
    CarveTied(v, m, n, i, size);
    SameLinks(CarveSnapshot(v, i, size), m.(queues := m.queues[v.ids[i] := m.queues[v.ids[i]].Carve(size)]), t, n);
  }

  lemma AppendThenCarve(m: M.State, t: M.State, id: nat, q: M.Queue, c: M.Chunk, size: nat)
    requires CarvedTo(m, t, id, q.Append(c), size) && q.pinned <= |q.chunks|
    ensures var p := m.(queues := m.queues[id := AppendQueue(q, c)]);
      CarvedTo(p, t, id, AppendQueue(q, c), size) && p.queues[id] == AppendQueue(q, c)
  {
    assert AppendQueue(q, c).Carve(size) == q.Append(c).Carve(size);
  }

  /** Appending a chunk that is in no list to queue `i`, and carving from it. */
  lemma AppendLinks(v: Snapshot, m: M.State, n: nat, i: nat, c: Chunk, size: nat, t: M.State)
    requires Tied(v, m, n) && S.ChunksOk(m) && S.ChunksDisjoint(m)
    requires i < n && v.ids[i] in m.queues && Detached(v, n, c) && v.chunk[c].next == null
    requires CarvedTo(m, t, v.ids[i], m.queues[v.ids[i]].Append(v.chunk[c].value), size) && t.free == m.free
    ensures v.buffers[i] in v.buffer
    ensures var b := v.buffer[v.buffers[i]]; b.tail != null ==> b.tail in v.chunk
    ensures var w := Append(v, i, c);
      && w.buffer[w.buffers[i]].tail == c && c in w.chunk && w.chunk[c].value == v.chunk[c].value
      && size <= w.chunk[c].value.available
      && Tied(CarveSnapshot(w, i, size), t, n)
  {
    EntryAt(v, m, n, i);
    var b, q, id := v.buffer[v.buffers[i]], m.queues[v.ids[i]], v.ids[i];
    AppendTied(v, m, n, i, c);
    var w, p := Append(v, i, c), m.(queues := m.queues[id := AppendQueue(q, v.chunk[c].value)]);
    AppendedIsLone(v, m, n, i, c);
    AppendThenCarve(m, t, id, q, v.chunk[c].value, size);
    CarveLinks(w, p, n, i, size, t);
  }

  lemma AppendedIsLone(v: Snapshot, m: M.State, n: nat, i: nat, c: Chunk)
    requires Tied(v, m, n) && S.ChunksOk(m) && S.ChunksDisjoint(m)
    requires i < n && Detached(v, n, c) && IsEntry(v, m, i)
    ensures var b := v.buffer[v.buffers[i]]; b.tail != null ==> b.tail in v.chunk
    ensures LoneTail(Append(v, i, c), n, i)
  {
    var b := v.buffer[v.buffers[i]];
    forall a, k | 0 <= a < k < |b.chunks| ensures b.chunks[a] != b.chunks[k] {
      PlaceOf(v, m, n, i, a);
    }
    var cs := b.chunks + [c];
    forall a, k | 0 <= a < k < |cs| ensures cs[a] != cs[k] {
      assert cs[a] == b.chunks[a] && b.chunks[a] in b.chunks;
    }
    Spread(v, m, n);
    assert forall k | 0 <= k < n && k != i :: v.buffers[k] != v.buffers[i];
  }

  // ---------------------------------------------------------------- where the chunk comes from

  /** `c` was taken off the free list of `m`. */
  ghost predicate CanReuse(v: Snapshot, m: M.State, n: nat, c: Chunk) {
    && m.free != []
    && Tied(v, m.(free := m.free[1..]), n) && Detached(v, n, c)
    && v.chunk[c] == ChunkRecord(m.free[0].(available := m.capacity), null)
  }

  lemma WithoutFirst(m: M.State)
    requires S.ChunksOk(m) && S.ChunksDisjoint(m) && m.free != []
    ensures S.ChunksOk(m.(free := m.free[1..])) && S.ChunksDisjoint(m.(free := m.free[1..]))
  {
    var t := m.(free := m.free[1..]);
    var back := (l: M.Loc) => if l.InFree? then M.InFree(l.index + 1) else l;
    forall l | M.HasLoc(t, l) ensures M.HasLoc(m, back(l)) && M.At(m, back(l)) == M.At(t, l) && S.ChunkOk(M.At(t, l)) {
      assert M.HasLoc(m, back(l)) && S.ChunkOk(M.At(m, back(l)));
    }
    S.MovedChunks(m, t, back);
  }

  /** Reusing a chunk leads to the state after the step. */
  lemma ReuseLinks(v: Snapshot, m: M.State, n: nat, i: nat, c: Chunk, size: nat)
    requires CanReuse(v, m, n, c) && S.ChunksOk(m) && S.ChunksDisjoint(m)
    requires i < n && M.Enabled(m, M.Reuse(v.ids[i], size))
    ensures v.buffers[i] in v.buffer
    ensures var b := v.buffer[v.buffers[i]]; b.tail != null ==> b.tail in v.chunk
    ensures var w := Append(v, i, c);
      && w.buffer[w.buffers[i]].tail == c && c in w.chunk && size <= w.chunk[c].value.available
      && w.chunk[c].value == M.Reused(m, v.ids[i]).Tail()
      && Tied(CarveSnapshot(w, i, size), M.Apply(m, M.Reuse(v.ids[i], size)), n)
  {
    WithoutFirst(m);
    var t := M.Apply(m, M.Reuse(v.ids[i], size));
    assert m.queues[v.ids[i]].Append(v.chunk[c].value) == M.Reused(m, v.ids[i]);
    AppendLinks(v, m.(free := m.free[1..]), n, i, c, size, t);
  }

  /** `c` is newly allocated memory. */
  ghost predicate CanAttach(v: Snapshot, m: M.State, n: nat, c: Chunk, ptr: M.DualPointer) {
    && Tied(v, m, n) && Detached(v, n, c)
    && v.chunk[c] == ChunkRecord(M.Chunk(ptr, m.capacity, m.capacity, M.Unrecorded), null)
    && M.Aligned(ptr) && M.FreshRegion(m, M.Region(ptr, m.capacity))
  }

  lemma AttachLinks(v: Snapshot, m: M.State, n: nat, i: nat, c: Chunk, ptr: M.DualPointer, size: nat)
    requires CanAttach(v, m, n, c, ptr) && S.ChunksOk(m) && S.ChunksDisjoint(m)
    requires i < n && M.Enabled(m, M.Attach(v.ids[i], ptr, size))
    ensures v.buffers[i] in v.buffer
    ensures var b := v.buffer[v.buffers[i]]; b.tail != null ==> b.tail in v.chunk
    ensures var w := Append(v, i, c);
      && w.buffer[w.buffers[i]].tail == c && c in w.chunk && size <= w.chunk[c].value.available
      && w.chunk[c].value == M.Attached(m, v.ids[i], ptr).Tail()
      && Tied(CarveSnapshot(w, i, size), M.Apply(m, M.Attach(v.ids[i], ptr, size)), n)
  {
    var t := M.Apply(m, M.Attach(v.ids[i], ptr, size));
    assert m.queues[v.ids[i]].Append(v.chunk[c].value) == M.Attached(m, v.ids[i], ptr);
    AppendLinks(v, m, n, i, c, size, t);
  }

  /** A new chunk object joins the snapshot. */
  lemma NewChunkTied(v: Snapshot, m: M.State, n: nat, c: Chunk, r: ChunkRecord)
    requires Tied(v, m, n) && c !in v.chunk
    ensures Tied(v.(chunk := v.chunk[c := r]), m, n) && Detached(v.(chunk := v.chunk[c := r]), n, c)
  {
    var w := v.(chunk := v.chunk[c := r]);
    Spread(v, m, n);
    forall k | 0 <= k < n ensures IsEntry(w, m, k) && c !in v.buffer[v.buffers[k]].chunks {
      assert IsEntry(v, m, k);
    }
    Gather(w, m, n);
  }
}
