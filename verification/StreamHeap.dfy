/**
 The linked structures of the stream staging allocator, and what updating them does.

 Chunks and stream buffers are objects that the allocator updates in place.  Their fields
 at one moment are collected in a Snapshot, on which a chain of `next` pointers is compared
 with a sequence; the lemmas say what each update of the snapshot means for the state of
 StreamModel that it stands for.
 */
module StreamHeap {
  import opened Wrappers
  import M = StreamModel
  import S = StreamSafety

  // ---------------------------------------------------------------- the device

  /** What the driver answered: the events that were not ready when queried, and whether recording one failed. */
  class AnswerLog {
    ghost var no: seq<M.Event>
    ghost var failed: bool

    constructor ()
      ensures no == [] && !failed
    {
      no, failed := [], false;
    }
  }

  /** The driver calls the allocator makes, and the device state that answers them. */
  class Driver {
    const log: AnswerLog
    var issued: map<nat, nat>
    var completed: map<nat, nat>
    var hostRanges: set<(int, nat)>
    var deviceRanges: set<(int, nat)>

    constructor ()
      ensures Untouched() && fresh(log) && log.no == [] && !log.failed
    {
      issued, completed, hostRanges, deviceRanges := map[], map[], {}, {};
      log := new AnswerLog();
    }

    static predicate Unused(ranges: set<(int, nat)>, p: int, size: nat) {
      forall r | r in ranges :: M.RangesDisjoint(r.0, r.1, p, size)
    }

    /** Nothing has been issued, and no memory is in use. */
    predicate Untouched()
      reads this
    {
      issued == map[] && completed == map[] && hostRanges == {} && deviceRanges == {}
    }

    /** May say "not ready" at any time, but says "ready" only once the event is complete. */
    method EventQuery(e: M.Event) returns (ready: bool)
      modifies log`no
      ensures ready ==> M.Completed(completed, e)
      ensures log.no == if ready then old(log.no) else old(log.no) + [e]
    {
      var answer: bool := *;
      ready := answer && M.Completed(completed, e);
      if !ready {
        log.no := log.no + [e];
      }
    }

    /** Marks the work issued so far, or fails. */
    method EventRecord(stream: nat) returns (e: Option<M.Event>)
      modifies log`failed
      ensures e.Some? ==> e.value == M.Recorded(stream, M.Count(issued, stream))
      ensures log.failed <==> old(log.failed) || e.None?
    {
      var works: bool := *;
      e := if works then Some(M.Recorded(stream, M.Count(issued, stream))) else None;
      log.failed := log.failed || !works;
    }

    method EventCreate() returns (ok: bool)
    {
      ok := *;
    }

    /** Any aligned, non-null address whose range is not in use, or failure. */
    method MemAlloc(size: nat) returns (r: Option<int>)
      modifies this`deviceRanges
      ensures r.None? ==> deviceRanges == old(deviceRanges)
      ensures r.Some? ==>
        && r.value != 0 && r.value % M.ALIGNMENT == 0
        && Unused(old(deviceRanges), r.value, size)
        && deviceRanges == old(deviceRanges) + {(r.value, size)}
    {
      var p: int := *;
      if p == 0 || p % M.ALIGNMENT != 0 || !Unused(deviceRanges, p, size) {
        return None;
      }
      deviceRanges := deviceRanges + {(p, size)};
      r := Some(p);
    }

    method MemAllocHost(size: nat) returns (r: Option<int>)
      modifies this`hostRanges
      ensures r.None? ==> hostRanges == old(hostRanges)
      ensures r.Some? ==>
        && r.value != 0 && r.value % M.ALIGNMENT == 0
        && Unused(old(hostRanges), r.value, size)
        && hostRanges == old(hostRanges) + {(r.value, size)}
    {
      var p: int := *;
      if p == 0 || p % M.ALIGNMENT != 0 || !Unused(hostRanges, p, size) {
        return None;
      }
      hostRanges := hostRanges + {(p, size)};
      r := Some(p);
    }

    method MemFree(p: int, size: nat)
      requires (p, size) in deviceRanges
      modifies this`deviceRanges
      ensures deviceRanges == old(deviceRanges) - {(p, size)}
    {
      deviceRanges := deviceRanges - {(p, size)};
    }

    method MemFreeHost(p: int, size: nat)
      requires (p, size) in hostRanges
      modifies this`hostRanges
      ensures hostRanges == old(hostRanges) - {(p, size)}
    {
      hostRanges := hostRanges - {(p, size)};
    }
  }

  // ---------------------------------------------------------------- chunks and queues

  class Chunk {
    const ptr: M.DualPointer
    const capacity: nat
    var available: nat
    var event: M.Event
    var next: Chunk?

    constructor (ptr: M.DualPointer, capacity: nat)
      ensures this.ptr == ptr && this.capacity == capacity
      ensures Value() == M.Chunk(ptr, capacity, capacity, M.Unrecorded) && next == null
    {
      this.ptr, this.capacity, available, event, next := ptr, capacity, capacity, M.Unrecorded, null;
    }

    ghost function Value(): M.Chunk
      reads this
    {
      M.Chunk(ptr, capacity, available, event)
    }
  }

  class StreamBuffer {
    var openTransaction: bool
    var head: Chunk?
    var transactionHead: Chunk?
    var tail: Chunk?
    var nextFree: StreamBuffer?
    ghost var chunks: seq<Chunk>

    constructor ()
      ensures Value() == FRESH_RECORD
    {
      openTransaction, head, transactionHead, tail, nextFree := false, null, null, null, null;
      chunks := [];
    }

    ghost function Value(): BufferRecord
      reads this
    {
      BufferRecord(openTransaction, head, transactionHead, tail, nextFree, chunks)
    }

    method Reset()
      modifies this
      ensures Value() == FRESH_RECORD
    {
      openTransaction := false;
      head, tail, transactionHead := null, null, null;
      nextFree := null;
      chunks := [];
    }
  }

  // ---------------------------------------------------------------- snapshots

  /** The fields of a chunk and of a stream buffer at some moment. */
  datatype ChunkRecord = ChunkRecord(value: M.Chunk, next: Chunk?)

  datatype BufferRecord = BufferRecord(
    openTransaction: bool,
    head: Chunk?,
    transactionHead: Chunk?,
    tail: Chunk?,
    nextFree: StreamBuffer?,
    chunks: seq<Chunk>)

  const FRESH_RECORD: BufferRecord := BufferRecord(false, null, null, null, null, [])

  /** The fields of a pool, and of all its chunks and stream buffers, at some moment. */
  datatype Snapshot = Snapshot(
    ids: seq<nat>,
    buffers: seq<StreamBuffer>,
    capacity: nat,
    chunkFreelist: Chunk?,
    sbFreelist: StreamBuffer?,
    chunk: map<Chunk, ChunkRecord>,
    buffer: map<StreamBuffer, BufferRecord>,
    free: seq<Chunk>,
    idle: seq<StreamBuffer>)

  /** The chunks reached from `head` along `next` are exactly `cs`, in this order, with these values. */
  ghost predicate IsList(chunk: map<Chunk, ChunkRecord>, head: Chunk?, cs: seq<Chunk>, values: seq<M.Chunk>) {
    && |cs| == |values|
    && (forall a | 0 <= a < |cs| :: cs[a] in chunk && chunk[cs[a]].value == values[a])
    && (forall a {:trigger chunk[cs[a]]} | 0 <= a < |cs| ::
          chunk[cs[a]].next == if a + 1 < |cs| then cs[a + 1] else null)
    && head == (if cs == [] then null else cs[0])
  }

  /** `b` is an acyclic queue with the right tail and transaction head, whose value is `q`. */
  ghost predicate IsQueue(chunk: map<Chunk, ChunkRecord>, b: BufferRecord, q: M.Queue) {
    && IsList(chunk, b.head, b.chunks, q.chunks)
    && b.tail == (if b.chunks == [] then null else b.chunks[|b.chunks| - 1])
    && b.openTransaction == q.open
    && q.pinned <= |q.chunks|
    && b.transactionHead == (if q.pinned == |q.chunks| then null else b.chunks[q.pinned])
  }

  /** The stream buffers reached from `head` along `nextFree` are exactly `sbs`, each once. */
  ghost predicate IsIdleList(buffer: map<StreamBuffer, BufferRecord>, head: StreamBuffer?, sbs: seq<StreamBuffer>) {
    && (forall a | 0 <= a < |sbs| :: sbs[a] in buffer)
    && (forall a {:trigger buffer[sbs[a]]} | 0 <= a < |sbs| ::
          buffer[sbs[a]].nextFree == if a + 1 < |sbs| then sbs[a + 1] else null)
    && head == (if sbs == [] then null else sbs[0])
    && (forall a, b | 0 <= a < b < |sbs| :: sbs[a] != sbs[b])
  }

  /** Entry `i` of the two vectors pairs a stream of `m` with the buffer that holds its queue. */
  ghost predicate IsEntry(v: Snapshot, m: M.State, i: nat) {
    && i < |v.ids| && i < |v.buffers|
    && v.ids[i] in m.queues && v.buffers[i] in v.buffer
    && IsQueue(v.chunk, v.buffer[v.buffers[i]], m.queues[v.ids[i]])
    && v.buffers[i] !in v.idle
    && (forall j | 0 <= j < i :: v.ids[j] != v.ids[i] && v.buffers[j] != v.buffers[i])
  }

  /** The first `n` entries are proper, without duplicates. */
  ghost predicate AreEntries(v: Snapshot, m: M.State, n: nat) {
    n == 0 || (AreEntries(v, m, n - 1) && IsEntry(v, m, n - 1))
  }

  ghost predicate Covers(ids: seq<nat>, m: M.State, n: nat)
    requires n <= |ids|
  {
    forall id | id in m.queues :: exists i :: 0 <= i < n && ids[i] == id
  }

  /** The pool has the value `m`, as far as the first `n` entries of its vectors go. */
  ghost predicate Tied(v: Snapshot, m: M.State, n: nat) {
    && n <= |v.ids| == |v.buffers|
    && AreEntries(v, m, n)
    && Covers(v.ids, m, n)
    && IsList(v.chunk, v.chunkFreelist, v.free, m.free)
    && IsIdleList(v.buffer, v.sbFreelist, v.idle)
    && v.capacity == m.capacity
  }

  lemma {:induction false} EntryAt(v: Snapshot, m: M.State, n: nat, i: nat)
    requires AreEntries(v, m, n) && i < n
    ensures IsEntry(v, m, i)
  {
    if i != n - 1 {
      EntryAt(v, m, n - 1, i);
    }
  }

  /** All entries at once, and no stream or buffer in two of them. */
  lemma Spread(v: Snapshot, m: M.State, n: nat)
    requires AreEntries(v, m, n)
    ensures forall i | 0 <= i < n :: IsEntry(v, m, i)
    ensures forall i, j | 0 <= i < n && 0 <= j < n && i != j :: v.ids[i] != v.ids[j] && v.buffers[i] != v.buffers[j]
  {
    forall i | 0 <= i < n ensures IsEntry(v, m, i) {
      EntryAt(v, m, n, i);
    }
    forall i, j | 0 <= i < n && 0 <= j < n && i != j
      ensures v.ids[i] != v.ids[j] && v.buffers[i] != v.buffers[j]
    {
      assert IsEntry(v, m, i) && IsEntry(v, m, j);
    }
  }

  lemma {:induction false} Gather(v: Snapshot, m: M.State, n: nat)
    requires forall i | 0 <= i < n :: IsEntry(v, m, i)
    ensures AreEntries(v, m, n)
  {
    if n != 0 {
      Gather(v, m, n - 1);
    }
  }

  /** `c` is in no queue and not free. */
  ghost predicate Detached(v: Snapshot, n: nat, c: Chunk) {
    && c in v.chunk
    && c !in v.free
    && n <= |v.buffers|
    && forall i | 0 <= i < n :: v.buffers[i] in v.buffer && c !in v.buffer[v.buffers[i]].chunks
  }

  // ---------------------------------------------------------------- one place for each chunk

  /** In a pool whose chunks are apart, a chunk has one place. */
  lemma OnePlace(v: Snapshot, m: M.State, i: nat, a: nat, k: nat, b: nat)
    requires S.ChunksOk(m) && S.ChunksDisjoint(m) && IsEntry(v, m, i) && IsEntry(v, m, k)
    requires a < |v.buffer[v.buffers[i]].chunks| && b < |v.buffer[v.buffers[k]].chunks|
    ensures v.buffer[v.buffers[i]].chunks[a] == v.buffer[v.buffers[k]].chunks[b] ==> v.ids[i] == v.ids[k] && a == b
  {
    S.PlacesDiffer(m, M.InQueue(v.ids[i], a), M.InQueue(v.ids[k], b));
  }

  lemma NotFree(v: Snapshot, m: M.State, i: nat, a: nat, b: nat)
    requires S.ChunksOk(m) && S.ChunksDisjoint(m) && IsEntry(v, m, i)
    requires IsList(v.chunk, v.chunkFreelist, v.free, m.free)
    requires a < |v.buffer[v.buffers[i]].chunks| && b < |v.free|
    ensures v.buffer[v.buffers[i]].chunks[a] != v.free[b]
  {
    S.PlacesDiffer(m, M.InQueue(v.ids[i], a), M.InFree(b));
  }

  /** Where the chunk at position `a` of queue `i` can be found in queue `k`. */
  lemma PlacesIn(v: Snapshot, m: M.State, i: nat, a: nat, k: nat)
    requires S.ChunksOk(m) && S.ChunksDisjoint(m) && IsEntry(v, m, i) && IsEntry(v, m, k)
    requires a < |v.buffer[v.buffers[i]].chunks| && (i != k ==> v.ids[i] != v.ids[k])
    ensures forall b | 0 <= b < |v.buffer[v.buffers[k]].chunks| ::
      v.buffer[v.buffers[k]].chunks[b] == v.buffer[v.buffers[i]].chunks[a] ==> k == i && b == a
  {
    forall b | 0 <= b < |v.buffer[v.buffers[k]].chunks|
      ensures v.buffer[v.buffers[k]].chunks[b] == v.buffer[v.buffers[i]].chunks[a] ==> k == i && b == a
    {
      OnePlace(v, m, i, a, k, b);
    }
  }

  /** The chunk at position `a` of queue `i` is in no other queue, nowhere else in this one, and not free. */
  lemma PlaceOf(v: Snapshot, m: M.State, n: nat, i: nat, a: nat)
    requires Tied(v, m, n) && S.ChunksOk(m) && S.ChunksDisjoint(m)
    requires i < n && v.buffers[i] in v.buffer && a < |v.buffer[v.buffers[i]].chunks|
    ensures var c := v.buffer[v.buffers[i]].chunks[a];
      && c in v.chunk && c !in v.free
      && (forall k | 0 <= k < n && k != i :: v.buffers[k] in v.buffer && c !in v.buffer[v.buffers[k]].chunks)
      && (forall b | 0 <= b < |v.buffer[v.buffers[i]].chunks| && b != a :: v.buffer[v.buffers[i]].chunks[b] != c)
  {
    Spread(v, m, n);
    var c := v.buffer[v.buffers[i]].chunks[a];
    PlacesIn(v, m, i, a, i);
    forall k | 0 <= k < n && k != i ensures v.buffers[k] in v.buffer && c !in v.buffer[v.buffers[k]].chunks {
      assert IsEntry(v, m, k);
      PlacesIn(v, m, i, a, k);
    }
    forall b | 0 <= b < |v.free| ensures v.free[b] != c {
      NotFree(v, m, i, a, b);
    }
  }

  // ---------------------------------------------------------------- updates

  /** The queue in entry `i` is replaced in both views; nothing else changes. */
  lemma Replaced(v: Snapshot, m: M.State, n: nat, i: nat, b: BufferRecord, q: M.Queue)
    requires Tied(v, m, n) && i < n && IsQueue(v.chunk, b, q)
    ensures Tied(v.(buffer := v.buffer[v.buffers[i] := b]), m.(queues := m.queues[v.ids[i] := q]), n)
  {
    var w, t := v.(buffer := v.buffer[v.buffers[i] := b]), m.(queues := m.queues[v.ids[i] := q]);
    Spread(v, m, n);
    assert IsEntry(v, m, i);
    forall k | 0 <= k < n ensures IsEntry(w, t, k) {
      assert IsEntry(v, m, k);
    }
    Gather(w, t, n);
  }

  /** The first chunk of queue `i` is unlinked. */
  ghost function PopRecord(chunk: map<Chunk, ChunkRecord>, b: BufferRecord): BufferRecord
    requires b.head != null && b.head in chunk && b.chunks != []
  {
    var next := chunk[b.head].next;
    b.(head := next, tail := if next == null then null else b.tail, chunks := b.chunks[1..])
  }

  ghost function PopState(m: M.State, stream: nat): M.State
    requires stream in m.queues && m.queues[stream].HasTail() && 0 < m.queues[stream].pinned
  {
    var q := m.queues[stream];
    m.(queues := m.queues[stream := q.(chunks := q.chunks[1..], pinned := q.pinned - 1)])
  }

  lemma PopQueue(chunk: map<Chunk, ChunkRecord>, b: BufferRecord, q: M.Queue)
    requires IsQueue(chunk, b, q) && q.HasTail() && 0 < q.pinned
    ensures b.head != null && b.head in chunk && b.chunks != []
    ensures IsQueue(chunk, PopRecord(chunk, b), q.(chunks := q.chunks[1..], pinned := q.pinned - 1))
  {
    var cs := b.chunks[1..];
    forall a | 0 <= a < |cs| ensures chunk[cs[a]].next == if a + 1 < |cs| then cs[a + 1] else null {
      assert cs[a] == b.chunks[a + 1];
    }
  }

  lemma PopTied(v: Snapshot, m: M.State, n: nat, i: nat)
    requires Tied(v, m, n) && S.ChunksOk(m) && S.ChunksDisjoint(m)
    requires i < n && v.ids[i] in m.queues && m.queues[v.ids[i]].HasTail() && 0 < m.queues[v.ids[i]].pinned
    ensures v.buffers[i] in v.buffer
    ensures var b := v.buffer[v.buffers[i]];
      && b.head != null && b.head in v.chunk && b.chunks != []
      && v.chunk[b.head].value == m.queues[v.ids[i]].chunks[0]
      && var w := v.(buffer := v.buffer[v.buffers[i] := PopRecord(v.chunk, b)]);
      && Tied(w, PopState(m, v.ids[i]), n)
      && Detached(w, n, b.head)
  {
    EntryAt(v, m, n, i);
    var b, q := v.buffer[v.buffers[i]], m.queues[v.ids[i]];
    PopQueue(v.chunk, b, q);
    Replaced(v, m, n, i, PopRecord(v.chunk, b), q.(chunks := q.chunks[1..], pinned := q.pinned - 1));
    PlaceOf(v, m, n, i, 0);
  }

  /** A chunk that is in no list is pushed on the free list. */
  ghost function PushFree(v: Snapshot, c: Chunk): Snapshot
    requires c in v.chunk
  {
    v.(chunkFreelist := c, free := [c] + v.free, chunk := v.chunk[c := v.chunk[c].(next := v.chunkFreelist)])
  }

  lemma PushFreeTied(v: Snapshot, m: M.State, n: nat, c: Chunk)
    requires Tied(v, m, n) && Detached(v, n, c)
    ensures Tied(PushFree(v, c), m.(free := [v.chunk[c].value] + m.free), n)
  {
    var w, t := PushFree(v, c), m.(free := [v.chunk[c].value] + m.free);
    forall a | 0 <= a < |w.free| ensures w.chunk[w.free[a]].next == if a + 1 < |w.free| then w.free[a + 1] else null {
      assert a != 0 ==> w.free[a] == v.free[a - 1];
    }
    Spread(v, m, n);
    forall k | 0 <= k < n ensures IsEntry(w, t, k) {
      assert IsEntry(v, m, k);
    }
    Gather(w, t, n);
  }

  /** The same, when chunks of queue `i` (or detached ones) change as well. */
  lemma ReplacedChunks(v: Snapshot, m: M.State, n: nat, i: nat, chunk: map<Chunk, ChunkRecord>, b: BufferRecord,
                       q: M.Queue)
    requires Tied(v, m, n) && i < n && IsQueue(chunk, b, q)
    requires forall a | 0 <= a < |v.free| :: v.free[a] in chunk && chunk[v.free[a]] == v.chunk[v.free[a]]
    requires forall k | 0 <= k < n && k != i ::
      v.buffers[k] in v.buffer && KeepsQueue(v, chunk, v.buffer[v.buffers[k]].chunks)
    ensures Tied(v.(chunk := chunk, buffer := v.buffer[v.buffers[i] := b]), m.(queues := m.queues[v.ids[i] := q]), n)
  {
    var w, t := v.(chunk := chunk, buffer := v.buffer[v.buffers[i] := b]), m.(queues := m.queues[v.ids[i] := q]);
    Spread(v, m, n);
    assert IsEntry(v, m, i);
    forall k | 0 <= k < n ensures IsEntry(w, t, k) {
      assert IsEntry(v, m, k);
      if k != i {
        KeptQueue(v, chunk, v.buffer[v.buffers[k]], m.queues[v.ids[k]]);
      }
    }
    Gather(w, t, n);
  }

  ghost predicate KeepsQueue(v: Snapshot, chunk: map<Chunk, ChunkRecord>, cs: seq<Chunk>) {
    forall a | 0 <= a < |cs| :: cs[a] in v.chunk && cs[a] in chunk && chunk[cs[a]] == v.chunk[cs[a]]
  }

  lemma KeptQueue(v: Snapshot, chunk: map<Chunk, ChunkRecord>, b: BufferRecord, q: M.Queue)
    requires IsQueue(v.chunk, b, q) && KeepsQueue(v, chunk, b.chunks)
    ensures IsQueue(chunk, b, q)
  {
  }

  /** Where `changed` is in no other queue and not free, changing it concerns queue `i` only. */
  lemma KeepsOthers(v: Snapshot, m: M.State, n: nat, i: nat, chunk: map<Chunk, ChunkRecord>, changed: set<Chunk>)
    requires Tied(v, m, n) && i < n
    requires forall c | c in v.chunk && c !in changed :: c in chunk && chunk[c] == v.chunk[c]
    requires forall c | c in changed :: c !in v.free
    requires forall k, c | 0 <= k < n && k != i && c in changed ::
      v.buffers[k] in v.buffer ==> c !in v.buffer[v.buffers[k]].chunks
    ensures forall a | 0 <= a < |v.free| ::
      v.free[a] in v.chunk && v.free[a] in chunk && chunk[v.free[a]] == v.chunk[v.free[a]]
    ensures forall k | 0 <= k < n && k != i ::
      v.buffers[k] in v.buffer && KeepsQueue(v, chunk, v.buffer[v.buffers[k]].chunks)
  {
    Spread(v, m, n);
    forall k | 0 <= k < n && k != i
      ensures v.buffers[k] in v.buffer && KeepsQueue(v, chunk, v.buffer[v.buffers[k]].chunks)
    {
      assert IsEntry(v, m, k);
      var cs := v.buffer[v.buffers[k]].chunks;
      forall a | 0 <= a < |cs| ensures cs[a] in v.chunk && cs[a] in chunk && chunk[cs[a]] == v.chunk[cs[a]] {
        assert cs[a] in cs;
      }
    }
    forall a | 0 <= a < |v.free|
      ensures v.free[a] in v.chunk && v.free[a] in chunk && chunk[v.free[a]] == v.chunk[v.free[a]]
    {
      assert v.free[a] in v.free;
    }
  }

  // ---- appending a chunk

  ghost function AppendRecord(b: BufferRecord, c: Chunk): BufferRecord {
    b.(head := if b.tail == null then c else b.head, tail := c, chunks := b.chunks + [c])
  }

  ghost function AppendChunk(chunk: map<Chunk, ChunkRecord>, b: BufferRecord, c: Chunk): map<Chunk, ChunkRecord>
    requires b.tail != null ==> b.tail in chunk
  {
    if b.tail == null then chunk else chunk[b.tail := chunk[b.tail].(next := c)]
  }

  /** The queue with a chunk that the transaction has not used yet. */
  ghost function AppendQueue(q: M.Queue, c: M.Chunk): M.Queue {
    q.(chunks := q.chunks + [c], pinned := if q.pinned == |q.chunks| then |q.chunks| + 1 else q.pinned)
  }

  lemma AppendIsQueue(chunk: map<Chunk, ChunkRecord>, b: BufferRecord, q: M.Queue, c: Chunk)
    requires IsQueue(chunk, b, q) && c in chunk && chunk[c].next == null && c !in b.chunks
    requires forall a, k | 0 <= a < k < |b.chunks| :: b.chunks[a] != b.chunks[k]
    ensures b.tail != null ==> b.tail in chunk
    ensures IsQueue(AppendChunk(chunk, b, c), AppendRecord(b, c), AppendQueue(q, chunk[c].value))
  {
    var cs, after := b.chunks + [c], AppendChunk(chunk, b, c);
    forall a | 0 <= a < |cs| ensures after[cs[a]].next == if a + 1 < |cs| then cs[a + 1] else null {
      if a < |b.chunks| {
        assert cs[a] == b.chunks[a];
        assert a < |b.chunks| - 1 ==> b.chunks[a] != b.tail;
      }
    }
  }

  ghost function Append(v: Snapshot, i: nat, c: Chunk): Snapshot
    requires i < |v.buffers| && v.buffers[i] in v.buffer
    requires var b := v.buffer[v.buffers[i]]; b.tail != null ==> b.tail in v.chunk
  {
    var b := v.buffer[v.buffers[i]];
    v.(chunk := AppendChunk(v.chunk, b, c), buffer := v.buffer[v.buffers[i] := AppendRecord(b, c)])
  }

  lemma AppendTied(v: Snapshot, m: M.State, n: nat, i: nat, c: Chunk)
    requires Tied(v, m, n) && S.ChunksOk(m) && S.ChunksDisjoint(m)
    requires i < n && Detached(v, n, c) && v.chunk[c].next == null
    ensures v.ids[i] in m.queues
    ensures var b := v.buffer[v.buffers[i]]; b.tail != null ==> b.tail in v.chunk
    ensures Tied(Append(v, i, c), m.(queues := m.queues[v.ids[i] := AppendQueue(m.queues[v.ids[i]], v.chunk[c].value)]),
                 n)
  {
    EntryAt(v, m, n, i);
    var b := v.buffer[v.buffers[i]];
    forall a, k | 0 <= a < k < |b.chunks| ensures b.chunks[a] != b.chunks[k] {
      PlaceOf(v, m, n, i, a);
    }
    AppendIsQueue(v.chunk, b, m.queues[v.ids[i]], c);
    if b.tail != null {
      PlaceOf(v, m, n, i, |b.chunks| - 1);
      KeepsOthers(v, m, n, i, AppendChunk(v.chunk, b, c), {b.tail});
    } else {
      KeepsOthers(v, m, n, i, AppendChunk(v.chunk, b, c), {});
    }
    ReplacedChunks(v, m, n, i, AppendChunk(v.chunk, b, c), AppendRecord(b, c),
                   AppendQueue(m.queues[v.ids[i]], v.chunk[c].value));
  }

  // ---- carving from the last chunk

  ghost function CarveChunk(chunk: map<Chunk, ChunkRecord>, c: Chunk, size: nat): map<Chunk, ChunkRecord>
    requires c in chunk && size <= chunk[c].value.available
  {
    var r := chunk[c];
    chunk[c := r.(value := r.value.(available := r.value.available - size))]
  }

  ghost function CarveRecord(b: BufferRecord): BufferRecord {
    b.(transactionHead := if b.transactionHead == null then b.tail else b.transactionHead)
  }

  lemma CarveIsQueue(chunk: map<Chunk, ChunkRecord>, b: BufferRecord, q: M.Queue, size: nat)
    requires IsQueue(chunk, b, q) && q.HasTail() && size <= q.Tail().available
    requires forall a, k | 0 <= a < k < |b.chunks| :: b.chunks[a] != b.chunks[k]
    ensures b.tail != null && b.tail in chunk && chunk[b.tail].value == q.Tail()
    ensures IsQueue(CarveChunk(chunk, b.tail, size), CarveRecord(b), q.Carve(size))
  {
    var after := CarveChunk(chunk, b.tail, size);
    forall a | 0 <= a < |b.chunks|
      ensures b.chunks[a] in after && after[b.chunks[a]].next == chunk[b.chunks[a]].next
      ensures after[b.chunks[a]].value == q.Carve(size).chunks[a]
    {
      assert a < |b.chunks| - 1 ==> b.chunks[a] != b.tail;
    }
  }

  ghost function CarveSnapshot(v: Snapshot, i: nat, size: nat): Snapshot
    requires i < |v.buffers| && v.buffers[i] in v.buffer
    requires var b := v.buffer[v.buffers[i]];
      b.tail != null && b.tail in v.chunk && size <= v.chunk[b.tail].value.available
  {
    var b := v.buffer[v.buffers[i]];
    v.(chunk := CarveChunk(v.chunk, b.tail, size), buffer := v.buffer[v.buffers[i] := CarveRecord(b)])
  }

  /**
   Carving needs the tail to be in one place only.  It is: either its state is one of a run,
   or it was just appended.
   */
  lemma CarveTied(v: Snapshot, m: M.State, n: nat, i: nat, size: nat)
    requires Tied(v, m, n) && i < n && v.ids[i] in m.queues && v.buffers[i] in v.buffer
    requires m.queues[v.ids[i]].HasTail() && size <= m.queues[v.ids[i]].Tail().available
    requires var b := v.buffer[v.buffers[i]];
      && b.tail != null && b.tail !in v.free
      && (forall a, k | 0 <= a < k < |b.chunks| :: b.chunks[a] != b.chunks[k])
      && (forall k | 0 <= k < n && k != i && v.buffers[k] in v.buffer :: b.tail !in v.buffer[v.buffers[k]].chunks)
    ensures var b := v.buffer[v.buffers[i]]; b.tail in v.chunk && v.chunk[b.tail].value == m.queues[v.ids[i]].Tail()
    ensures Tied(CarveSnapshot(v, i, size), m.(queues := m.queues[v.ids[i] := m.queues[v.ids[i]].Carve(size)]), n)
  {
    EntryAt(v, m, n, i);
    var b := v.buffer[v.buffers[i]];
    CarveIsQueue(v.chunk, b, m.queues[v.ids[i]], size);
    KeepsOthers(v, m, n, i, CarveChunk(v.chunk, b.tail, size), {b.tail});
    ReplacedChunks(v, m, n, i, CarveChunk(v.chunk, b.tail, size), CarveRecord(b), m.queues[v.ids[i]].Carve(size));
  }

  // ---- closing a transaction

  ghost function RecordChunks(chunk: map<Chunk, ChunkRecord>, cs: seq<Chunk>, e: M.Event): map<Chunk, ChunkRecord> {
    map c | c in chunk :: if c in cs then chunk[c].(value := chunk[c].value.(event := e)) else chunk[c]
  }

  ghost function CloseRecord(b: BufferRecord): BufferRecord {
    b.(openTransaction := false, transactionHead := null)
  }

  lemma RecordedAt(chunk: map<Chunk, ChunkRecord>, cs: seq<Chunk>, pinned: nat, e: M.Event, a: nat)
    requires pinned <= |cs| && a < |cs| && cs[a] in chunk
    requires forall k | 0 <= k < |cs| && k != a :: cs[k] != cs[a]
    ensures cs[a] in RecordChunks(chunk, cs[pinned..], e)
    ensures var r := chunk[cs[a]];
      RecordChunks(chunk, cs[pinned..], e)[cs[a]] == if pinned <= a then r.(value := r.value.(event := e)) else r
  {
    assert cs[a] in cs[pinned..] <==> pinned <= a by {
      if pinned <= a {
        assert cs[pinned..][a - pinned] == cs[a];
      }
    }
  }

  lemma CloseIsQueue(chunk: map<Chunk, ChunkRecord>, b: BufferRecord, q: M.Queue, e: M.Event)
    requires IsQueue(chunk, b, q)
    requires forall a, k | 0 <= a < k < |b.chunks| :: b.chunks[a] != b.chunks[k]
    ensures IsQueue(RecordChunks(chunk, b.chunks[q.pinned..], e), CloseRecord(b), M.CloseQueue(q, e))
  {
    hide RecordChunks;
    var cs, after, t := b.chunks, RecordChunks(chunk, b.chunks[q.pinned..], e), M.CloseQueue(q, e);
    forall a | 0 <= a < |cs|
      ensures cs[a] in after && after[cs[a]].value == t.chunks[a] && after[cs[a]].next == chunk[cs[a]].next
    {
      RecordedAt(chunk, cs, q.pinned, e, a);
    }
    assert IsList(after, b.head, cs, t.chunks);
  }

  ghost function CloseSnapshot(v: Snapshot, i: nat, pinned: nat, e: M.Event): Snapshot
    requires i < |v.buffers| && v.buffers[i] in v.buffer && pinned <= |v.buffer[v.buffers[i]].chunks|
  {
    var b := v.buffer[v.buffers[i]];
    v.(chunk := RecordChunks(v.chunk, b.chunks[pinned..], e), buffer := v.buffer[v.buffers[i] := CloseRecord(b)])
  }

  lemma CloseTied(v: Snapshot, m: M.State, n: nat, i: nat, e: M.Event)
    requires Tied(v, m, n) && S.ChunksOk(m) && S.ChunksDisjoint(m) && i < n && v.ids[i] in m.queues
    ensures v.buffers[i] in v.buffer && m.queues[v.ids[i]].pinned <= |v.buffer[v.buffers[i]].chunks|
    ensures Tied(CloseSnapshot(v, i, m.queues[v.ids[i]].pinned, e),
                 m.(queues := m.queues[v.ids[i] := M.CloseQueue(m.queues[v.ids[i]], e)]), n)
  {
    EntryAt(v, m, n, i);
    var b, q := v.buffer[v.buffers[i]], m.queues[v.ids[i]];
    var used := b.chunks[q.pinned..];
    forall a | 0 <= a < |b.chunks|
      ensures b.chunks[a] !in v.free
      ensures forall k | 0 <= k < n && k != i ::
        v.buffers[k] in v.buffer && b.chunks[a] !in v.buffer[v.buffers[k]].chunks
      ensures forall k | a < k < |b.chunks| :: b.chunks[a] != b.chunks[k]
    {
      PlaceOf(v, m, n, i, a);
    }
    CloseIsQueue(v.chunk, b, q, e);
    KeepsOthers(v, m, n, i, RecordChunks(v.chunk, used, e), set c | c in used);
    ReplacedChunks(v, m, n, i, RecordChunks(v.chunk, used, e), CloseRecord(b), M.CloseQueue(q, e));
  }

  // ---- the free lists

  /** The first free chunk is unlinked and made ready to be carved. */
  ghost function TakeFree(v: Snapshot): Snapshot
    requires v.free != [] && v.free[0] in v.chunk
  {
    var c := v.free[0];
    var r := v.chunk[c];
    v.(chunkFreelist := r.next, free := v.free[1..],
       chunk := v.chunk[c := ChunkRecord(r.value.(available := v.capacity), null)])
  }

  lemma TakeFreeTied(v: Snapshot, m: M.State, n: nat)
    requires Tied(v, m, n) && S.ChunksOk(m) && S.ChunksDisjoint(m) && m.free != []
    ensures v.free != [] && v.free[0] in v.chunk && v.chunkFreelist == v.free[0]
    ensures Tied(TakeFree(v), m.(free := m.free[1..]), n)
    ensures Detached(TakeFree(v), n, v.free[0])
  {
    var c, w, t := v.free[0], TakeFree(v), m.(free := m.free[1..]);
    Spread(v, m, n);
    forall k | 0 <= k < n ensures IsEntry(w, t, k) && c !in v.buffer[v.buffers[k]].chunks {
      assert IsEntry(v, m, k);
      forall a | 0 <= a < |v.buffer[v.buffers[k]].chunks| ensures v.buffer[v.buffers[k]].chunks[a] != c {
        NotFree(v, m, k, a, 0);
      }
    }
    Gather(w, t, n);
    forall a | 1 <= a < |v.free| ensures v.free[a] != c {
      S.PlacesDiffer(m, M.InFree(0), M.InFree(a));
    }
    TakeFreeList(v, m);
  }

  lemma TakeFreeList(v: Snapshot, m: M.State)
    requires IsList(v.chunk, v.chunkFreelist, v.free, m.free) && m.free != []
    requires forall a | 1 <= a < |v.free| :: v.free[a] != v.free[0]
    ensures IsList(TakeFree(v).chunk, TakeFree(v).chunkFreelist, v.free[1..], m.free[1..])
  {
    var w := TakeFree(v);
    forall a | 0 <= a < |w.free| ensures w.chunk[w.free[a]].next == if a + 1 < |w.free| then w.free[a + 1] else null {
      assert w.free[a] == v.free[a + 1];
    }
  }

  /** The free list is dropped, and new chunks will have another capacity. */
  lemma GrowTied(v: Snapshot, m: M.State, n: nat, capacity: nat)
    requires Tied(v, m, n)
    ensures Tied(v.(capacity := capacity, chunkFreelist := null, free := []), m.(capacity := capacity, free := []), n)
  {
    var w, t := v.(capacity := capacity, chunkFreelist := null, free := []), m.(capacity := capacity, free := []);
    Spread(v, m, n);
    forall k | 0 <= k < n ensures IsEntry(w, t, k) {
      assert IsEntry(v, m, k);
    }
    Gather(w, t, n);
  }

  // ---- the vectors

  /** Entry `i` is overwritten by the last one, and its buffer is put on the free list of buffers. */
  ghost function RetireSnapshot(v: Snapshot, n: nat, i: nat): Snapshot
    requires i < n <= |v.ids| == |v.buffers| && v.buffers[i] in v.buffer
  {
    var sb := v.buffers[i];
    v.(ids := v.ids[i := v.ids[n - 1]], buffers := v.buffers[i := v.buffers[n - 1]],
       buffer := v.buffer[sb := v.buffer[sb].(nextFree := v.sbFreelist)],
       sbFreelist := sb, idle := [sb] + v.idle)
  }

  lemma RetireTied(v: Snapshot, m: M.State, n: nat, i: nat)
    requires Tied(v, m, n) && i < n && v.ids[i] in m.queues
    ensures v.buffers[i] in v.buffer
    ensures Tied(RetireSnapshot(v, n, i), m.(queues := m.queues - {v.ids[i]}), n - 1)
  {
    EntryAt(v, m, n, i);
    var sb, w, t := v.buffers[i], RetireSnapshot(v, n, i), m.(queues := m.queues - {v.ids[i]});
    Spread(v, m, n);
    forall k | 0 <= k < n - 1 ensures IsEntry(w, t, k) {
      assert IsEntry(v, m, if k == i then n - 1 else k);
    }
    Gather(w, t, n - 1);
    RetireCovers(v, m, n, i);
    RetireIdle(v, m, n, i);
  }

  lemma RetireCovers(v: Snapshot, m: M.State, n: nat, i: nat)
    requires n <= |v.ids| && Covers(v.ids, m, n) && i < n
    ensures Covers(v.ids[i := v.ids[n - 1]], m.(queues := m.queues - {v.ids[i]}), n - 1)
  {
    var ids := v.ids[i := v.ids[n - 1]];
    forall id | id in m.queues - {v.ids[i]} ensures exists k :: 0 <= k < n - 1 && ids[k] == id {
      var k :| 0 <= k < n && v.ids[k] == id;
      assert ids[if k == n - 1 then i else k] == id;
    }
  }

  lemma RetireIdle(v: Snapshot, m: M.State, n: nat, i: nat)
    requires Tied(v, m, n) && i < n && IsEntry(v, m, i)
    ensures var w := RetireSnapshot(v, n, i); IsIdleList(w.buffer, w.sbFreelist, w.idle)
  {
    var w := RetireSnapshot(v, n, i);
    forall a | 0 <= a < |w.idle|
      ensures w.buffer[w.idle[a]].nextFree == if a + 1 < |w.idle| then w.idle[a + 1] else null
    {
      assert a != 0 ==> w.idle[a] == v.idle[a - 1];
    }
  }

  /** The vectors are cut to their first `n` entries. */
  lemma ResizeTied(v: Snapshot, m: M.State, n: nat)
    requires Tied(v, m, n)
    ensures Tied(v.(ids := v.ids[..n], buffers := v.buffers[..n]), m, n)
  {
    var w := v.(ids := v.ids[..n], buffers := v.buffers[..n]);
    Spread(v, m, n);
    forall k | 0 <= k < n ensures IsEntry(w, m, k) {
      assert IsEntry(v, m, k);
    }
    Gather(w, m, n);
    forall id | id in m.queues ensures exists k :: 0 <= k < n && w.ids[k] == id {
      var k :| 0 <= k < n && v.ids[k] == id;
      assert w.ids[k] == id;
    }
  }

  /** The first retired stream buffer is unlinked. */
  lemma TakeIdleTied(v: Snapshot, m: M.State, n: nat, b: BufferRecord)
    requires Tied(v, m, n) && v.idle != []
    ensures v.idle[0] in v.buffer && v.sbFreelist == v.idle[0]
    ensures Tied(v.(buffer := v.buffer[v.idle[0] := b], sbFreelist := v.buffer[v.idle[0]].nextFree,
                    idle := v.idle[1..]), m, n)
    ensures v.idle[0] !in v.idle[1..] && v.idle[0] !in v.buffers[..n]
  {
    var sb := v.idle[0];
    var w := v.(buffer := v.buffer[sb := b], sbFreelist := v.buffer[sb].nextFree, idle := v.idle[1..]);
    Spread(v, m, n);
    forall k | 0 <= k < n ensures IsEntry(w, m, k) && v.buffers[k] != sb {
      assert IsEntry(v, m, k);
    }
    Gather(w, m, n);
    forall a | 0 <= a < |w.idle|
      ensures w.buffer[w.idle[a]].nextFree == if a + 1 < |w.idle| then w.idle[a + 1] else null
    {
      assert w.idle[a] == v.idle[a + 1];
    }
  }

  /** A new entry is pushed for a stream that had none. */
  lemma PushTied(v: Snapshot, m: M.State, id: nat, sb: StreamBuffer, q: M.Queue)
    requires Tied(v, m, |v.buffers|) && id !in m.queues
    requires sb in v.buffer && sb !in v.idle && sb !in v.buffers && IsQueue(v.chunk, v.buffer[sb], q)
    ensures Tied(v.(ids := v.ids + [id], buffers := v.buffers + [sb]), m.(queues := m.queues[id := q]), |v.buffers| + 1)
  {
    var n := |v.buffers|;
    var w, t := v.(ids := v.ids + [id], buffers := v.buffers + [sb]), m.(queues := m.queues[id := q]);
    Spread(v, m, n);
    forall k | 0 <= k < n + 1 ensures IsEntry(w, t, k) {
      if k < n {
        assert IsEntry(v, m, k);
      } else {
        forall j | 0 <= j < n ensures w.ids[j] != id && w.buffers[j] != sb {
          assert IsEntry(v, m, j) && v.buffers[j] in v.buffers;
        }
      }
    }
    Gather(w, t, n + 1);
    PushCovers(v, m, id, q);
  }

  lemma PushCovers(v: Snapshot, m: M.State, id: nat, q: M.Queue)
    requires Covers(v.ids, m, |v.ids|)
    ensures Covers(v.ids + [id], m.(queues := m.queues[id := q]), |v.ids| + 1)
  {
    var ids := v.ids + [id];
    var t := m.(queues := m.queues[id := q]);
    forall x | x in t.queues ensures exists k :: 0 <= k < |ids| && ids[k] == x {
      if x == id {
        assert ids[|v.ids|] == id;
      } else {
        var k :| 0 <= k < |v.ids| && v.ids[k] == x;
        assert ids[k] == x;
      }
    }
  }
}
