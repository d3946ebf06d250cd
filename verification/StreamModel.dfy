/**
 The stream staging allocator as a state machine over values.

 Every stream owns a queue of memory chunks.  A transaction on a stream carves allocations
 from the chunks at the end of its queue; closing the transaction records an event on each
 chunk it used.  Chunks whose event has completed are drained from the front of a queue to
 a free list shared by all streams, possibly while transactions (on the same queue, too)
 are still open.

 The device is represented by two counters per stream: how much work was issued, and how
 much of it is completed.  Recording an event stores the issued count; an event is complete
 once the completed count has reached it.
 */
module StreamModel {
  import opened Wrappers

  const ALIGNMENT: nat := 16
  const INITIAL_CHUNK_CAPACITY: nat := 32 * 1024
  const MIN_CHUNK_TO_ALLOCATION_RATIO: nat := 4
  const SIZE_MAX: nat := 0xFFFF_FFFF_FFFF_FFFF

  /** Page-locked host memory and the device memory of the same size that mirrors it. */
  datatype DualPointer = DualPointer(host: int, device: int) {
    function Offset(offset: int): DualPointer {
      DualPointer(host + offset, device + offset)
    }
  }

  datatype Region = Region(ptr: DualPointer, size: nat)

  predicate RangesDisjoint(p: int, m: nat, q: int, n: nat) {
    m == 0 || n == 0 || p + m <= q || q + n <= p
  }

  /** No byte of one region is a byte of the other, neither on the host nor on the device. */
  predicate Disjoint(a: Region, b: Region) {
    && RangesDisjoint(a.ptr.host, a.size, b.ptr.host, b.size)
    && RangesDisjoint(a.ptr.device, a.size, b.ptr.device, b.size)
  }

  predicate Aligned(p: DualPointer) {
    p.host % ALIGNMENT == 0 && p.device % ALIGNMENT == 0
  }

  datatype Event = Unrecorded | Recorded(stream: nat, mark: nat)

  datatype Chunk = Chunk(ptr: DualPointer, capacity: nat, available: nat, event: Event) {
    function Extent(): Region {
      Region(ptr, capacity)
    }
  }

  /**
   `pinned` is the number of chunks in front of the transaction head; it is the length of
   the queue when there is no transaction head.
   */
  datatype Queue = Queue(open: bool, chunks: seq<Chunk>, pinned: nat) {
    predicate HasTail() {
      chunks != []
    }

    function Tail(): Chunk
      requires HasTail()
    {
      chunks[|chunks| - 1]
    }

    /** The queue with `c` appended. */
    function Append(c: Chunk): Queue {
      this.(chunks := chunks + [c])
    }

    /** Take `size` bytes off the last chunk, which becomes the transaction head if there is none. */
    function Carve(size: nat): Queue
      requires HasTail() && size <= Tail().available
    {
      var c := Tail();
      this.(chunks := chunks[|chunks| - 1 := c.(available := c.available - size)],
            pinned := if pinned >= |chunks| - 1 then |chunks| - 1 else pinned)
    }
  }

  /** What a caller was given; `mark` is the event recorded when its transaction closed. */
  datatype Allocation = Allocation(extent: Region, stream: nat, mark: Option<nat>)

  datatype State = State(
    queues: map<nat, Queue>,
    capacity: nat,
    free: seq<Chunk>,
    issued: map<nat, nat>,
    completed: map<nat, nat>,
    log: seq<Allocation>)

  function Count(m: map<nat, nat>, stream: nat): nat {
    if stream in m then m[stream] else 0
  }

  function Advanced(m: map<nat, nat>, stream: nat): map<nat, nat> {
    m[stream := Count(m, stream) + 1]
  }

  const INIT: State := State(map[], INITIAL_CHUNK_CAPACITY, [], map[], map[], [])

  /** An event that was never recorded counts as complete, as the driver says. */
  predicate Completed(completed: map<nat, nat>, e: Event) {
    e.Recorded? ==> e.mark <= Count(completed, e.stream)
  }

  /** The device may still use the allocation: its transaction is open, or its mark is not reached. */
  predicate InFlight(s: State, a: Allocation) {
    a.mark.None? || Count(s.completed, a.stream) < a.mark.value
  }

  // ---------------------------------------------------------------- where chunks are

  datatype Loc = InQueue(stream: nat, index: nat) | InFree(index: nat)

  predicate HasLoc(s: State, l: Loc) {
    match l
    case InQueue(stream, i) => stream in s.queues && i < |s.queues[stream].chunks|
    case InFree(i) => i < |s.free|
  }

  function At(s: State, l: Loc): Chunk
    requires HasLoc(s, l)
  {
    match l
    case InQueue(stream, i) => s.queues[stream].chunks[i]
    case InFree(i) => s.free[i]
  }

  ghost predicate FreshRegion(s: State, r: Region) {
    forall l | HasLoc(s, l) :: Disjoint(At(s, l).Extent(), r)
  }

  // ---------------------------------------------------------------- steps

  datatype Step =
    | Submit(stream: nat)                             // work is issued to a stream
    | Finish(stream: nat)                             // the device completes one unit of work
    | Open(stream: nat)                               // open a transaction
    | Close(stream: nat)                              // close it, recording events
    | Drain(stream: nat)                              // reclaim the first chunk of a queue
    | Retire(stream: nat)                             // drop an empty queue without a transaction
    | Grow(capacity: nat)                             // raise the chunk capacity, free the free list
    | Carve(stream: nat, size: nat)                   // allocate from the last chunk of the queue
    | Reuse(stream: nat, size: nat)                   // allocate from a chunk of the free list
    | Attach(stream: nat, ptr: DualPointer, size: nat) // allocate from a new chunk

  /** A transaction is open on `stream` and the tail of its queue cannot serve `size` bytes. */
  predicate NeedsChunk(s: State, stream: nat, size: nat) {
    && stream in s.queues
    && s.queues[stream].open
    && (s.queues[stream].HasTail() ==> s.queues[stream].Tail().available < size)
  }

  ghost predicate Enabled(s: State, step: Step) {
    match step
    case Submit(_) => true
    case Finish(stream) => Count(s.completed, stream) < Count(s.issued, stream)
    case Open(stream) => stream in s.queues ==> !s.queues[stream].open
    case Close(stream) => stream in s.queues && s.queues[stream].open
    case Drain(stream) =>
      && stream in s.queues
      && 0 < s.queues[stream].pinned
      && s.queues[stream].HasTail()
      && Completed(s.completed, s.queues[stream].chunks[0].event)
    case Retire(stream) =>
      stream in s.queues && !s.queues[stream].HasTail() && !s.queues[stream].open
    case Grow(capacity) => s.capacity < capacity && capacity % ALIGNMENT == 0
    case Carve(stream, size) =>
      && size % ALIGNMENT == 0
      && stream in s.queues
      && s.queues[stream].open
      && s.queues[stream].HasTail()
      && size <= s.queues[stream].Tail().available
    case Reuse(stream, size) =>
      && size % ALIGNMENT == 0
      && NeedsChunk(s, stream, size)
      && s.free != []
      && size <= s.capacity
    case Attach(stream, ptr, size) =>
      && size % ALIGNMENT == 0
      && NeedsChunk(s, stream, size)
      && size <= s.capacity
      && Aligned(ptr)
      && FreshRegion(s, Region(ptr, s.capacity))
  }

  function OpenQueue(s: State, stream: nat): Queue {
    if stream in s.queues then
      s.queues[stream].(open := true, pinned := |s.queues[stream].chunks|)
    else
      Queue(true, [], 0)
  }

  /** The chunks from the transaction head on get a freshly recorded event. */
  function RecordFrom(chunks: seq<Chunk>, from: nat, e: Event): seq<Chunk> {
    seq(|chunks|, i requires 0 <= i < |chunks| => if from <= i then chunks[i].(event := e) else chunks[i])
  }

  function MarkLog(log: seq<Allocation>, stream: nat, mark: nat): seq<Allocation> {
    seq(|log|, i requires 0 <= i < |log| =>
      if log[i].stream == stream && log[i].mark.None? then log[i].(mark := Some(mark)) else log[i])
  }

  function CloseQueue(q: Queue, e: Event): Queue {
    Queue(false, RecordFrom(q.chunks, q.pinned, e), |q.chunks|)
  }

  /** Where the bytes come from when `size` of them are carved from the last chunk of `q`. */
  function Carved(q: Queue, size: nat): Region
    requires q.HasTail() && size <= q.Tail().available
  {
    Region(q.Tail().ptr.Offset(q.Tail().available - size), size)
  }

  /** Carve from `q`, the new queue of `stream`, and log the allocation. */
  function CarveFrom(s: State, stream: nat, q: Queue, size: nat): State
    requires q.HasTail() && size <= q.Tail().available
  {
    s.(queues := s.queues[stream := q.Carve(size)],
       log := s.log + [Allocation(Carved(q, size), stream, None)])
  }

  /** A drained chunk goes to the free list, unless its capacity is outdated: then it is deleted. */
  function Reclaim(c: Chunk, capacity: nat, free: seq<Chunk>): seq<Chunk> {
    if c.capacity == capacity then [c] + free else free
  }

  /** The queue of `stream` once a chunk of the free list is appended, ready to be carved. */
  function Reused(s: State, stream: nat): Queue
    requires stream in s.queues && s.free != []
  {
    s.queues[stream].Append(s.free[0].(available := s.capacity))
  }

  function Attached(s: State, stream: nat, ptr: DualPointer): Queue
    requires stream in s.queues
  {
    s.queues[stream].Append(Chunk(ptr, s.capacity, s.capacity, Unrecorded))
  }

  function Apply(s: State, step: Step): State
    requires Enabled(s, step)
  {
    match step
    case Submit(stream) => s.(issued := Advanced(s.issued, stream))
    case Finish(stream) => s.(completed := Advanced(s.completed, stream))
    case Open(stream) => s.(queues := s.queues[stream := OpenQueue(s, stream)])
    case Close(stream) =>
      var mark := Count(s.issued, stream);
      s.(queues := s.queues[stream := CloseQueue(s.queues[stream], Recorded(stream, mark))],
         log := MarkLog(s.log, stream, mark))
    case Drain(stream) =>
      var q := s.queues[stream];
      s.(queues := s.queues[stream := q.(chunks := q.chunks[1..], pinned := q.pinned - 1)],
         free := Reclaim(q.chunks[0], s.capacity, s.free))
    case Retire(stream) => s.(queues := s.queues - {stream})
    case Grow(capacity) => s.(capacity := capacity, free := [])
    case Carve(stream, size) => CarveFrom(s, stream, s.queues[stream], size)
    case Reuse(stream, size) => CarveFrom(s.(free := s.free[1..]), stream, Reused(s, stream), size)
    case Attach(stream, ptr, size) => CarveFrom(s, stream, Attached(s, stream, ptr), size)
  }
}
