/**
 Sharing device memory with another process: one handle for each allocation, and pointers as
 offsets into allocations.

 Main result: after a payload has travelled, every array pointer in the arena is the mapped
 base of its own allocation plus its original offset, and no other word has changed.
 */
module IpcHandles {
  import opened Basic
  import opened Bits
  import opened IpcPayload
  import opened Wrappers

  /**
   The driver's answers: whether devices and pointers can be shared, the base of an allocation,
   and the handle of one; none is an error.
   */
  datatype Driver = Driver(supported: Option<bool>, capable: nat -> Option<bool>,
                           rangeOf: nat -> Option<nat>, handleOf: nat -> Option<Bytes>)

  datatype ExportError = NullPointer | DriverFailed | InvalidRange

  /** The pointer lies in an allocation that has a handle. */
  predicate HasHandle(driver: Driver, pointer: nat) {
    && pointer != 0 && driver.rangeOf(pointer).Some?
    && driver.rangeOf(pointer).value <= pointer && driver.handleOf(driver.rangeOf(pointer).value).Some?
  }

  /** Why a pointer without a handle is refused. */
  predicate IsRefusal(driver: Driver, pointer: nat, e: ExportError) {
    match e
    case NullPointer => pointer == 0
    case InvalidRange =>
      pointer != 0 && driver.rangeOf(pointer).Some? && pointer < driver.rangeOf(pointer).value
    case DriverFailed =>
      && pointer != 0
      && match driver.rangeOf(pointer)
         case None => true
         case Some(base) => base <= pointer && driver.handleOf(base).None?
  }

  /** A pointer, as an allocation's handle and an offset into it. */
  datatype PointerRef = PointerRef(handle: nat, offset: nat)

  class IpcHandleExporter {
    const driver: Driver
    var handles: seq<Bytes>
    var indexByBase: map<nat, nat>
    ghost var bases: seq<nat>

    /** One handle for each base, and no base twice. */
    ghost predicate Valid()
      reads this
    {
      && |handles| == |bases| && Distinct(bases)
      && (forall i | 0 <= i < |bases| :: driver.handleOf(bases[i]) == Some(handles[i]))
      && (forall i | 0 <= i < |bases| :: bases[i] in indexByBase && indexByBase[bases[i]] == i)
      && (forall b | b in indexByBase :: indexByBase[b] < |bases| && bases[indexByBase[b]] == b)
    }

    constructor (driver: Driver)
      ensures Valid() && bases == [] && this.driver == driver
    {
      this.driver := driver;
      handles, indexByBase, bases := [], map[], [];
    }

    /** A pointer's allocation gets a handle unless it has one; an error adds none. */
    method GetIpcPointer(pointer: nat) returns (r: Result<PointerRef, ExportError>)
      requires Valid()
      modifies this
      ensures Valid() && old(handles) <= handles
      ensures r.Ok? <==> HasHandle(driver, pointer)
      ensures r.Ok? ==> IsRef(driver, bases, pointer, r.value)
      ensures r.Ok? ==> bases == WithBase(old(bases), driver.rangeOf(pointer).value)
      ensures r.Err? ==> IsRefusal(driver, pointer, r.error) && bases == old(bases)
    {
      if pointer == 0 {
        return Err(NullPointer);
      }
      var range := driver.rangeOf(pointer);
      if range.None? {
        return Err(DriverFailed);
      }
      var base := range.value;
      if pointer < base {
        return Err(InvalidRange);
      }
      var index;
      if base in indexByBase {
        index := indexByBase[base];
      } else {
        var handle := driver.handleOf(base);
        if handle.None? {
          return Err(DriverFailed);
        }
        index := |handles|;
        handles := handles + [handle.value];
        indexByBase := indexByBase[base := index];
        bases := bases + [base];
      }
      return Ok(PointerRef(index, pointer - base));
    }
  }

  /** A base is added unless it is there. */
  function WithBase(bases: seq<nat>, base: nat): seq<nat> {
    if base in bases then bases else bases + [base]
  }

  /** The reference names the pointer's own allocation and its offset there. */
  predicate IsRef(driver: Driver, bases: seq<nat>, pointer: nat, ref: PointerRef) {
    && ref.handle < |bases| && driver.rangeOf(pointer) == Some(bases[ref.handle])
    && bases[ref.handle] + ref.offset == pointer
  }

  // ---------------------------------------------------------------- the arena

  /** A pointer of the arena that is to be replaced. */
  datatype Patch = Patch(arenaOffset: nat, ref: PointerRef)

  function PatchBytes(p: Patch): Bytes {
    LittleEndian(p.arenaOffset, 8) + (LittleEndian(p.ref.handle, 8) + LittleEndian(p.ref.offset, 8))
  }

  function PatchOf(b: Bytes): Patch
    requires |b| == 24
  {
    Patch(FromLittleEndian(b[..8]), PointerRef(FromLittleEndian(b[8..16]), FromLittleEndian(b[16..])))
  }

  lemma PatchRoundTrip(p: Patch)
    requires p.arenaOffset < TWO64 && p.ref.handle < TWO64 && p.ref.offset < TWO64
    ensures PatchOf(PatchBytes(p)) == p
  {
    Powers();
    LittleEndianRoundTrip(p.arenaOffset, 8);
    LittleEndianRoundTrip(p.ref.handle, 8);
    LittleEndianRoundTrip(p.ref.offset, 8);
    ThreeWords(LittleEndian(p.arenaOffset, 8), LittleEndian(p.ref.handle, 8), LittleEndian(p.ref.offset, 8),
               PatchBytes(p));
  }

  lemma ThreeWords(a: Bytes, b: Bytes, c: Bytes, s: Bytes)
    requires |a| == |b| == |c| == 8 && s == a + (b + c)
    ensures s[..8] == a && s[8..16] == b && s[16..] == c
  {
  }

  /** Every patch stands for the pointer at its place in the arena. */
  predicate AreExports(driver: Driver, bases: seq<nat>, arena: seq<Bytes>, offsets: seq<nat>, patches: seq<Patch>) {
    && |patches| == |offsets|
    && forall k | 0 <= k < |patches| ::
         patches[k].arenaOffset == offsets[k] < |arena|
         && IsRef(driver, bases, FromLittleEndian(arena[offsets[k]]), patches[k].ref)
  }

  /** One more export keeps those before it. */
  lemma ExportsOne(driver: Driver, bases: seq<nat>, more: seq<nat>, arena: seq<Bytes>, offsets: seq<nat>, next: nat,
                   patches: seq<Patch>, ref: PointerRef, all: seq<nat>)
    requires AreExports(driver, bases, arena, offsets, patches) && bases <= more && all == offsets + [next]
    requires next < |arena| && IsRef(driver, more, FromLittleEndian(arena[next]), ref)
    ensures AreExports(driver, more, arena, all, patches + [Patch(next, ref)])
  {
    forall k | 0 <= k < |patches| ensures IsRef(driver, more, FromLittleEndian(arena[offsets[k]]), patches[k].ref) {
      assert IsRef(driver, bases, FromLittleEndian(arena[offsets[k]]), patches[k].ref);
    }
  }

  lemma NothingExported(driver: Driver, bases: seq<nat>, arena: seq<Bytes>)
    ensures AreExports(driver, bases, arena, [], []) && AddsAllocations(driver, arena, [], bases, bases)
  {
  }

  /** Whether one array pointer can be shared: yes, not in this way, or an error. */
  function Verdict(driver: Driver, word: Bytes): (r: Result<bool, ExportError>)
    ensures r == Ok(true) ==> HasHandle(driver, FromLittleEndian(word))
  {
    var pointer := FromLittleEndian(word);
    if pointer == 0 then Ok(false)
    else
      match driver.capable(pointer)
      case None => Err(DriverFailed)
      case Some(false) => Ok(false)
      case Some(true) =>
        if HasHandle(driver, pointer) then Ok(true)
        else if driver.rangeOf(pointer).Some? && pointer < driver.rangeOf(pointer).value then Err(InvalidRange)
        else Err(DriverFailed)
  }

  /** The first verdict that is no yes decides about all pointers. */
  function Verdicts(driver: Driver, arena: seq<Bytes>, offsets: seq<nat>): Result<bool, ExportError>
    requires forall k | 0 <= k < |offsets| :: offsets[k] < |arena|
  {
    if offsets == [] then Ok(true)
    else
      var n := |offsets| - 1;
      var before := Verdicts(driver, arena, offsets[..n]);
      if before == Ok(true) then Verdict(driver, arena[offsets[n]]) else before
  }

  /** An arena without array pointers is shared even where pointers cannot be. */
  function CanShare(driver: Driver, arena: seq<Bytes>, offsets: seq<nat>): Result<bool, ExportError>
    requires forall k | 0 <= k < |offsets| :: offsets[k] < |arena|
  {
    if offsets != [] && driver.supported.None? then Err(DriverFailed)
    else if offsets != [] && !driver.supported.value then Ok(false)
    else Verdicts(driver, arena, offsets)
  }

  lemma {:induction false} VerdictsPrefix(driver: Driver, arena: seq<Bytes>, offsets: seq<nat>, k: nat)
    requires (forall i | 0 <= i < |offsets| :: offsets[i] < |arena|) && k <= |offsets|
    requires Verdicts(driver, arena, offsets[..k]) != Ok(true)
    ensures Verdicts(driver, arena, offsets) == Verdicts(driver, arena, offsets[..k])
    decreases |offsets|
  {
    if k == |offsets| {
      assert offsets[..k] == offsets;
    } else {
      assert offsets[..|offsets| - 1][..k] == offsets[..k];
      VerdictsPrefix(driver, arena, offsets[..|offsets| - 1], k);
    }
  }

  /** All pointers are shared exactly if the device and each of the pointers allow it. */
  lemma {:induction false} SharedExactly(driver: Driver, arena: seq<Bytes>, offsets: seq<nat>)
    requires forall k | 0 <= k < |offsets| :: offsets[k] < |arena|
    ensures Verdicts(driver, arena, offsets) == Ok(true) <==>
      forall k | 0 <= k < |offsets| :: Verdict(driver, arena[offsets[k]]) == Ok(true)
    ensures CanShare(driver, arena, offsets) == Ok(true) <==>
      forall k | 0 <= k < |offsets| ::
        driver.supported == Some(true) && driver.capable(FromLittleEndian(arena[offsets[k]])) == Some(true)
        && HasHandle(driver, FromLittleEndian(arena[offsets[k]]))
    decreases |offsets|
  {
    hide HasHandle, FromLittleEndian;
    if offsets != [] {
      var n := |offsets| - 1;
      SharedExactly(driver, arena, offsets[..n]);
      assert offsets == offsets[..n] + [offsets[n]];
      VerdictYes(driver, arena[offsets[n]]);
      forall k | 0 <= k < |offsets|
        ensures Verdict(driver, arena[offsets[k]]) == Ok(true) <==>
          driver.capable(FromLittleEndian(arena[offsets[k]])) == Some(true)
          && HasHandle(driver, FromLittleEndian(arena[offsets[k]]))
      {
        VerdictYes(driver, arena[offsets[k]]);
      }
    }
  }

  lemma VerdictYes(driver: Driver, word: Bytes)
    ensures Verdict(driver, word) == Ok(true) <==>
      driver.capable(FromLittleEndian(word)) == Some(true) && HasHandle(driver, FromLittleEndian(word))
  {
  }

  /** The base is that of an allocation that some array pointer lies in. */
  predicate IsAllocation(driver: Driver, arena: seq<Bytes>, offsets: seq<nat>, base: nat)
    requires forall k | 0 <= k < |offsets| :: offsets[k] < |arena|
  {
    exists k | 0 <= k < |offsets| :: driver.rangeOf(FromLittleEndian(arena[offsets[k]])) == Some(base)
  }

  /** The pointers exported so far have added their allocations, and nothing else. */
  ghost predicate AddsAllocations(driver: Driver, arena: seq<Bytes>, offsets: seq<nat>, before: seq<nat>,
                                  bases: seq<nat>)
    requires forall k | 0 <= k < |offsets| :: offsets[k] < |arena|
  {
    && before <= bases && |bases| <= |before| + |offsets|
    && forall b :: b in bases <==> b in before || IsAllocation(driver, arena, offsets, b)
  }

  lemma AddsOne(driver: Driver, arena: seq<Bytes>, offsets: seq<nat>, next: nat, before: seq<nat>, bases: seq<nat>,
                base: nat, all: seq<nat>)
    requires (forall k | 0 <= k < |offsets| :: offsets[k] < |arena|) && next < |arena| && all == offsets + [next]
    requires AddsAllocations(driver, arena, offsets, before, bases)
    requires driver.rangeOf(FromLittleEndian(arena[next])) == Some(base)
    ensures AddsAllocations(driver, arena, all, before, WithBase(bases, base))
  {
    assert all[|offsets|] == next;
    forall b
      ensures IsAllocation(driver, arena, all, b) <==> IsAllocation(driver, arena, offsets, b) || b == base
    {
      if IsAllocation(driver, arena, offsets, b) {
        var k :| 0 <= k < |offsets| && driver.rangeOf(FromLittleEndian(arena[offsets[k]])) == Some(b);
        assert all[k] == offsets[k];
      }
    }
  }

  /**
   Exports the array pointers of an arena.  The handles are those of the pointers' allocations,
   each once; if one pointer cannot be shared, there is no payload.
   */
  method ExportPointers(exporter: IpcHandleExporter, arena: seq<Bytes>, offsets: seq<nat>)
    returns (r: Result<Option<seq<Patch>>, ExportError>)
    requires exporter.Valid() && forall k | 0 <= k < |offsets| :: offsets[k] < |arena|
    modifies exporter
    ensures exporter.Valid()
    ensures match CanShare(exporter.driver, arena, offsets)
      case Err(e) => r == Err(e)
      case Ok(false) => r == Ok(None)
      case Ok(true) =>
        && r.Ok? && r.value.Some?
        && AreExports(exporter.driver, exporter.bases, arena, offsets, r.value.value)
        && AddsAllocations(exporter.driver, arena, offsets, old(exporter.bases), exporter.bases)
  {
    hide FromLittleEndian, Verdict, HasHandle, AreExports, AddsAllocations, IsRef;
    NothingExported(exporter.driver, exporter.bases, arena);
    var driver := exporter.driver;
    if offsets != [] {
      if driver.supported.None? {
        return Err(DriverFailed);
      }
      if !driver.supported.value {
        return Ok(None);
      }
    }
    var patches := [];
    assert offsets[..0] == [];
    for i := 0 to |offsets|
      invariant exporter.Valid() && Verdicts(driver, arena, offsets[..i]) == Ok(true)
      invariant AreExports(driver, exporter.bases, arena, offsets[..i], patches)
      invariant AddsAllocations(driver, arena, offsets[..i], old(exporter.bases), exporter.bases)
    {
      ghost var next := offsets[..i + 1];
      assert next[..i] == offsets[..i] && next[i] == offsets[i] && next == offsets[..i] + [offsets[i]];
      if Verdicts(driver, arena, next) != Ok(true) {
        VerdictsPrefix(driver, arena, offsets, i + 1);
      }
      ghost var before := exporter.bases;
      var ref := ExportPointer(exporter, arena[offsets[i]]);
      if ref.Err? {
        return Err(ref.error);
      }
      if ref.value.None? {
        return Ok(None);
      }
      ghost var base := driver.rangeOf(FromLittleEndian(arena[offsets[i]])).value;
      ExportsOne(driver, before, exporter.bases, arena, offsets[..i], offsets[i], patches, ref.value.value, next);
      AddsOne(driver, arena, offsets[..i], offsets[i], old(exporter.bases), before, base, next);
      patches := patches + [Patch(offsets[i], ref.value.value)];
    }
    assert offsets[..|offsets|] == offsets;
    return Ok(Some(patches));
  }

  /** Exports one array pointer. */
  method ExportPointer(exporter: IpcHandleExporter, word: Bytes) returns (r: Result<Option<PointerRef>, ExportError>)
    requires exporter.Valid()
    modifies exporter
    ensures exporter.Valid()
    ensures match Verdict(exporter.driver, word)
      case Err(e) => r == Err(e)
      case Ok(false) => r == Ok(None)
      case Ok(true) =>
        var range := exporter.driver.rangeOf(FromLittleEndian(word));
        && r.Ok? && r.value.Some? && range.Some?
        && IsRef(exporter.driver, exporter.bases, FromLittleEndian(word), r.value.value)
        && exporter.bases == WithBase(old(exporter.bases), range.value)
  {
    var pointer := FromLittleEndian(word);
    if pointer == 0 {
      return Ok(None);
    }
    var capable := exporter.driver.capable(pointer);
    if capable.None? {
      return Err(DriverFailed);
    }
    if !capable.value {
      return Ok(None);
    }
    var ref := exporter.GetIpcPointer(pointer);
    if ref.Err? {
      return Err(ref.error);
    }
    return Ok(Some(ref.value));
  }

  datatype PatchError = OffsetOutOfRange | HandleOutOfRange

  /** A pointer in the other process. */
  function Moved(base: nat, offset: nat): Bytes {
    LittleEndian((base + offset) % TWO64, 8)
  }

  /** What each patch writes, in turn. */
  function Patched(arena: seq<Bytes>, patches: seq<Patch>, mapped: seq<nat>): (r: seq<Bytes>)
    requires forall k | 0 <= k < |patches| :: patches[k].arenaOffset < |arena| && patches[k].ref.handle < |mapped|
    ensures |r| == |arena|
  {
    if patches == [] then arena
    else
      var n := |patches| - 1;
      Patched(arena, patches[..n], mapped)
        [patches[n].arenaOffset := Moved(mapped[patches[n].ref.handle], patches[n].ref.offset)]
  }

  predicate PatchFits(p: Patch, arena: nat, mapped: nat) {
    p.arenaOffset < arena && p.ref.handle < mapped
  }

  /** Writes all pointers, or stops at the first patch that is out of range. */
  method ApplyPatches(arena: array<Bytes>, patches: seq<Patch>, mapped: seq<nat>) returns (r: Result<(), PatchError>)
    modifies arena
    ensures r.Ok? <==> forall k | 0 <= k < |patches| :: PatchFits(patches[k], arena.Length, |mapped|)
    ensures r.Ok? ==> arena[..] == Patched(old(arena[..]), patches, mapped)
  {
    for i := 0 to |patches|
      invariant forall k | 0 <= k < i :: PatchFits(patches[k], arena.Length, |mapped|)
      invariant arena[..] == Patched(old(arena[..]), patches[..i], mapped)
    {
      var p := patches[i];
      if p.arenaOffset >= arena.Length {
        return Err(OffsetOutOfRange);
      }
      if p.ref.handle >= |mapped| {
        return Err(HandleOutOfRange);
      }
      assert patches[..i + 1][..i] == patches[..i];
      arena[p.arenaOffset] := Moved(mapped[p.ref.handle], p.ref.offset);
    }
    assert patches[..|patches|] == patches;
    return Ok(());
  }

  // ---------------------------------------------------------------- pointers are rebuilt

  /** Where in the other process a pointer's own allocation, and the pointer, are. */
  function Rebuilt(driver: Driver, open: Bytes -> Option<nat>, word: Bytes): Bytes {
    var pointer := FromLittleEndian(word);
    match driver.rangeOf(pointer)
    case None => word
    case Some(base) =>
      match driver.handleOf(base)
      case None => word
      case Some(handle) =>
        if pointer < base || open(handle).None? then word else Moved(open(handle).value, pointer - base)
  }

  /** The base at which the other process maps each handle. */
  predicate AreMapped(open: Bytes -> Option<nat>, handles: seq<Bytes>, mapped: seq<nat>) {
    |mapped| == |handles| && forall i | 0 <= i < |handles| :: open(handles[i]) == Some(mapped[i])
  }

  lemma PatchRebuilds(driver: Driver, open: Bytes -> Option<nat>, bases: seq<nat>, handles: seq<Bytes>,
                      mapped: seq<nat>,
                      word: Bytes, ref: PointerRef)
    requires |handles| == |bases| && (forall i | 0 <= i < |bases| :: driver.handleOf(bases[i]) == Some(handles[i]))
    requires AreMapped(open, handles, mapped) && IsRef(driver, bases, FromLittleEndian(word), ref)
    ensures Moved(mapped[ref.handle], ref.offset) == Rebuilt(driver, open, word)
  {
  }

  /** Every array pointer is the mapped base of its allocation plus its offset; nothing else changes. */
  lemma {:induction false} PointersRebuilt(driver: Driver, open: Bytes -> Option<nat>, bases: seq<nat>,
                                           handles: seq<Bytes>,
                                           mapped: seq<nat>, arena: seq<Bytes>, offsets: seq<nat>, patches: seq<Patch>)
    requires |handles| == |bases| && (forall i | 0 <= i < |bases| :: driver.handleOf(bases[i]) == Some(handles[i]))
    requires AreMapped(open, handles, mapped) && AreExports(driver, bases, arena, offsets, patches)
    ensures forall k | 0 <= k < |patches| :: PatchFits(patches[k], |arena|, |mapped|)
    ensures forall j | 0 <= j < |arena| ::
      Patched(arena, patches, mapped)[j] == if j in offsets then Rebuilt(driver, open, arena[j]) else arena[j]
    decreases |patches|
  {
    hide Rebuilt, Moved, FromLittleEndian;
    forall k | 0 <= k < |patches| ensures PatchFits(patches[k], |arena|, |mapped|) {
      assert IsRef(driver, bases, FromLittleEndian(arena[offsets[k]]), patches[k].ref);
    }
    if patches != [] {
      var n := |patches| - 1;
      PointersRebuilt(driver, open, bases, handles, mapped, arena, offsets[..n], patches[..n]);
      PatchRebuilds(driver, open, bases, handles, mapped, arena[offsets[n]], patches[n].ref);
      assert offsets == offsets[..n] + [offsets[n]];
    }
  }

  // ---------------------------------------------------------------- from one process to the other

  function PatchRecords(patches: seq<Patch>): (r: seq<Bytes>)
    ensures |r| == |patches| && AllSized(r, 24)
  {
    if patches == [] then [] else [PatchBytes(patches[0])] + PatchRecords(patches[1..])
  }

  function PatchesOf(records: seq<Bytes>): seq<Patch>
    requires AllSized(records, 24)
  {
    if records == [] then [] else [PatchOf(records[0])] + PatchesOf(records[1..])
  }

  predicate PatchesFit64(patches: seq<Patch>) {
    patches == [] || (patches[0].arenaOffset < TWO64 && patches[0].ref.handle < TWO64 && patches[0].ref.offset < TWO64
                      && PatchesFit64(patches[1..]))
  }

  lemma {:induction false} AllFit64(patches: seq<Patch>)
    requires forall k | 0 <= k < |patches| ::
      patches[k].arenaOffset < TWO64 && patches[k].ref.handle < TWO64 && patches[k].ref.offset < TWO64
    ensures PatchesFit64(patches)
  {
    if patches != [] {
      AllFit64(patches[1..]);
    }
  }

  lemma {:induction false} SizedAt(items: seq<Bytes>, size: nat, k: nat)
    requires AllSized(items, size) && k < |items|
    ensures |items[k]| == size
  {
    if k != 0 {
      SizedAt(items[1..], size, k - 1);
    }
  }

  lemma {:induction false} SizedAll(items: seq<Bytes>, size: nat)
    requires forall k | 0 <= k < |items| :: |items[k]| == size
    ensures AllSized(items, size)
  {
    if items != [] {
      SizedAll(items[1..], size);
    }
  }

  /** Patches of an arena fit their fields. */
  lemma ExportsFit(driver: Driver, bases: seq<nat>, arena: seq<Bytes>, offsets: seq<nat>, patches: seq<Patch>)
    requires AreExports(driver, bases, arena, offsets, patches) && AllSized(arena, 8)
    requires |arena| < TWO64 && |bases| < TWO64
    ensures PatchesFit64(patches)
  {
    hide IsRef, FromLittleEndian, LittleEndian;
    Powers();
    forall k | 0 <= k < |patches|
      ensures patches[k].arenaOffset < TWO64 && patches[k].ref.handle < TWO64 && patches[k].ref.offset < TWO64
    {
      var word := arena[offsets[k]];
      SizedAt(arena, 8, offsets[k]);
      FromLittleEndianExact(word);
      RefFits(driver, bases, FromLittleEndian(word), patches[k].ref);
    }
    AllFit64(patches);
  }

  lemma RefFits(driver: Driver, bases: seq<nat>, pointer: nat, ref: PointerRef)
    requires IsRef(driver, bases, pointer, ref)
    ensures ref.handle < |bases| && ref.offset <= pointer
  {
  }

  lemma {:induction false} PatchesRoundTrip(patches: seq<Patch>)
    requires PatchesFit64(patches)
    ensures PatchesOf(PatchRecords(patches)) == patches
  {
    if patches != [] {
      PatchRoundTrip(patches[0]);
      PatchesRoundTrip(patches[1..]);
      assert PatchRecords(patches)[1..] == PatchRecords(patches[1..]);
    }
  }

  /** Maps all allocations, unless the driver refuses one. */
  method OpenHandles(handles: seq<Bytes>, open: Bytes -> Option<nat>) returns (mapped: Option<seq<nat>>)
    ensures mapped.Some? <==> forall i | 0 <= i < |handles| :: open(handles[i]).Some?
    ensures mapped.Some? ==> AreMapped(open, handles, mapped.value)
  {
    var bases := [];
    for i := 0 to |handles|
      invariant |bases| == i && forall k | 0 <= k < i :: open(handles[k]) == Some(bases[k])
    {
      var base := open(handles[i]);
      if base.None? {
        return None;
      }
      bases := bases + [base.value];
    }
    return Some(bases);
  }

  /** Handles have the size of the driver's type. */
  ghost predicate HandlesSized(driver: Driver) {
    forall b: nat :: driver.handleOf(b).Some? ==> |driver.handleOf(b).value| == 64
  }

  /** The payload of a launch, once its pointers are exported. */
  function PayloadOf(launch: Payload, patches: seq<Patch>, handles: seq<Bytes>): Payload {
    launch.(patches := PatchRecords(patches), handles := handles)
  }

  lemma LaunchValid(launch: Payload)
    requires launch.Valid()
    ensures AllSized(launch.arena, 8) && |launch.arena| <= SIZE_MAX / 8
    ensures AllValid([RecordsField(1, launch.cubin), RecordsField(1, launch.symbol)])
  {
    assert launch.Arguments()[0].Valid();
    var fields := launch.Pointers();
    assert fields[1..][1..] == [RecordsField(1, launch.cubin), RecordsField(1, launch.symbol)];
    assert AllValid(fields[1..]) && AllValid(fields[1..][1..]);
  }

  lemma PayloadFits(launch: Payload, patches: seq<Patch>, handles: seq<Bytes>)
    requires launch.Valid() && AllSized(handles, 64) && |patches| <= SIZE_MAX / 64 && |handles| <= SIZE_MAX / 64
    ensures PayloadOf(launch, patches, handles).Valid()
  {
    LaunchValid(launch);
    var fields := PayloadOf(launch, patches, handles).Pointers();
    assert fields[1..][1..] == [RecordsField(1, launch.cubin), RecordsField(1, launch.symbol)];
    assert fields[0].Valid() && fields[1].Valid();
  }

  lemma HandlesFit(driver: Driver, bases: seq<nat>, handles: seq<Bytes>)
    requires HandlesSized(driver) && |handles| == |bases|
    requires forall i | 0 <= i < |bases| :: driver.handleOf(bases[i]) == Some(handles[i])
    ensures AllSized(handles, 64)
  {
    forall i | 0 <= i < |handles| ensures |handles[i]| == 64 {
      assert driver.handleOf(bases[i]).Some?;
    }
    SizedAll(handles, 64);
  }

  /** The other process can map the allocation of every array pointer. */
  predicate CanOpen(driver: Driver, open: Bytes -> Option<nat>, arena: seq<Bytes>, offsets: seq<nat>)
    requires forall k | 0 <= k < |offsets| :: offsets[k] < |arena|
  {
    forall k | 0 <= k < |offsets| :: Opens(driver, open, arena[offsets[k]])
  }

  predicate Opens(driver: Driver, open: Bytes -> Option<nat>, word: Bytes) {
    var pointer := FromLittleEndian(word);
    HasHandle(driver, pointer) && open(driver.handleOf(driver.rangeOf(pointer).value).value).Some?
  }

  /** The handles are those of the pointers' allocations. */
  lemma OpenExactly(driver: Driver, open: Bytes -> Option<nat>, arena: seq<Bytes>, offsets: seq<nat>,
                    bases: seq<nat>, handles: seq<Bytes>)
    requires forall k | 0 <= k < |offsets| :: offsets[k] < |arena|
    requires CanShare(driver, arena, offsets) == Ok(true) && AddsAllocations(driver, arena, offsets, [], bases)
    requires |handles| == |bases| && (forall i | 0 <= i < |bases| :: driver.handleOf(bases[i]) == Some(handles[i]))
    ensures CanOpen(driver, open, arena, offsets) <==> forall i | 0 <= i < |handles| :: open(handles[i]).Some?
  {
    hide FromLittleEndian, CanShare;
    SharedExactly(driver, arena, offsets);
    forall k | 0 <= k < |offsets|
      ensures exists i :: 0 <= i < |bases| && driver.rangeOf(FromLittleEndian(arena[offsets[k]])) == Some(bases[i])
    {
      var base := driver.rangeOf(FromLittleEndian(arena[offsets[k]])).value;
      assert IsAllocation(driver, arena, offsets, base);
      assert base in bases;
    }
    if CanOpen(driver, open, arena, offsets) {
      forall i | 0 <= i < |handles| ensures open(handles[i]).Some? {
        assert bases[i] in bases;
        var k :| 0 <= k < |offsets| && driver.rangeOf(FromLittleEndian(arena[offsets[k]])) == Some(bases[i]);
        assert Opens(driver, open, arena[offsets[k]]);
      }
    }
  }

  /**
   Both processes: the pointers are exported, the payload is written and read, the handles are
   opened, and the pointers put in place.
   */
  method Transfer(driver: Driver, launch: Payload, offsets: seq<nat>, open: Bytes -> Option<nat>)
    returns (sent: Result<bool, ExportError>, arena: array?<Bytes>)
    requires launch.Valid() && HandlesSized(driver)
    requires |offsets| <= SIZE_MAX / 64 && forall k | 0 <= k < |offsets| :: offsets[k] < |launch.arena|
    ensures sent == CanShare(driver, launch.arena, offsets)
    ensures arena != null <==> sent == Ok(true) && CanOpen(driver, open, launch.arena, offsets)
    ensures arena != null ==> fresh(arena) && arena.Length == |launch.arena|
    ensures arena != null ==> forall j | 0 <= j < arena.Length ::
      arena[j] == if j in offsets then Rebuilt(driver, open, launch.arena[j]) else launch.arena[j]
  {
    hide CanShare, AreExports, AddsAllocations, CanOpen, HandlesSized, Rebuilt;
    var exporter := new IpcHandleExporter(driver);
    var exported := ExportPointers(exporter, launch.arena, offsets);
    if exported.Err? {
      return Err(exported.error), null;
    }
    if exported.value.None? {
      return Ok(false), null;
    }
    var patches := exported.value.value;
    ghost var bases := exporter.bases;
    Counts(driver, launch.arena, offsets, bases, patches);
    HandlesFit(driver, bases, exporter.handles);
    PayloadFits(launch, patches, exporter.handles);
    LaunchValid(launch);
    ExportsFit(driver, bases, launch.arena, offsets, patches);
    OpenExactly(driver, open, launch.arena, offsets, bases, exporter.handles);
    arena := Receive(PayloadOf(launch, patches, exporter.handles), driver, bases, offsets, patches, open);
    return Ok(true), arena;
  }

  lemma Counts(driver: Driver, arena: seq<Bytes>, offsets: seq<nat>, bases: seq<nat>, patches: seq<Patch>)
    requires forall k | 0 <= k < |offsets| :: offsets[k] < |arena|
    requires AreExports(driver, bases, arena, offsets, patches) && AddsAllocations(driver, arena, offsets, [], bases)
    ensures |patches| == |offsets| && |bases| <= |offsets|
  {
  }

  /** The payload is written and read, the handles are opened, and the pointers put in place. */
  method Receive(payload: Payload, ghost driver: Driver, ghost bases: seq<nat>, ghost offsets: seq<nat>,
                 ghost patches: seq<Patch>, open: Bytes -> Option<nat>)
    returns (arena: array?<Bytes>)
    requires payload.Valid() && PatchesFit64(patches) && payload.patches == PatchRecords(patches)
    requires |payload.handles| == |bases|
    requires forall i | 0 <= i < |bases| :: driver.handleOf(bases[i]) == Some(payload.handles[i])
    requires AreExports(driver, bases, payload.arena, offsets, patches)
    ensures arena != null <==> forall i | 0 <= i < |payload.handles| :: open(payload.handles[i]).Some?
    ensures arena != null ==> fresh(arena) && arena.Length == |payload.arena|
    ensures arena != null ==> forall j | 0 <= j < arena.Length ::
      arena[j] == if j in offsets then Rebuilt(driver, open, payload.arena[j]) else payload.arena[j]
  {
    var data := SerializePayload(payload);
    var received := DeserializePayload(data);
    assert received == Ok(payload);
    var p := received.value;
    var words := new Bytes[|p.arena|](i requires 0 <= i < |p.arena| => p.arena[i]);
    assert words[..] == payload.arena;
    var mapped := OpenHandles(p.handles, open);
    if mapped.None? {
      return null;
    }
    PatchesRoundTrip(patches);
    PointersRebuilt(driver, open, bases, p.handles, mapped.value, payload.arena, offsets, patches);
    var done := ApplyPatches(words, PatchesOf(p.patches), mapped.value);
    assert done.Ok?;
    return words;
  }
}
