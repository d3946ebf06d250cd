/**
 The payload that moves a prepared launch into another process.

 Main results: reading accepts exactly what writing produces, so every field comes back and
 any proper prefix or extension is rejected; allocations share one handle each; and in the
 other process every array pointer is the mapped base of its own allocation plus its offset.
 */
module IpcPayload {
  import opened Basic
  import opened Bits
  import opened Sequences
  import opened Wrappers

  // ---------------------------------------------------------------- fields

  /** A number of `width` bytes, or a vector of records of `size` bytes. */
  datatype Kind = Number(width: nat) | Records(size: nat)

  datatype Field = NumberField(width: nat, value: nat) | RecordsField(size: nat, items: seq<Bytes>)
  {
    function Kind(): Kind {
      match this
      case NumberField(width, _) => Number(width)
      case RecordsField(size, _) => Records(size)
    }

    predicate Valid() {
      match this
      case NumberField(width, value) => value < Pow2(8 * width)
      case RecordsField(size, items) => 0 < size && |items| <= SIZE_MAX / size && AllSized(items, size)
    }
  }

  const SIZE_MAX: nat := TWO64 - 1

  predicate AllSized(items: seq<Bytes>, size: nat) {
    items == [] || (|items[0]| == size && AllSized(items[1..], size))
  }

  function Concat(items: seq<Bytes>): Bytes {
    if items == [] then [] else items[0] + Concat(items[1..])
  }

  function FieldBytes(f: Field): Bytes {
    match f
    case NumberField(width, value) => LittleEndian(value, width)
    case RecordsField(_, items) => LittleEndian(|items|, 8) + Concat(items)
  }

  datatype Error = Truncated | TooLarge | BadHeader | BadVersion | TrailingBytes

  /** Cuts `s` into `n` records. */
  function Cut(s: Bytes, size: nat, n: nat): seq<Bytes>
    requires |s| == n * size
    decreases n
  {
    if n == 0 then []
    else
      OneLess(n, size);
      [s[..size]] + Cut(s[size..], size, n - 1)
  }

  lemma OneLess(n: nat, size: nat)
    requires 0 < n
    ensures n * size == size + (n - 1) * size
  {
  }

  function ReadField(s: Bytes, k: Kind): Result<(Field, Bytes), Error>
    requires k.Records? ==> 0 < k.size
  {
    match k
    case Number(width) =>
      if width > |s| then Err(Truncated)
      else Ok((NumberField(width, FromLittleEndian(s[..width])), s[width..]))
    case Records(size) =>
      if 8 > |s| then Err(Truncated)
      else
        var count := FromLittleEndian(s[..8]);
        if count > SIZE_MAX / size then Err(TooLarge)
        else if count * size > |s| - 8 then Err(Truncated)
        else
          NotNegative(count, size);
          var bytes := count * size;
          Ok((RecordsField(size, Cut(s[8..8 + bytes], size, count)), s[8 + bytes..]))
  }

  lemma NotNegative(a: nat, b: nat)
    ensures 0 <= a * b
  {
  }

  // ---------------------------------------------------------------- reading undoes writing

  lemma {:induction false} FromLittleEndianExact(s: Bytes)
    ensures FromLittleEndian(s) < Pow2(8 * |s|) && LittleEndian(FromLittleEndian(s), |s|) == s
  {
    if s != [] {
      FromLittleEndianExact(s[1..]);
      SmallPowers();
      Pow2Add(8, 8 * (|s| - 1));
      assert [s[0]] + s[1..] == s;
    }
  }

  lemma {:induction false} ConcatLength(items: seq<Bytes>, size: nat)
    requires AllSized(items, size)
    ensures |Concat(items)| == |items| * size
  {
    if items != [] {
      ConcatLength(items[1..], size);
      OneLess(|items|, size);
    }
  }

  lemma {:induction false} CutConcat(items: seq<Bytes>, size: nat, s: Bytes)
    requires AllSized(items, size) && s == Concat(items)
    ensures |s| == |items| * size && Cut(s, size, |items|) == items
  {
    ConcatLength(items, size);
    if items != [] {
      Front(items[0], Concat(items[1..]));
      CutConcat(items[1..], size, Concat(items[1..]));
      assert [items[0]] + items[1..] == items;
    }
  }

  lemma {:induction false} ConcatCut(s: Bytes, size: nat, n: nat)
    requires |s| == n * size
    ensures |Cut(s, size, n)| == n && AllSized(Cut(s, size, n), size) && Concat(Cut(s, size, n)) == s
  {
    if n != 0 {
      OneLess(n, size);
      ConcatCut(s[size..], size, n - 1);
      assert s[..size] + s[size..] == s;
    }
  }

  /** What is read was there. */
  lemma ReadSound(s: Bytes, k: Kind, f: Field, rest: Bytes)
    requires (k.Records? ==> 0 < k.size) && ReadField(s, k) == Ok((f, rest))
    ensures f.Valid() && f.Kind() == k && s == FieldBytes(f) + rest
  {
    match k
    case Number(width) =>
      FromLittleEndianExact(s[..width]);
      assert s[..width] + s[width..] == s;
    case Records(size) =>
      var count := FromLittleEndian(s[..8]);
      FromLittleEndianExact(s[..8]);
      NotNegative(count, size);
      var bytes := count * size;
      ConcatCut(s[8..8 + bytes], size, count);
      assert s == s[..8] + s[8..8 + bytes] + s[8 + bytes..];
  }

  /** What is there is read. */
  lemma ReadComplete(f: Field, rest: Bytes, s: Bytes)
    requires f.Valid() && s == FieldBytes(f) + rest
    ensures f.Kind().Records? ==> 0 < f.Kind().size
    ensures ReadField(s, f.Kind()) == Ok((f, rest))
  {
    match f
    case NumberField(width, value) =>
      LittleEndianRoundTrip(value, width);
      Front(LittleEndian(value, width), rest);
    case RecordsField(size, items) =>
      var count := LittleEndian(|items|, 8);
      CountFits(|items|, size);
      LittleEndianRoundTrip(|items|, 8);
      ConcatLength(items, size);
      Assoc(count, Concat(items), rest);
      Front(count, Concat(items) + rest);
      NotNegative(|items|, size);
      Middle(count, Concat(items), rest, s);
      CutConcat(items, size, Concat(items));
  }

  lemma CountFits(count: nat, size: nat)
    requires 0 < size && count <= SIZE_MAX / size
    ensures count < Pow2(64)
  {
    Powers();
    var q := SIZE_MAX / size;
    assert SIZE_MAX == size * q + SIZE_MAX % size;
    assert q <= size * q by { AtLeastOnce(q, size); }
  }

  lemma Middle(a: Bytes, b: Bytes, c: Bytes, s: Bytes)
    requires s == (a + b) + c
    ensures s[|a|..|a| + |b|] == b && s[|a| + |b|..] == c && s[..|a|] == a
  {
  }

  // ---------------------------------------------------------------- sequences of fields

  function FieldsBytes(fs: seq<Field>): Bytes {
    if fs == [] then [] else FieldBytes(fs[0]) + FieldsBytes(fs[1..])
  }

  predicate AllValid(fs: seq<Field>) {
    fs == [] || (fs[0].Valid() && AllValid(fs[1..]))
  }

  function Kinds(fs: seq<Field>): (ks: seq<Kind>)
    ensures |ks| == |fs|
  {
    if fs == [] then [] else [fs[0].Kind()] + Kinds(fs[1..])
  }

  lemma {:induction false} FieldsJoin(a: seq<Field>, b: seq<Field>)
    ensures FieldsBytes(a + b) == FieldsBytes(a) + FieldsBytes(b)
    ensures Kinds(a + b) == Kinds(a) + Kinds(b)
    ensures AllValid(a + b) <==> AllValid(a) && AllValid(b)
  {
    if a == [] {
      assert a + b == b;
    } else {
      assert (a + b)[1..] == a[1..] + b;
      FieldsJoin(a[1..], b);
      Assoc(FieldBytes(a[0]), FieldsBytes(a[1..]), FieldsBytes(b));
    }
  }

  lemma OneField(f: Field)
    ensures FieldsBytes([f]) == FieldBytes(f) && Kinds([f]) == [f.Kind()] && (AllValid([f]) <==> f.Valid())
  {
    assert FieldBytes(f) + [] == FieldBytes(f);
  }

  /** Fields of the same kinds that begin the same bytes are the same. */
  lemma {:induction false} FieldsUnique(a: seq<Field>, x: Bytes, b: seq<Field>, y: Bytes, s: Bytes)
    requires AllValid(a) && AllValid(b) && Kinds(a) == Kinds(b)
    requires s == FieldsBytes(a) + x && s == FieldsBytes(b) + y
    ensures a == b && x == y
  {
    assert |a| == |b|;
    if a == [] {
      assert s == x && s == y;
    } else {
      var x', y' := FieldsBytes(a[1..]) + x, FieldsBytes(b[1..]) + y;
      Assoc(FieldBytes(a[0]), FieldsBytes(a[1..]), x);
      Assoc(FieldBytes(b[0]), FieldsBytes(b[1..]), y);
      assert Kinds(a)[0] == Kinds(b)[0];
      ReadComplete(a[0], x', s);
      ReadComplete(b[0], y', s);
      assert Kinds(a)[1..] == Kinds(a[1..]) && Kinds(b)[1..] == Kinds(b[1..]);
      FieldsUnique(a[1..], x, b[1..], y, x');
      assert [a[0]] + a[1..] == a && [b[0]] + b[1..] == b;
    }
  }

  // ---------------------------------------------------------------- the payload

  const HEADER: nat := 0x48454144
  const VERSION: nat := 1

  /** Words, list arguments, pointer patches, handles and characters are records of their sizes. */
  datatype Payload = Payload(gridX: nat, gridY: nat, gridZ: nat, deviceId: int, sharedBytes: nat,
                             arena: seq<Bytes>, cuargOffsets: seq<Bytes>, listArgs: seq<Bytes>, totalListWords: nat,
                             patches: seq<Bytes>, handles: seq<Bytes>, cubin: seq<Bytes>, symbol: seq<Bytes>)
  {
    predicate Valid() {
      && -0x8000_0000 <= deviceId < 0x8000_0000
      && AllValid(Launch()) && AllValid(Arguments()) && AllValid(Pointers())
    }

    function Launch(): seq<Field> {
      [NumberField(4, HEADER), NumberField(4, VERSION), NumberField(4, gridX), NumberField(4, gridY),
       NumberField(4, gridZ),
       NumberField(4, ToUint32(deviceId)), NumberField(4, sharedBytes)]
    }

    function Arguments(): seq<Field> {
      [RecordsField(8, arena), RecordsField(8, cuargOffsets), RecordsField(32, listArgs),
       NumberField(8, totalListWords)]
    }

    function Pointers(): seq<Field> {
      [RecordsField(24, patches), RecordsField(64, handles), RecordsField(1, cubin), RecordsField(1, symbol)]
    }

    function Fields(): seq<Field> {
      Launch() + (Arguments() + Pointers())
    }
  }

  function ToUint32(x: int): (u: nat)
    ensures u < 0x1_0000_0000
  {
    x % 0x1_0000_0000
  }

  function ToInt32(u: nat): int {
    if u < 0x8000_0000 then u else u - 0x1_0000_0000
  }

  function KindAt(i: nat): Kind {
    if i < 7 then Number(4)
    else if i < 9 then Records(8)
    else if i == 9 then Records(32)
    else if i == 10 then Number(8)
    else if i == 11 then Records(24)
    else if i == 12 then Records(64)
    else Records(1)
  }

  /** The kinds of a payload's fields. */
  function Schema(): (s: seq<Kind>)
    ensures |s| == 15 && forall i | 0 <= i < 15 :: s[i] == KindAt(i)
  {
    seq(15, i requires 0 <= i < 15 => KindAt(i))
  }

  function Serialize(p: Payload): Bytes {
    FieldsBytes(p.Fields())
  }

  lemma LaunchKinds(p: Payload)
    ensures Kinds(p.Launch()) == Schema()[..7]
  {
    KindsOf7(p.Launch());
  }

  lemma ArgumentsKinds(p: Payload)
    ensures Kinds(p.Arguments()) == Schema()[7..11]
  {
    KindsOf4(p.Arguments());
  }

  lemma PointersKinds(p: Payload)
    ensures Kinds(p.Pointers()) == Schema()[11..]
  {
    KindsOf4(p.Pointers());
  }

  lemma JoinKinds(ks: seq<Kind>, a: nat, b: nat)
    requires a <= b <= |ks|
    ensures ks[..a] + (ks[a..b] + ks[b..]) == ks
  {
  }

  lemma PayloadKinds(p: Payload)
    ensures Kinds(p.Fields()) == Schema()
  {
    FieldsJoin(p.Launch(), p.Arguments() + p.Pointers());
    FieldsJoin(p.Arguments(), p.Pointers());
    LaunchKinds(p);
    ArgumentsKinds(p);
    PointersKinds(p);
    JoinKinds(Schema(), 7, 11);
  }

  lemma PayloadValid(p: Payload)
    ensures AllValid(p.Fields()) <==> AllValid(p.Launch()) && AllValid(p.Arguments()) && AllValid(p.Pointers())
  {
    FieldsJoin(p.Launch(), p.Arguments() + p.Pointers());
    FieldsJoin(p.Arguments(), p.Pointers());
  }

  lemma KindsOf4(f: seq<Field>)
    requires |f| == 4
    ensures Kinds(f) == [f[0].Kind(), f[1].Kind(), f[2].Kind(), f[3].Kind()]
  {
    assert f[1..][1..] == f[2..] && f[2..][1..] == f[3..] && f[3..][1..] == [];
    assert Kinds(f[3..]) == [f[3].Kind()];
    assert Kinds(f[2..]) == [f[2].Kind(), f[3].Kind()];
  }

  lemma KindsOf7(f: seq<Field>)
    requires |f| == 7
    ensures Kinds(f) == [f[0].Kind(), f[1].Kind(), f[2].Kind(), f[3].Kind(), f[4].Kind(), f[5].Kind(), f[6].Kind()]
  {
    KindsOf4(f[3..]);
    assert f[1..][1..] == f[2..] && f[2..][1..] == f[3..];
    assert Kinds(f[2..]) == [f[2].Kind()] + Kinds(f[3..]);
  }

  /** No payload begins another one. */
  lemma PrefixFree(p: Payload, q: Payload, more: Bytes)
    requires p.Valid() && q.Valid() && Serialize(q) == Serialize(p) + more
    ensures p == q && more == []
  {
    PayloadKinds(p);
    PayloadKinds(q);
    PayloadValid(p);
    PayloadValid(q);
    assert Serialize(q) + [] == Serialize(q);
    FieldsUnique(p.Fields(), more, q.Fields(), [], Serialize(q));
    SamePayload(p, q);
  }

  lemma SamePayload(p: Payload, q: Payload)
    requires p.Valid() && q.Valid() && p.Fields() == q.Fields()
    ensures p == q
  {
    assert p.Fields()[..7] == p.Launch() && q.Fields()[..7] == q.Launch();
    assert p.Fields()[7..] == p.Arguments() + p.Pointers() && q.Fields()[7..] == q.Arguments() + q.Pointers();
    assert p.Fields()[7..][..4] == p.Arguments() && q.Fields()[7..][..4] == q.Arguments();
    assert p.Fields()[7..][4..] == p.Pointers() && q.Fields()[7..][4..] == q.Pointers();
    assert p.Launch()[0..] == q.Launch()[0..];
    DeviceIdBack(p.deviceId);
    DeviceIdBack(q.deviceId);
  }

  lemma DeviceIdBack(x: int)
    requires -0x8000_0000 <= x < 0x8000_0000
    ensures ToInt32(ToUint32(x)) == x
  {
  }

  // ---------------------------------------------------------------- writing

  class IpcPayloadWriter {
    var data: Bytes
    ghost var fields: seq<Field>

    ghost predicate Valid()
      reads this
    {
      data == FieldsBytes(fields)
    }

    constructor ()
      ensures Valid() && fields == []
    {
      data, fields := [], [];
    }

    method Write(width: nat, value: nat)
      requires Valid()
      modifies this
      ensures Valid() && fields == old(fields) + [NumberField(width, value)]
    {
      OneField(NumberField(width, value));
      FieldsJoin(fields, [NumberField(width, value)]);
      data := data + LittleEndian(value, width);
      fields := fields + [NumberField(width, value)];
    }

    /** The number of records, then their bytes, if there are any. */
    method WriteRecords(size: nat, items: seq<Bytes>)
      requires Valid() && AllSized(items, size)
      modifies this
      ensures Valid() && fields == old(fields) + [RecordsField(size, items)]
    {
      OneField(RecordsField(size, items));
      FieldsJoin(fields, [RecordsField(size, items)]);
      ConcatLength(items, size);
      Assoc(data, LittleEndian(|items|, 8), Concat(items));
      data := data + LittleEndian(|items|, 8);
      if |items| * size != 0 {
        data := data + Concat(items);
      } else {
        assert data + Concat(items) == data;
      }
      fields := fields + [RecordsField(size, items)];
    }
  }

  method WriteLaunch(w: IpcPayloadWriter, p: Payload)
    requires w.Valid()
    modifies w
    ensures w.Valid() && w.fields == old(w.fields) + p.Launch()
  {
    w.Write(4, HEADER);
    w.Write(4, VERSION);
    w.Write(4, p.gridX);
    w.Write(4, p.gridY);
    w.Write(4, p.gridZ);
    w.Write(4, ToUint32(p.deviceId));
    w.Write(4, p.sharedBytes);
  }

  method WriteArguments(w: IpcPayloadWriter, p: Payload)
    requires w.Valid() && AllSized(p.arena, 8) && AllSized(p.cuargOffsets, 8) && AllSized(p.listArgs, 32)
    modifies w
    ensures w.Valid() && w.fields == old(w.fields) + p.Arguments()
  {
    w.WriteRecords(8, p.arena);
    w.WriteRecords(8, p.cuargOffsets);
    w.WriteRecords(32, p.listArgs);
    w.Write(8, p.totalListWords);
  }

  method WritePointers(w: IpcPayloadWriter, p: Payload)
    requires w.Valid() && AllSized(p.patches, 24) && AllSized(p.handles, 64) && AllSized(p.cubin, 1)
    requires AllSized(p.symbol, 1)
    modifies w
    ensures w.Valid() && w.fields == old(w.fields) + p.Pointers()
  {
    w.WriteRecords(24, p.patches);
    w.WriteRecords(64, p.handles);
    w.WriteRecords(1, p.cubin);
    w.WriteRecords(1, p.symbol);
  }

  lemma RecordsSized(p: Payload)
    requires p.Valid()
    ensures AllSized(p.arena, 8) && AllSized(p.cuargOffsets, 8) && AllSized(p.listArgs, 32)
    ensures AllSized(p.patches, 24) && AllSized(p.handles, 64) && AllSized(p.cubin, 1) && AllSized(p.symbol, 1)
  {
    Valid4(p.Arguments());
    Valid4(p.Pointers());
  }

  lemma Valid4(f: seq<Field>)
    requires |f| == 4
    ensures AllValid(f) <==> f[0].Valid() && f[1].Valid() && f[2].Valid() && f[3].Valid()
  {
    assert f[1..][1..] == f[2..] && f[2..][1..] == f[3..] && f[3..][1..] == [];
    assert AllValid(f[3..]) <==> f[3].Valid();
    assert AllValid(f[2..]) <==> f[2].Valid() && f[3].Valid();
  }

  method SerializePayload(p: Payload) returns (data: Bytes)
    requires p.Valid()
    ensures data == Serialize(p)
  {
    var w := new IpcPayloadWriter();
    RecordsSized(p);
    WriteLaunch(w, p);
    WriteArguments(w, p);
    WritePointers(w, p);
    assert [] + p.Launch() == p.Launch();
    Assoc(p.Launch(), p.Arguments(), p.Pointers());
    data := w.data;
  }

  // ---------------------------------------------------------------- reading

  /** No payload has these bytes. */
  ghost predicate IsNoPayload(data: Bytes) {
    forall p: Payload | p.Valid() :: data != Serialize(p)
  }

  class IpcPayloadReader {
    const data: Bytes
    var offset: nat
    ghost var fields: seq<Field>

    /** What has been read so far are the fields of a payload up to here. */
    ghost predicate Valid()
      reads this
    {
      offset <= |data| && data[..offset] == FieldsBytes(fields) && IsBegun(fields)
    }

    ghost predicate Expects(k: Kind)
      reads this
    {
      |fields| < |Schema()| && Schema()[|fields|] == k
    }

    constructor (data: Bytes)
      ensures Valid() && fields == [] && this.data == data
    {
      this.data, offset, fields := data, 0, [];
    }

    method Read(width: nat) returns (r: Result<nat, Error>)
      requires Valid() && Expects(Number(width))
      modifies this
      ensures Valid() && (r.Err? ==> IsNoPayload(data))
      ensures r.Ok? ==> fields == old(fields) + [NumberField(width, r.value)] && r.value < Pow2(8 * width)
    {
      ghost var rest := data[offset..];
      if width > |data| - offset {
        Rejected(data, offset, fields, Number(width));
        return Err(Truncated);
      }
      var value := FromLittleEndian(data[offset..offset + width]);
      assert data[offset..offset + width] == rest[..width] && data[offset + width..] == rest[width..];
      Accepted(data, offset, fields, Number(width), NumberField(width, value), offset + width);
      fields := fields + [NumberField(width, value)];
      offset := offset + width;
      return Ok(value);
    }

    method ReadRecords(size: nat) returns (r: Result<seq<Bytes>, Error>)
      requires Valid() && 0 < size && Expects(Records(size))
      modifies this
      ensures Valid() && (r.Err? ==> IsNoPayload(data))
      ensures r.Ok? ==> fields == old(fields) + [RecordsField(size, r.value)] && AllSized(r.value, size)
    {
      ghost var rest := data[offset..];
      if 8 > |data| - offset {
        Rejected(data, offset, fields, Records(size));
        return Err(Truncated);
      }
      var count := FromLittleEndian(data[offset..offset + 8]);
      assert data[offset..offset + 8] == rest[..8];
      if count > SIZE_MAX / size {
        Rejected(data, offset, fields, Records(size));
        return Err(TooLarge);
      }
      if count * size > |data| - (offset + 8) {
        Rejected(data, offset, fields, Records(size));
        return Err(Truncated);
      }
      NotNegative(count, size);
      var next := offset + 8 + count * size;
      var items := Cut(data[offset + 8..next], size, count);
      assert data[offset + 8..next] == rest[8..8 + count * size] && data[next..] == rest[8 + count * size..];
      ConcatCut(data[offset + 8..next], size, count);
      Accepted(data, offset, fields, Records(size), RecordsField(size, items), next);
      fields := fields + [RecordsField(size, items)];
      offset := next;
      return Ok(items);
    }

    method CheckFinished() returns (ok: bool)
      ensures ok <==> offset == |data|
    {
      ok := offset == |data|;
    }
  }

  /** The fields of a payload, up to one of them. */
  ghost predicate IsBegun(fs: seq<Field>) {
    AllValid(fs) && |fs| <= |Schema()| && Kinds(fs) == Schema()[..|fs|]
  }

  /** One more field has been read. */
  lemma Accepted(data: Bytes, offset: nat, fs: seq<Field>, k: Kind, f: Field, next: nat)
    requires offset <= next <= |data| && data[..offset] == FieldsBytes(fs) && (k.Records? ==> 0 < k.size)
    requires IsBegun(fs) && |fs| < |Schema()| && Schema()[|fs|] == k
    requires ReadField(data[offset..], k) == Ok((f, data[next..]))
    ensures data[..next] == FieldsBytes(fs + [f]) && f.Valid() && IsBegun(fs + [f])
  {
    ReadSound(data[offset..], k, f, data[next..]);
    OneField(f);
    FieldsJoin(fs, [f]);
    Shortened(data, offset, next, FieldBytes(f));
    LongerPrefix(Schema(), |fs|);
  }

  lemma LongerPrefix<T>(s: seq<T>, n: nat)
    requires n < |s|
    ensures s[..n + 1] == s[..n] + [s[n]]
  {
  }

  lemma Shortened(data: Bytes, offset: nat, next: nat, part: Bytes)
    requires offset <= next <= |data| && data[offset..] == part + data[next..]
    ensures data[..next] == data[..offset] + part
  {
    assert |part| == next - offset;
    assert data[offset..][..next - offset] == part;
  }

  /** Where a field cannot be read, the bytes are not those of a payload. */
  lemma Rejected(data: Bytes, offset: nat, fs: seq<Field>, k: Kind)
    requires offset <= |data| && data[..offset] == FieldsBytes(fs) && IsBegun(fs) && (k.Records? ==> 0 < k.size)
    requires |fs| < |Schema()| && Schema()[|fs|] == k
    requires ReadField(data[offset..], k).Err?
    ensures IsNoPayload(data)
  {
    forall p: Payload | p.Valid() ensures data != Serialize(p) {
      if data == Serialize(p) {
        var more := PayloadSplits(p, data, offset, fs);
        NextIsRead(more, data[offset..], k);
      }
    }
  }

  lemma NextIsRead(more: seq<Field>, s: Bytes, k: Kind)
    requires more != [] && AllValid(more) && Kinds(more)[0] == k && s == FieldsBytes(more)
    ensures (k.Records? ==> 0 < k.size) && ReadField(s, k).Ok?
  {
    ReadComplete(more[0], FieldsBytes(more[1..]), s);
  }

  /** What was read of a payload's bytes are its first fields; the others follow. */
  lemma PayloadSplits(p: Payload, data: Bytes, offset: nat, fs: seq<Field>) returns (more: seq<Field>)
    requires p.Valid() && data == Serialize(p) && offset <= |data| && data[..offset] == FieldsBytes(fs) && IsBegun(fs)
    ensures p.Fields() == fs + more && data[offset..] == FieldsBytes(more) && AllValid(more)
    ensures Kinds(more) == Schema()[|fs|..] && |p.Fields()| == |Schema()|
  {
    PayloadKinds(p);
    PayloadValid(p);
    more := SplitFields(p.Fields(), Schema(), fs, data, offset);
  }

  lemma SplitFields(all: seq<Field>, schema: seq<Kind>, fs: seq<Field>, data: Bytes, offset: nat)
    returns (more: seq<Field>)
    requires AllValid(all) && Kinds(all) == schema && data == FieldsBytes(all)
    requires offset <= |data| && data[..offset] == FieldsBytes(fs)
    requires AllValid(fs) && |fs| <= |schema| && Kinds(fs) == schema[..|fs|]
    ensures all == fs + more && data[offset..] == FieldsBytes(more) && AllValid(more) && Kinds(more) == schema[|fs|..]
  {
    var before := all[..|fs|];
    more := all[|fs|..];
    SplitAt(all, |fs|);
    FieldsJoin(before, more);
    SplitAt(data, offset);
    KindsPrefix(before, more, schema);
    FieldsUnique(fs, data[offset..], before, FieldsBytes(more), data);
  }

  lemma KindsPrefix(before: seq<Field>, more: seq<Field>, schema: seq<Kind>)
    requires schema == Kinds(before) + Kinds(more)
    ensures Kinds(before) == schema[..|before|] && Kinds(more) == schema[|before|..]
  {
  }

  /** A payload whose bytes start otherwise, or go on, is none. */
  lemma WrongStart(data: Bytes, offset: nat, fs: seq<Field>)
    requires offset <= |data| && data[..offset] == FieldsBytes(fs) && IsBegun(fs)
    requires (1 <= |fs| && fs[0] != NumberField(4, HEADER)) || (2 <= |fs| && fs[1] != NumberField(4, VERSION))
      || (|fs| == |Schema()| && offset != |data|)
    ensures IsNoPayload(data)
  {
    forall p: Payload | p.Valid() ensures data != Serialize(p) {
      if data == Serialize(p) {
        var more := PayloadSplits(p, data, offset, fs);
        FirstFields(p, fs, more);
      }
    }
  }

  lemma FirstFields(p: Payload, fs: seq<Field>, more: seq<Field>)
    requires p.Fields() == fs + more
    ensures 1 <= |fs| ==> fs[0] == NumberField(4, HEADER)
    ensures 2 <= |fs| ==> fs[1] == NumberField(4, VERSION)
  {
    assert p.Fields()[0] == p.Launch()[0] && p.Fields()[1] == p.Launch()[1];
  }

  // ---------------------------------------------------------------- a whole payload

  /** Reads a number that must be the given one. */
  method ReadExpected(reader: IpcPayloadReader, expected: nat, error: Error) returns (r: Result<nat, Error>)
    requires reader.Valid() && reader.Expects(Number(4))
    requires (|reader.fields| == 0 && expected == HEADER) || (|reader.fields| == 1 && expected == VERSION)
    modifies reader
    ensures reader.Valid() && (r.Err? ==> IsNoPayload(reader.data))
    ensures r.Ok? ==> reader.fields == old(reader.fields) + [NumberField(4, expected)]
  {
    r := reader.Read(4);
    if r.Ok? && r.value != expected {
      WrongStart(reader.data, reader.offset, reader.fields);
      r := Err(error);
    }
  }

  method ReadVersions(reader: IpcPayloadReader) returns (r: Result<(), Error>)
    requires reader.Valid() && reader.fields == []
    modifies reader
    ensures reader.Valid() && (r.Err? ==> IsNoPayload(reader.data))
    ensures r.Ok? ==> reader.fields == [NumberField(4, HEADER), NumberField(4, VERSION)]
  {
    var n := ReadExpected(reader, HEADER, BadHeader);
    if n.Err? { return Err(n.error); }
    n := ReadExpected(reader, VERSION, BadVersion);
    if n.Err? { return Err(n.error); }
    r := Ok(());
  }

  function GridFields(x: nat, y: nat, z: nat): seq<Field> {
    [NumberField(4, x), NumberField(4, y), NumberField(4, z)]
  }

  method ReadGrid(reader: IpcPayloadReader) returns (r: Result<(nat, nat, nat), Error>)
    requires reader.Valid() && |reader.fields| == 2
    modifies reader
    ensures reader.Valid() && (r.Err? ==> IsNoPayload(reader.data))
    ensures r.Ok? ==> reader.fields == old(reader.fields) + GridFields(r.value.0, r.value.1, r.value.2)
  {
    var x := reader.Read(4);
    if x.Err? { return Err(x.error); }
    var y := reader.Read(4);
    if y.Err? { return Err(y.error); }
    var z := reader.Read(4);
    if z.Err? { return Err(z.error); }
    r := Ok((x.value, y.value, z.value));
  }

  /** The device number and the size of the dynamic shared memory. */
  method ReadDevice(reader: IpcPayloadReader) returns (r: Result<(nat, nat), Error>)
    requires reader.Valid() && |reader.fields| == 5
    modifies reader
    ensures reader.Valid() && (r.Err? ==> IsNoPayload(reader.data))
    ensures r.Ok? ==> reader.fields == old(reader.fields) + [NumberField(4, r.value.0), NumberField(4, r.value.1)]
    ensures r.Ok? ==> r.value.0 < 0x1_0000_0000
  {
    var device := reader.Read(4);
    if device.Err? { return Err(device.error); }
    var shared := reader.Read(4);
    if shared.Err? { return Err(shared.error); }
    Powers();
    r := Ok((device.value, shared.value));
  }

  function LaunchFields(x: nat, y: nat, z: nat, device: nat, shared: nat): seq<Field> {
    [NumberField(4, HEADER), NumberField(4, VERSION), NumberField(4, x), NumberField(4, y), NumberField(4, z),
     NumberField(4, device), NumberField(4, shared)]
  }

  /** Header, version, grid, device and shared memory. */
  method ReadLaunch(reader: IpcPayloadReader) returns (r: Result<(nat, nat, nat, nat, nat), Error>)
    requires reader.Valid() && reader.fields == []
    modifies reader
    ensures reader.Valid() && (r.Err? ==> IsNoPayload(reader.data))
    ensures r.Ok? ==> reader.fields == LaunchFields(r.value.0, r.value.1, r.value.2, r.value.3, r.value.4)
    ensures r.Ok? ==> r.value.3 < 0x1_0000_0000
  {
    var versions := ReadVersions(reader);
    if versions.Err? { return Err(versions.error); }
    var grid := ReadGrid(reader);
    if grid.Err? { return Err(grid.error); }
    var device := ReadDevice(reader);
    if device.Err? { return Err(device.error); }
    r := Ok((grid.value.0, grid.value.1, grid.value.2, device.value.0, device.value.1));
  }

  function ArgumentFields(arena: seq<Bytes>, offsets: seq<Bytes>, lists: seq<Bytes>, words: nat): seq<Field> {
    [RecordsField(8, arena), RecordsField(8, offsets), RecordsField(32, lists), NumberField(8, words)]
  }

  /** The arena, the arguments' offsets in it, and the list arguments. */
  method ReadArguments(reader: IpcPayloadReader) returns (r: Result<(seq<Bytes>, seq<Bytes>, seq<Bytes>, nat), Error>)
    requires reader.Valid() && |reader.fields| == 7
    modifies reader
    ensures reader.Valid() && (r.Err? ==> IsNoPayload(reader.data))
    ensures r.Ok? ==> reader.fields == old(reader.fields) + ArgumentFields(r.value.0, r.value.1, r.value.2, r.value.3)
  {
    var arena := reader.ReadRecords(8);
    if arena.Err? { return Err(arena.error); }
    var offsets := reader.ReadRecords(8);
    if offsets.Err? { return Err(offsets.error); }
    var lists := reader.ReadRecords(32);
    if lists.Err? { return Err(lists.error); }
    var words := reader.Read(8);
    if words.Err? { return Err(words.error); }
    r := Ok((arena.value, offsets.value, lists.value, words.value));
  }

  function PointerFields(patches: seq<Bytes>, handles: seq<Bytes>, cubin: seq<Bytes>, symbol: seq<Bytes>): seq<Field> {
    [RecordsField(24, patches), RecordsField(64, handles), RecordsField(1, cubin), RecordsField(1, symbol)]
  }

  /** Pointer patches, memory handles and the kernel. */
  method ReadPointers(reader: IpcPayloadReader)
    returns (r: Result<(seq<Bytes>, seq<Bytes>, seq<Bytes>, seq<Bytes>), Error>)
    requires reader.Valid() && |reader.fields| == 11
    modifies reader
    ensures reader.Valid() && (r.Err? ==> IsNoPayload(reader.data))
    ensures r.Ok? ==> reader.fields == old(reader.fields) + PointerFields(r.value.0, r.value.1, r.value.2, r.value.3)
  {
    var patches := reader.ReadRecords(24);
    if patches.Err? { return Err(patches.error); }
    var handles := reader.ReadRecords(64);
    if handles.Err? { return Err(handles.error); }
    var cubin := reader.ReadRecords(1);
    if cubin.Err? { return Err(cubin.error); }
    var symbol := reader.ReadRecords(1);
    if symbol.Err? { return Err(symbol.error); }
    r := Ok((patches.value, handles.value, cubin.value, symbol.value));
  }

  /** Accepts exactly the bytes of payloads, and returns the payload. */
  method DeserializePayload(data: Bytes) returns (r: Result<Payload, Error>)
    ensures r.Ok? ==> r.value.Valid() && data == Serialize(r.value)
    ensures r.Err? ==> IsNoPayload(data)
    ensures forall p: Payload | p.Valid() && data == Serialize(p) :: r == Ok(p)
  {
    var reader := new IpcPayloadReader(data);
    var launch := ReadLaunch(reader);
    if launch.Err? { return Err(launch.error); }
    var arguments := ReadArguments(reader);
    if arguments.Err? { return Err(arguments.error); }
    var pointers := ReadPointers(reader);
    if pointers.Err? { return Err(pointers.error); }
    var finished := reader.CheckFinished();
    if !finished {
      WrongStart(data, reader.offset, reader.fields);
      return Err(TrailingBytes);
    }
    var (x, y, z, device, shared) := launch.value;
    var (arena, offsets, lists, words) := arguments.value;
    var (patches, handles, cubin, symbol) := pointers.value;
    var p := Payload(x, y, z, ToInt32(device), shared, arena, offsets, lists, words, patches, handles, cubin, symbol);
    DeviceIdForth(device);
    PayloadRead(p, data, reader.offset, reader.fields);
    r := Ok(p);
  }

  lemma DeviceIdForth(u: nat)
    requires u < 0x1_0000_0000
    ensures ToUint32(ToInt32(u)) == u && -0x8000_0000 <= ToInt32(u) < 0x8000_0000
  {
  }

  /** All fields have been read: they are a payload's, and the bytes are its bytes. */
  lemma PayloadRead(p: Payload, data: Bytes, offset: nat, fs: seq<Field>)
    requires offset == |data| && data[..offset] == FieldsBytes(fs) && IsBegun(fs)
    requires fs == (p.Launch() + p.Arguments()) + p.Pointers() && -0x8000_0000 <= p.deviceId < 0x8000_0000
    ensures p.Valid() && data == Serialize(p) && forall q: Payload | q.Valid() && data == Serialize(q) :: q == p
  {
    Assoc(p.Launch(), p.Arguments(), p.Pointers());
    assert data[..offset] == data;
    PayloadValid(p);
    OnlyPayload(p, data);
  }

  /** The bytes of a payload are the bytes of no other one. */
  lemma OnlyPayload(p: Payload, data: Bytes)
    requires p.Valid() && data == Serialize(p)
    ensures forall q: Payload | q.Valid() && data == Serialize(q) :: q == p
  {
    forall q: Payload | q.Valid() && data == Serialize(q) ensures q == p {
      assert Serialize(p) + [] == Serialize(p);
      PrefixFree(p, q, []);
    }
  }

  /** Whatever is cut off, the rest is no payload; and neither is a payload with more after it. */
  lemma PrefixesAndExtensionsRejected(p: Payload, n: nat, more: Bytes)
    requires p.Valid() && n < |Serialize(p)| && more != []
    ensures IsNoPayload(Serialize(p)[..n]) && IsNoPayload(Serialize(p) + more)
  {
    var s := Serialize(p);
    assert s == s[..n] + s[n..];
    forall q: Payload | q.Valid() ensures s[..n] != Serialize(q) && s + more != Serialize(q) {
      if s[..n] == Serialize(q) {
        PrefixFree(q, p, s[n..]);
      }
      if s + more == Serialize(q) {
        PrefixFree(p, q, more);
      }
    }
  }
}
