/**
 Writing a bytecode file: the tables, the function and global sections, and the file itself.

 The methods are proved against the layout in Container and Bytecode, where it is proved that
 a reader recovers everything.
 */
module Writer {
  import opened Basic
  import opened Bits
  import opened Bytecode
  import opened CodeBuilding
  import opened Container
  import opened Hints
  import opened Sequences
  import opened Wrappers

  // ---------------------------------------------------------------- padding and fixed-width numbers

  method PadTo(alignment: nat, buf: ByteBuffer)
    requires 0 < alignment
    modifies buf
    ensures buf.bytes == old(buf.bytes) + Padding(|old(buf.bytes)|, alignment)
  {
    buf.Extend(Padding(|buf.bytes|, alignment));
  }

  /** A number that does not fit is an error, and nothing is written. */
  method WriteFixed(x: nat, width: nat, buf: ByteBuffer) returns (ok: bool)
    modifies buf
    ensures ok <==> x < Pow2(8 * width)
    ensures buf.bytes == old(buf.bytes) + (if ok then LittleEndian(x, width) else [])
  {
    ok := x < Pow2(8 * width);
    if ok {
      buf.Extend(LittleEndian(x, width));
    } else {
      assert buf.bytes + [] == buf.bytes;
    }
  }

  /** Offsets at which consecutive pieces start, each written in `width` bytes. */
  method WriteStarts<T>(pieces: seq<seq<T>>, width: nat, buf: ByteBuffer) returns (ok: bool, total: nat)
    modifies buf
    ensures ok <==> FitWidth(Starts(pieces, 0), width)
    ensures ok ==> buf.bytes == old(buf.bytes) + FixedList(Starts(pieces, 0), width) && total == |Flatten(pieces)|
  {
    total := 0;
    for i := 0 to |pieces|
      invariant FitWidth(Starts(pieces[..i], 0), width) && total == |Flatten(pieces[..i])|
      invariant buf.bytes == old(buf.bytes) + FixedList(Starts(pieces[..i], 0), width)
    {
      StartsStep(pieces, i, width, total);
      Assoc(old(buf.bytes), FixedList(Starts(pieces[..i], 0), width), LittleEndian(total, width));
      ok := WriteFixed(total, width, buf);
      if !ok {
        return false, total;
      }
      total := total + |pieces[i]|;
    }
    assert pieces[..|pieces|] == pieces;
    ok := true;
  }

  lemma StartsStep<T>(pieces: seq<seq<T>>, i: nat, width: nat, total: nat)
    requires i < |pieces| && FitWidth(Starts(pieces[..i], 0), width) && total == |Flatten(pieces[..i])|
    ensures |Flatten(pieces[..i + 1])| == total + |pieces[i]|
    ensures FixedList(Starts(pieces[..i + 1], 0), width)
         == FixedList(Starts(pieces[..i], 0), width) + LittleEndian(total, width)
    ensures FitWidth(Starts(pieces[..i + 1], 0), width) <==> total < Pow2(8 * width)
    ensures FitWidth(Starts(pieces, 0), width) ==> total < Pow2(8 * width)
  {
    var done, starts := pieces[..i], Starts(pieces[..i], 0);
    assert pieces[..i + 1] == done + [pieces[i]];
    FlattenAppend(done, pieces[i]);
    StartsAppend(done, pieces[i], 0);
    FixedAppend(starts, total, width);
    FitAppend(starts, total, width);
    StartsPrefix(pieces, i + 1, 0);
    if FitWidth(Starts(pieces, 0), width) {
      FitPrefix(Starts(pieces, 0), i + 1, width);
    }
  }

  lemma {:induction false} StartsPrefix<T>(pieces: seq<seq<T>>, n: nat, offset: nat)
    requires n <= |pieces|
    ensures Starts(pieces[..n], offset) == Starts(pieces, offset)[..n]
  {
    if n != 0 {
      assert pieces[..n][1..] == pieces[1..][..n - 1];
      StartsPrefix(pieces[1..], n - 1, offset + |pieces[0]|);
    }
  }

  method WriteData(pieces: seq<Bytes>, buf: ByteBuffer)
    modifies buf
    ensures buf.bytes == old(buf.bytes) + Flatten(pieces)
  {
    for i := 0 to |pieces|
      invariant buf.bytes == old(buf.bytes) + Flatten(pieces[..i])
    {
      assert pieces[..i + 1] == pieces[..i] + [pieces[i]];
      FlattenAppend(pieces[..i], pieces[i]);
      Assoc(old(buf.bytes), Flatten(pieces[..i]), pieces[i]);
      buf.Extend(pieces[i]);
    }
    assert pieces[..|pieces|] == pieces;
  }

  /** All entries of a table, in the order of their numbers. */
  method WriteTable(table: Table, width: nat, buf: ByteBuffer) returns (ok: bool)
    requires table.Valid() && 0 < width
    modifies buf
    ensures ok <==> TableFits(table.keys, width)
    ensures ok ==> buf.bytes == old(buf.bytes) + TableBytes(|old(buf.bytes)|, table.keys, width)
  {
    var items := table.SortedItems();
    EncodeVarint(|items|, buf);
    PadTo(width, buf);
    var total;
    ok, total := WriteStarts(items, width, buf);
    if ok {
      WriteData(items, buf);
      ghost var count := Varint(|items|);
      ghost var pad, list := Padding(|old(buf.bytes)| + |count|, width), FixedList(Starts(items, 0), width);
      FourPieces(old(buf.bytes), count, pad, list, Flatten(items));
    }
  }

  lemma FourPieces(a: Bytes, b: Bytes, c: Bytes, d: Bytes, e: Bytes)
    ensures (((a + b) + c) + d) + e == a + (b + (c + (d + e)))
  {
  }

  // ---------------------------------------------------------------- debug information

  method WriteIds(ids: seq<nat>, width: nat, buf: ByteBuffer) returns (ok: bool)
    modifies buf
    ensures ok <==> FitWidth(ids, width)
    ensures ok ==> buf.bytes == old(buf.bytes) + FixedList(ids, width)
  {
    for i := 0 to |ids|
      invariant FitWidth(ids[..i], width)
      invariant buf.bytes == old(buf.bytes) + FixedList(ids[..i], width)
    {
      assert ids[..i + 1] == ids[..i] + [ids[i]];
      FixedAppend(ids[..i], ids[i], width);
      FitAppend(ids[..i], ids[i], width);
      Assoc(old(buf.bytes), FixedList(ids[..i], width), LittleEndian(ids[i], width));
      ok := WriteFixed(ids[i], width, buf);
      if !ok {
        if FitWidth(ids, width) {
          FitPrefix(ids, i + 1, width);
        }
        return false;
      }
    }
    assert ids[..|ids|] == ids;
    ok := true;
  }

  /** The attribute numbers of one function after the other. */
  method WriteAllIds(infos: seq<seq<nat>>, width: nat, buf: ByteBuffer) returns (ok: bool)
    modifies buf
    ensures ok <==> FitWidth(Flatten(infos), width)
    ensures ok ==> buf.bytes == old(buf.bytes) + FixedList(Flatten(infos), width)
  {
    for i := 0 to |infos|
      invariant FitWidth(Flatten(infos[..i]), width)
      invariant buf.bytes == old(buf.bytes) + FixedList(Flatten(infos[..i]), width)
    {
      assert infos[..i + 1] == infos[..i] + [infos[i]];
      FlattenAppend(infos[..i], infos[i]);
      FixedConcat(Flatten(infos[..i]), infos[i], width);
      FitConcat(Flatten(infos[..i]), infos[i], width);
      Assoc(old(buf.bytes), FixedList(Flatten(infos[..i]), width), FixedList(infos[i], width));
      ok := WriteIds(infos[i], width, buf);
      if !ok {
        FlattenSplit(infos, i + 1);
        FitConcat(Flatten(infos[..i + 1]), Flatten(infos[i + 1..]), width);
        return false;
      }
    }
    assert infos[..|infos|] == infos;
    ok := true;
  }

  lemma {:induction false} FixedConcat(xs: seq<nat>, ys: seq<nat>, width: nat)
    ensures FixedList(xs + ys, width) == FixedList(xs, width) + FixedList(ys, width)
  {
    if xs == [] {
      assert xs + ys == ys;
    } else {
      assert (xs + ys)[1..] == xs[1..] + ys;
      FixedConcat(xs[1..], ys, width);
      Assoc(LittleEndian(xs[0], width), FixedList(xs[1..], width), FixedList(ys, width));
    }
  }

  lemma {:induction false} FitConcat(xs: seq<nat>, ys: seq<nat>, width: nat)
    ensures FitWidth(xs + ys, width) <==> FitWidth(xs, width) && FitWidth(ys, width)
  {
    if xs == [] {
      assert xs + ys == ys;
    } else {
      assert (xs + ys)[1..] == xs[1..] + ys;
      FitConcat(xs[1..], ys, width);
    }
  }

  lemma {:induction false} FlattenSplit<T>(pieces: seq<seq<T>>, n: nat)
    requires n <= |pieces|
    ensures Flatten(pieces) == Flatten(pieces[..n]) + Flatten(pieces[n..])
  {
    if n == 0 {
      assert pieces[..0] == [] && pieces[0..] == pieces;
    } else {
      assert pieces[..n][1..] == pieces[1..][..n - 1] && pieces[1..][n - 1..] == pieces[n..];
      FlattenSplit(pieces[1..], n - 1);
      Assoc(pieces[0], Flatten(pieces[1..][..n - 1]), Flatten(pieces[n..]));
    }
  }

  /** For each function, where its attribute numbers start; `total` is how many there are. */
  method WriteIndex(infos: seq<seq<nat>>, buf: ByteBuffer) returns (ok: bool, total: nat)
    requires buf.bytes == []
    modifies buf
    ensures ok <==> FitWidth(Starts(infos, 0), INDEX_WIDTH)
    ensures ok ==> total == |Flatten(infos)| && buf.bytes == IndexBytes(infos)
  {
    ghost var count := Varint(|infos|);
    EncodeVarint(|infos|, buf);
    assert buf.bytes == count;
    PadTo(INDEX_WIDTH, buf);
    Assoc(count, Padding(|count|, INDEX_WIDTH), FixedList(Starts(infos, 0), INDEX_WIDTH));
    ok, total := WriteStarts(infos, INDEX_WIDTH, buf);
  }

  /** The attribute numbers of all functions, after how many they are. */
  method WriteNumbers(infos: seq<seq<nat>>, total: nat, buf: ByteBuffer) returns (ok: bool)
    requires total == |Flatten(infos)|
    modifies buf
    ensures ok <==> FitWidth(Flatten(infos), ID_WIDTH)
    ensures ok ==> buf.bytes == old(buf.bytes) + NumbersBytes(|old(buf.bytes)|, infos)
  {
    ghost var before, count := buf.bytes, Varint(total);
    EncodeVarint(total, buf);
    PadTo(ID_WIDTH, buf);
    ok := WriteAllIds(infos, ID_WIDTH, buf);
    ThreePieces(before, count, Padding(|before + count|, ID_WIDTH), FixedList(Flatten(infos), ID_WIDTH));
  }

  lemma ThreePieces(a: Bytes, b: Bytes, c: Bytes, d: Bytes)
    ensures ((a + b) + c) + d == a + (b + (c + d))
  {
  }

  /** The decoder fails on empty tables: an unused entry is written instead. */
  method WriteAttrTable(attrTable: Table, buf: ByteBuffer) returns (ok: bool)
    requires attrTable.Valid() && attrTable.startingId == 1
    modifies buf
    ensures ok <==> TableFits(NonEmpty(attrTable.keys), INDEX_WIDTH)
    ensures ok ==> buf.bytes == old(buf.bytes) + TableBytes(|old(buf.bytes)|, NonEmpty(attrTable.keys), INDEX_WIDTH)
  {
    var attrs := attrTable;
    if |attrs.ids| == 0 {
      attrs := new Table(1);
      var id := attrs.Lookup([0]);
      assert id == 1;
    }
    assert attrs.keys == NonEmpty(attrTable.keys);
    ok := WriteTable(attrs, INDEX_WIDTH, buf);
  }

  method WriteDebugInfo(infos: seq<seq<nat>>, attrTable: Table, buf: ByteBuffer) returns (ok: bool)
    requires attrTable.Valid() && attrTable.startingId == 1 && buf.bytes == []
    modifies buf
    ensures ok <==> DebugFits(infos, attrTable.keys)
    ensures ok ==> buf.bytes == DebugBytes(infos, attrTable.keys)
  {
    var total;
    ok, total := WriteIndex(infos, buf);
    if !ok { return; }
    ok := WriteNumbers(infos, total, buf);
    if !ok { return; }
    ok := WriteAttrTable(attrTable, buf);
  }

  // ---------------------------------------------------------------- sections

  method WriteSection(id: nat, alignment: nat, body: ByteBuffer, buf: ByteBuffer)
    requires Section(id, alignment, body.bytes).Valid() && body != buf
    modifies buf
    ensures buf.bytes == old(buf.bytes)
      + (SectionHeader(|old(buf.bytes)|, Section(id, alignment, body.bytes)) + body.bytes)
  {
    ghost var before, s := buf.bytes, Section(id, alignment, body.bytes);
    buf.Append(if 1 < alignment then id + 128 else id);
    EncodeVarint(|body.bytes|, buf);
    if 1 < alignment {
      EncodeVarint(alignment, buf);
      PadTo(alignment, buf);
      ghost var head := [id + 128] + (Varint(|body.bytes|) + Varint(alignment));
      FourPieces(before, [id + 128], Varint(|body.bytes|), Varint(alignment), Padding(|before| + |head|, alignment));
      assert buf.bytes == before + SectionHeader(|before|, s);
    } else {
      Assoc(before, [id], Varint(|body.bytes|));
    }
    Assoc(before, SectionHeader(|before|, s), body.bytes);
    buf.Extend(body.bytes);
  }

  // ---------------------------------------------------------------- interning encoded items

  function DenseConstant(data: Bytes): Bytes {
    Varint(|data|) + data
  }

  /** Constants are stored with their length. */
  method InternConstant(table: Table, data: Bytes) returns (id: int)
    requires table.Valid()
    modifies table
    ensures table.Valid() && table.keys == Interned(old(table.keys), DenseConstant(data))
    ensures table.Names(id, DenseConstant(data))
  {
    var buf := new ByteBuffer();
    EncodeVarint(|data|, buf);
    buf.Extend(data);
    assert buf.bytes == DenseConstant(data);
    id := table.Lookup(buf.bytes);
  }

  /** The length keeps different constants apart. */
  lemma ConstantsInjective(a: Bytes, b: Bytes)
    requires DenseConstant(a) == DenseConstant(b)
    ensures a == b
  {
    VarintRoundTrip(|a|, a);
    VarintRoundTrip(|b|, b);
  }

  const FUNCTION_TAG: Byte := 0x10

  function FunctionType(parameterTypes: seq<nat>, resultTypes: seq<nat>): Bytes {
    [FUNCTION_TAG] + (VarintList(parameterTypes) + VarintList(resultTypes))
  }

  method InternFunctionType(table: Table, parameterTypes: seq<nat>, resultTypes: seq<nat>) returns (id: int)
    requires table.Valid()
    modifies table
    ensures table.Valid() && table.keys == Interned(old(table.keys), FunctionType(parameterTypes, resultTypes))
    ensures table.Names(id, FunctionType(parameterTypes, resultTypes))
  {
    var buf := new ByteBuffer();
    buf.Append(FUNCTION_TAG);
    EncodeVarintList(parameterTypes, buf);
    EncodeVarintList(resultTypes, buf);
    Assoc([FUNCTION_TAG], VarintList(parameterTypes), VarintList(resultTypes));
    assert buf.bytes == FunctionType(parameterTypes, resultTypes);
    id := table.Lookup(buf.bytes);
  }

  /** Different signatures have different types. */
  lemma FunctionTypesInjective(ps: seq<nat>, rs: seq<nat>, ps': seq<nat>, rs': seq<nat>)
    requires FunctionType(ps, rs) == FunctionType(ps', rs')
    ensures ps == ps' && rs == rs'
  {
    Tail(FUNCTION_TAG, VarintList(ps) + VarintList(rs));
    Tail(FUNCTION_TAG, VarintList(ps') + VarintList(rs'));
    VarintListRoundTrip(ps, VarintList(rs));
    VarintListRoundTrip(ps', VarintList(rs'));
    assert VarintList(rs) + [] == VarintList(rs) && VarintList(rs') + [] == VarintList(rs');
    VarintListRoundTrip(rs, []);
    VarintListRoundTrip(rs', []);
  }

  // ---------------------------------------------------------------- globals

  class GlobalSection {
    const stringTable: Table
    const constantTable: Table
    const version: Version
    var definedNames: set<Bytes>
    const contents: ByteBuffer
    ghost var records: seq<GlobalRecord>

    ghost predicate Valid()
      reads this, contents
    {
      |definedNames| == |records| && contents.bytes == GlobalsBytes(records, version.Extended())
    }

    constructor (stringTable: Table, constantTable: Table, version: Version)
      ensures Valid() && records == [] && definedNames == {} && fresh(contents)
      ensures this.stringTable == stringTable && this.constantTable == constantTable && this.version == version
    {
      this.stringTable, this.constantTable, this.version := stringTable, constantTable, version;
      contents := new ByteBuffer();
      definedNames, records := {}, [];
    }

    ghost predicate TablesValid()
      reads stringTable, constantTable
    {
      && stringTable.Valid() && constantTable.Valid() && stringTable != constantTable
      && stringTable.startingId == 0 && constantTable.startingId == 0
    }

    method InternGlobal(name: Bytes, data: Bytes) returns (nameId: nat, constantId: nat)
      requires TablesValid()
      modifies stringTable, constantTable
      ensures TablesValid()
      ensures stringTable.keys == Interned(old(stringTable.keys), name) && stringTable.Names(nameId, name)
      ensures constantTable.keys == Interned(old(constantTable.keys), DenseConstant(data))
      ensures constantTable.Names(constantId, DenseConstant(data))
    {
      nameId := stringTable.Lookup(name);
      constantId := InternConstant(constantTable, data);
    }

    /** Adds the record of a global with a new name. */
    method AddGlobal(name: Bytes, g: GlobalRecord)
      requires Valid() && name !in definedNames
      modifies this`definedNames, this`records, contents
      ensures Valid() && definedNames == old(definedNames) + {name} && records == old(records) + [g]
    {
      WriteGlobal(g, version.Extended(), contents);
      GlobalsAppend(records, g, version.Extended());
      definedNames := definedNames + {name};
      records := records + [g];
    }

    /** A second global of the same name is an error, and changes nothing. */
    method DefineGlobal(name: Bytes, typeId: nat, data: Bytes, alignment: nat, constant: bool, visibility: Byte)
      returns (ok: bool, ghost record: GlobalRecord)
      requires Valid() && TablesValid()
      modifies this`definedNames, this`records, contents, stringTable, constantTable
      ensures Valid() && TablesValid()
      ensures ok <==> name !in old(definedNames)
      ensures definedNames == old(definedNames) + {name}
      ensures records == old(records) + (if ok then [record] else [])
      ensures stringTable.keys == if ok then Interned(old(stringTable.keys), name) else old(stringTable.keys)
      ensures constantTable.keys ==
        if ok then Interned(old(constantTable.keys), DenseConstant(data)) else old(constantTable.keys)
      ensures ok ==> stringTable.Names(record.nameId, name)
      ensures ok ==> constantTable.Names(record.constantId, DenseConstant(data))
      ensures ok ==> record == GlobalRecord(record.nameId, typeId, record.constantId, alignment, visibility, constant)
    {
      if name in definedNames {
        assert definedNames == definedNames + {name};
        record := GlobalRecord(0, 0, 0, 0, 0, false);
        return false, record;
      }
      var nameId, constantId := InternGlobal(name, data);
      var fields := GlobalRecord(nameId, typeId, constantId, alignment, visibility, constant);
      AddGlobal(name, fields);
      return true, fields;
    }
  }

  method WriteGlobal(g: GlobalRecord, extended: bool, buf: ByteBuffer)
    modifies buf
    ensures buf.bytes == old(buf.bytes) + GlobalBytes(g, extended)
  {
    EncodeVarint(g.nameId, buf);
    EncodeVarint(g.typeId, buf);
    EncodeVarint(g.constantId, buf);
    EncodeVarint(g.alignment, buf);
    ghost var fields := buf.bytes;
    GlobalFields(old(buf.bytes), g, extended, fields);
    if extended {
      buf.Append(g.visibility);
      EncodeVarint(if g.constant then 1 else 0, buf);
      Assoc(fields, [g.visibility], Varint(if g.constant then 1 else 0));
    } else {
      assert fields + [] == fields;
    }
  }

  lemma GlobalFields(before: Bytes, g: GlobalRecord, extended: bool, fields: Bytes)
    requires fields == (((before + Varint(g.nameId)) + Varint(g.typeId)) + Varint(g.constantId)) + Varint(g.alignment)
    ensures fields + (if extended then [g.visibility] + Varint(if g.constant then 1 else 0) else [])
         == before + GlobalBytes(g, extended)
  {
    var more: Bytes := if extended then [g.visibility] + Varint(if g.constant then 1 else 0) else [];
    FivePieces(before, Varint(g.nameId), Varint(g.typeId), Varint(g.constantId), Varint(g.alignment), more);
  }

  lemma FivePieces(a: Bytes, b: Bytes, c: Bytes, d: Bytes, e: Bytes, f: Bytes)
    ensures ((((a + b) + c) + d) + e) + f == a + (b + (c + (d + (e + f))))
  {
  }

  // ---------------------------------------------------------------- functions and the file

  /** Only entry points have hints. */
  predicate IsRole(strings: seq<Bytes>, entryPoint: bool, hints: seq<(Bytes, EntryHints)>, role: Role) {
    if entryPoint then role.Entry? && AreArchs(strings, hints, role.archs) else role == Plain
  }

  /** The strings that a function asks for, in order. */
  function FunctionNames(name: Bytes, entryPoint: bool, hints: seq<(Bytes, EntryHints)>): seq<Bytes> {
    [name] + (if entryPoint then HintNames(hints) else [])
  }

  /** Name, signature, flag and debug information; the hints come after them. */
  method WriteFunctionHeader(nameId: nat, signatureId: nat, entryPoint: bool, hints: seq<(Bytes, EntryHints)>,
                             debugIndex: nat, strings: Table, buf: ByteBuffer) returns (ghost header: FunctionRecord)
    requires strings.Valid() && strings.startingId == 0
    modifies strings, buf
    ensures strings.Valid()
    ensures strings.keys == if entryPoint then InternedAll(old(strings.keys), HintNames(hints)) else old(strings.keys)
    ensures header == FunctionRecord(nameId, signatureId, header.role, debugIndex, [])
    ensures IsRole(strings.keys, entryPoint, hints, header.role)
    ensures buf.bytes == old(buf.bytes) + FunctionHeader(header)
  {
    hide Table.Valid, Varint, AreArchs, HintNames, OptimizationBytes, InternedAll, FunctionHeader;
    ghost var before := buf.bytes;
    var flag: Byte := if entryPoint then (if |hints| > 0 then 6 else 2) else 0;
    WriteFields(nameId, signatureId, flag, debugIndex, buf);
    ghost var fields := buf.bytes;
    ghost var archs: seq<ArchRecord> := [];
    if entryPoint && |hints| > 0 {
      archs := EncodeHints(hints, strings, buf);
    } else {
      NoArchs(strings.keys, hints);
    }
    CountArchs(strings.keys, hints, archs, entryPoint);
    header := FunctionRecord(nameId, signatureId, if entryPoint then Entry(archs) else Plain, debugIndex, []);
    HeaderWritten(before, fields, buf.bytes, flag, header);
  }

  lemma NoArchs(strings: seq<Bytes>, hints: seq<(Bytes, EntryHints)>)
    ensures hints == [] ==> AreArchs(strings, hints, []) && InternedAll(strings, HintNames(hints)) == strings
  {
  }

  lemma CountArchs(strings: seq<Bytes>, hints: seq<(Bytes, EntryHints)>, archs: seq<ArchRecord>, entryPoint: bool)
    requires entryPoint ==> AreArchs(strings, hints, archs)
    ensures entryPoint ==> |archs| == |hints|
  {
  }

  method WriteFields(nameId: nat, signatureId: nat, flag: Byte, debugIndex: nat, buf: ByteBuffer)
    modifies buf
    ensures buf.bytes
         == old(buf.bytes) + (Varint(nameId) + (Varint(signatureId) + ([flag] + Varint(debugIndex))))
  {
    EncodeVarint(nameId, buf);
    EncodeVarint(signatureId, buf);
    buf.Append(flag);
    EncodeVarint(debugIndex, buf);
    FourPieces(old(buf.bytes), Varint(nameId), Varint(signatureId), [flag], Varint(debugIndex));
  }

  lemma HeaderWritten(before: Bytes, fields: Bytes, after: Bytes, flag: Byte, f: FunctionRecord)
    requires flag == Flag(f.role) && after == fields + RoleBytes(f.role)
    requires fields == before + (Varint(f.nameId) + (Varint(f.signatureId) + ([flag] + Varint(f.debugIndex))))
    ensures after == before + FunctionHeader(f)
  {
    hide Varint, RoleBytes, Flag;
    LastPiece(before, Varint(f.nameId), Varint(f.signatureId), [flag], Varint(f.debugIndex), RoleBytes(f.role));
  }

  lemma LastPiece(a: Bytes, b: Bytes, c: Bytes, d: Bytes, e: Bytes, f: Bytes)
    ensures (a + (b + (c + (d + e)))) + f == a + (b + (c + (d + (e + f))))
  {
  }

  /** The parameters are the first values of a function, and its attribute the first of the list. */
  method NewCode(debugAttr: nat, parameterCount: nat) returns (code: CodeBuilder, parameters: seq<nat>)
    ensures fresh(code) && fresh(code.buf) && code.buf.bytes == [] && code.debugAttrPerOp == [debugAttr]
    ensures code.nextValueId == parameterCount && code.curDebugAttr == 0
    ensures parameters == Range(0, parameterCount)
  {
    code := new CodeBuilder([debugAttr]);
    parameters := code.MakeValueTuple(parameterCount);
  }

  function FunctionSection(declared: nat, records: seq<FunctionRecord>): Bytes {
    Varint(declared) + FunctionsBytes(records)
  }

  /** Record `i` holds the operations, and its debug information their attributes. */
  ghost predicate IsCode(record: FunctionRecord, info: seq<nat>, ops: seq<Op>, i: nat) {
    record.body == OpsBytes(ops) && record.debugIndex == i + 1 && info != [] && info[1..] == OpsAttrs(ops, 0)
  }

  ghost predicate AreCodes(records: seq<FunctionRecord>, infos: seq<seq<nat>>, codes: seq<seq<Op>>) {
    |records| == |infos| == |codes| && forall i | 0 <= i < |codes| :: IsCode(records[i], infos[i], codes[i], i)
  }

  lemma MoreCodes(records: seq<FunctionRecord>, infos: seq<seq<nat>>, codes: seq<seq<Op>>,
                  record: FunctionRecord, debugAttr: nat, ops: seq<Op>)
    requires AreCodes(records, infos, codes) && record.body == OpsBytes(ops) && record.debugIndex == |codes| + 1
    ensures AreCodes(records + [record], infos + [[debugAttr] + OpsAttrs(ops, 0)], codes + [ops])
  {
    Tail(debugAttr, OpsAttrs(ops, 0));
  }

  /** Types that every table begins with: one-bit and 32-bit integers, in this order. */
  const PREDEFINED_TYPES: seq<Bytes> := [[0x00], [0x03]]

  predicate HasPredefined(types: seq<Bytes>) {
    PREDEFINED_TYPES <= types
  }

  lemma InternedKeeps(types: seq<Bytes>, more: Bytes)
    requires HasPredefined(types)
    ensures HasPredefined(Interned(types, more))
  {
  }

  method PredefinedTypes() returns (types: Table)
    ensures fresh(types) && types.Valid() && types.startingId == 0 && types.keys == PREDEFINED_TYPES
    ensures types.Names(0, PREDEFINED_TYPES[0]) && types.Names(I32_TYPE_ID, PREDEFINED_TYPES[1])
  {
    types := new Table(0);
    var i1 := types.Lookup([0x00]);
    var i32 := types.Lookup([0x03]);
    assert i1 == 0 && i32 == I32_TYPE_ID;
  }

  class BytecodeWriter {
    const buf: ByteBuffer
    const version: Version
    const stringTable: Table
    const debugAttrTable: Table
    const constantTable: Table
    const typeTable: Table
    const globalSection: GlobalSection
    var numFunctions: nat
    var debugInfo: seq<seq<nat>>
    const declared: nat
    ghost var records: seq<FunctionRecord>
    ghost var codes: seq<seq<Op>>  // the operations of every function so far

    ghost predicate TablesValid()
      reads stringTable, debugAttrTable, constantTable, typeTable
    {
      && stringTable.Valid() && debugAttrTable.Valid() && constantTable.Valid() && typeTable.Valid()
      && stringTable.startingId == 0 && debugAttrTable.startingId == 1
      && constantTable.startingId == 0 && typeTable.startingId == 0
      && stringTable != debugAttrTable && stringTable != constantTable && stringTable != typeTable
      && debugAttrTable != constantTable && debugAttrTable != typeTable && constantTable != typeTable
      && HasPredefined(typeTable.keys)
    }

    /** The two tables that writing a function changes. */
    ghost predicate NamesValid()
      reads stringTable, typeTable
    {
      && stringTable.Valid() && typeTable.Valid() && stringTable != typeTable
      && stringTable.startingId == 0 && typeTable.startingId == 0
      && HasPredefined(typeTable.keys)
    }

    ghost predicate Valid()
      reads this, buf, stringTable, debugAttrTable, constantTable, typeTable
    {
      && TablesValid()
      && numFunctions == |records|
      && AreCodes(records, debugInfo, codes)
      && buf.bytes == FunctionSection(declared, records)
    }

    /** The globals are interned in the same tables as everything else. */
    ghost predicate GlobalsValid()
      reads globalSection, globalSection.contents
    {
      && globalSection.Valid() && globalSection.contents != buf
      && globalSection.stringTable == stringTable && globalSection.constantTable == constantTable
      && globalSection.version == version
    }

    /** The function section begins with the number of functions announced for it. */
    constructor (declared: nat, version: Version)
      ensures Valid() && GlobalsValid() && fresh(buf) && fresh(stringTable) && fresh(debugAttrTable)
      ensures fresh(constantTable)
      ensures fresh(typeTable) && fresh(globalSection) && fresh(globalSection.contents)
      ensures this.declared == declared && this.version == version && records == [] && debugInfo == [] && codes == []
      ensures stringTable.keys == [] && debugAttrTable.keys == [] && constantTable.keys == []
      ensures typeTable.keys == PREDEFINED_TYPES
      ensures globalSection.records == []
    {
      hide Table.Valid, Varint, FunctionsBytes;
      this.declared, this.version := declared, version;
      numFunctions, debugInfo, records, codes := 0, [], [], [];
      var b := new ByteBuffer();
      EncodeVarint(declared, b);
      buf := b;
      var strings := new Table(0);
      var constants := new Table(0);
      stringTable, constantTable := strings, constants;
      debugAttrTable := new Table(1);
      var types := PredefinedTypes();
      typeTable := types;
      globalSection := new GlobalSection(strings, constants, version);
      new;
      NoFunctions(declared);
    }

    method InternFunction(name: Bytes, parameterTypes: seq<nat>, resultTypes: seq<nat>)
      returns (nameId: nat, signatureId: nat)
      requires NamesValid()
      modifies stringTable, typeTable
      ensures NamesValid()
      ensures stringTable.keys == Interned(old(stringTable.keys), name) && stringTable.Names(nameId, name)
      ensures typeTable.keys == Interned(old(typeTable.keys), FunctionType(parameterTypes, resultTypes))
      ensures typeTable.Names(signatureId, FunctionType(parameterTypes, resultTypes))
    {
      hide Table.Valid, FunctionType, Interned, HasPredefined;
      InternedKeeps(typeTable.keys, FunctionType(parameterTypes, resultTypes));
      nameId := stringTable.Lookup(name);
      signatureId := InternFunctionType(typeTable, parameterTypes, resultTypes);
    }

    /** Up to the function's own code; `header` says what was written. */
    method BeginFunction(name: Bytes, parameterTypes: seq<nat>, resultTypes: seq<nat>, entryPoint: bool,
                         hints: seq<(Bytes, EntryHints)>, debugAttr: nat)
      returns (code: CodeBuilder, parameters: seq<nat>, ghost header: FunctionRecord)
      requires NamesValid()
      modifies this`numFunctions, this`debugInfo, buf, stringTable, typeTable
      ensures NamesValid() && numFunctions == old(numFunctions) + 1 && debugInfo == old(debugInfo) + [[debugAttr]]
      ensures fresh(code) && fresh(code.buf) && code.buf.bytes == [] && code.debugAttrPerOp == [debugAttr]
      ensures code.nextValueId == |parameterTypes| && code.curDebugAttr == 0
      ensures parameters == Range(0, |parameterTypes|)
      ensures buf.bytes == old(buf.bytes) + FunctionHeader(header)
      ensures header == FunctionRecord(header.nameId, header.signatureId, header.role, |debugInfo|, [])
      ensures stringTable.keys == InternedAll(old(stringTable.keys), FunctionNames(name, entryPoint, hints))
      ensures stringTable.Names(header.nameId, name) && IsRole(stringTable.keys, entryPoint, hints, header.role)
      ensures typeTable.keys == Interned(old(typeTable.keys), FunctionType(parameterTypes, resultTypes))
      ensures typeTable.Names(header.signatureId, FunctionType(parameterTypes, resultTypes))
    {
      hide Table.Valid, IsRole, FunctionHeader, FunctionType, HintNames, Range, InternedAll, Interned, HasPredefined;
      ghost var first := stringTable.keys;
      numFunctions := numFunctions + 1;
      debugInfo := debugInfo + [[debugAttr]];
      var nameId, signatureId := InternFunction(name, parameterTypes, resultTypes);
      ghost var known := stringTable.keys;
      header := WriteFunctionHeader(nameId, signatureId, entryPoint, hints, |debugInfo|, stringTable, buf);
      NamesInterned(first, name, entryPoint, hints, known, stringTable.keys);
      code, parameters := NewCode(debugAttr, |parameterTypes|);
    }

    /** The code's size and bytes; its debug attributes become those of the function begun last. */
    method EndFunction(code: CodeBuilder)
      requires debugInfo != [] && code.buf != buf
      modifies this`debugInfo, buf
      ensures buf.bytes == old(buf.bytes) + (Varint(|code.buf.bytes|) + code.buf.bytes)
      ensures debugInfo == old(debugInfo)[|old(debugInfo)| - 1 := code.debugAttrPerOp]
    {
      Assoc(buf.bytes, Varint(|code.buf.bytes|), code.buf.bytes);
      EncodeVarint(|code.buf.bytes|, buf);
      buf.Extend(code.buf.bytes);
      debugInfo := debugInfo[|debugInfo| - 1 := code.debugAttrPerOp];
    }

    method EmitBody(code: CodeBuilder, ops: seq<Op>, debugAttr: nat, ghost header: FunctionRecord,
                    ghost bytesBefore: Bytes, ghost infoBefore: seq<seq<nat>>)
      returns (nodes: seq<Node>, ghost record: FunctionRecord)
      requires code.buf != buf && code.buf.bytes == [] && code.curDebugAttr == 0 && code.debugAttrPerOp == [debugAttr]
      requires header.body == [] && buf.bytes == bytesBefore + FunctionHeader(header)
      requires debugInfo == infoBefore + [[debugAttr]]
      modifies this`debugInfo, buf, code, code.buf
      ensures record == header.(body := OpsBytes(ops)) && buf.bytes == bytesBefore + FunctionBytes(record)
      ensures debugInfo == infoBefore + [[debugAttr] + OpsAttrs(ops, 0)]
      ensures nodes == NumberOps(ops, old(code.nextValueId), 0)
    {
      nodes := EmitOps(code, ops);
      assert code.buf.bytes == OpsBytes(ops);
      EndFunction(code);
      ReplaceLast(infoBefore, [debugAttr], [debugAttr] + OpsAttrs(ops, 0), debugInfo);
      record := header.(body := OpsBytes(ops));
      HeaderThenBody(header, record, bytesBefore, buf.bytes);
    }

    /** A whole function, from its header to its last operation. */
    method WriteCode(name: Bytes, parameterTypes: seq<nat>, resultTypes: seq<nat>, entryPoint: bool,
                     hints: seq<(Bytes, EntryHints)>, debugAttr: nat, ops: seq<Op>)
      returns (parameters: seq<nat>, nodes: seq<Node>, ghost record: FunctionRecord)
      requires NamesValid()
      modifies this`numFunctions, this`debugInfo, buf, stringTable, typeTable
      ensures NamesValid() && numFunctions == old(numFunctions) + 1
      ensures debugInfo == old(debugInfo) + [[debugAttr] + OpsAttrs(ops, 0)]
      ensures buf.bytes == old(buf.bytes) + FunctionBytes(record)
      ensures record == FunctionRecord(record.nameId, record.signatureId, record.role, |debugInfo|, OpsBytes(ops))
      ensures parameters == Range(0, |parameterTypes|) && nodes == NumberOps(ops, |parameterTypes|, 0)
      ensures stringTable.keys == InternedAll(old(stringTable.keys), FunctionNames(name, entryPoint, hints))
      ensures stringTable.Names(record.nameId, name) && IsRole(stringTable.keys, entryPoint, hints, record.role)
      ensures typeTable.keys == Interned(old(typeTable.keys), FunctionType(parameterTypes, resultTypes))
      ensures typeTable.Names(record.signatureId, FunctionType(parameterTypes, resultTypes))
    {
      hide Table.Valid, IsRole, FunctionHeader, FunctionBytes, FunctionType, FunctionNames, Range,
        InternedAll, Interned, HasPredefined, OpsAttrs, OpsBytes, NumberOps;
      var code;
      ghost var header;
      code, parameters, header := BeginFunction(name, parameterTypes, resultTypes, entryPoint, hints, debugAttr);
      nodes, record := EmitBody(code, ops, debugAttr, header, old(buf.bytes), old(debugInfo));
    }

    /** A whole function: what its record and its debug attributes say. */
    method WriteFunction(name: Bytes, parameterTypes: seq<nat>, resultTypes: seq<nat>, entryPoint: bool,
                         hints: seq<(Bytes, EntryHints)>, debugAttr: nat, ops: seq<Op>)
      returns (parameters: seq<nat>, nodes: seq<Node>, ghost record: FunctionRecord)
      requires Valid()
      modifies this`numFunctions, this`debugInfo, this`records, this`codes, buf, stringTable, typeTable
      ensures Valid()
      ensures records == old(records) + [record] && codes == old(codes) + [ops]
      ensures record == FunctionRecord(record.nameId, record.signatureId, record.role, |records|, OpsBytes(ops))
      ensures debugInfo == old(debugInfo) + [[debugAttr] + OpsAttrs(ops, 0)]
      ensures parameters == Range(0, |parameterTypes|) && nodes == NumberOps(ops, |parameterTypes|, 0)
      ensures stringTable.keys == InternedAll(old(stringTable.keys), FunctionNames(name, entryPoint, hints))
      ensures stringTable.Names(record.nameId, name) && IsRole(stringTable.keys, entryPoint, hints, record.role)
      ensures typeTable.keys == Interned(old(typeTable.keys), FunctionType(parameterTypes, resultTypes))
      ensures typeTable.Names(record.signatureId, FunctionType(parameterTypes, resultTypes))
    {
      hide Table.Valid, IsRole, FunctionBytes, FunctionSection, FunctionType, FunctionNames, Range,
        InternedAll, Interned, HasPredefined, OpsAttrs, OpsBytes, NumberOps;
      parameters, nodes, record := WriteCode(name, parameterTypes, resultTypes, entryPoint, hints, debugAttr, ops);
      RecordWritten(declared, records, record);
      MoreCodes(records, old(debugInfo), codes, record, debugAttr, ops);
      records, codes := records + [record], codes + [ops];
    }
  }

  lemma NoFunctions(declared: nat)
    ensures FunctionSection(declared, []) == Varint(declared)
  {
  }

  lemma NamesInterned(first: seq<Bytes>, name: Bytes, entryPoint: bool, hints: seq<(Bytes, EntryHints)>,
                      known: seq<Bytes>, strings: seq<Bytes>)
    requires known == Interned(first, name)
    requires strings == if entryPoint then InternedAll(known, HintNames(hints)) else known
    ensures strings == InternedAll(first, FunctionNames(name, entryPoint, hints)) && known <= strings
  {
    InternedFirst(first, name, if entryPoint then HintNames(hints) else []);
    InternedAllGrows(known, HintNames(hints));
  }

  lemma ReplaceLast<T>(a: seq<T>, x: T, y: T, replaced: seq<T>)
    requires replaced == (a + [x])[|a| := y]
    ensures replaced == a + [y]
  {
  }

  lemma HeaderThenBody(header: FunctionRecord, record: FunctionRecord, before: Bytes, after: Bytes)
    requires header == record.(body := [])
    requires after == (before + FunctionHeader(header)) + (Varint(|record.body|) + record.body)
    ensures after == before + FunctionBytes(record)
  {
    Assoc(before, FunctionHeader(header), Varint(|record.body|) + record.body);
  }

  lemma RecordWritten(declared: nat, records: seq<FunctionRecord>, record: FunctionRecord)
    ensures FunctionSection(declared, records + [record]) == FunctionSection(declared, records) + FunctionBytes(record)
  {
    FunctionsAppend(records, record);
    Assoc(Varint(declared), FunctionsBytes(records), FunctionBytes(record));
  }

  // ---------------------------------------------------------------- the whole file

  /** Writes the section that comes next in `target`. */
  method AddSection(id: nat, alignment: nat, body: ByteBuffer, buf: ByteBuffer, ghost rest: seq<Section>,
                    ghost target: Bytes)
    requires Section(id, alignment, body.bytes).Valid() && body != buf && AllValid(rest)
    requires target == buf.bytes + NextSections(|buf.bytes|, Section(id, alignment, body.bytes), rest)
    modifies buf
    ensures target == buf.bytes + SectionsBytes(|buf.bytes|, rest)
  {
    ghost var s, before := Section(id, alignment, body.bytes), buf.bytes;
    WriteSection(id, alignment, body, buf);
    Assoc(before, SectionHeader(|before|, s) + s.body, SectionsBytes(|buf.bytes|, rest));
  }

  ghost function NextSections(position: nat, s: Section, rest: seq<Section>): Bytes
    requires s.Valid() && AllValid(rest)
  {
    var head := SectionHeader(position, s);
    (head + s.body) + SectionsBytes(position + |head| + |s.body|, rest)
  }

  lemma {:induction false} NextSectionsIs(position: nat, s: Section, rest: seq<Section>, sections: seq<Section>)
    requires s.Valid() && AllValid(rest) && sections == [s] + rest
    ensures AllValid(sections) && NextSections(position, s, rest) == SectionsBytes(position, sections)
  {
    assert sections[1..] == rest;
  }

  method AddTable(id: nat, width: nat, table: Table, buf: ByteBuffer, ghost rest: seq<Section>,
                  ghost sections: seq<Section>,
                  ghost target: Bytes) returns (ok: bool)
    requires table.Valid() && 0 < width && 0 < id < 128 && AllValid(rest)
    requires sections == [Section(id, width, TableBytes(0, table.keys, width))] + rest && AllValid(sections)
    requires target == buf.bytes + SectionsBytes(|buf.bytes|, sections)
    modifies buf
    ensures ok <==> TableFits(table.keys, width)
    ensures ok ==> target == buf.bytes + SectionsBytes(|buf.bytes|, rest)
  {
    var body := new ByteBuffer();
    ok := WriteTable(table, width, body);
    if ok {
      assert body.bytes == TableBytes(0, table.keys, width);
      NextSectionsIs(|buf.bytes|, Section(id, width, body.bytes), rest, sections);
      AddSection(id, width, body, buf, rest, target);
    }
  }

  /** What a writer has collected, as a file. */
  ghost function FileOf(w: BytecodeWriter): File
    reads w, w.globalSection, w.constantTable, w.debugAttrTable, w.typeTable, w.stringTable
  {
    File(w.version, w.records, w.globalSection.records, w.constantTable.keys, w.debugInfo, w.debugAttrTable.keys,
         w.typeTable.keys, w.stringTable.keys)
  }

  method WriteHeader(version: Version, buf: ByteBuffer)
    requires version.tag < 0x1_0000
    modifies buf
    ensures buf.bytes == old(buf.bytes) + Header(version)
  {
    Assoc(MAGIC, [version.major, version.minor], LittleEndian(version.tag, 2));
    Assoc(old(buf.bytes), MAGIC + [version.major, version.minor], LittleEndian(version.tag, 2));
    Assoc(old(buf.bytes), MAGIC, [version.major, version.minor]);
    buf.Extend(MAGIC);
    buf.Extend([version.major, version.minor]);
    buf.Extend(LittleEndian(version.tag, 2));
  }

  /** The function section, and the globals if there are any. */
  method AddFunctionsAndGlobals(w: BytecodeWriter, buf: ByteBuffer, ghost f: File, ghost target: Bytes)
    requires w.Valid() && w.GlobalsValid() && buf != w.buf && buf != w.globalSection.contents
    requires |w.records| == w.declared
    requires f == FileOf(w) && AllValid(f.TableSections()) && AllValid(f.Sections())
    requires target == buf.bytes + SectionsBytes(|buf.bytes|, f.Sections())
    modifies buf
    ensures target == buf.bytes + SectionsBytes(|buf.bytes|, f.TableSections())
  {
    hide Table.Valid, AreCodes, HasPredefined, SectionsBytes, TableBytes, DebugBytes,
      FunctionsBytes, GlobalsBytes, Varint;
    ghost var rest := f.GlobalSections() + f.TableSections();
    assert f.Sections()[1..] == rest;
    NextSectionsIs(|buf.bytes|, Section(FUNC_SECTION, 8, w.buf.bytes), rest, f.Sections());
    AddSection(FUNC_SECTION, 8, w.buf, buf, rest, target);
    AddGlobals(w.globalSection, buf, f, rest, target);
  }

  method AddGlobals(g: GlobalSection, buf: ByteBuffer, ghost f: File, ghost sections: seq<Section>, ghost target: Bytes)
    requires g.Valid() && buf != g.contents && f.globals == g.records && f.version == g.version
    requires AllValid(f.TableSections()) && sections == f.GlobalSections() + f.TableSections() && AllValid(sections)
    requires target == buf.bytes + SectionsBytes(|buf.bytes|, sections)
    modifies buf
    ensures target == buf.bytes + SectionsBytes(|buf.bytes|, f.TableSections())
  {
    if |g.definedNames| > 0 {
      var body := new ByteBuffer();
      EncodeVarint(|g.definedNames|, body);
      assert body.bytes == Varint(|f.globals|);
      body.Extend(g.contents.bytes);
      ghost var s := Section(GLOBAL_SECTION, 1, body.bytes);
      assert f.GlobalSections() == [s];
      NextSectionsIs(|buf.bytes|, s, f.TableSections(), sections);
      AddSection(GLOBAL_SECTION, 1, body, buf, f.TableSections(), target);
    } else {
      assert sections == f.TableSections();
    }
  }

  method AddDebugInfo(w: BytecodeWriter, buf: ByteBuffer, ghost rest: seq<Section>, ghost sections: seq<Section>,
                      ghost target: Bytes) returns (ok: bool)
    requires w.Valid() && AllValid(rest) && AllValid(sections)
    requires sections == [Section(DEBUG_SECTION, 8, DebugBytes(w.debugInfo, w.debugAttrTable.keys))] + rest
    requires target == buf.bytes + SectionsBytes(|buf.bytes|, sections)
    modifies buf
    ensures ok <==> DebugFits(w.debugInfo, w.debugAttrTable.keys)
    ensures ok ==> target == buf.bytes + SectionsBytes(|buf.bytes|, rest)
  {
    var body := new ByteBuffer();
    ok := WriteDebugInfo(w.debugInfo, w.debugAttrTable, body);
    if ok {
      NextSectionsIs(|buf.bytes|, Section(DEBUG_SECTION, 8, body.bytes), rest, sections);
      AddSection(DEBUG_SECTION, 8, body, buf, rest, target);
    }
  }

  lemma TablesInOrder(f: File, t: seq<Section>)
    requires t == f.TableSections() && AllValid(t)
    ensures |t| == 4 && t == [Section(CONSTANT_SECTION, 8, TableBytes(0, f.constants, 8))] + t[1..]
    ensures t[1..] == [Section(DEBUG_SECTION, 8, DebugBytes(f.debugInfos, f.debugAttrs))] + t[2..]
    ensures t[2..] == [Section(TYPE_SECTION, 4, TableBytes(0, f.types, 4))] + t[3..]
    ensures t[3..] == [Section(STRING_SECTION, 4, TableBytes(0, f.strings, 4))] + []
    ensures AllValid(t[1..]) && AllValid(t[2..]) && AllValid(t[3..])
    ensures forall position: nat :: SectionsBytes(position, []) == [0]
  {
    hide TableBytes, DebugBytes;
    assert t[1..][1..] == t[2..] && t[2..][1..] == t[3..];
  }

  /** The sections with tables: constants, debug information, types and strings. */
  method AddTables(w: BytecodeWriter, buf: ByteBuffer, ghost f: File, ghost target: Bytes) returns (ok: bool)
    requires w.Valid() && buf != w.buf && f == FileOf(w) && AllValid(f.TableSections())
    requires target == buf.bytes + SectionsBytes(|buf.bytes|, f.TableSections())
    modifies buf
    ensures ok <==> (TableFits(f.constants, 8) && DebugFits(f.debugInfos, f.debugAttrs)
                     && TableFits(f.types, 4) && TableFits(f.strings, 4))
    ensures ok ==> target == buf.bytes + [0]
  {
    hide AreCodes, HasPredefined, Table.Valid, SectionsBytes, TableBytes, DebugBytes, TableFits, DebugFits, AllValid;
    ghost var t := f.TableSections();
    TablesInOrder(f, t);
    ok := AddTable(CONSTANT_SECTION, 8, w.constantTable, buf, t[1..], t, target);
    if !ok { return; }
    ok := AddDebugInfo(w, buf, t[2..], t[1..], target);
    if !ok { return; }
    ok := AddTable(TYPE_SECTION, 4, w.typeTable, buf, t[3..], t[2..], target);
    if !ok { return; }
    ok := AddTable(STRING_SECTION, 4, w.stringTable, buf, [], t[3..], target);
  }

  /** The whole file; it is an error if functions are missing or a number does not fit. */
  method WriteBytecode(w: BytecodeWriter, buf: ByteBuffer) returns (ok: bool)
    requires w.Valid() && w.GlobalsValid() && w.version.tag < 0x1_0000
    requires buf.bytes == [] && buf != w.buf && buf != w.globalSection.contents
    modifies buf
    ensures ok <==> |w.records| == w.declared && FileOf(w).Fits()
    ensures ok ==> buf.bytes == FileOf(w).Bytes() && ReadFile(buf.bytes) == Some(Readable(FileOf(w)))
  {
    hide Table.Valid, AreCodes, HasPredefined, SectionsBytes, ReadFile, TableFits, DebugFits;
    if w.numFunctions != w.declared {
      return false;
    }
    ghost var f := FileOf(w);
    f.SectionsValid();
    TableSectionsValid(f);
    WriteHeader(w.version, buf);
    ghost var target := f.Bytes();
    assert buf.bytes == Header(w.version);
    AddFunctionsAndGlobals(w, buf, f, target);
    ok := AddTables(w, buf, f, target);
    if ok {
      buf.Append(0);
      FileRoundTrip(f);
    }
  }

  lemma TableSectionsValid(f: File)
    ensures AllValid(f.TableSections())
  {
    var t := f.TableSections();
    assert t[1..][1..] == t[2..] && t[2..][1..] == t[3..] && t[3..][1..] == [];
    assert AllValid(t[3..]) && AllValid(t[2..]) && AllValid(t[1..]);
  }

  /** The operations of a function, numbered from its parameters on, that a reader finds in a file. */
  ghost function CodeIn(f: File, i: nat, parameters: nat, nests: nat -> bool): Option<seq<Node>>
    requires i < |f.functions| && 0 < f.functions[i].debugIndex <= |f.debugInfos|
  {
    var info := f.debugInfos[f.functions[i].debugIndex - 1];
    if info == [] then None else ReadBody(f.functions[i].body, info[1..], parameters, nests)
  }

  /** Whatever was written is read back: the operations of every function, with their values and debug attributes. */
  lemma WrittenIsRead(w: BytecodeWriter, bytes: Bytes, i: nat, parameters: nat, nests: nat -> bool)
    requires w.Valid() && i < |w.codes| && OpsFit(w.codes[i], nests)
    requires ReadFile(bytes) == Some(Readable(FileOf(w)))
    ensures var f := ReadFile(bytes).value;
      && |f.functions| == |w.codes| && 0 < f.functions[i].debugIndex <= |f.debugInfos|
      && CodeIn(f, i, parameters, nests) == Some(NumberOps(w.codes[i], parameters, 0))
  {
    assert IsCode(w.records[i], w.debugInfo[i], w.codes[i], i);
    var ops := w.codes[i];
    BodyDecodes(ops, parameters, 0, nests, OpsBytes(ops), OpsAttrs(ops, 0), NumberOps(ops, parameters, 0));
  }

  /**
   The hints of an entry point are read back: under every architecture's name, found in the
   file's own strings, its hints modulo 2^32, as integers of the 32-bit type.
   */
  lemma WrittenHintsAreRead(f: File, i: nat, strings: seq<Bytes>, hints: seq<(Bytes, EntryHints)>)
    requires f.Fits() && i < |f.functions| && IsRole(strings, true, hints, f.functions[i].role)
    requires strings <= f.strings && HasPredefined(f.types)
    ensures ReadFile(f.Bytes()).Some?
    ensures var g := ReadFile(f.Bytes()).value;
      && |g.functions| == |f.functions| && g.functions[i].role.Entry? && |g.functions[i].role.archs| == |hints|
      && forall k | 0 <= k < |hints| ::
           var a := g.functions[i].role.archs[k];
           && IsName(g.strings, a.archId, hints[k].0)
           && HintsIn(g.strings, a.hints) == Stored32(hints[k].1)
           && forall r | r in a.hints :: IsName(g.types, r.typeId, PREDEFINED_TYPES[1])
  {
    hide File.Fits, File.Bytes, ReadFile;
    FileRoundTrip(f);
    var archs := f.functions[i].role.archs;
    HintsAreRead(strings, f.strings, hints, archs);
    forall k, r | 0 <= k < |hints| && r in archs[k].hints ensures IsName(f.types, r.typeId, PREDEFINED_TYPES[1]) {
      assert IsArch(strings, hints[k], archs[k]);
    }
  }
}
