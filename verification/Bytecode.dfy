/**
 A whole bytecode file: header, sections, and what the sections say.

 Main results: reading a file back gives every function with its hints, every global, constant,
 type, string and debug attribute at its number; all offset arrays are aligned in the file.
 */
module Bytecode {
  import opened Basic
  import opened Bits
  import opened Container
  import opened Hints
  import opened Sequences
  import opened Wrappers

  // ---------------------------------------------------------------- functions

  /** Only entry points have hints. */
  datatype Role = Plain | Entry(archs: seq<ArchRecord>)

  datatype FunctionRecord = FunctionRecord(nameId: nat, signatureId: nat, role: Role, debugIndex: nat, body: Bytes)

  /** One bit says that the function is an entry point, another one that it has hints. */
  function Flag(role: Role): Byte {
    match role
    case Plain => 0
    case Entry(archs) => if archs == [] then 2 else 6
  }

  function RoleBytes(role: Role): Bytes {
    if role.Plain? || role.archs == [] then [] else OptimizationBytes(role.archs)
  }

  function FunctionHeader(f: FunctionRecord): Bytes {
    Varint(f.nameId) + (Varint(f.signatureId) + ([Flag(f.role)] + (Varint(f.debugIndex) + RoleBytes(f.role))))
  }

  function FunctionBytes(f: FunctionRecord): Bytes {
    FunctionHeader(f) + (Varint(|f.body|) + f.body)
  }

  function FunctionsBytes(fs: seq<FunctionRecord>): Bytes {
    if fs == [] then [] else FunctionBytes(fs[0]) + FunctionsBytes(fs[1..])
  }

  function ReadRole(flag: Byte, s: Bytes): (r: Option<(Role, Bytes)>)
    ensures r.Some? ==> |r.value.1| <= |s|
  {
    if flag == 0 then Some((Plain, s))
    else if flag == 2 then Some((Entry([]), s))
    else if flag == 6 then
      match ReadOptimization(s)
      case None => None
      case Some((archs, rest)) => Some((Entry(archs), rest))
    else None
  }

  function ReadBytes(s: Bytes): (r: Option<(Bytes, Bytes)>)
    ensures r.Some? ==> |r.value.1| < |s|
  {
    match ReadVarint(s)
    case None => None
    case Some((size, rest)) => if size > |rest| then None else Some((rest[..size], rest[size..]))
  }

  function ReadFunction(s: Bytes): (r: Option<(FunctionRecord, Bytes)>)
    ensures r.Some? ==> |r.value.1| < |s|
  {
    match ReadVarint(s)
    case None => None
    case Some((nameId, s1)) =>
      match ReadVarint(s1)
      case None => None
      case Some((signatureId, s2)) =>
        if s2 == [] then None
        else
          match ReadVarint(s2[1..])
          case None => None
          case Some((debugIndex, s3)) =>
            match ReadRole(s2[0], s3)
            case None => None
            case Some((role, s4)) =>
              match ReadBytes(s4)
              case None => None
              case Some((body, rest)) => Some((FunctionRecord(nameId, signatureId, role, debugIndex, body), rest))
  }

  function ReadFunctions(s: Bytes, n: nat): Option<seq<FunctionRecord>>
    decreases n
  {
    if n == 0 then (if s == [] then Some([]) else None)
    else
      match ReadFunction(s)
      case None => None
      case Some((f, rest)) =>
        match ReadFunctions(rest, n - 1)
        case None => None
        case Some(fs) => Some([f] + fs)
  }

  lemma RoleRoundTrip(role: Role, rest: Bytes)
    ensures ReadRole(Flag(role), RoleBytes(role) + rest) == Some((role, rest))
  {
    if role.Entry? && role.archs != [] {
      OptimizationRoundTrip(role.archs, rest);
    } else {
      assert RoleBytes(role) + rest == rest;
    }
  }

  lemma BytesRoundTrip(body: Bytes, rest: Bytes)
    ensures ReadBytes(Varint(|body|) + (body + rest)) == Some((body, rest))
  {
    VarintRoundTrip(|body|, body + rest);
    Front(body, rest);
  }

  lemma FunctionRoundTrip(f: FunctionRecord, rest: Bytes, s: Bytes)
    requires s == FunctionBytes(f) + rest
    ensures ReadFunction(s) == Some((f, rest))
  {
    hide Varint, ReadVarint, RoleBytes, ReadRole, ReadBytes, Flag;
    var a, b, d, h := Varint(f.nameId), Varint(f.signatureId), Varint(f.debugIndex), RoleBytes(f.role);
    var t := Varint(|f.body|) + (f.body + rest);
    HeaderPieces(a, b, [Flag(f.role)], d, h, Varint(|f.body|), f.body, rest);
    VarintRoundTrip(f.nameId, b + ([Flag(f.role)] + (d + (h + t))));
    VarintRoundTrip(f.signatureId, [Flag(f.role)] + (d + (h + t)));
    Tail(Flag(f.role), d + (h + t));
    VarintRoundTrip(f.debugIndex, h + t);
    RoleRoundTrip(f.role, t);
    BytesRoundTrip(f.body, rest);
  }

  lemma HeaderPieces(a: Bytes, b: Bytes, c: Bytes, d: Bytes, h: Bytes, z: Bytes, body: Bytes, rest: Bytes)
    ensures ((a + (b + (c + (d + h)))) + (z + body)) + rest == a + (b + (c + (d + (h + (z + (body + rest))))))
  {
  }

  lemma {:induction false} FunctionsRoundTrip(fs: seq<FunctionRecord>, s: Bytes)
    requires s == FunctionsBytes(fs)
    ensures ReadFunctions(s, |fs|) == Some(fs)
  {
    if fs != [] {
      FunctionRoundTrip(fs[0], FunctionsBytes(fs[1..]), s);
      FunctionsRoundTrip(fs[1..], FunctionsBytes(fs[1..]));
      assert [fs[0]] + fs[1..] == fs;
    }
  }

  lemma {:induction false} FunctionsAppend(fs: seq<FunctionRecord>, f: FunctionRecord)
    ensures FunctionsBytes(fs + [f]) == FunctionsBytes(fs) + FunctionBytes(f)
  {
    if fs == [] {
      assert FunctionsBytes([f]) == FunctionBytes(f) + FunctionsBytes([]);
    } else {
      assert (fs + [f])[1..] == fs[1..] + [f];
      FunctionsAppend(fs[1..], f);
      Assoc(FunctionBytes(fs[0]), FunctionsBytes(fs[1..]), FunctionBytes(f));
    }
  }

  // ---------------------------------------------------------------- globals

  datatype GlobalRecord = GlobalRecord(nameId: nat, typeId: nat, constantId: nat, alignment: nat,
                                       visibility: Byte, constant: bool)

  /** From version 13.3 on, visibility and constness are stored as well. */
  function GlobalBytes(g: GlobalRecord, extended: bool): Bytes {
    Varint(g.nameId) + (Varint(g.typeId) + (Varint(g.constantId) + (Varint(g.alignment) +
      (if extended then [g.visibility] + Varint(if g.constant then 1 else 0) else []))))
  }

  /** What earlier versions keep of a global. */
  function Stored(g: GlobalRecord, extended: bool): GlobalRecord {
    if extended then g else g.(visibility := 0, constant := false)
  }

  function ReadGlobal(s: Bytes, extended: bool): Option<(GlobalRecord, Bytes)> {
    match ReadVarints(s, 4)
    case None => None
    case Some((fields, s1)) =>
      if |fields| != 4 then None
      else if !extended then Some((GlobalRecord(fields[0], fields[1], fields[2], fields[3], 0, false), s1))
      else if s1 == [] then None
      else
        match ReadVarint(s1[1..])
        case None => None
        case Some((constant, s2)) =>
          Some((GlobalRecord(fields[0], fields[1], fields[2], fields[3], s1[0], constant != 0), s2))
  }

  lemma GlobalRoundTrip(g: GlobalRecord, extended: bool, rest: Bytes, s: Bytes)
    requires s == GlobalBytes(g, extended) + rest
    ensures ReadGlobal(s, extended) == Some((Stored(g, extended), rest))
  {
    var fields := [g.nameId, g.typeId, g.constantId, g.alignment];
    var more: Bytes := if extended then [g.visibility] + Varint(if g.constant then 1 else 0) else [];
    FourVarints(g.nameId, g.typeId, g.constantId, g.alignment, more);
    Assoc(Varints(fields), more, rest);
    VarintsRoundTrip(fields, more + rest);
    if extended {
      Assoc([g.visibility], Varint(if g.constant then 1 else 0), rest);
      Tail(g.visibility, Varint(if g.constant then 1 else 0) + rest);
      VarintRoundTrip(if g.constant then 1 else 0, rest);
    } else {
      assert more + rest == rest;
    }
  }

  lemma FourVarints(a: nat, b: nat, c: nat, d: nat, more: Bytes)
    ensures Varint(a) + (Varint(b) + (Varint(c) + (Varint(d) + more))) == Varints([a, b, c, d]) + more
  {
    VarintsOne(a, [b, c, d], more);
    VarintsOne(b, [c, d], more);
    VarintsOne(c, [d], more);
    VarintsOne(d, [], more);
    assert [] + more == more;
  }

  lemma VarintsOne(x: nat, xs: seq<nat>, more: Bytes)
    ensures Varints([x] + xs) + more == Varint(x) + (Varints(xs) + more)
  {
    assert ([x] + xs)[1..] == xs;
    Assoc(Varint(x), Varints(xs), more);
  }

  function GlobalsBytes(gs: seq<GlobalRecord>, extended: bool): Bytes {
    if gs == [] then [] else GlobalBytes(gs[0], extended) + GlobalsBytes(gs[1..], extended)
  }

  function StoredAll(gs: seq<GlobalRecord>, extended: bool): seq<GlobalRecord> {
    if gs == [] then [] else [Stored(gs[0], extended)] + StoredAll(gs[1..], extended)
  }

  function ReadGlobals(s: Bytes, n: nat, extended: bool): Option<seq<GlobalRecord>>
    decreases n
  {
    if n == 0 then (if s == [] then Some([]) else None)
    else
      match ReadGlobal(s, extended)
      case None => None
      case Some((g, rest)) =>
        match ReadGlobals(rest, n - 1, extended)
        case None => None
        case Some(gs) => Some([g] + gs)
  }

  lemma {:induction false} GlobalsRoundTrip(gs: seq<GlobalRecord>, extended: bool, s: Bytes)
    requires s == GlobalsBytes(gs, extended)
    ensures ReadGlobals(s, |gs|, extended) == Some(StoredAll(gs, extended))
  {
    if gs != [] {
      GlobalRoundTrip(gs[0], extended, GlobalsBytes(gs[1..], extended), s);
      GlobalsRoundTrip(gs[1..], extended, GlobalsBytes(gs[1..], extended));
    }
  }

  lemma {:induction false} GlobalsAppend(gs: seq<GlobalRecord>, g: GlobalRecord, extended: bool)
    ensures GlobalsBytes(gs + [g], extended) == GlobalsBytes(gs, extended) + GlobalBytes(g, extended)
  {
    if gs == [] {
      assert GlobalsBytes([g], extended) == GlobalBytes(g, extended) + GlobalsBytes([], extended);
    } else {
      assert (gs + [g])[1..] == gs[1..] + [g];
      GlobalsAppend(gs[1..], g, extended);
      Assoc(GlobalBytes(gs[0], extended), GlobalsBytes(gs[1..], extended), GlobalBytes(g, extended));
    }
  }

  // ---------------------------------------------------------------- the file

  /** Major and minor number and tag. */
  datatype Version = Version(major: Byte, minor: Byte, tag: nat) {
    predicate Extended() {
      13 < major || (major == 13 && 3 <= minor)
    }
  }

  datatype File = File(version: Version, functions: seq<FunctionRecord>, globals: seq<GlobalRecord>,
                       constants: seq<Bytes>, debugInfos: seq<seq<nat>>, debugAttrs: seq<Bytes>,
                       types: seq<Bytes>, strings: seq<Bytes>)
  {
    /** All offsets, and all attribute numbers, have room in their fields. */
    predicate Fits() {
      && version.tag < 0x1_0000
      && TableFits(constants, 8) && DebugFits(debugInfos, debugAttrs) && TableFits(types, 4) && TableFits(strings, 4)
    }

    function Sections(): seq<Section> {
      [Section(FUNC_SECTION, 8, Varint(|functions|) + FunctionsBytes(functions))]
        + (GlobalSections() + TableSections())
    }

    /** Without globals there is no section for them. */
    function GlobalSections(): seq<Section> {
      if globals == [] then []
      else [Section(GLOBAL_SECTION, 1, Varint(|globals|) + GlobalsBytes(globals, version.Extended()))]
    }

    function TableSections(): seq<Section> {
      [Section(CONSTANT_SECTION, 8, TableBytes(0, constants, 8)),
       Section(DEBUG_SECTION, 8, DebugBytes(debugInfos, debugAttrs)),
       Section(TYPE_SECTION, 4, TableBytes(0, types, 4)),
       Section(STRING_SECTION, 4, TableBytes(0, strings, 4))]
    }

    lemma SectionsValid()
      ensures AllValid(Sections())
    {
      if globals == [] {
        assert GlobalSections() + TableSections() == TableSections();
      } else {
        assert (GlobalSections() + TableSections())[1..] == TableSections();
      }
      assert Sections()[1..] == GlobalSections() + TableSections();
      var t := TableSections();
      assert t[1..][1..] == t[2..] && t[2..][1..] == t[3..] && t[3..][1..] == [];
      assert AllValid(t[3..]) && AllValid(t[2..]) && AllValid(t[1..]);
    }

    function Bytes(): Bytes {
      SectionsValid();
      Header(version) + SectionsBytes(12, Sections())
    }
  }

  const MAGIC: Bytes := [0x7f, 0x54, 0x69, 0x6c, 0x65, 0x49, 0x52, 0x00]

  function Header(v: Version): (h: Bytes)
    ensures |h| == 12
  {
    MAGIC + ([v.major, v.minor] + LittleEndian(v.tag, 2))
  }

  /** The body of the first section with the given number. */
  function Find(placed: seq<Placed>, id: nat): Option<Bytes> {
    if placed == [] then None
    else if placed[0].section.id == id then Some(placed[0].section.body)
    else Find(placed[1..], id)
  }

  function ReadFunctionSection(body: Bytes): Option<seq<FunctionRecord>> {
    match ReadVarint(body)
    case None => None
    case Some((n, rest)) => ReadFunctions(rest, n)
  }

  function ReadGlobalSection(body: Option<Bytes>, extended: bool): Option<seq<GlobalRecord>> {
    match body
    case None => Some([])
    case Some(s) =>
      match ReadVarint(s)
      case None => None
      case Some((n, rest)) => ReadGlobals(rest, n, extended)
  }

  function ReadVersion(b: Bytes): Option<Version> {
    if |b| < 12 || b[..8] != MAGIC then None
    else Some(Version(b[8], b[9], FromLittleEndian(b[10..12])))
  }

  function ReadFile(b: Bytes): Option<File> {
    match ReadVersion(b)
    case None => None
    case Some(version) =>
      if |b| < 12 then None
      else
        match ReadSections(b[12..], |b|)
        case None => None
        case Some(placed) => ReadContents(version, placed)
  }

  function ReadContents(version: Version, placed: seq<Placed>): Option<File> {
    match (Find(placed, FUNC_SECTION), Find(placed, CONSTANT_SECTION), Find(placed, DEBUG_SECTION),
           Find(placed, TYPE_SECTION), Find(placed, STRING_SECTION))
    case (Some(f), Some(c), Some(d), Some(t), Some(s)) =>
      ReadBodies(version, Find(placed, GLOBAL_SECTION), f, c, d, t, s)
    case _ => None
  }

  function ReadBodies(version: Version, g: Option<Bytes>, f: Bytes, c: Bytes, d: Bytes, t: Bytes,
                      s: Bytes): Option<File> {
    match (ReadFunctionSection(f), ReadGlobalSection(g, version.Extended()), ReadTable(c, |c|, 8), ReadDebug(d),
           ReadTable(t, |t|, 4), ReadTable(s, |s|, 4))
    case (Some(functions), Some(globals), Some(constants), Some((infos, attrs)), Some(types), Some(strings)) =>
      Some(File(version, functions, globals, constants, infos, attrs, types, strings))
    case _ => None
  }

  /** What a reader can know of a file: no constness before version 13.3, and never an empty attribute table. */
  function Readable(f: File): File {
    f.(globals := StoredAll(f.globals, f.version.Extended()), debugAttrs := NonEmpty(f.debugAttrs))
  }

  lemma HeaderReads(v: Version, rest: Bytes, b: Bytes)
    requires v.tag < 0x1_0000 && b == Header(v) + rest
    ensures ReadVersion(b) == Some(v) && b[12..] == rest
  {
    var tag := LittleEndian(v.tag, 2);
    Front(Header(v), rest);
    assert b[..8] == MAGIC && b[8] == v.major && b[9] == v.minor && b[10..12] == tag;
    SmallPowers();
    LittleEndianRoundTrip(v.tag, 2);
  }

  lemma BodiesRead(f: File, g: Option<Bytes>, fn: Bytes, c: Bytes, d: Bytes, t: Bytes, s: Bytes)
    requires f.Fits()
    requires fn == Varint(|f.functions|) + FunctionsBytes(f.functions)
    requires g == if f.globals == [] then None
                  else Some(Varint(|f.globals|) + GlobalsBytes(f.globals, f.version.Extended()))
    requires c == TableBytes(0, f.constants, 8) && d == DebugBytes(f.debugInfos, f.debugAttrs)
    requires t == TableBytes(0, f.types, 4) && s == TableBytes(0, f.strings, 4)
    ensures ReadBodies(f.version, g, fn, c, d, t, s) == Some(Readable(f))
  {
    hide Varint, ReadVarint, FunctionsBytes, GlobalsBytes, ReadFunctions, ReadGlobals, ReadTable, ReadDebug,
      TableBytes, DebugBytes;
    VarintRoundTrip(|f.functions|, FunctionsBytes(f.functions));
    FunctionsRoundTrip(f.functions, FunctionsBytes(f.functions));
    if f.globals != [] {
      VarintRoundTrip(|f.globals|, GlobalsBytes(f.globals, f.version.Extended()));
      GlobalsRoundTrip(f.globals, f.version.Extended(), GlobalsBytes(f.globals, f.version.Extended()));
    }
    TableRoundTrip(0, f.constants, 8, c, |c|);
    DebugRoundTrip(f.debugInfos, f.debugAttrs, d);
    TableRoundTrip(0, f.types, 4, t, |t|);
    TableRoundTrip(0, f.strings, 4, s, |s|);
  }

  function FindSection(sections: seq<Section>, id: nat): Option<Bytes> {
    if sections == [] then None
    else if sections[0].id == id then Some(sections[0].body)
    else FindSection(sections[1..], id)
  }

  lemma {:induction false} FindPlaced(position: nat, sections: seq<Section>, id: nat)
    requires AllValid(sections)
    ensures Find(Place(position, sections), id) == FindSection(sections, id)
    decreases |sections|
  {
    if sections != [] {
      FindPlaced(position + |SectionHeader(position, sections[0])| + |sections[0].body|, sections[1..], id);
    }
  }

  lemma {:induction false} FindIn(before: seq<Section>, after: seq<Section>, id: nat)
    ensures FindSection(before + after, id)
         == if FindSection(before, id).Some? then FindSection(before, id) else FindSection(after, id)
  {
    if before == [] {
      assert before + after == after;
    } else {
      assert (before + after)[1..] == before[1..] + after;
      FindIn(before[1..], after, id);
    }
  }

  /** Where each section of a file is found. */
  lemma SectionsFound(f: File, id: nat)
    ensures FindSection(f.Sections(), FUNC_SECTION) == Some(Varint(|f.functions|) + FunctionsBytes(f.functions))
    ensures id != FUNC_SECTION && id != GLOBAL_SECTION ==>
      FindSection(f.Sections(), id) == FindSection(f.TableSections(), id)
    ensures FindSection(f.Sections(), GLOBAL_SECTION) ==
      if f.globals == [] then None else Some(f.GlobalSections()[0].body)
  {
    var func := f.Sections()[..1];
    assert f.Sections() == func + (f.GlobalSections() + f.TableSections());
    FindIn(func, f.GlobalSections() + f.TableSections(), id);
    FindIn(f.GlobalSections(), f.TableSections(), id);
    FindIn(func, f.GlobalSections() + f.TableSections(), GLOBAL_SECTION);
    FindIn(f.GlobalSections(), f.TableSections(), GLOBAL_SECTION);
    TablesFound(f);
  }

  lemma TablesFound(f: File)
    ensures FindSection(f.TableSections(), CONSTANT_SECTION) == Some(TableBytes(0, f.constants, 8))
    ensures FindSection(f.TableSections(), DEBUG_SECTION) == Some(DebugBytes(f.debugInfos, f.debugAttrs))
    ensures FindSection(f.TableSections(), TYPE_SECTION) == Some(TableBytes(0, f.types, 4))
    ensures FindSection(f.TableSections(), STRING_SECTION) == Some(TableBytes(0, f.strings, 4))
    ensures FindSection(f.TableSections(), GLOBAL_SECTION) == None
  {
    var t := f.TableSections();
    FindAt(t, 0, CONSTANT_SECTION);
    FindAt(t, 1, DEBUG_SECTION);
    FindAt(t, 2, TYPE_SECTION);
    FindAt(t, 3, STRING_SECTION);
    FindAt(t, 4, GLOBAL_SECTION);
  }

  lemma {:induction false} FindAt(sections: seq<Section>, i: nat, id: nat)
    requires i <= |sections| && (forall j | 0 <= j < i :: sections[j].id != id)
    requires (i < |sections| ==> sections[i].id == id)
    ensures FindSection(sections, id) == if i < |sections| then Some(sections[i].body) else None
  {
    if i != 0 {
      FindAt(sections[1..], i - 1, id);
    }
  }

  /** Reading a file gives back everything that was written to it. */
  lemma FileRoundTrip(f: File)
    requires f.Fits()
    ensures ReadFile(f.Bytes()) == Some(Readable(f))
  {
    f.SectionsValid();
    var rest := SectionsBytes(12, f.Sections());
    var placed := Place(12, f.Sections());
    HeaderReads(f.version, rest, f.Bytes());
    SectionsRoundTrip(12, f.Sections(), rest, |f.Bytes()|, placed);
    ContentsRead(f, placed);
  }

  lemma ContentsRead(f: File, placed: seq<Placed>)
    requires f.Fits() && AllValid(f.Sections()) && placed == Place(12, f.Sections())
    ensures ReadContents(f.version, placed) == Some(Readable(f))
  {
    hide Varint, TableBytes, FunctionsBytes, GlobalsBytes, DebugBytes, ReadBodies;
    forall id: nat ensures Find(placed, id) == FindSection(f.Sections(), id) {
      FindPlaced(12, f.Sections(), id);
    }
    SectionsFound(f, CONSTANT_SECTION);
    SectionsFound(f, DEBUG_SECTION);
    SectionsFound(f, TYPE_SECTION);
    SectionsFound(f, STRING_SECTION);
    TablesFound(f);
    BodiesRead(f, Find(placed, GLOBAL_SECTION), Find(placed, FUNC_SECTION).value, Find(placed, CONSTANT_SECTION).value,
               Find(placed, DEBUG_SECTION).value, Find(placed, TYPE_SECTION).value, Find(placed, STRING_SECTION).value);
  }

  // ---------------------------------------------------------------- alignment in the file

  /** Wherever it ends up, each table's offset array is aligned in the file. */
  lemma TablesAlignedInFile(f: File, i: nat)
    requires AllValid(f.Sections()) && i < |f.Sections()|
    ensures var start := Place(12, f.Sections())[i].start;
      && (f.Sections()[i].id == CONSTANT_SECTION ==> (start + OffsetsStart(0, f.constants, 8)) % 8 == 0)
      && (f.Sections()[i].id == TYPE_SECTION ==> (start + OffsetsStart(0, f.types, 4)) % 4 == 0)
      && (f.Sections()[i].id == STRING_SECTION ==> (start + OffsetsStart(0, f.strings, 4)) % 4 == 0)
  {
    hide Varint, TableBytes, FunctionsBytes, GlobalsBytes, DebugBytes;
    PlacesAligned(12, f.Sections(), i);
    var s, start := f.Sections()[i], Place(12, f.Sections())[i].start;
    if s.id == CONSTANT_SECTION {
      OffsetsAligned(start, 8, 0, f.constants, 8);
    } else if s.id == TYPE_SECTION {
      OffsetsAligned(start, 4, 0, f.types, 4);
    } else if s.id == STRING_SECTION {
      OffsetsAligned(start, 4, 0, f.strings, 4);
    }
  }

  /** Where in the debug section the function index begins. */
  function IndexStart(infos: seq<seq<nat>>): nat {
    var c := |Varint(|infos|)|;
    c + |Padding(c, INDEX_WIDTH)|
  }

  /** Where the attribute numbers of all operations begin. */
  function IdsStart(infos: seq<seq<nat>>): nat {
    var p := IndexStart(infos) + |FixedList(Starts(infos, 0), INDEX_WIDTH)| + |Varint(|Flatten(infos)|)|;
    p + |Padding(p, ID_WIDTH)|
  }

  /** Where the attribute table begins. */
  function AttrsPosition(infos: seq<seq<nat>>): nat {
    IdsStart(infos) + |FixedList(Flatten(infos), ID_WIDTH)|
  }

  lemma DebugStartsAligned(infos: seq<seq<nat>>)
    ensures IndexStart(infos) % 4 == 0 && IdsStart(infos) % 8 == 0
  {
    var c := |Varint(|infos|)|;
    PaddingAligns(c, INDEX_WIDTH);
    var p := IndexStart(infos) + |FixedList(Starts(infos, 0), INDEX_WIDTH)| + |Varint(|Flatten(infos)|)|;
    PaddingAligns(p, ID_WIDTH);
  }

  /** In the file, the function index is aligned to 4 bytes, the attribute numbers to 8 and the offsets to 4. */
  lemma DebugAlignedInFile(f: File, i: nat)
    requires AllValid(f.Sections()) && i < |f.Sections()| && f.Sections()[i].id == DEBUG_SECTION
    ensures var start := Place(12, f.Sections())[i].start;
      && (start + IndexStart(f.debugInfos)) % 4 == 0
      && (start + IdsStart(f.debugInfos)) % 8 == 0
      && (start + OffsetsStart(AttrsPosition(f.debugInfos), NonEmpty(f.debugAttrs), INDEX_WIDTH)) % 4 == 0
  {
    hide FixedList, OffsetsStart, Place, IndexStart, IdsStart, AttrsPosition, Flatten, Starts;
    PlacesAligned(12, f.Sections(), i);
    var start := Place(12, f.Sections())[i].start;
    DebugStartsAligned(f.debugInfos);
    MultipleOfMultiple(start, 8, 4);
    SumOfMultiples(start, IndexStart(f.debugInfos), 4);
    SumOfMultiples(start, IdsStart(f.debugInfos), 8);
    OffsetsAligned(start, 8, AttrsPosition(f.debugInfos), NonEmpty(f.debugAttrs), INDEX_WIDTH);
  }

  /** The arrays of the debug section do begin there. */
  lemma DebugArraysThere(infos: seq<seq<nat>>, attrs: seq<Bytes>)
    ensures At(DebugBytes(infos, attrs), IndexStart(infos), FixedList(Starts(infos, 0), INDEX_WIDTH))
    ensures At(DebugBytes(infos, attrs), IdsStart(infos), FixedList(Flatten(infos), ID_WIDTH))
    ensures At(DebugBytes(infos, attrs), OffsetsStart(AttrsPosition(infos), NonEmpty(attrs), INDEX_WIDTH),
               FixedList(Starts(NonEmpty(attrs), 0), INDEX_WIDTH))
  {
    hide FixedList, Varint, Flatten, Starts, NonEmpty, TableBytes, At, OffsetsStart;
    var body := DebugBytes(infos, attrs);
    var c, starts := Varint(|infos|), FixedList(Starts(infos, 0), INDEX_WIDTH);
    var pad, total := Padding(|c|, INDEX_WIDTH), Varint(|Flatten(infos)|);
    var position := |c| + |pad + starts| + |total|;
    var pad', ids := Padding(position, ID_WIDTH), FixedList(Flatten(infos), ID_WIDTH);
    var p := AttrsPosition(infos);
    var table := TableBytes(p, NonEmpty(attrs), INDEX_WIDTH);
    PiecesAt(c, pad, starts, total, pad', ids, table, body);
    OffsetsThere(p, NonEmpty(attrs), INDEX_WIDTH);
    AtNested(body, p, table, OffsetsStart(p, NonEmpty(attrs), INDEX_WIDTH) - p,
             FixedList(Starts(NonEmpty(attrs), 0), INDEX_WIDTH));
  }

  lemma PiecesAt(c: Bytes, pad: Bytes, starts: Bytes, total: Bytes, pad': Bytes, ids: Bytes, table: Bytes, body: Bytes)
    requires body == ((c + (pad + starts)) + (total + (pad' + ids))) + table
    ensures At(body, |c| + |pad|, starts)
    ensures At(body, |c| + |pad| + |starts| + |total| + |pad'|, ids)
    ensures At(body, |c| + |pad| + |starts| + |total| + |pad'| + |ids|, table)
  {
    var rest := total + ((pad' + ids) + table);
    assert body == (c + pad) + (starts + rest);
    AtMiddle(c + pad, starts, rest, body);
    var before := ((c + (pad + starts)) + total) + pad';
    assert body == before + (ids + table);
    AtMiddle(before, ids, table, body);
    assert body == (before + ids) + (table + []);
    AtMiddle(before + ids, table, [], body);
  }

  lemma AtNested<T>(whole: seq<T>, start: nat, inner: seq<T>, offset: nat, part: seq<T>)
    requires At(whole, start, inner) && At(inner, offset, part)
    ensures At(whole, start + offset, part)
  {
    var cut := whole[start + offset..start + offset + |part|];
    forall k | 0 <= k < |part| ensures cut[k] == part[k] {
      assert whole[start..start + |inner|][offset + k] == inner[offset + k];
      assert inner[offset..offset + |part|][k] == part[k];
    }
  }
}
