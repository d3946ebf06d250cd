/**
 The layout of a bytecode file: a header, then sections, some of which hold tables.

 Main results: a reader recovers every section and every table entry at its identifier, and
 every padded array of offsets is aligned at its position in the file, not only in its section.
 */
module Container {
  import opened Basic
  import opened Bits
  import opened Sequences
  import opened Wrappers

  // ---------------------------------------------------------------- padding

  function Padding(position: int, alignment: int): (p: Bytes)
    requires 0 <= position && 0 < alignment
    ensures |p| == (-position) % alignment
  {
    seq((-position) % alignment, _ => 0xcb)
  }

  lemma PaddingAligns(position: int, alignment: int)
    requires 0 <= position && 0 < alignment
    ensures (position + |Padding(position, alignment)|) % alignment == 0
  {
    var q := (-position) / alignment;
    assert -position == alignment * q + (-position) % alignment;
    ModUnique(position + (-position) % alignment, alignment, -q, 0);
  }

  /** Skips the padding at `s`, which is followed by everything up to position `end`. */
  function SkipPadding(s: Bytes, end: nat, alignment: nat): (r: Option<Bytes>)
    requires 0 < alignment && |s| <= end
    ensures r.Some? ==> |r.value| <= |s|
  {
    var n := (-(end - |s|)) % alignment;
    if n <= |s| then Some(s[n..]) else None
  }

  lemma PaddingSkips(position: nat, alignment: nat, rest: Bytes, end: nat)
    requires 0 < alignment && end == position + |Padding(position, alignment)| + |rest|
    ensures SkipPadding(Padding(position, alignment) + rest, end, alignment) == Some(rest)
  {
    Front(Padding(position, alignment), rest);
  }

  // ---------------------------------------------------------------- arrays of fixed width

  function FixedList(xs: seq<nat>, width: nat): Bytes {
    if xs == [] then [] else LittleEndian(xs[0], width) + FixedList(xs[1..], width)
  }

  /** All numbers have room in `width` bytes. */
  predicate FitWidth(xs: seq<nat>, width: nat) {
    xs == [] || (xs[0] < Pow2(8 * width) && FitWidth(xs[1..], width))
  }

  lemma {:induction false} FitAppend(xs: seq<nat>, x: nat, width: nat)
    ensures FitWidth(xs + [x], width) <==> FitWidth(xs, width) && x < Pow2(8 * width)
  {
    if xs == [] {
      assert [x][1..] == [] && xs + [x] == [x];
    } else {
      assert (xs + [x])[1..] == xs[1..] + [x];
      FitAppend(xs[1..], x, width);
    }
  }

  /** If all numbers fit, so do the first ones. */
  lemma {:induction false} FitPrefix(xs: seq<nat>, n: nat, width: nat)
    requires n <= |xs| && FitWidth(xs, width)
    ensures FitWidth(xs[..n], width)
  {
    if n != 0 {
      assert xs[..n][1..] == xs[1..][..n - 1];
      FitPrefix(xs[1..], n - 1, width);
    }
  }

  lemma {:induction false} FixedAppend(xs: seq<nat>, x: nat, width: nat)
    ensures FixedList(xs + [x], width) == FixedList(xs, width) + LittleEndian(x, width)
  {
    if xs == [] {
      assert FixedList([x], width) == LittleEndian(x, width) + FixedList([], width);
    } else {
      assert (xs + [x])[1..] == xs[1..] + [x];
      FixedAppend(xs[1..], x, width);
      Assoc(LittleEndian(xs[0], width), FixedList(xs[1..], width), LittleEndian(x, width));
    }
  }

  function ReadFixed(s: Bytes, n: nat, width: nat): (r: Option<(seq<nat>, Bytes)>)
    ensures r.Some? ==> |r.value.1| <= |s|
  {
    if n == 0 then Some(([], s))
    else if |s| < width then None
    else
      match ReadFixed(s[width..], n - 1, width)
      case None => None
      case Some((xs, rest)) => Some(([FromLittleEndian(s[..width])] + xs, rest))
  }

  lemma {:induction false} FixedRoundTrip(xs: seq<nat>, width: nat, rest: Bytes)
    requires FitWidth(xs, width)
    ensures ReadFixed(FixedList(xs, width) + rest, |xs|, width) == Some((xs, rest))
  {
    if xs == [] {
      assert FixedList(xs, width) + rest == rest;
    } else {
      var first := LittleEndian(xs[0], width);
      Assoc(first, FixedList(xs[1..], width), rest);
      Front(first, FixedList(xs[1..], width) + rest);
      LittleEndianRoundTrip(xs[0], width);
      FixedRoundTrip(xs[1..], width, rest);
      assert [xs[0]] + xs[1..] == xs;
    }
  }

  // ---------------------------------------------------------------- where pieces start

  function Flatten<T>(pieces: seq<seq<T>>): seq<T> {
    if pieces == [] then [] else pieces[0] + Flatten(pieces[1..])
  }

  function Starts<T>(pieces: seq<seq<T>>, offset: nat): (starts: seq<nat>)
    ensures |starts| == |pieces|
  {
    if pieces == [] then [] else [offset] + Starts(pieces[1..], offset + |pieces[0]|)
  }

  lemma {:induction false} FlattenAppend<T>(pieces: seq<seq<T>>, piece: seq<T>)
    ensures Flatten(pieces + [piece]) == Flatten(pieces) + piece
  {
    if pieces == [] {
      assert Flatten([piece]) == piece + Flatten([]);
    } else {
      assert (pieces + [piece])[1..] == pieces[1..] + [piece];
      FlattenAppend(pieces[1..], piece);
      Assoc(pieces[0], Flatten(pieces[1..]), piece);
    }
  }

  lemma {:induction false} StartsAppend<T>(pieces: seq<seq<T>>, piece: seq<T>, offset: nat)
    ensures Starts(pieces + [piece], offset) == Starts(pieces, offset) + [offset + |Flatten(pieces)|]
  {
    if pieces == [] {
      assert [piece][1..] == [];
      assert pieces + [piece] == [piece];
    } else {
      assert (pieces + [piece])[1..] == pieces[1..] + [piece];
      StartsAppend(pieces[1..], piece, offset + |pieces[0]|);
      Assoc([offset], Starts(pieces[1..], offset + |pieces[0]|), [offset + |Flatten(pieces)|]);
    }
  }

  /** Cuts `data` at the given starts; the last piece ends where the data does. */
  function Slices<T>(starts: seq<nat>, data: seq<T>): Option<seq<seq<T>>> {
    if starts == [] then Some([])
    else
      var end := if |starts| == 1 then |data| else starts[1];
      if starts[0] <= end <= |data| then
        match Slices(starts[1..], data)
        case None => None
        case Some(pieces) => Some([data[starts[0]..end]] + pieces)
      else None
  }

  lemma {:induction false} SlicesRoundTrip<T>(pieces: seq<seq<T>>, before: seq<T>)
    ensures Slices(Starts(pieces, |before|), before + Flatten(pieces)) == Some(pieces)
  {
    if pieces != [] {
      var data, next := before + Flatten(pieces), before + pieces[0];
      Assoc(before, pieces[0], Flatten(pieces[1..]));
      SlicesRoundTrip(pieces[1..], next);
      if |pieces| == 1 {
        assert Flatten(pieces[1..]) == [];
      } else {
        assert Starts(pieces, |before|)[1] == |next|;
      }
      assert data[|before|..|next|] == pieces[0];
      assert [pieces[0]] + pieces[1..] == pieces;
    }
  }

  // ---------------------------------------------------------------- tables

  /** A table written at position `position` of its section. */
  function TableBytes(position: nat, keys: seq<Bytes>, width: nat): Bytes
    requires 0 < width
  {
    var count := Varint(|keys|);
    count + (Padding(position + |count|, width) + (FixedList(Starts(keys, 0), width) + Flatten(keys)))
  }

  /** Where in its section the table's offsets begin. */
  function OffsetsStart(position: nat, keys: seq<Bytes>, width: nat): nat
    requires 0 < width
  {
    var n := position + |Varint(|keys|)|;
    n + |Padding(n, width)|
  }

  /** `part` stands at `offset` of `whole`. */
  predicate At<T(==)>(whole: seq<T>, offset: nat, part: seq<T>) {
    offset + |part| <= |whole| && whole[offset..offset + |part|] == part
  }

  lemma AtMiddle<T>(before: seq<T>, part: seq<T>, after: seq<T>, whole: seq<T>)
    requires whole == before + (part + after)
    ensures At(whole, |before|, part)
  {
  }

  /** The offsets do begin there. */
  lemma OffsetsThere(position: nat, keys: seq<Bytes>, width: nat)
    requires 0 < width
    ensures position <= OffsetsStart(position, keys, width)
    ensures At(TableBytes(position, keys, width), OffsetsStart(position, keys, width) - position,
               FixedList(Starts(keys, 0), width))
  {
    var count := Varint(|keys|);
    var pad, list := Padding(position + |count|, width), FixedList(Starts(keys, 0), width);
    Assoc(count, pad, list + Flatten(keys));
    AtMiddle(count + pad, list, Flatten(keys), TableBytes(position, keys, width));
  }

  /** Every offset has room in its field. */
  predicate TableFits(keys: seq<Bytes>, width: nat) {
    FitWidth(Starts(keys, 0), width)
  }

  /** Reads the table that takes up the rest of a section, which ends at position `end`. */
  function ReadTable(s: Bytes, end: nat, width: nat): Option<seq<Bytes>>
    requires 0 < width && |s| <= end
  {
    match ReadVarint(s)
    case None => None
    case Some((n, s1)) =>
      match SkipPadding(s1, end, width)
      case None => None
      case Some(s2) =>
        match ReadFixed(s2, n, width)
        case None => None
        case Some((starts, data)) => Slices(starts, data)
  }

  lemma TableRoundTrip(position: nat, keys: seq<Bytes>, width: nat, table: Bytes, end: nat)
    requires 0 < width && TableFits(keys, width)
    requires table == TableBytes(position, keys, width) && end == position + |table|
    ensures ReadTable(table, end, width) == Some(keys)
  {
    var count := Varint(|keys|);
    var pad := Padding(position + |count|, width);
    var list, data := FixedList(Starts(keys, 0), width), Flatten(keys);
    VarintRoundTrip(|keys|, pad + (list + data));
    PaddingSkips(position + |count|, width, list + data, end);
    FixedRoundTrip(Starts(keys, 0), width, data);
    SlicesRoundTrip(keys, []);
    assert [] + data == data;
  }

  /** In a section that starts at a multiple of `alignment`, the offsets are aligned in the file. */
  lemma OffsetsAligned(start: nat, alignment: nat, position: nat, keys: seq<Bytes>, width: nat)
    requires 0 < alignment && 0 < width && alignment % width == 0 && start % alignment == 0
    ensures (start + OffsetsStart(position, keys, width)) % width == 0
  {
    PaddingAligns(position + |Varint(|keys|)|, width);
    MultipleOfMultiple(start, alignment, width);
    SumOfMultiples(start, OffsetsStart(position, keys, width), width);
  }

  lemma SumOfMultiples(x: int, y: int, w: int)
    requires 0 < w && x % w == 0 && y % w == 0
    ensures (x + y) % w == 0
  {
    assert x == w * (x / w) && y == w * (y / w);
    assert w * (x / w + y / w) == w * (x / w) + w * (y / w);
    ModUnique(x + y, w, x / w + y / w, 0);
  }

  // ---------------------------------------------------------------- debug information

  /** The decoder cannot handle an empty attribute table: one dummy entry stands in for it. */
  function NonEmpty(attrs: seq<Bytes>): seq<Bytes> {
    if attrs == [] then [[0]] else attrs
  }

  const INDEX_WIDTH: nat := 4
  const ID_WIDTH: nat := 8

  /** How many functions there are, and for each where its attribute numbers start. */
  function IndexBytes(infos: seq<seq<nat>>): Bytes {
    var count := Varint(|infos|);
    count + (Padding(|count|, INDEX_WIDTH) + FixedList(Starts(infos, 0), INDEX_WIDTH))
  }

  /** How many attribute numbers there are, and the numbers of all functions. */
  function NumbersBytes(position: nat, infos: seq<seq<nat>>): Bytes {
    var count := Varint(|Flatten(infos)|);
    count + (Padding(position + |count|, ID_WIDTH) + FixedList(Flatten(infos), ID_WIDTH))
  }

  /** The list of attributes per operation, for each function, and the attributes themselves. */
  function DebugBytes(infos: seq<seq<nat>>, attrs: seq<Bytes>): Bytes {
    var head := IndexBytes(infos);
    var numbers := head + NumbersBytes(|head|, infos);
    numbers + TableBytes(|numbers|, NonEmpty(attrs), INDEX_WIDTH)
  }

  predicate DebugFits(infos: seq<seq<nat>>, attrs: seq<Bytes>) {
    FitWidth(Starts(infos, 0), INDEX_WIDTH) && FitWidth(Flatten(infos), ID_WIDTH)
    && TableFits(NonEmpty(attrs), INDEX_WIDTH)
  }

  function ReadCounted(s: Bytes, end: nat, width: nat, n: nat): (r: Option<(seq<nat>, Bytes)>)
    requires 0 < width && |s| <= end
    ensures r.Some? ==> |r.value.1| <= |s|
  {
    match SkipPadding(s, end, width)
    case None => None
    case Some(s1) => ReadFixed(s1, n, width)
  }

  lemma CountedRoundTrip(position: nat, xs: seq<nat>, width: nat, list: Bytes, rest: Bytes, end: nat)
    requires 0 < width && FitWidth(xs, width)
    requires list == Padding(position, width) + FixedList(xs, width) && end == position + |list| + |rest|
    ensures ReadCounted(list + rest, end, width, |xs|) == Some((xs, rest))
  {
    Assoc(Padding(position, width), FixedList(xs, width), rest);
    PaddingSkips(position, width, FixedList(xs, width) + rest, end);
    FixedRoundTrip(xs, width, rest);
  }

  /** The attributes of all operations, and the table they refer to. */
  function ReadIds(s: Bytes, end: nat, idWidth: nat, width: nat): Option<(seq<nat>, seq<Bytes>)>
    requires |s| <= end && 0 < idWidth && 0 < width
  {
    match ReadVarint(s)
    case None => None
    case Some((total, s1)) =>
      match ReadCounted(s1, end, idWidth, total)
      case None => None
      case Some((ids, s2)) =>
        match ReadTable(s2, end, width)
        case None => None
        case Some(attrs) => Some((ids, attrs))
  }

  function ReadDebug(s: Bytes): Option<(seq<seq<nat>>, seq<Bytes>)> {
    match ReadVarint(s)
    case None => None
    case Some((n, s1)) =>
      match ReadCounted(s1, |s|, INDEX_WIDTH, n)
      case None => None
      case Some((starts, s2)) =>
        match ReadIds(s2, |s|, ID_WIDTH, INDEX_WIDTH)
        case None => None
        case Some((ids, attrs)) =>
          match Slices(starts, ids)
          case None => None
          case Some(infos) => Some((infos, attrs))
  }

  lemma IdsRoundTrip(position: nat, ids: seq<nat>, attrs: seq<Bytes>, idWidth: nat, width: nat,
                     total: Bytes, list: Bytes, table: Bytes, end: nat)
    requires 0 < idWidth && 0 < width && FitWidth(ids, idWidth) && TableFits(attrs, width) && total == Varint(|ids|)
    requires list == Padding(position + |total|, idWidth) + FixedList(ids, idWidth)
    requires table == TableBytes(position + |total| + |list|, attrs, width)
    requires end == position + |total| + |list| + |table|
    ensures ReadIds(total + (list + table), end, idWidth, width) == Some((ids, attrs))
  {
    VarintRoundTrip(|ids|, list + table);
    CountedRoundTrip(position + |total|, ids, idWidth, list, table, end);
    TableRoundTrip(position + |total| + |list|, attrs, width, table, end);
  }

  lemma DebugRoundTrip(infos: seq<seq<nat>>, attrs: seq<Bytes>, s: Bytes)
    requires DebugFits(infos, attrs) && s == DebugBytes(infos, attrs)
    ensures ReadDebug(s) == Some((infos, NonEmpty(attrs)))
  {
    var c, total := Varint(|infos|), Varint(|Flatten(infos)|);
    var starts := Padding(|c|, INDEX_WIDTH) + FixedList(Starts(infos, 0), INDEX_WIDTH);
    var position := |c| + |starts|;
    var ids := Padding(position + |total|, ID_WIDTH) + FixedList(Flatten(infos), ID_WIDTH);
    var table := TableBytes(position + |total| + |ids|, NonEmpty(attrs), INDEX_WIDTH);
    Pieces(c, starts, total, ids, table);
    VarintRoundTrip(|infos|, starts + (total + (ids + table)));
    CountedRoundTrip(|c|, Starts(infos, 0), INDEX_WIDTH, starts, total + (ids + table), |s|);
    IdsRoundTrip(position, Flatten(infos), NonEmpty(attrs), ID_WIDTH, INDEX_WIDTH, total, ids, table, |s|);
    SlicesRoundTrip(infos, []);
    assert [] + Flatten(infos) == Flatten(infos);
  }

  lemma Pieces(c: Bytes, starts: Bytes, total: Bytes, ids: Bytes, table: Bytes)
    ensures ((c + starts) + (total + ids)) + table == c + (starts + (total + (ids + table)))
  {
  }

  // ---------------------------------------------------------------- sections

  datatype Section = Section(id: nat, alignment: nat, body: Bytes) {
    predicate Valid() {
      0 < id < 128 && 0 < alignment
    }
  }

  const STRING_SECTION := 1
  const FUNC_SECTION := 2
  const DEBUG_SECTION := 3
  const CONSTANT_SECTION := 4
  const TYPE_SECTION := 5
  const GLOBAL_SECTION := 6

  /** What comes before a section's body, for a section written at `position` of the file. */
  function SectionHeader(position: nat, s: Section): Bytes
    requires s.Valid()
  {
    if s.alignment == 1 then [s.id] + Varint(|s.body|)
    else
      var head := [s.id + 128] + (Varint(|s.body|) + Varint(s.alignment));
      head + Padding(position + |head|, s.alignment)
  }

  lemma BodyAligned(position: nat, s: Section)
    requires s.Valid()
    ensures (position + |SectionHeader(position, s)|) % s.alignment == 0
  {
    if s.alignment != 1 {
      PaddingAligns(position + |[s.id + 128] + (Varint(|s.body|) + Varint(s.alignment))|, s.alignment);
    }
  }

  predicate AllValid(sections: seq<Section>) {
    sections == [] || (sections[0].Valid() && AllValid(sections[1..]))
  }

  function SectionsBytes(position: nat, sections: seq<Section>): Bytes
    requires AllValid(sections)
    decreases |sections|
  {
    if sections == [] then [0]
    else
      var head := SectionHeader(position, sections[0]);
      (head + sections[0].body)
        + SectionsBytes(position + |head| + |sections[0].body|, sections[1..])
  }

  /** A section and where in the file its body starts. */
  datatype Placed = Placed(section: Section, start: nat)

  function ReadSectionHeader(s: Bytes, end: nat): (r: Option<(nat, nat, nat, Bytes)>)
    requires |s| <= end
    ensures r.Some? ==> |r.value.3| < |s|
  {
    if s == [] then None
    else
      match ReadVarint(s[1..])
      case None => None
      case Some((size, s1)) =>
        if s[0] < 128 then Some((s[0], 1, size, s1))
        else
          match ReadVarint(s1)
          case None => None
          case Some((alignment, s2)) =>
            if alignment == 0 then None
            else
              match SkipPadding(s2, end, alignment)
              case None => None
              case Some(s3) => Some((s[0] - 128, alignment, size, s3))
  }

  lemma HeaderRoundTrip(position: nat, section: Section, rest: Bytes, end: nat)
    requires section.Valid() && end == position + |SectionHeader(position, section)| + |rest|
    ensures ReadSectionHeader(SectionHeader(position, section) + rest, end)
         == Some((section.id, section.alignment, |section.body|, rest))
    ensures (SectionHeader(position, section) + rest)[0] != 0
  {
    hide Varint, ReadVarint, Padding;
    var size, alignment := Varint(|section.body|), Varint(section.alignment);
    if section.alignment == 1 {
      Assoc([section.id], size, rest);
      Tail(section.id, size + rest);
      VarintRoundTrip(|section.body|, rest);
    } else {
      var tag: Byte := section.id + 128;
      var n := position + |[tag] + (size + alignment)|;
      var pad := Padding(n, section.alignment);
      Assoc([tag] + (size + alignment), pad, rest);
      Assoc([tag], size + alignment, pad + rest);
      Assoc(size, alignment, pad + rest);
      Tail(tag, size + (alignment + (pad + rest)));
      VarintRoundTrip(|section.body|, alignment + (pad + rest));
      VarintRoundTrip(section.alignment, pad + rest);
      PaddingSkips(n, section.alignment, rest, end);
    }
  }

  /** Sections up to the end mark, with nothing after it. */
  function ReadSections(s: Bytes, end: nat): Option<seq<Placed>>
    requires |s| <= end
    decreases |s|
  {
    if s == [0] then Some([])
    else
      match ReadSectionHeader(s, end)
      case None => None
      case Some((id, alignment, size, s1)) =>
        if size > |s1| then None
        else
          match ReadSections(s1[size..], end)
          case None => None
          case Some(others) => Some([Placed(Section(id, alignment, s1[..size]), end - |s1|)] + others)
  }

  function Place(position: nat, sections: seq<Section>): (placed: seq<Placed>)
    requires AllValid(sections)
    ensures |placed| == |sections|
    ensures forall i | 0 <= i < |placed| :: placed[i].section == sections[i]
    decreases |sections|
  {
    if sections == [] then []
    else
      var start := position + |SectionHeader(position, sections[0])|;
      [Placed(sections[0], start)] + Place(start + |sections[0].body|, sections[1..])
  }

  /** The reader finds every section where the writer put it. */
  lemma {:induction false} SectionsRoundTrip(position: nat, sections: seq<Section>, s: Bytes, end: nat,
                                             placed: seq<Placed>)
    requires AllValid(sections) && s == SectionsBytes(position, sections) && end == position + |s|
    requires placed == Place(position, sections)
    ensures ReadSections(s, end) == Some(placed)
    decreases |sections|
  {
    if sections != [] {
      var first, others := sections[0], sections[1..];
      var head := SectionHeader(position, first);
      var next := position + |head| + |first.body|;
      var rest := SectionsBytes(next, others);
      SectionsSplit(position, sections, first, others, head, next, rest, s, placed);
      SectionsRoundTrip(next, others, rest, end, Place(next, others));
      SectionRoundTrip(position, first, head, rest, end, Place(next, others), s, placed);
    }
  }

  lemma {:induction false} SectionsSplit(position: nat, sections: seq<Section>, first: Section, others: seq<Section>,
                                         head: Bytes, next: nat,
                      rest: Bytes, s: Bytes, placed: seq<Placed>)
    requires AllValid(sections) && sections != [] && first == sections[0] && others == sections[1..]
    requires head == SectionHeader(position, first) && next == position + |head| + |first.body|
    requires rest == SectionsBytes(next, others)
    requires s == SectionsBytes(position, sections) && placed == Place(position, sections)
    ensures s == head + (first.body + rest)
    ensures placed == [Placed(first, position + |head|)] + Place(next, others)
  {
    Assoc(head, first.body, rest);
  }

  lemma SectionRoundTrip(position: nat, first: Section, head: Bytes, rest: Bytes, end: nat, others: seq<Placed>,
                         s: Bytes,
                         placed: seq<Placed>)
    requires first.Valid() && head == SectionHeader(position, first)
    requires s == head + (first.body + rest) && end == position + |s|
    requires ReadSections(rest, end) == Some(others) && placed == [Placed(first, position + |head|)] + others
    ensures ReadSections(s, end) == Some(placed)
  {
    HeaderRoundTrip(position, first, first.body + rest, end);
    Front(first.body, rest);
  }

  /** Every section's body starts at a multiple of the section's alignment. */
  lemma {:induction false} PlacesAligned(position: nat, sections: seq<Section>, i: nat)
    requires AllValid(sections) && i < |sections|
    ensures sections[i].Valid() && Place(position, sections)[i].start % sections[i].alignment == 0
    decreases |sections|
  {
    BodyAligned(position, sections[0]);
    if i != 0 {
      PlacesAligned(position + |SectionHeader(position, sections[0])| + |sections[0].body|, sections[1..], i - 1);
    }
  }
}
