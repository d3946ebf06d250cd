/**
 Optimisation hints of entry points: a dictionary of dictionaries of integers, whose names are
 numbers in the string table.

 Main result: a reader that has the string table finds, for every architecture, the hints that
 were given, their values modulo 2^32.
 */
module Hints {
  import opened Basic
  import opened Bits
  import opened Sequences
  import opened Wrappers

  // ---------------------------------------------------------------- hints

  datatype EntryHints = EntryHints(numCtaInCga: Option<int>, occupancy: Option<int>, workerWarps: Option<int>)

  function Ascii(s: string): Bytes
    requires forall i | 0 <= i < |s| :: s[i] < 128 as char
  {
    seq(|s|, i requires 0 <= i < |s| => s[i] as int)
  }

  const NUM_CTA_IN_CGA: Bytes := Ascii("num_cta_in_cga")
  const OCCUPANCY: Bytes := Ascii("occupancy")
  const NUM_WORKER_WARPS: Bytes := Ascii("num_worker_warps_per_cta")

  lemma NamesDiffer()
    ensures NUM_CTA_IN_CGA != OCCUPANCY && OCCUPANCY != NUM_WORKER_WARPS && NUM_WORKER_WARPS != NUM_CTA_IN_CGA
  {
    assert |NUM_CTA_IN_CGA| == 14 && |OCCUPANCY| == 9 && |NUM_WORKER_WARPS| == 24;
  }

  function Item(name: Bytes, value: Option<int>): seq<(Bytes, int)> {
    if value.None? then [] else [(name, value.value)]
  }

  /** The hints that are given, in their order. */
  function Items(h: EntryHints): seq<(Bytes, int)> {
    Item(NUM_CTA_IN_CGA, h.numCtaInCga) + Item(OCCUPANCY, h.occupancy) + Item(NUM_WORKER_WARPS, h.workerWarps)
  }

  const WORD32: int := 0x1_0000_0000

  function Low32(x: Option<int>): Option<int> {
    if x.None? then None else Some(x.value % WORD32)
  }

  /** What a file can hold of a hint. */
  function Stored32(h: EntryHints): EntryHints {
    EntryHints(Low32(h.numCtaInCga), Low32(h.occupancy), Low32(h.workerWarps))
  }

  // ---------------------------------------------------------------- their bytes

  const INTEGER_TAG: Byte := 0x01
  const DICTIONARY_TAG: Byte := 0x0a
  const HINTS_TAG: Byte := 0x0b
  const I32_TYPE_ID: nat := 1

  /** A name, by its number, and an integer attribute. */
  datatype HintRecord = HintRecord(keyId: nat, typeId: nat, value: nat)

  datatype ArchRecord = ArchRecord(archId: nat, hints: seq<HintRecord>)

  function HintBytes(r: HintRecord): Bytes {
    Varint(r.keyId) + ([INTEGER_TAG] + (Varint(r.typeId) + Varint(r.value)))
  }

  function HintsBytes(rs: seq<HintRecord>): Bytes {
    if rs == [] then [] else HintBytes(rs[0]) + HintsBytes(rs[1..])
  }

  function ArchBytes(a: ArchRecord): Bytes {
    Varint(a.archId) + ([DICTIONARY_TAG] + (Varint(|a.hints|) + HintsBytes(a.hints)))
  }

  function ArchsBytes(archs: seq<ArchRecord>): Bytes {
    if archs == [] then [] else ArchBytes(archs[0]) + ArchsBytes(archs[1..])
  }

  function OptimizationBytes(archs: seq<ArchRecord>): Bytes {
    [HINTS_TAG] + (Varint(|archs|) + ArchsBytes(archs))
  }

  /** The rest after a tag. */
  function ReadTag(s: Bytes, tag: Byte): (r: Option<Bytes>)
    ensures r.Some? ==> |r.value| < |s|
  {
    if s == [] || s[0] != tag then None else Some(s[1..])
  }

  function ReadHint(s: Bytes): (r: Option<(HintRecord, Bytes)>)
    ensures r.Some? ==> |r.value.1| < |s|
  {
    match ReadVarint(s)
    case None => None
    case Some((keyId, s1)) =>
      match ReadTag(s1, INTEGER_TAG)
      case None => None
      case Some(s2) =>
        match ReadVarints(s2, 2)
        case None => None
        case Some((xs, rest)) => if |xs| != 2 then None else Some((HintRecord(keyId, xs[0], xs[1]), rest))
  }

  function ReadHints(s: Bytes, n: nat): (r: Option<(seq<HintRecord>, Bytes)>)
    ensures r.Some? ==> |r.value.1| <= |s|
    decreases n
  {
    if n == 0 then Some(([], s))
    else
      match ReadHint(s)
      case None => None
      case Some((x, rest)) =>
        match ReadHints(rest, n - 1)
        case None => None
        case Some((xs, rest')) => Some(([x] + xs, rest'))
  }

  function ReadArch(s: Bytes): (r: Option<(ArchRecord, Bytes)>)
    ensures r.Some? ==> |r.value.1| < |s|
  {
    match ReadVarint(s)
    case None => None
    case Some((archId, s1)) =>
      match ReadTag(s1, DICTIONARY_TAG)
      case None => None
      case Some(s2) =>
        match ReadVarint(s2)
        case None => None
        case Some((n, s3)) =>
          match ReadHints(s3, n)
          case None => None
          case Some((hints, rest)) => Some((ArchRecord(archId, hints), rest))
  }

  function ReadArchs(s: Bytes, n: nat): (r: Option<(seq<ArchRecord>, Bytes)>)
    ensures r.Some? ==> |r.value.1| <= |s|
    decreases n
  {
    if n == 0 then Some(([], s))
    else
      match ReadArch(s)
      case None => None
      case Some((x, rest)) =>
        match ReadArchs(rest, n - 1)
        case None => None
        case Some((xs, rest')) => Some(([x] + xs, rest'))
  }

  function ReadOptimization(s: Bytes): (r: Option<(seq<ArchRecord>, Bytes)>)
    ensures r.Some? ==> |r.value.1| < |s|
  {
    match ReadTag(s, HINTS_TAG)
    case None => None
    case Some(s1) =>
      match ReadVarint(s1)
      case None => None
      case Some((n, s2)) => ReadArchs(s2, n)
  }

  lemma ReadTagged(tag: Byte, rest: Bytes)
    ensures ReadTag([tag] + rest, tag) == Some(rest)
  {
    Tail(tag, rest);
  }

  lemma HintRoundTrip(r: HintRecord, rest: Bytes, s: Bytes)
    requires s == HintBytes(r) + rest
    ensures ReadHint(s) == Some((r, rest))
  {
    hide Varint, ReadVarint;
    var a, b, c := Varint(r.keyId), Varint(r.typeId), Varint(r.value);
    Assoc(a, [INTEGER_TAG] + (b + c), rest);
    Assoc([INTEGER_TAG], b + c, rest);
    VarintRoundTrip(r.keyId, [INTEGER_TAG] + ((b + c) + rest));
    ReadTagged(INTEGER_TAG, (b + c) + rest);
    TwoVarints(r.typeId, r.value);
    VarintsRoundTrip([r.typeId, r.value], rest);
  }

  lemma TwoVarints(x: nat, y: nat)
    ensures Varints([x, y]) == Varint(x) + Varint(y)
  {
    assert [x, y][1..] == [y] && [y][1..] == [];
    assert Varints([y]) == Varint(y) + [];
  }

  lemma {:induction false} HintsRoundTrip(rs: seq<HintRecord>, rest: Bytes, s: Bytes)
    requires s == HintsBytes(rs) + rest
    ensures ReadHints(s, |rs|) == Some((rs, rest))
  {
    hide HintBytes, ReadHint;
    if rs == [] {
      assert s == rest;
    } else {
      var more := HintsBytes(rs[1..]) + rest;
      Assoc(HintBytes(rs[0]), HintsBytes(rs[1..]), rest);
      HintRoundTrip(rs[0], more, s);
      HintsRoundTrip(rs[1..], rest, more);
      assert [rs[0]] + rs[1..] == rs;
    }
  }

  lemma ArchRoundTrip(a: ArchRecord, rest: Bytes, s: Bytes)
    requires s == ArchBytes(a) + rest
    ensures ReadArch(s) == Some((a, rest))
  {
    hide Varint, ReadVarint, HintsBytes, ReadHints;
    var x, n, h := Varint(a.archId), Varint(|a.hints|), HintsBytes(a.hints);
    Assoc(x, [DICTIONARY_TAG] + (n + h), rest);
    Assoc([DICTIONARY_TAG], n + h, rest);
    Assoc(n, h, rest);
    VarintRoundTrip(a.archId, [DICTIONARY_TAG] + (n + (h + rest)));
    ReadTagged(DICTIONARY_TAG, n + (h + rest));
    VarintRoundTrip(|a.hints|, h + rest);
    HintsRoundTrip(a.hints, rest, h + rest);
  }

  lemma {:induction false} ArchsRoundTrip(archs: seq<ArchRecord>, rest: Bytes, s: Bytes)
    requires s == ArchsBytes(archs) + rest
    ensures ReadArchs(s, |archs|) == Some((archs, rest))
  {
    hide ArchBytes, ReadArch;
    if archs == [] {
      assert s == rest;
    } else {
      var more := ArchsBytes(archs[1..]) + rest;
      Assoc(ArchBytes(archs[0]), ArchsBytes(archs[1..]), rest);
      ArchRoundTrip(archs[0], more, s);
      ArchsRoundTrip(archs[1..], rest, more);
      assert [archs[0]] + archs[1..] == archs;
    }
  }

  /** The hints of a function are read back, whatever follows. */
  lemma OptimizationRoundTrip(archs: seq<ArchRecord>, rest: Bytes)
    ensures ReadOptimization(OptimizationBytes(archs) + rest) == Some((archs, rest))
  {
    hide Varint, ReadVarint, ArchsBytes, ReadArchs;
    var n, a := Varint(|archs|), ArchsBytes(archs);
    Assoc([HINTS_TAG], n + a, rest);
    Assoc(n, a, rest);
    ReadTagged(HINTS_TAG, n + (a + rest));
    VarintRoundTrip(|archs|, a + rest);
    ArchsRoundTrip(archs, rest, a + rest);
  }

  lemma {:induction false} HintsAppend(rs: seq<HintRecord>, r: HintRecord)
    ensures HintsBytes(rs + [r]) == HintsBytes(rs) + HintBytes(r)
  {
    if rs == [] {
      assert HintsBytes([r]) == HintBytes(r) + HintsBytes([]);
    } else {
      assert (rs + [r])[1..] == rs[1..] + [r];
      HintsAppend(rs[1..], r);
      Assoc(HintBytes(rs[0]), HintsBytes(rs[1..]), HintBytes(r));
    }
  }

  lemma {:induction false} ArchsAppend(archs: seq<ArchRecord>, a: ArchRecord)
    ensures ArchsBytes(archs + [a]) == ArchsBytes(archs) + ArchBytes(a)
  {
    if archs == [] {
      assert ArchsBytes([a]) == ArchBytes(a) + ArchsBytes([]);
    } else {
      assert (archs + [a])[1..] == archs[1..] + [a];
      ArchsAppend(archs[1..], a);
      Assoc(ArchBytes(archs[0]), ArchsBytes(archs[1..]), ArchBytes(a));
    }
  }

  // ---------------------------------------------------------------- what the numbers stand for

  predicate IsName(strings: seq<Bytes>, id: nat, name: Bytes) {
    id < |strings| && strings[id] == name
  }

  predicate IsHint(strings: seq<Bytes>, item: (Bytes, int), r: HintRecord) {
    IsName(strings, r.keyId, item.0) && r.typeId == I32_TYPE_ID && r.value == item.1 % WORD32
  }

  predicate AreHints(strings: seq<Bytes>, items: seq<(Bytes, int)>, rs: seq<HintRecord>) {
    |rs| == |items| && forall k | 0 <= k < |items| :: IsHint(strings, items[k], rs[k])
  }

  predicate IsArch(strings: seq<Bytes>, arch: (Bytes, EntryHints), a: ArchRecord) {
    IsName(strings, a.archId, arch.0) && AreHints(strings, Items(arch.1), a.hints)
  }

  predicate AreArchs(strings: seq<Bytes>, hints: seq<(Bytes, EntryHints)>, archs: seq<ArchRecord>) {
    |archs| == |hints| && forall k | 0 <= k < |hints| :: IsArch(strings, hints[k], archs[k])
  }

  /** Numbers keep their meaning when strings are added. */
  lemma HintsStay(strings: seq<Bytes>, more: seq<Bytes>, items: seq<(Bytes, int)>, rs: seq<HintRecord>)
    requires AreHints(strings, items, rs) && strings <= more
    ensures AreHints(more, items, rs)
  {
    forall k | 0 <= k < |items| ensures IsHint(more, items[k], rs[k]) {
      assert IsHint(strings, items[k], rs[k]);
    }
  }

  lemma ArchsStay(strings: seq<Bytes>, more: seq<Bytes>, hints: seq<(Bytes, EntryHints)>, archs: seq<ArchRecord>)
    requires AreArchs(strings, hints, archs) && strings <= more
    ensures AreArchs(more, hints, archs)
  {
    forall k | 0 <= k < |hints| ensures IsArch(more, hints[k], archs[k]) {
      assert IsArch(strings, hints[k], archs[k]);
      HintsStay(strings, more, Items(hints[k].1), archs[k].hints);
    }
  }

  /** The value of the first hint of a name. */
  function ValueOf(strings: seq<Bytes>, rs: seq<HintRecord>, name: Bytes): Option<int> {
    if rs == [] then None
    else if IsName(strings, rs[0].keyId, name) then Some(rs[0].value)
    else ValueOf(strings, rs[1..], name)
  }

  /** The hints that a reader finds for one architecture. */
  function HintsIn(strings: seq<Bytes>, rs: seq<HintRecord>): EntryHints {
    EntryHints(ValueOf(strings, rs, NUM_CTA_IN_CGA), ValueOf(strings, rs, OCCUPANCY),
               ValueOf(strings, rs, NUM_WORKER_WARPS))
  }

  /** The value of the first item of a name. */
  function Lookup(items: seq<(Bytes, int)>, name: Bytes): Option<int> {
    if items == [] then None
    else if items[0].0 == name then Some(items[0].1)
    else Lookup(items[1..], name)
  }

  lemma {:induction false} LookupRead(strings: seq<Bytes>, items: seq<(Bytes, int)>, rs: seq<HintRecord>, name: Bytes)
    requires AreHints(strings, items, rs)
    ensures ValueOf(strings, rs, name) == Low32(Lookup(items, name))
  {
    if items != [] {
      assert IsHint(strings, items[0], rs[0]);
      LookupRead(strings, items[1..], rs[1..], name);
    }
  }

  lemma LookupItem(name: Bytes, value: Option<int>, more: seq<(Bytes, int)>, key: Bytes)
    ensures Lookup(Item(name, value) + more, key)
         == if name == key && value.Some? then value else Lookup(more, key)
  {
    if value.Some? {
      Tail((name, value.value), more);
    } else {
      assert Item(name, value) + more == more;
    }
  }

  lemma ItemsLookup(h: EntryHints)
    ensures Lookup(Items(h), NUM_CTA_IN_CGA) == h.numCtaInCga
    ensures Lookup(Items(h), OCCUPANCY) == h.occupancy
    ensures Lookup(Items(h), NUM_WORKER_WARPS) == h.workerWarps
  {
    hide Lookup, Item;
    NamesDiffer();
    var a, b, c := Item(NUM_CTA_IN_CGA, h.numCtaInCga), Item(OCCUPANCY, h.occupancy),
      Item(NUM_WORKER_WARPS, h.workerWarps);
    Assoc(a, b, c);
    assert c + [] == c;
    LookupAll(h, NUM_CTA_IN_CGA, a, b, c);
    LookupAll(h, OCCUPANCY, a, b, c);
    LookupAll(h, NUM_WORKER_WARPS, a, b, c);
  }

  lemma LookupAll(h: EntryHints, key: Bytes, a: seq<(Bytes, int)>, b: seq<(Bytes, int)>, c: seq<(Bytes, int)>)
    requires a == Item(NUM_CTA_IN_CGA, h.numCtaInCga) && b == Item(OCCUPANCY, h.occupancy)
    requires c == Item(NUM_WORKER_WARPS, h.workerWarps)
    ensures Lookup(a + (b + c), key) ==
      if NUM_CTA_IN_CGA == key && h.numCtaInCga.Some? then h.numCtaInCga
      else if OCCUPANCY == key && h.occupancy.Some? then h.occupancy
      else if NUM_WORKER_WARPS == key && h.workerWarps.Some? then h.workerWarps
      else None
  {
    LookupItem(NUM_CTA_IN_CGA, h.numCtaInCga, b + c, key);
    LookupItem(OCCUPANCY, h.occupancy, c, key);
    LookupItem(NUM_WORKER_WARPS, h.workerWarps, [], key);
    assert c + [] == c;
  }

  /**
   With the strings of the file, however many were added later, a reader finds every
   architecture's hints again.
   */
  lemma HintsAreRead(strings: seq<Bytes>, more: seq<Bytes>, hints: seq<(Bytes, EntryHints)>, archs: seq<ArchRecord>)
    requires AreArchs(strings, hints, archs) && strings <= more
    ensures |archs| == |hints|
    ensures forall k | 0 <= k < |hints| ::
      && IsName(more, archs[k].archId, hints[k].0)
      && HintsIn(more, archs[k].hints) == Stored32(hints[k].1)
  {
    ArchsStay(strings, more, hints, archs);
    forall k | 0 <= k < |hints|
      ensures IsName(more, archs[k].archId, hints[k].0) && HintsIn(more, archs[k].hints) == Stored32(hints[k].1)
    {
      assert IsArch(more, hints[k], archs[k]);
      var h, rs := hints[k].1, archs[k].hints;
      ItemsLookup(h);
      LookupRead(more, Items(h), rs, NUM_CTA_IN_CGA);
      LookupRead(more, Items(h), rs, OCCUPANCY);
      LookupRead(more, Items(h), rs, NUM_WORKER_WARPS);
    }
  }

  // ---------------------------------------------------------------- writing

  function Keys(items: seq<(Bytes, int)>): (keys: seq<Bytes>)
    ensures |keys| == |items|
  {
    seq(|items|, i requires 0 <= i < |items| => items[i].0)
  }

  /** The strings that are asked for, in order. */
  function HintNames(hints: seq<(Bytes, EntryHints)>): seq<Bytes> {
    if hints == [] then []
    else HintNames(hints[..|hints| - 1]) + ([hints[|hints| - 1].0] + Keys(Items(hints[|hints| - 1].1)))
  }

  /** The value as the 32-bit word that is stored. */
  function Masked(x: int): (m: nat)
    ensures m == x % WORD32
  {
    Powers();
    LowMask(x, 32);
    BitAnd(x, Shl(1, 32) - 1)
  }

  method EncodeHint(item: (Bytes, int), strings: Table, buf: ByteBuffer) returns (ghost r: HintRecord)
    requires strings.Valid() && strings.startingId == 0
    modifies strings, buf
    ensures strings.Valid() && strings.keys == Interned(old(strings.keys), item.0)
    ensures buf.bytes == old(buf.bytes) + HintBytes(r) && IsHint(strings.keys, item, r)
  {
    hide Table.Valid, HintBytes, Masked, Interned;
    var id := strings.Lookup(item.0);
    r := WriteHint(id, Masked(item.1), buf);
  }

  /** A 32-bit integer under the name with the given number. */
  method WriteHint(id: nat, value: nat, buf: ByteBuffer) returns (ghost r: HintRecord)
    modifies buf
    ensures r == HintRecord(id, I32_TYPE_ID, value) && buf.bytes == old(buf.bytes) + HintBytes(r)
  {
    hide Varint;
    r := HintRecord(id, I32_TYPE_ID, value);
    EncodeVarint(id, buf);
    buf.Append(INTEGER_TAG);
    EncodeVarint(I32_TYPE_ID, buf);
    EncodeVarint(value, buf);
    Pieces(old(buf.bytes), Varint(id), [INTEGER_TAG], Varint(I32_TYPE_ID), Varint(value));
  }

  lemma Pieces(a: Bytes, b: Bytes, c: Bytes, d: Bytes, e: Bytes)
    ensures (((a + b) + c) + d) + e == a + (b + (c + (d + e)))
  {
  }

  method EncodeItems(items: seq<(Bytes, int)>, strings: Table, buf: ByteBuffer) returns (ghost rs: seq<HintRecord>)
    requires strings.Valid() && strings.startingId == 0
    modifies strings, buf
    ensures strings.Valid() && strings.keys == InternedAll(old(strings.keys), Keys(items))
    ensures buf.bytes == old(buf.bytes) + (Varint(|items|) + HintsBytes(rs)) && AreHints(strings.keys, items, rs)
  {
    hide Table.Valid, Varint, HintBytes, IsHint, InternedAll, Interned, AreHints;
    ghost var keys, first, before := Keys(items), strings.keys, buf.bytes;
    rs := [];
    EncodeVarint(|items|, buf);
    NothingYet(before, Varint(|items|));
    NoHints(first, items, keys);
    for i := 0 to |items|
      invariant strings.Valid() && strings.keys == InternedAll(first, keys[..i])
      invariant buf.bytes == before + (Varint(|items|) + HintsBytes(rs)) && AreHints(strings.keys, items[..i], rs)
    {
      ghost var known := strings.keys;
      ghost var r := EncodeHint(items[i], strings, buf);
      InternedNext(first, keys, i);
      MoreHints(known, strings.keys, items, i, rs, r);
      HintsAppend(rs, r);
      OnePieceMore(before, Varint(|items|), HintsBytes(rs), HintBytes(r));
      rs := rs + [r];
    }
    assert items[..|items|] == items && keys[..|items|] == keys;
  }

  lemma NoHints(strings: seq<Bytes>, items: seq<(Bytes, int)>, keys: seq<Bytes>)
    ensures InternedAll(strings, keys[..0]) == strings && AreHints(strings, items[..0], [])
  {
  }

  lemma InternedNext(strings: seq<Bytes>, names: seq<Bytes>, i: nat)
    requires i < |names|
    ensures InternedAll(strings, names[..i + 1]) == Interned(InternedAll(strings, names[..i]), names[i])
    ensures InternedAll(strings, names[..i]) <= InternedAll(strings, names[..i + 1])
  {
    assert names[..i + 1][..i] == names[..i];
  }

  lemma MoreHints(strings: seq<Bytes>, more: seq<Bytes>, items: seq<(Bytes, int)>, i: nat, rs: seq<HintRecord>,
                  r: HintRecord)
    requires i < |items| && AreHints(strings, items[..i], rs) && strings <= more && IsHint(more, items[i], r)
    ensures AreHints(more, items[..i + 1], rs + [r])
  {
    HintsStay(strings, more, items[..i], rs);
  }

  lemma NothingYet(a: Bytes, b: Bytes)
    ensures a + b == a + (b + [])
  {
  }

  lemma OnePieceMore(a: Bytes, b: Bytes, c: Bytes, d: Bytes)
    ensures (a + (b + c)) + d == a + (b + (c + d))
  {
  }

  method EncodeArch(arch: (Bytes, EntryHints), strings: Table, buf: ByteBuffer) returns (ghost a: ArchRecord)
    requires strings.Valid() && strings.startingId == 0
    modifies strings, buf
    ensures strings.Valid()
    ensures strings.keys == InternedAll(old(strings.keys), [arch.0] + Keys(Items(arch.1)))
    ensures buf.bytes == old(buf.bytes) + ArchBytes(a) && IsArch(strings.keys, arch, a)
  {
    hide Table.Valid, Varint, HintsBytes, Items, AreHints, InternedAll, Interned, ArchBytes, IsArch;
    ghost var first, before := strings.keys, buf.bytes;
    var id := strings.Lookup(arch.0);
    ghost var known := strings.keys;
    EncodeVarint(id, buf);
    buf.Append(DICTIONARY_TAG);
    ghost var rs := EncodeItems(Items(arch.1), strings, buf);
    a := ArchRecord(id, rs);
    InternedFirst(first, arch.0, Keys(Items(arch.1)));
    InternedAllGrows(known, Keys(Items(arch.1)));
    ArchWritten(before, buf.bytes, strings.keys, arch, a);
  }

  lemma ArchWritten(before: Bytes, after: Bytes, strings: seq<Bytes>, arch: (Bytes, EntryHints), a: ArchRecord)
    requires IsName(strings, a.archId, arch.0) && AreHints(strings, Items(arch.1), a.hints)
    requires after ==
      ((before + Varint(a.archId)) + [DICTIONARY_TAG]) + (Varint(|Items(arch.1)|) + HintsBytes(a.hints))
    ensures IsArch(strings, arch, a) && after == before + ArchBytes(a)
  {
    hide Varint, HintsBytes, Items;
    ArchPieces(before, Varint(a.archId), [DICTIONARY_TAG], Varint(|a.hints|), HintsBytes(a.hints));
  }

  lemma ArchPieces(a: Bytes, b: Bytes, c: Bytes, d: Bytes, e: Bytes)
    ensures ((a + b) + c) + (d + e) == a + (b + (c + (d + e)))
  {
  }

  lemma InternedFirst(keys: seq<Bytes>, first: Bytes, more: seq<Bytes>)
    ensures InternedAll(keys, [first] + more) == InternedAll(Interned(keys, first), more)
  {
    var all := [first] + more;
    InternedAllSplit(keys, all, 1);
    assert all[..1] == [first] && all[1..] == more;
    assert [first][..0] == [];
    assert InternedAll(keys, [first]) == Interned(InternedAll(keys, []), first);
  }

  /** All hints of an entry point, after the tag. */
  method EncodeHints(hints: seq<(Bytes, EntryHints)>, strings: Table, buf: ByteBuffer)
    returns (ghost archs: seq<ArchRecord>)
    requires strings.Valid() && strings.startingId == 0
    modifies strings, buf
    ensures strings.Valid() && strings.keys == InternedAll(old(strings.keys), HintNames(hints))
    ensures buf.bytes == old(buf.bytes) + OptimizationBytes(archs) && AreArchs(strings.keys, hints, archs)
  {
    hide Table.Valid, Varint, ArchBytes, IsArch, Items;
    ghost var before := buf.bytes;
    archs := [];
    buf.Append(HINTS_TAG);
    EncodeVarint(|hints|, buf);
    Assoc(before, [HINTS_TAG], Varint(|hints|));
    NothingYet(before, [HINTS_TAG] + Varint(|hints|));
    for i := 0 to |hints|
      invariant strings.Valid() && strings.keys == InternedAll(old(strings.keys), HintNames(hints[..i]))
      invariant buf.bytes == before + (([HINTS_TAG] + Varint(|hints|)) + ArchsBytes(archs))
      invariant AreArchs(strings.keys, hints[..i], archs)
    {
      assert hints[..i + 1][..i] == hints[..i] && hints[..i + 1] == hints[..i] + [hints[i]];
      ghost var known, names := strings.keys, [hints[i].0] + Keys(Items(hints[i].1));
      ghost var a := EncodeArch(hints[i], strings, buf);
      InternedAllGrows(known, names);
      InternedJoin(old(strings.keys), HintNames(hints[..i]), names);
      ArchsStay(known, strings.keys, hints[..i], archs);
      ArchsAppend(archs, a);
      OnePieceMore(before, [HINTS_TAG] + Varint(|hints|), ArchsBytes(archs), ArchBytes(a));
      archs := archs + [a];
    }
    assert hints[..|hints|] == hints;
    Assoc([HINTS_TAG], Varint(|hints|), ArchsBytes(archs));
  }

  lemma InternedJoin(keys: seq<Bytes>, a: seq<Bytes>, b: seq<Bytes>)
    ensures InternedAll(keys, a + b) == InternedAll(InternedAll(keys, a), b)
  {
    InternedAllSplit(keys, a + b, |a|);
    assert (a + b)[..|a|] == a && (a + b)[|a|..] == b;
  }
}
