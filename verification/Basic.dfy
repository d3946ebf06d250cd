/**
 The bytecode's building blocks: variable-length integers, little-endian fields, padding and
 tables that number byte strings.

 Main results: what is written is read back, whatever follows it; variable-length integers
 are the shortest of their kind (unsigned LEB128, section 7.6 of DWARF 5); identifiers that a
 table hands out are dense, never change, and are equal exactly for equal strings.
 */
module Basic {
  import opened Bits
  import opened Sequences
  import opened Wrappers

  type Byte = b: int | 0 <= b < 256

  type Bytes = seq<Byte>

  class ByteBuffer {
    var bytes: Bytes

    constructor ()
      ensures bytes == []
    {
      bytes := [];
    }

    method Append(b: Byte)
      modifies this
      ensures bytes == old(bytes) + [b]
    {
      bytes := bytes + [b];
    }

    method Extend(more: Bytes)
      modifies this
      ensures bytes == old(bytes) + more
    {
      bytes := bytes + more;
    }
  }

  // ---------------------------------------------------------------- variable-length integers

  function Varint(x: nat): Bytes {
    if x < 128 then [x] else [x % 128 + 128] + Varint(x / 128)
  }

  /** How many bytes come before the last one. */
  function Continued(x: nat): nat {
    if x < 128 then 0 else 1 + Continued(x / 128)
  }

  lemma SevenBits(x: nat)
    requires 128 <= x
    ensures BitLength(x) == 7 + BitLength(x / 128)
  {
    assert x / 2 / 2 / 2 / 2 / 2 / 2 / 2 == x / 128;
    assert BitLength(x / 64) == 1 + BitLength(x / 128) by { assert x / 64 / 2 == x / 128; }
    assert BitLength(x / 32) == 1 + BitLength(x / 64) by { assert x / 32 / 2 == x / 64; }
    assert BitLength(x / 16) == 1 + BitLength(x / 32) by { assert x / 16 / 2 == x / 32; }
    assert BitLength(x / 8) == 1 + BitLength(x / 16) by { assert x / 8 / 2 == x / 16; }
    assert BitLength(x / 4) == 1 + BitLength(x / 8) by { assert x / 4 / 2 == x / 8; }
    assert BitLength(x / 2) == 1 + BitLength(x / 4) by { assert x / 2 / 2 == x / 4; }
  }

  lemma {:induction false} AtMostSevenBits(x: nat)
    requires 0 < x < 128
    ensures 1 <= BitLength(x) <= 7
  {
    BitLengthBounds(x);
    SmallPowers();
    assert Pow2(8) == 2 * Pow2(7);
    BitLengthFits(x, 7);
  }

  /** The bit length tells how often the encoder loops. */
  lemma {:induction false} LoopCount(x: nat)
    ensures (BitLength(x) - 1) / 7 == if x == 0 then -1 else Continued(x)
  {
    if 128 <= x {
      SevenBits(x);
      LoopCount(x / 128);
    } else if 0 < x {
      AtMostSevenBits(x);
    }
  }

  lemma LowSeven(x: nat)
    ensures BitAnd(x, 0x7f) == x % 128 && BitOr(BitAnd(x, 0x7f), 0x80) == x % 128 + 128 && Shr(x, 7) == x / 128
  {
    SmallPowers();
    assert Pow2(7) == 128 by { assert Pow2(8) == 2 * Pow2(7); }
    LowMask(x, 7);
    OrDisjoint(x % 128, 1, 7);
  }

  method EncodeVarint(x: nat, buf: ByteBuffer)
    modifies buf
    ensures buf.bytes == old(buf.bytes) + Varint(x)
  {
    var y: nat := x;
    var i: nat := 0;
    LoopCount(x);
    while i < (BitLength(x) - 1) / 7
      invariant if x == 0 then y == 0 && i == 0 else i + Continued(y) == Continued(x)
      invariant buf.bytes + Varint(y) == old(buf.bytes) + Varint(x)
    {
      LowSeven(y);
      Assoc(buf.bytes, [y % 128 + 128], Varint(y / 128));
      buf.Append(BitOr(BitAnd(y, 0x7f), 0x80));
      y := Shr(y, 7);
      i := i + 1;
    }
    buf.Append(y);
  }

  /** Reads one integer; the rest is handed back. */
  function ReadVarint(s: Bytes): (r: Option<(nat, Bytes)>)
    ensures r.Some? ==> |r.value.1| < |s|
  {
    if s == [] then None
    else if s[0] < 128 then Some((s[0], s[1..]))
    else
      match ReadVarint(s[1..])
      case None => None
      case Some((high, rest)) => Some((s[0] - 128 + 128 * high, rest))
  }

  lemma {:induction false} VarintRoundTrip(x: nat, rest: Bytes)
    ensures ReadVarint(Varint(x) + rest) == Some((x, rest))
  {
    if 128 <= x {
      Assoc([x % 128 + 128], Varint(x / 128), rest);
      Tail(x % 128 + 128, Varint(x / 128) + rest);
      VarintRoundTrip(x / 128, rest);
    } else {
      Tail(x, rest);
    }
  }

  /** No other encoding of the same number is shorter. */
  lemma {:induction false} VarintShortest(s: Bytes, x: nat)
    requires ReadVarint(s) == Some((x, []))
    ensures |Varint(x)| <= |s|
  {
    if 128 <= s[0] {
      var high := ReadVarint(s[1..]).value.0;
      VarintShortest(s[1..], high);
      if 128 <= x {
        assert x / 128 == high;
      }
    }
  }

  // ---------------------------------------------------------------- signed integers

  function ZigZag(x: int): nat {
    if 0 <= x then 2 * x else -2 * x - 1
  }

  function UnZigZag(z: nat): int {
    if z % 2 == 0 then z / 2 else -(z / 2) - 1
  }

  method EncodeSignedVarint(x: int, buf: ByteBuffer)
    modifies buf
    ensures buf.bytes == old(buf.bytes) + Varint(ZigZag(x))
  {
    assert Pow2(1) == 2 * Pow2(0);
    var y := Shl(x, 1);
    if y < 0 {
      y := BitNot(y);
    }
    EncodeVarint(y, buf);
  }

  /** Zigzag numbers all integers, each once. */
  lemma ZigZagBijective(x: int, z: nat)
    ensures UnZigZag(ZigZag(x)) == x && ZigZag(UnZigZag(z)) == z
  {
  }

  // ---------------------------------------------------------------- fixed width

  function LittleEndian(v: nat, width: nat): (s: Bytes)
    ensures |s| == width
  {
    if width == 0 then [] else [v % 256] + LittleEndian(v / 256, width - 1)
  }

  function FromLittleEndian(s: Bytes): nat {
    if s == [] then 0 else s[0] + 256 * FromLittleEndian(s[1..])
  }

  lemma {:induction false} LittleEndianRoundTrip(v: nat, width: nat)
    requires v < Pow2(8 * width)
    ensures FromLittleEndian(LittleEndian(v, width)) == v
  {
    if width != 0 {
      SmallPowers();
      Pow2Add(8, 8 * (width - 1));
      Tail(v % 256, LittleEndian(v / 256, width - 1));
      LittleEndianRoundTrip(v / 256, width - 1);
    }
  }

  /** The two's-complement range of `width` bytes. */
  predicate FitsSigned(x: int, width: nat)
    requires 0 < width
  {
    -Pow2(8 * width - 1) <= x < Pow2(8 * width - 1)
  }

  function SignedBytes(x: int, width: nat): Bytes
    requires 0 < width && FitsSigned(x, width)
  {
    LittleEndian(if x < 0 then x + Pow2(8 * width) else x, width)
  }

  function FromSigned(s: Bytes): int
    requires 0 < |s|
  {
    var v := FromLittleEndian(s);
    if v < Pow2(8 * |s| - 1) then v else v - Pow2(8 * |s|)
  }

  lemma SignedRoundTrip(x: int, width: nat)
    requires 0 < width && FitsSigned(x, width)
    ensures FromSigned(SignedBytes(x, width)) == x
  {
    LittleEndianRoundTrip(if x < 0 then x + Pow2(8 * width) else x, width);
  }

  predicate AllFit(xs: seq<int>, width: nat)
    requires 0 < width
  {
    forall x | x in xs :: FitsSigned(x, width)
  }

  function Fields(xs: seq<int>, width: nat): Bytes
    requires 0 < width && AllFit(xs, width)
  {
    if xs == [] then [] else SignedBytes(xs[0], width) + Fields(xs[1..], width)
  }

  lemma {:induction false} FieldsAppend(xs: seq<int>, x: int, width: nat)
    requires 0 < width && AllFit(xs, width) && FitsSigned(x, width)
    ensures Fields(xs + [x], width) == Fields(xs, width) + SignedBytes(x, width)
  {
    if xs == [] {
      assert Fields([x], width) == SignedBytes(x, width) + Fields([], width);
    } else {
      assert (xs + [x])[1..] == xs[1..] + [x];
      FieldsAppend(xs[1..], x, width);
      Assoc(SignedBytes(xs[0], width), Fields(xs[1..], width), SignedBytes(x, width));
    }
  }

  /** Fails at the first number that does not fit, with what comes before it written. */
  method EncodeIntList(xs: seq<int>, width: nat, buf: ByteBuffer) returns (ok: bool)
    requires 0 < width
    modifies buf
    ensures ok <==> AllFit(xs, width)
    ensures ok ==> buf.bytes == old(buf.bytes) + Varint(|xs|) + Fields(xs, width)
  {
    EncodeVarint(|xs|, buf);
    for i := 0 to |xs|
      invariant AllFit(xs[..i], width)
      invariant buf.bytes == old(buf.bytes) + Varint(|xs|) + Fields(xs[..i], width)
    {
      if !FitsSigned(xs[i], width) {
        return false;
      }
      assert xs[..i + 1] == xs[..i] + [xs[i]];
      FieldsAppend(xs[..i], xs[i], width);
      Assoc(old(buf.bytes) + Varint(|xs|), Fields(xs[..i], width), SignedBytes(xs[i], width));
      buf.Extend(SignedBytes(xs[i], width));
    }
    assert xs[..|xs|] == xs;
    return true;
  }

  function ReadFields(s: Bytes, n: nat, width: nat): Option<(seq<int>, Bytes)>
    requires 0 < width
  {
    if n == 0 then Some(([], s))
    else if |s| < width then None
    else
      match ReadFields(s[width..], n - 1, width)
      case None => None
      case Some((xs, rest)) => Some(([FromSigned(s[..width])] + xs, rest))
  }

  function ReadIntList(s: Bytes, width: nat): Option<(seq<int>, Bytes)>
    requires 0 < width
  {
    match ReadVarint(s)
    case None => None
    case Some((n, rest)) => ReadFields(rest, n, width)
  }

  lemma Front<T>(a: seq<T>, b: seq<T>)
    ensures (a + b)[..|a|] == a && (a + b)[|a|..] == b
  {
  }

  lemma {:induction false} FieldsRoundTrip(xs: seq<int>, width: nat, rest: Bytes)
    requires 0 < width && AllFit(xs, width)
    ensures ReadFields(Fields(xs, width) + rest, |xs|, width) == Some((xs, rest))
  {
    if xs == [] {
      assert Fields(xs, width) + rest == rest;
    } else {
      var first := SignedBytes(xs[0], width);
      Assoc(first, Fields(xs[1..], width), rest);
      Front(first, Fields(xs[1..], width) + rest);
      SignedRoundTrip(xs[0], width);
      FieldsRoundTrip(xs[1..], width, rest);
      assert [xs[0]] + xs[1..] == xs;
    }
  }

  lemma IntListRoundTrip(xs: seq<int>, width: nat, rest: Bytes)
    requires 0 < width && AllFit(xs, width)
    ensures ReadIntList(Varint(|xs|) + Fields(xs, width) + rest, width) == Some((xs, rest))
  {
    Assoc(Varint(|xs|), Fields(xs, width), rest);
    VarintRoundTrip(|xs|, Fields(xs, width) + rest);
    FieldsRoundTrip(xs, width, rest);
  }

  // ---------------------------------------------------------------- lists of variable-length integers

  function Varints(xs: seq<nat>): Bytes {
    if xs == [] then [] else Varint(xs[0]) + Varints(xs[1..])
  }

  function VarintList(xs: seq<nat>): Bytes {
    Varint(|xs|) + Varints(xs)
  }

  lemma {:induction false} VarintsAppend(xs: seq<nat>, x: nat)
    ensures Varints(xs + [x]) == Varints(xs) + Varint(x)
  {
    if xs == [] {
      assert Varints([x]) == Varint(x) + Varints([]);
    } else {
      assert (xs + [x])[1..] == xs[1..] + [x];
      VarintsAppend(xs[1..], x);
      Assoc(Varint(xs[0]), Varints(xs[1..]), Varint(x));
    }
  }

  method EncodeVarintList(xs: seq<nat>, buf: ByteBuffer)
    modifies buf
    ensures buf.bytes == old(buf.bytes) + VarintList(xs)
  {
    EncodeVarint(|xs|, buf);
    for i := 0 to |xs|
      invariant buf.bytes == old(buf.bytes) + (Varint(|xs|) + Varints(xs[..i]))
    {
      assert xs[..i + 1] == xs[..i] + [xs[i]];
      VarintsAppend(xs[..i], xs[i]);
      Assoc(Varint(|xs|), Varints(xs[..i]), Varint(xs[i]));
      Assoc(old(buf.bytes), Varint(|xs|) + Varints(xs[..i]), Varint(xs[i]));
      EncodeVarint(xs[i], buf);
    }
    assert xs[..|xs|] == xs;
  }

  function ReadVarints(s: Bytes, n: nat): (r: Option<(seq<nat>, Bytes)>)
    ensures r.Some? ==> |r.value.1| <= |s|
    decreases n
  {
    if n == 0 then Some(([], s))
    else
      match ReadVarint(s)
      case None => None
      case Some((x, rest)) =>
        match ReadVarints(rest, n - 1)
        case None => None
        case Some((xs, rest')) => Some(([x] + xs, rest'))
  }

  function ReadVarintList(s: Bytes): (r: Option<(seq<nat>, Bytes)>)
    ensures r.Some? ==> |r.value.1| < |s|
  {
    match ReadVarint(s)
    case None => None
    case Some((n, rest)) => ReadVarints(rest, n)
  }

  lemma {:induction false} VarintsRoundTrip(xs: seq<nat>, rest: Bytes)
    ensures ReadVarints(Varints(xs) + rest, |xs|) == Some((xs, rest))
  {
    if xs == [] {
      assert Varints(xs) + rest == rest;
    } else {
      Assoc(Varint(xs[0]), Varints(xs[1..]), rest);
      VarintRoundTrip(xs[0], Varints(xs[1..]) + rest);
      VarintsRoundTrip(xs[1..], rest);
      assert [xs[0]] + xs[1..] == xs;
    }
  }

  lemma VarintListRoundTrip(xs: seq<nat>, rest: Bytes)
    ensures ReadVarintList(VarintList(xs) + rest) == Some((xs, rest))
  {
    Assoc(Varint(|xs|), Varints(xs), rest);
    VarintRoundTrip(|xs|, Varints(xs) + rest);
    VarintsRoundTrip(xs, rest);
  }

  // ---------------------------------------------------------------- tables

  /** What a table holds after `request`: strings in the order of their identifiers. */
  function Interned(keys: seq<Bytes>, request: Bytes): seq<Bytes> {
    if request in keys then keys else keys + [request]
  }

  function InternedAll(keys: seq<Bytes>, requests: seq<Bytes>): seq<Bytes> {
    if requests == [] then keys
    else Interned(InternedAll(keys, requests[..|requests| - 1]), requests[|requests| - 1])
  }

  predicate Distinct<T(==)>(s: seq<T>) {
    forall i, j | 0 <= i < j < |s| :: s[i] != s[j]
  }

  function Position(keys: seq<Bytes>, key: Bytes): (i: nat)
    requires key in keys
    ensures i < |keys| && keys[i] == key
  {
    if keys[0] == key then 0 else 1 + Position(keys[1..], key)
  }

  class Table {
    var ids: map<Bytes, int>
    const startingId: int
    ghost var keys: seq<Bytes>

    ghost predicate Valid()
      reads this
    {
      && |ids| == |keys|
      && (forall i | 0 <= i < |keys| :: keys[i] in ids && ids[keys[i]] == startingId + i)
      && (forall k | k in ids :: 0 <= ids[k] - startingId < |keys| && keys[ids[k] - startingId] == k)
    }

    /** `id` stands for `key`. */
    ghost predicate Names(id: int, key: Bytes)
      reads this
    {
      0 <= id - startingId < |keys| && keys[id - startingId] == key
    }

    constructor (startingId: int)
      ensures Valid() && keys == [] && this.startingId == startingId
    {
      ids, keys := map[], [];
      this.startingId := startingId;
    }

    /** A string asked for the first time gets the next identifier. */
    method Lookup(key: Bytes) returns (id: int)
      requires Valid()
      modifies this
      ensures Valid() && keys == Interned(old(keys), key)
      ensures Names(id, key)
    {
      if key !in ids {
        assert key !in keys;
        id := |ids| + startingId;
        ids := ids[key := id];
        keys := keys + [key];
      } else {
        id := ids[key];
        assert key in keys;
      }
    }

    /** The strings, sorted by identifier. */
    method SortedItems() returns (items: seq<Bytes>)
      requires Valid()
      ensures items == keys
    {
      items := [];
      while |items| < |ids|
        invariant |items| <= |keys| && items == keys[..|items|]
      {
        assert keys[|items|] in ids;
        var key :| key in ids && ids[key] == startingId + |items|;
        items := items + [key];
      }
    }
  }

  /** Over any run of requests: old entries stay, and exactly the requested ones are added. */
  lemma {:induction false} InternedAllGrows(keys: seq<Bytes>, requests: seq<Bytes>)
    ensures keys <= InternedAll(keys, requests)
    ensures Distinct(keys) ==> Distinct(InternedAll(keys, requests))
    ensures forall k :: k in InternedAll(keys, requests) <==> k in keys || k in requests
    decreases |requests|
  {
    if requests != [] {
      var n := |requests| - 1;
      InternedAllGrows(keys, requests[..n]);
      assert requests == requests[..n] + [requests[n]];
    }
  }

  lemma {:induction false} InternedAllSplit(keys: seq<Bytes>, requests: seq<Bytes>, n: nat)
    requires n <= |requests|
    ensures InternedAll(keys, requests) == InternedAll(InternedAll(keys, requests[..n]), requests[n..])
    decreases |requests|
  {
    if n == |requests| {
      assert requests[..n] == requests;
    } else {
      var m := |requests| - 1;
      assert requests[..m][..n] == requests[..n] && requests[..m][n..] == requests[n..][..m - n];
      InternedAllSplit(keys, requests[..m], n);
    }
  }

  /** The identifier that request number `i` of a run is answered with. */
  function Answer(requests: seq<Bytes>, i: nat): nat
    requires i < |requests|
  {
    InternedAllGrows([], requests[..i + 1]);
    assert requests[i] in requests[..i + 1];
    Position(InternedAll([], requests[..i + 1]), requests[i])
  }

  /** Identifiers never change: an answer is the position in every later table. */
  lemma AnswerIsFinal(requests: seq<Bytes>, i: nat)
    requires i < |requests|
    ensures Answer(requests, i) < |InternedAll([], requests)|
    ensures InternedAll([], requests)[Answer(requests, i)] == requests[i]
  {
    InternedAllSplit([], requests, i + 1);
    InternedAllGrows(InternedAll([], requests[..i + 1]), requests[i + 1..]);
  }

  predicate IsAnswered(requests: seq<Bytes>, id: nat) {
    exists i | 0 <= i < |requests| :: Answer(requests, i) == id
  }

  /** Equal answers are given exactly to equal requests, and every number below the size is one. */
  lemma AnswersAreInjectiveAndDense(requests: seq<Bytes>)
    ensures forall i, j | 0 <= i < |requests| && 0 <= j < |requests| ::
      Answer(requests, i) == Answer(requests, j) <==> requests[i] == requests[j]
    ensures forall id: nat | id < |InternedAll([], requests)| :: IsAnswered(requests, id)
  {
    var final := InternedAll([], requests);
    InternedAllGrows([], requests);
    forall i, j | 0 <= i < |requests| && 0 <= j < |requests|
      ensures Answer(requests, i) == Answer(requests, j) <==> requests[i] == requests[j]
    {
      AnswerIsFinal(requests, i);
      AnswerIsFinal(requests, j);
    }
    forall id: nat | id < |final|
      ensures IsAnswered(requests, id)
    {
      assert final[id] in requests;
      var i :| 0 <= i < |requests| && requests[i] == final[id];
      AnswerIsFinal(requests, i);
      assert Answer(requests, i) == id;
    }
  }
}
