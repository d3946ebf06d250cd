/**
 What a kernel is specialised to about an array argument: its packed type, and the
 specialisation bits derived from its base pointer, shape and strides.

 Main result: the bit that says "the elements are disjoint" is set only if distinct index
 tuples address distinct elements, and it is always set for row-major strides.
 */
module ArraySpec {
  import opened Bits

  const INT32_MAX: int := 0x7FFF_FFFF
  const TMA_MAX_NDIM: nat := 5

  // ---------------------------------------------------------------- packed array types

  datatype Dtype = Dtype(code: nat, bits: nat, lanes: nat) {
    predicate Valid() {
      code < 0x100 && bits < 0x100 && lanes < 0x1_0000
    }
  }

  datatype ArrayType = ArrayType(dtype: Dtype, ndim: nat, indexBitwidth: nat)

  function DtypeAsUint(d: Dtype): int {
    BitOr(BitOr(d.code, Shl(d.bits, 8)), Shl(d.lanes, 16))
  }

  function DtypeFromUint(u: int): Dtype
    requires 0 <= u
  {
    Dtype(ToByte(u), ToByte(Shr(u, 8)), Shr(u, 16) % 0x1_0000)
  }

  function ToByte(u: int): nat {
    u % 0x100
  }

  /** Data type, rank and index width in one 64-bit word. */
  function PackArrayType(a: ArrayType): int {
    ToInt64(ToUint64(BitOr(BitOr(DtypeAsUint(a.dtype), ToUint64(Shl(a.ndim, 32))),
                           Shl(if a.indexBitwidth == 64 then 1 else 0, 63))))
  }

  function UnpackArrayType(c: int): ArrayType {
    var u := ToUint64(c);
    var dtype := BitAnd(u, 0xFFFF_FFFF);
    var ndim := BitAnd(Shr(u, 32), 0x7FFF_FFFF);
    assert 0 <= dtype && 0 <= ndim by {
      Powers();
      LowMask(u, 32);
      LowMask(Shr(u, 32), 31);
    }
    ArrayType(DtypeFromUint(dtype), ndim, if BitAnd(Shr(u, 63), 1) == 1 then 64 else 32)
  }

  lemma DtypeWord(d: Dtype)
    requires d.Valid()
    ensures DtypeAsUint(d) == d.code + 0x100 * d.bits + 0x1_0000 * d.lanes
  {
    SmallPowers();
    OrDisjoint(d.code, d.bits, 8);
    OrDisjoint(d.code + 0x100 * d.bits, d.lanes, 16);
  }

  lemma DtypeOfWord(code: nat, bits: nat, lanes: nat)
    requires code < 0x100 && bits < 0x100 && lanes < 0x1_0000
    ensures DtypeFromUint(code + 0x100 * bits + 0x1_0000 * lanes) == Dtype(code, bits, lanes)
  {
    SmallPowers();
    var u := code + 0x100 * bits + 0x1_0000 * lanes;
    assert u / 0x100 == bits + 0x100 * lanes && u / 0x1_0000 == lanes;
  }

  lemma DtypeRoundTrip(d: Dtype)
    requires d.Valid()
    ensures 0 <= DtypeAsUint(d) < 0x1_0000_0000 && DtypeFromUint(DtypeAsUint(d)) == d
  {
    DtypeWord(d);
    DtypeOfWord(d.code, d.bits, d.lanes);
  }

  /** Three fields next to each other in a word. */
  lemma OrFields(d: int, n: nat, high: nat)
    requires 0 <= d < 0x1_0000_0000 && n < 0x8000_0000 && high < 2
    ensures var u := BitOr(BitOr(d, ToUint64(Shl(n, 32))), Shl(high, 63));
      u == d + 0x1_0000_0000 * n + 0x8000_0000_0000_0000 * high && 0 <= u < TWO64
  {
    Powers();
    assert Shl(n, 32) == 0x1_0000_0000 * n;
    ModUnique(Shl(n, 32), TWO64, 0, Shl(n, 32));
    OrDisjoint(d, n, 32);
    OrDisjoint(d + Shl(n, 32), high, 63);
  }

  lemma PackedWord(a: ArrayType)
    requires a.dtype.Valid() && a.ndim < 0x8000_0000
    ensures var high := if a.indexBitwidth == 64 then 1 else 0;
      ToUint64(PackArrayType(a)) == DtypeAsUint(a.dtype) + 0x1_0000_0000 * a.ndim + 0x8000_0000_0000_0000 * high
  {
    hide BitOr, DtypeFromUint, DtypeAsUint, Pow2;
    DtypeRoundTrip(a.dtype);
    var d, high := DtypeAsUint(a.dtype), if a.indexBitwidth == 64 then 1 else 0;
    OrFields(d, a.ndim, high);
    var u := d + 0x1_0000_0000 * a.ndim + 0x8000_0000_0000_0000 * high;
    ModUnique(u, TWO64, 0, u);
    Int64RoundTrip(u);
  }

  lemma UnpackedWord(d: int, n: nat, high: nat, c: int)
    requires 0 <= d < 0x1_0000_0000 && n < 0x8000_0000 && high < 2
    requires ToUint64(c) == d + 0x1_0000_0000 * n + 0x8000_0000_0000_0000 * high
    ensures UnpackArrayType(c) == ArrayType(DtypeFromUint(d), n, if high == 1 then 64 else 32)
  {
    Powers();
    SmallPowers();
    var u := ToUint64(c);
    LowMask(u, 32);
    LowMask(Shr(u, 32), 31);
    LowMask(Shr(u, 63), 1);
    ModUnique(u, 0x1_0000_0000, n + 0x8000_0000 * high, d);
    ModUnique(Shr(u, 32), 0x8000_0000, high, n);
    ModUnique(u, 0x8000_0000_0000_0000, high, d + 0x1_0000_0000 * n);
  }

  lemma UnpackedRange(c: int)
    ensures UnpackArrayType(c).ndim < 0x8000_0000 && UnpackArrayType(c).indexBitwidth in {32, 64}
  {
    Powers();
    LowMask(Shr(ToUint64(c), 32), 31);
  }

  /** Unpacking undoes packing exactly when the rank fits its 31 bits and the index width is one of the two. */
  lemma PackRoundTrip(a: ArrayType)
    requires a.dtype.Valid()
    ensures UnpackArrayType(PackArrayType(a)) == a <==> a.ndim < 0x8000_0000 && a.indexBitwidth in {32, 64}
  {
    UnpackedRange(PackArrayType(a));
    if a.ndim < 0x8000_0000 {
      PackedWord(a);
      DtypeRoundTrip(a.dtype);
      UnpackedWord(DtypeAsUint(a.dtype), a.ndim, if a.indexBitwidth == 64 then 1 else 0, PackArrayType(a));
    }
  }

  // ---------------------------------------------------------------- row-major strides

  function Product(s: seq<int>): int {
    if s == [] then 1 else s[0] * Product(s[1..])
  }

  /** The stride of a dimension is the number of elements of the dimensions after it. */
  function RowMajor(shape: seq<int>): (strides: seq<int>)
    ensures |strides| == |shape|
  {
    if shape == [] then [] else [Product(shape[1..])] + RowMajor(shape[1..])
  }

  lemma {:induction false} RowMajorAt(shape: seq<int>, i: nat)
    requires i < |shape|
    ensures RowMajor(shape)[i] == Product(shape[i + 1..])
  {
    if i != 0 {
      RowMajorAt(shape[1..], i - 1);
      assert shape[1..][i..] == shape[i + 1..];
    }
  }

  lemma RowMajorStep(shape: seq<int>, i: nat)
    requires 0 < i < |shape|
    ensures RowMajor(shape)[i - 1] == shape[i] * RowMajor(shape)[i]
  {
    RowMajorAt(shape, i - 1);
    RowMajorAt(shape, i);
    ProductStep(shape, i);
  }

  lemma ProductStep(shape: seq<int>, i: nat)
    requires i < |shape|
    ensures Product(shape[i..]) == shape[i] * Product(shape[i + 1..])
  {
    assert shape[i..][1..] == shape[i + 1..];
  }

  /** The stride of dimension `i` in 64-bit arithmetic, which wraps around. */
  function WrappedStride(shape: seq<int>, i: nat): (stride: int)
    requires i < |shape|
    ensures 0 <= stride < TWO64
  {
    ToUint64(RowMajor(shape)[i])
  }

  /** The strides as the signed words that are stored. */
  function StrideWords(shape: seq<int>): (words: seq<int>)
    ensures |words| == |shape|
  {
    seq(|shape|, i requires 0 <= i < |shape| => ToInt64(WrappedStride(shape, i)))
  }

  /** The strides from `k` on fit 32-bit indices. */
  predicate Fits32(shape: seq<int>, k: int) {
    forall j | k <= j < |shape| && 0 <= j :: WrappedStride(shape, j) <= INT32_MAX
  }

  /** One multiplication, in 64-bit arithmetic: the stride of the dimension before `k`. */
  method NextStride(prev: int, size: int, ghost shape: seq<int>, ghost k: nat) returns (next: int)
    requires 0 < k < |shape| && prev == WrappedStride(shape, k) && size == shape[k]
    ensures next == WrappedStride(shape, k - 1)
  {
    RowMajorStep(shape, k);
    WrappedProduct(RowMajor(shape)[k], size, RowMajor(shape)[k - 1]);
    next := ToUint64(prev * ToUint64(size));
  }

  /**
   Fill in the strides of an array whose words (pointer, shape, strides) start at `at`.  With
   32-bit indices this is refused exactly if some stride, as computed, does not fit.
   */
  method FillRowMajorStrides(indexBitwidth: nat, arena: array<int>, at: nat, ndim: nat) returns (ok: bool)
    requires at + 1 + 2 * ndim <= arena.Length
    modifies arena
    ensures forall i | 0 <= i < arena.Length && !(at + 1 + ndim <= i < at + 1 + 2 * ndim) :: arena[i] == old(arena[i])
    ensures var shape := old(arena[at + 1..at + 1 + ndim]);
      && (ok <==> indexBitwidth == 64 || Fits32(shape, 0))
      && (ok ==> arena[at + 1 + ndim..at + 1 + 2 * ndim] == StrideWords(shape))
  {
    ok := FillStrides(indexBitwidth, arena, at, ndim, arena[at + 1..at + 1 + ndim]);
  }

  method FillStrides(indexBitwidth: nat, arena: array<int>, at: nat, ndim: nat, ghost shapes: seq<int>)
    returns (ok: bool)
    requires at + 1 + 2 * ndim <= arena.Length && shapes == arena[at + 1..at + 1 + ndim]
    modifies arena
    ensures forall i | 0 <= i < arena.Length && !(at + 1 + ndim <= i < at + 1 + 2 * ndim) :: arena[i] == old(arena[i])
    ensures ok <==> indexBitwidth == 64 || Fits32(shapes, 0)
    ensures ok ==> arena[at + 1 + ndim..at + 1 + 2 * ndim] == StrideWords(shapes)
  {
    hide RowMajor, WrappedStride, ToInt64;
    if ndim == 0 {
      return true;
    }
    ghost var base, words := at + 1 + ndim, StrideWords(shapes);
    LastStride(shapes);
    var shape, stride := at + 1 + ndim, at + 1 + 2 * ndim;
    var prevStride := 1;
    stride := stride - 1;
    arena[stride] := 1;
    for i := 0 to ndim - 1
      invariant shape == base - i && stride == base + ndim - 1 - i
      invariant prevStride == WrappedStride(shapes, ndim - 1 - i)
      invariant forall j | 0 <= j < arena.Length && !(base <= j < base + ndim) :: arena[j] == old(arena[j])
      invariant forall j | stride <= j < base + ndim :: arena[j] == words[j - base]
      invariant indexBitwidth != 64 ==> Fits32(shapes, ndim - 1 - i)
    {
      shape := shape - 1;
      var newStride := NextStride(prevStride, arena[shape], shapes, ndim - 1 - i);
      if indexBitwidth != 64 && newStride > INT32_MAX {
        return false;
      }
      stride := stride - 1;
      arena[stride] := ToInt64(newStride);
      prevStride := newStride;
    }
    ghost var filled := arena[base..base + ndim];
    forall j | 0 <= j < ndim ensures filled[j] == words[j] {
      assert arena[base + j] == words[base + j - base];
    }
    assert filled == words;
    ok := true;
  }

  lemma LastStride(shape: seq<int>)
    requires shape != []
    ensures WrappedStride(shape, |shape| - 1) == 1 && ToInt64(1) == 1
  {
    RowMajorAt(shape, |shape| - 1);
    ModUnique(1, TWO64, 0, 1);
  }

  /** Multiplying modulo 2^64 loses nothing but multiples of 2^64. */
  lemma WrappedProduct(x: int, size: int, next: int)
    requires next == size * x
    ensures ToUint64(ToUint64(x) * ToUint64(size)) == ToUint64(next)
  {
    var a, b, p, q := ToUint64(x), ToUint64(size), x / TWO64, size / TWO64;
    var z := a * b / TWO64;
    assert a * b == TWO64 * z + ToUint64(a * b);
    ProductOfSums(a, b, p, q);
    ModUnique(next, TWO64, a * q + p * b + p * q * TWO64 + z, ToUint64(a * b));
  }

  lemma ProductOfSums(a: int, b: int, p: int, q: int)
    ensures (b + TWO64 * q) * (a + TWO64 * p) == TWO64 * (a * q + p * b + p * q * TWO64) + a * b
  {
    assert (b + TWO64 * q) * (a + TWO64 * p) == b * a + b * (TWO64 * p) + TWO64 * q * a + TWO64 * q * (TWO64 * p);
  }

  /** Exactly the strides in the range of a word are stored as they are. */
  lemma StridesExact(shape: seq<int>)
    ensures StrideWords(shape) == RowMajor(shape) <==> forall i | 0 <= i < |shape| :: IsInt64(RowMajor(shape)[i])
  {
    forall i | 0 <= i < |shape|
      ensures StrideWords(shape)[i] == RowMajor(shape)[i] <==> IsInt64(RowMajor(shape)[i])
    {
      WordExact(RowMajor(shape)[i]);
    }
  }

  lemma WordExact(x: int)
    ensures ToInt64(ToUint64(x)) == x <==> IsInt64(x)
  {
    if 0 <= x < TWO64 {
      ModUnique(x, TWO64, 0, x);
    } else if -TWO64 <= x < 0 {
      ModUnique(x, TWO64, -1, x + TWO64);
    }
  }

  /** The strides from `k` on are 31-bit numbers. */
  predicate AreSmall(shape: seq<int>, k: nat) {
    forall j | k <= j < |shape| :: 0 <= RowMajor(shape)[j] <= INT32_MAX
  }

  /**
   The test for 32-bit indices, on strides that wrap around, is right exactly where it refuses,
   or where all true strides are 64-bit numbers; then it is they that are stored.
   */
  lemma TestRightExactly(shape: seq<int>)
    ensures (Fits32(shape, 0) <==> AreSmall(shape, 0)) <==>
      !Fits32(shape, 0) || forall i | 0 <= i < |shape| :: IsInt64(RowMajor(shape)[i])
    ensures AreSmall(shape, 0) ==> Fits32(shape, 0) && StrideWords(shape) == RowMajor(shape)
  {
    StridesExact(shape);
    forall i | 0 <= i < |shape|
      ensures 0 <= RowMajor(shape)[i] <= INT32_MAX <==>
        WrappedStride(shape, i) <= INT32_MAX && IsInt64(RowMajor(shape)[i])
    {
      SmallWord(RowMajor(shape)[i]);
    }
  }

  lemma SmallWord(x: int)
    ensures 0 <= x <= INT32_MAX <==> ToUint64(x) <= INT32_MAX && IsInt64(x)
  {
    if 0 <= x < TWO64 {
      ModUnique(x, TWO64, 0, x);
    } else if -TWO64 <= x < 0 {
      ModUnique(x, TWO64, -1, x + TWO64);
    }
  }

  /** A stride of 2^64 wraps around to zero, and passes the test. */
  lemma WrappedStrideAccepted()
    ensures Fits32([1, 0x4000_0000_0000_0000, 4], 0) && !AreSmall([1, 0x4000_0000_0000_0000, 4], 0)
    ensures RowMajor([1, 0x4000_0000_0000_0000, 4]) == [TWO64, 4, 1]
  {
    var shape := [1, 0x4000_0000_0000_0000, 4];
    RowMajorAt(shape, 0);
    RowMajorAt(shape, 1);
    RowMajorAt(shape, 2);
    ProductStep(shape, 1);
    ProductStep(shape, 2);
    ModUnique(TWO64, TWO64, 1, 0);
    ModUnique(4, TWO64, 0, 4);
    ModUnique(1, TWO64, 0, 1);
    assert RowMajor(shape)[0] > INT32_MAX;
  }

  /** As long as sizes fit 32-bit indices, the test for strides is not fooled by wrapping around. */
  lemma {:induction false} SmallExactly(shape: seq<int>, k: nat)
    requires k <= |shape| && forall i | 0 <= i < |shape| :: 0 <= shape[i] <= INT32_MAX
    ensures Fits32(shape, k) <==> AreSmall(shape, k)
    decreases |shape| - k
  {
    if k < |shape| {
      SmallExactly(shape, k + 1);
      if k + 1 == |shape| {
        LastStride(shape);
        RowMajorAt(shape, k);
      } else if AreSmall(shape, k + 1) {
        RowMajorStep(shape, k + 1);
        SmallProduct(shape[k + 1], RowMajor(shape)[k + 1], RowMajor(shape)[k]);
      }
      SplitFits(shape, k);
      if AreSmall(shape, k) {
        ModUnique(RowMajor(shape)[k], TWO64, 0, RowMajor(shape)[k]);
      }
    }
  }

  lemma SmallProduct(a: int, b: int, ab: int)
    requires 0 <= a <= INT32_MAX && 0 <= b <= INT32_MAX && ab == a * b
    ensures 0 <= ab && ToUint64(ab) == ab
  {
    Bounded(a, b, INT32_MAX, ab);
    ModUnique(ab, TWO64, 0, ab);
  }

  lemma Bounded(a: int, b: int, m: int, ab: int)
    requires 0 <= a <= m && 0 <= b <= m && ab == a * b
    ensures 0 <= ab <= m * m
  {
    assert m * m - ab == m * (m - b) + (m - a) * b;
  }

  lemma SplitFits(shape: seq<int>, k: nat)
    requires k < |shape|
    ensures Fits32(shape, k) <==> WrappedStride(shape, k) <= INT32_MAX && Fits32(shape, k + 1)
  {
  }

  /**
   With sizes that fit 32-bit indices, strides are refused exactly if one does not fit, and are
   stored as they are otherwise.
   */
  lemma SmallSizesSuffice(shape: seq<int>)
    requires forall i | 0 <= i < |shape| :: 0 <= shape[i] <= INT32_MAX
    ensures Fits32(shape, 0) <==> AreSmall(shape, 0)
    ensures Fits32(shape, 0) ==> StrideWords(shape) == RowMajor(shape)
  {
    SmallExactly(shape, 0);
    TestRightExactly(shape);
  }

  // ---------------------------------------------------------------- index tuples and offsets

  datatype Dim = Dim(stride: int, shape: int)

  /** The number of elements that the dimension spans. */
  function Extent(d: Dim): int {
    d.stride * d.shape
  }

  predicate InRange(dims: seq<Dim>, index: seq<int>) {
    |index| == |dims| && forall i | 0 <= i < |dims| :: 0 <= index[i] < dims[i].shape
  }

  /** The distance of the element at `index` from the base, in elements. */
  function Offset(dims: seq<Dim>, index: seq<int>): int
    requires |index| == |dims|
  {
    if dims == [] then 0
    else
      var k := |dims| - 1;
      Offset(dims[..k], index[..k]) + index[k] * dims[k].stride
  }

  /** Distinct index tuples address distinct elements. */
  ghost predicate Injective(dims: seq<Dim>) {
    forall x: seq<int>, y: seq<int> | InRange(dims, x) && InRange(dims, y) && Offset(dims, x) == Offset(dims, y) ::
      x == y
  }

  // ---------------------------------------------------------------- sorting

  /** Pairs are compared by stride first, then by shape. */
  predicate Below(a: Dim, b: Dim) {
    a.stride < b.stride || (a.stride == b.stride && a.shape <= b.shape)
  }

  predicate IsSorted(s: seq<Dim>) {
    forall i, j | 0 <= i < j < |s| :: Below(s[i], s[j])
  }

  /** How many leading elements of `s` are strictly below `d`. */
  function Place(d: Dim, s: seq<Dim>): (k: nat)
    ensures k <= |s|
    ensures forall i | 0 <= i < k :: !Below(d, s[i])
    ensures k < |s| ==> Below(d, s[k])
  {
    if s == [] || Below(d, s[0]) then 0 else 1 + Place(d, s[1..])
  }

  function InsertAt<T>(s: seq<T>, k: nat, x: T): seq<T>
    requires k <= |s|
  {
    s[..k] + [x] + s[k..]
  }

  function Sort(s: seq<Dim>): (r: seq<Dim>)
    ensures |r| == |s|
  {
    if s == [] then []
    else
      var r := Sort(s[1..]);
      InsertAt(r, Place(s[0], r), s[0])
  }

  lemma {:induction false} SortSorts(s: seq<Dim>)
    ensures IsSorted(Sort(s)) && multiset(Sort(s)) == multiset(s)
  {
    if s != [] {
      SortSorts(s[1..]);
      var r := Sort(s[1..]);
      assert s == [s[0]] + s[1..];
      InsertSorts(r, Place(s[0], r), s[0]);
    }
  }

  lemma InsertSorts(r: seq<Dim>, k: nat, d: Dim)
    requires IsSorted(r) && k == Place(d, r)
    ensures IsSorted(InsertAt(r, k, d)) && multiset(InsertAt(r, k, d)) == multiset([d]) + multiset(r)
  {
    InsertKeeps(r, k, d);
    var t := InsertAt(r, k, d);
    forall i, j | 0 <= i < j < |t| ensures Below(t[i], t[j]) {
      InsertOrder(r, k, d, i, j);
    }
  }

  lemma InsertKeeps<T>(r: seq<T>, k: nat, d: T)
    requires k <= |r|
    ensures multiset(InsertAt(r, k, d)) == multiset([d]) + multiset(r)
  {
    assert r == r[..k] + r[k..];
  }

  lemma InsertOrder(r: seq<Dim>, k: nat, d: Dim, i: nat, j: nat)
    requires IsSorted(r) && k == Place(d, r) && i < j < |r| + 1
    ensures var t := InsertAt(r, k, d); Below(t[i], t[j])
  {
    if i == k && j > k + 1 {
      assert Below(r[k], r[j - 1]);
    }
  }

  lemma LeastFirst(a: seq<Dim>, b: seq<Dim>)
    requires IsSorted(a) && multiset(a) == multiset(b) && a != [] && b != []
    ensures Below(a[0], b[0])
  {
    assert b[0] in multiset(b);
    var i :| 0 <= i < |a| && a[i] == b[0];
  }

  /** Any way of sorting gives the same result. */
  lemma {:induction false} SortedUnique(a: seq<Dim>, b: seq<Dim>)
    requires IsSorted(a) && IsSorted(b) && multiset(a) == multiset(b)
    ensures a == b
  {
    if a == [] {
      assert |multiset(b)| == 0;
    } else {
      assert |multiset(a)| == |multiset(b)| == |b|;
      LeastFirst(a, b);
      LeastFirst(b, a);
      assert a == [a[0]] + a[1..] && b == [b[0]] + b[1..];
      assert multiset(a[1..]) == multiset(a) - multiset{a[0]} == multiset(b[1..]);
      SortedUnique(a[1..], b[1..]);
    }
  }

  /** The index tuple, permuted like the dimensions. */
  function SortIndex(s: seq<Dim>, x: seq<int>): (r: seq<int>)
    requires |x| == |s|
    ensures |r| == |s|
  {
    if s == [] then [] else InsertAt(SortIndex(s[1..], x[1..]), Place(s[0], Sort(s[1..])), x[0])
  }

  lemma {:induction false} OffsetInsert(s: seq<Dim>, x: seq<int>, k: nat, d: Dim, a: int)
    requires |x| == |s| && k <= |s|
    ensures Offset(InsertAt(s, k, d), InsertAt(x, k, a)) == Offset(s, x) + a * d.stride
    decreases |s|
  {
    var t, y := InsertAt(s, k, d), InsertAt(x, k, a);
    var n := |s|;
    if k == n {
      assert t[..n] == s && y[..n] == x;
    } else {
      assert t[..n] == InsertAt(s[..n - 1], k, d) && y[..n] == InsertAt(x[..n - 1], k, a);
      OffsetInsert(s[..n - 1], x[..n - 1], k, d, a);
    }
  }

  /** Sorting the dimensions moves no element. */
  lemma {:induction false} SortedOffset(s: seq<Dim>, x: seq<int>)
    requires InRange(s, x)
    ensures InRange(Sort(s), SortIndex(s, x))
    ensures Offset(Sort(s), SortIndex(s, x)) == Offset(s, x)
  {
    if s != [] {
      var d, a, t, y := s[0], x[0], s[1..], x[1..];
      SortedOffset(t, y);
      var r, z, k := Sort(t), SortIndex(t, y), Place(d, Sort(t));
      OffsetInsert(r, z, k, d, a);
      RangeInsert(r, z, k, d, a);
      OffsetInsert(t, y, 0, d, a);
      assert InsertAt(t, 0, d) == s && InsertAt(y, 0, a) == x;
    }
  }

  lemma RangeInsert(s: seq<Dim>, x: seq<int>, k: nat, d: Dim, a: int)
    requires InRange(s, x) && k <= |s| && 0 <= a < d.shape
    ensures InRange(InsertAt(s, k, d), InsertAt(x, k, a))
  {
  }

  lemma {:induction false} SortIndexInjective(s: seq<Dim>, x: seq<int>, y: seq<int>)
    requires |x| == |s| == |y| && SortIndex(s, x) == SortIndex(s, y)
    ensures x == y
  {
    if s != [] {
      var k := Place(s[0], Sort(s[1..]));
      var a, b := SortIndex(s[1..], x[1..]), SortIndex(s[1..], y[1..]);
      var p, q := InsertAt(a, k, x[0]), InsertAt(b, k, y[0]);
      assert p[k] == x[0] && q[k] == y[0];
      assert a == p[..k] + p[k + 1..] && b == q[..k] + q[k + 1..];
      SortIndexInjective(s[1..], x[1..], y[1..]);
      assert x == [x[0]] + x[1..] && y == [y[0]] + y[1..];
    }
  }

  // ---------------------------------------------------------------- the disjointness test

  /** Every stride is positive, and no smaller than the extent of the dimension before it. */
  predicate StridesApart(s: seq<Dim>) {
    s != [] ==>
      var k := |s| - 1;
      StridesApart(s[..k]) && s[k].stride > 0 && (k > 0 ==> s[k].stride >= Extent(s[k - 1]))
  }

  /** Below the extent of the last dimension, offsets are like numbers in a mixed radix. */
  lemma {:induction false} OffsetBounded(s: seq<Dim>, x: seq<int>)
    requires StridesApart(s) && InRange(s, x) && s != []
    ensures var k := |s| - 1;
      && 0 <= Offset(s[..k], x[..k]) < s[k].stride
      && 0 <= Offset(s, x) < Extent(s[k])
    decreases |s|
  {
    var k := |s| - 1;
    var low := Offset(s[..k], x[..k]);
    assert 0 <= low < s[k].stride by {
      if k > 0 {
        OffsetBounded(s[..k], x[..k]);
      }
    }
    DigitBounded(low, x[k], s[k].stride, s[k].shape);
  }

  lemma DigitBounded(low: int, digit: int, stride: int, shape: int)
    requires 0 <= low < stride && 0 <= digit < shape
    ensures 0 <= low + digit * stride < stride * shape
  {
    assert stride * shape == digit * stride + (shape - digit) * stride;
    AtLeastOnce(stride, shape - digit);
    assert 0 <= digit * stride;
  }

  lemma {:induction false} ApartInjective(s: seq<Dim>, x: seq<int>, y: seq<int>)
    requires StridesApart(s) && InRange(s, x) && InRange(s, y) && Offset(s, x) == Offset(s, y)
    ensures x == y
    decreases |s|
  {
    if s != [] {
      var k := |s| - 1;
      OffsetBounded(s, x);
      OffsetBounded(s, y);
      ModUnique(Offset(s, x), s[k].stride, x[k], Offset(s[..k], x[..k]));
      ModUnique(Offset(s, y), s[k].stride, y[k], Offset(s[..k], y[..k]));
      ApartInjective(s[..k], x[..k], y[..k]);
      assert x == x[..k] + [x[k]] && y == y[..k] + [y[k]];
    }
  }

  /** The test on the sorted dimensions implies that the elements are disjoint. */
  lemma DisjointTestSound(dims: seq<Dim>)
    requires StridesApart(Sort(dims))
    ensures Injective(dims)
  {
    forall x: seq<int>, y: seq<int> | InRange(dims, x) && InRange(dims, y) && Offset(dims, x) == Offset(dims, y)
      ensures x == y
    {
      SortedOffset(dims, x);
      SortedOffset(dims, y);
      ApartInjective(Sort(dims), SortIndex(dims, x), SortIndex(dims, y));
      SortIndexInjective(dims, x, y);
    }
  }

  function Zip(strides: seq<int>, shape: seq<int>): (dims: seq<Dim>)
    requires |strides| == |shape|
    ensures |dims| == |shape|
  {
    seq(|shape|, i requires 0 <= i < |shape| => Dim(strides[i], shape[i]))
  }

  function Reversed<T>(s: seq<T>): (r: seq<T>)
    ensures |r| == |s|
  {
    if s == [] then [] else Reversed(s[1..]) + [s[0]]
  }

  lemma {:induction false} ReversedKeeps<T>(s: seq<T>)
    ensures multiset(Reversed(s)) == multiset(s)
  {
    if s != [] {
      assert s == [s[0]] + s[1..];
      ReversedKeeps(s[1..]);
    }
  }

  lemma {:induction false} PositiveProduct(s: seq<int>)
    requires forall i | 0 <= i < |s| :: 0 < s[i]
    ensures 0 < Product(s)
  {
    if s != [] {
      PositiveProduct(s[1..]);
    }
  }

  /** Where the stride is the whole extent of the dimension before, a tie means that its shape is 1. */
  lemma ExtentOrder(a: Dim, b: Dim)
    requires 0 < a.stride && 0 < a.shape && 0 < b.shape && Extent(a) == b.stride
    ensures Below(a, b)
  {
    AtLeastOnce(a.stride, a.shape);
    if a.shape >= 2 {
      AtLeastOnce(a.stride, a.shape - 1);
      assert Extent(a) == a.stride + a.stride * (a.shape - 1);
    }
  }

  lemma AppendSorted(r: seq<Dim>, e: Dim)
    requires IsSorted(r) && (r != [] ==> Below(r[|r| - 1], e))
    ensures IsSorted(r + [e])
  {
    forall i | 0 <= i < |r| ensures Below(r[i], e) {
      assert i < |r| - 1 ==> Below(r[i], r[|r| - 1]);
    }
  }

  lemma AppendApart(r: seq<Dim>, e: Dim)
    requires StridesApart(r) && 0 < e.stride && (r != [] ==> Extent(r[|r| - 1]) == e.stride)
    ensures StridesApart(r + [e])
  {
    assert (r + [e])[..|r|] == r;
  }

  /** From last to first, row-major dimensions are sorted, and pass the test. */
  lemma {:induction false} RowMajorApart(shape: seq<int>)
    requires forall i | 0 <= i < |shape| :: 0 < shape[i]
    ensures var r := Reversed(Zip(RowMajor(shape), shape));
      IsSorted(r) && StridesApart(r) && (shape != [] ==> 0 < r[|r| - 1].stride)
  {
    if shape != [] {
      var rest := shape[1..];
      RowMajorApart(rest);
      PositiveProduct(rest);
      var d := Zip(RowMajor(shape), shape);
      assert d[1..] == Zip(RowMajor(rest), rest);
      var r := Reversed(d[1..]);
      if rest != [] {
        assert r[|r| - 1] == Dim(Product(rest[1..]), rest[0]);
        ExtentOrder(r[|r| - 1], d[0]);
      }
      AppendSorted(r, d[0]);
      AppendApart(r, d[0]);
    }
  }

  /** Row-major strides of any all-positive shape pass the test. */
  lemma RowMajorDisjoint(shape: seq<int>)
    requires forall i | 0 <= i < |shape| :: 0 < shape[i]
    ensures StridesApart(Sort(Zip(RowMajor(shape), shape)))
  {
    var d := Zip(RowMajor(shape), shape);
    RowMajorApart(shape);
    SortSorts(d);
    ReversedKeeps(d);
    SortedUnique(Sort(d), Reversed(d));
  }

  // ---------------------------------------------------------------- specialisation bits

  /** Base pointer, shape and strides (in elements) of an array argument. */
  datatype ArrayView = ArrayView(ptr: int, shape: seq<int>, strides: seq<int>) {
    predicate Valid() {
      |shape| == |strides|
    }

    function Dims(): seq<Dim>
      requires Valid()
    {
      Zip(strides, shape)
    }
  }

  function FromBits(f: seq<bool>): (u: int)
    ensures 0 <= u < Pow2(|f|)
  {
    if f == [] then 0 else (if f[0] then 1 else 0) + 2 * FromBits(f[1..])
  }

  lemma {:induction false} FromBitsAt(f: seq<bool>, k: nat)
    ensures Bit(FromBits(f), k) <==> k < |f| && f[k]
    decreases k
  {
    if f != [] {
      if k == 0 {
        assert FromBits(f) % 2 == if f[0] then 1 else 0;
      } else {
        HalveDiv(FromBits(f), Pow2(k - 1));
        FromBitsAt(f[1..], k - 1);
        assert FromBits(f) / 2 == FromBits(f[1..]);
      }
    }
  }

  // Positions of the fields in the word.
  const ALIGNED: nat := 0
  const DISJOINT: nat := 1
  const STRIDE_DIVISIBLE: nat := 2
  const STRIDE_ONE: nat := 7
  const SHAPE_DIVISIBLE: nat := 12

  predicate IsStride16ByteDivisible(u: int, dim: nat) {
    dim < TMA_MAX_NDIM && Bit(u, STRIDE_DIVISIBLE + dim)
  }

  predicate IsStrideOne(u: int, dim: nat) {
    dim < TMA_MAX_NDIM && Bit(u, STRIDE_ONE + dim)
  }

  predicate IsShapeDivisibleBy16(u: int, dim: nat) {
    dim < TMA_MAX_NDIM && Bit(u, SHAPE_DIVISIBLE + dim)
  }

  /** `stride` elements are a multiple of 16 bytes. */
  predicate StrideDivisible(stride: int, bitwidth: nat) {
    (stride * bitwidth) % 8 == 0 && (stride * bitwidth / 8) % 16 == 0
  }

  predicate ShapeDivisible(shape: int, bitwidth: nat) {
    (shape * bitwidth) % 8 == 0 && shape % 16 == 0
  }

  /** Bit `k` of the word that describes `v`. */
  predicate SpecBit(v: ArrayView, bitwidth: nat, k: nat)
    requires v.Valid()
  {
    var n := |v.shape|;
    if k == ALIGNED then v.ptr % 16 == 0
    else if k == DISJOINT then StridesApart(Sort(v.Dims()))
    else if n > TMA_MAX_NDIM then false
    else if k < STRIDE_ONE then k - STRIDE_DIVISIBLE < n && StrideDivisible(v.strides[k - STRIDE_DIVISIBLE], bitwidth)
    else if k < SHAPE_DIVISIBLE then k - STRIDE_ONE < n && v.strides[k - STRIDE_ONE] == 1
    else
      && k - SHAPE_DIVISIBLE < n && k < SHAPE_DIVISIBLE + TMA_MAX_NDIM
      && ShapeDivisible(v.shape[k - SHAPE_DIVISIBLE], bitwidth)
  }

  /** The fields with one bit per dimension, for ranks up to five. */
  ghost predicate AreDimensionFlags(v: ArrayView, bitwidth: nat, strideDivisible: seq<bool>, strideOne: seq<bool>,
                                    shapeDivisible: seq<bool>, n: nat)
    requires v.Valid()
  {
    && n <= |v.shape| && |strideDivisible| == |strideOne| == |shapeDivisible| == TMA_MAX_NDIM
    && (forall j | 0 <= j < TMA_MAX_NDIM :: strideDivisible[j] <==> j < n && StrideDivisible(v.strides[j], bitwidth))
    && (forall j | 0 <= j < TMA_MAX_NDIM :: strideOne[j] <==> j < n && v.strides[j] == 1)
    && (forall j | 0 <= j < TMA_MAX_NDIM :: shapeDivisible[j] <==> j < n && ShapeDivisible(v.shape[j], bitwidth))
  }

  method DimensionFlags(v: ArrayView, bitwidth: nat)
    returns (strideDivisible: seq<bool>, strideOne: seq<bool>, shapeDivisible: seq<bool>)
    requires v.Valid()
    ensures AreDimensionFlags(v, bitwidth, strideDivisible, strideOne, shapeDivisible,
                              if |v.shape| <= TMA_MAX_NDIM then |v.shape| else 0)
  {
    strideDivisible := [false, false, false, false, false];
    strideOne, shapeDivisible := strideDivisible, strideDivisible;
    if |v.shape| <= TMA_MAX_NDIM {
      for i := 0 to |v.shape|
        invariant AreDimensionFlags(v, bitwidth, strideDivisible, strideOne, shapeDivisible, i)
      {
        strideDivisible := strideDivisible[i := StrideDivisible(v.strides[i], bitwidth)];
        strideOne := strideOne[i := v.strides[i] == 1];
        shapeDivisible := shapeDivisible[i := ShapeDivisible(v.shape[i], bitwidth)];
      }
    }
  }

  lemma FlagsEqual(v: ArrayView, bitwidth: nat, a: seq<bool>, b: seq<bool>, c: seq<bool>)
    requires v.Valid()
    requires AreDimensionFlags(v, bitwidth, a, b, c, if |v.shape| <= TMA_MAX_NDIM then |v.shape| else 0)
    ensures [v.ptr % 16 == 0, StridesApart(Sort(v.Dims()))] + a + b + c ==
      seq(17, k requires 0 <= k < 17 => SpecBit(v, bitwidth, k))
  {
  }

  /** The specialisation bits of an array, as a word. */
  function SpecWord(v: ArrayView, bitwidth: nat): (u: int)
    requires v.Valid()
    ensures 0 <= u < 0x2_0000
  {
    assert Pow2(17) == 0x2_0000 by { SmallPowers(); Pow2Add(16, 1); }
    FromBits(seq(17, k requires 0 <= k < 17 => SpecBit(v, bitwidth, k)))
  }

  lemma SpecWordBit(v: ArrayView, bitwidth: nat, k: nat)
    requires v.Valid()
    ensures Bit(SpecWord(v, bitwidth), k) <==> SpecBit(v, bitwidth, k)
  {
    FromBitsAt(seq(17, k requires 0 <= k < 17 => SpecBit(v, bitwidth, k)), k);
  }

  /** Compute the specialisation bits of an array. */
  method ComputeSpecializationBits(v: ArrayView, bitwidth: nat) returns (u: int)
    requires v.Valid()
    ensures u == SpecWord(v, bitwidth)
  {
    var strideDivisible, strideOne, shapeDivisible := DimensionFlags(v, bitwidth);
    var aligned := v.ptr % 16 == 0;
    var disjoint := ElementsDisjoint(Sort(v.Dims()));
    FlagsEqual(v, bitwidth, strideDivisible, strideOne, shapeDivisible);
    u := FromBits([aligned, disjoint] + strideDivisible + strideOne + shapeDivisible);
  }

  /** The test, in one pass over neighbouring dimensions. */
  method ElementsDisjoint(s: seq<Dim>) returns (disjoint: bool)
    ensures disjoint <==> StridesApart(s)
  {
    disjoint := |s| == 0 || s[0].stride > 0;
    if |s| == 0 {
      return;
    }
    assert s[..1][..0] == [];
    for i := 0 to |s| - 1
      invariant disjoint <==> StridesApart(s[..i + 1])
    {
      assert s[..i + 2][..i + 1] == s[..i + 1];
      disjoint := disjoint && s[i + 1].stride > 0 && s[i + 1].stride >= s[i].stride * s[i].shape;
    }
    assert s[..|s|] == s;
  }

  // ---------------------------------------------------------------- several arrays in one word

  /** The bits that all arrays have. */
  function AndAll(views: seq<ArrayView>, bitwidth: nat): int
    requires forall i | 0 <= i < |views| :: views[i].Valid()
  {
    if views == [] then ToUint64(-1)
    else BitAnd(AndAll(views[..|views| - 1], bitwidth), SpecWord(views[|views| - 1], bitwidth))
  }

  lemma {:induction false} AndAllBit(views: seq<ArrayView>, bitwidth: nat, k: nat)
    requires k < 17 && forall i | 0 <= i < |views| :: views[i].Valid()
    ensures Bit(AndAll(views, bitwidth), k) <==> forall i | 0 <= i < |views| :: SpecBit(views[i], bitwidth, k)
  {
    if views == [] {
      AllOnesBit(k);
    } else {
      var init, last := views[..|views| - 1], views[|views| - 1];
      AndAllBit(init, bitwidth, k);
      AndBit(AndAll(init, bitwidth), SpecWord(last, bitwidth), k);
      SpecWordBit(last, bitwidth, k);
    }
  }

  lemma AllOnesBit(k: nat)
    requires k < 64
    ensures Bit(ToUint64(-1), k)
  {
    var ones := seq(64, i => true);
    FromOnes(64);
    Powers();
    ModUnique(-1, TWO64, -1, TWO64 - 1);
    FromBitsAt(ones, k);
  }

  lemma {:induction false} FromOnes(n: nat)
    ensures FromBits(seq(n, i => true)) == Pow2(n) - 1
  {
    if n != 0 {
      FromOnes(n - 1);
      assert seq(n, i => true)[1..] == seq(n - 1, i => true);
    }
  }

  lemma AndAllSmall(views: seq<ArrayView>, bitwidth: nat)
    requires views != [] && forall i | 0 <= i < |views| :: views[i].Valid()
    ensures 0 <= AndAll(views, bitwidth) < 0x2_0000
  {
    var init, last := views[..|views| - 1], views[|views| - 1];
    AndAllRange(init, bitwidth);
    AndCommutes(AndAll(init, bitwidth), SpecWord(last, bitwidth));
    AndRange(SpecWord(last, bitwidth), AndAll(init, bitwidth));
  }

  lemma {:induction false} AndAllRange(views: seq<ArrayView>, bitwidth: nat)
    requires forall i | 0 <= i < |views| :: views[i].Valid()
    ensures 0 <= AndAll(views, bitwidth)
  {
    if views != [] {
      AndAllRange(views[..|views| - 1], bitwidth);
      AndRange(AndAll(views[..|views| - 1], bitwidth), SpecWord(views[|views| - 1], bitwidth));
    }
  }

  /** The disjointness bit of a word for several arrays holds of each of them. */
  lemma DisjointBitSound(views: seq<ArrayView>, bitwidth: nat, i: nat)
    requires (forall j | 0 <= j < |views| :: views[j].Valid()) && i < |views|
    ensures Bit(AndAll(views, bitwidth), DISJOINT) ==> Injective(views[i].Dims())
  {
    AndAllBit(views, bitwidth, DISJOINT);
    if Bit(AndAll(views, bitwidth), DISJOINT) {
      assert SpecBit(views[i], bitwidth, DISJOINT);
      DisjointTestSound(views[i].Dims());
    }
  }

  /** Row-major arrays without empty dimensions always have the disjointness bit. */
  lemma RowMajorHasBit(v: ArrayView, bitwidth: nat)
    requires v.strides == RowMajor(v.shape) && forall i | 0 <= i < |v.shape| :: 0 < v.shape[i]
    ensures v.Valid() && Bit(SpecWord(v, bitwidth), DISJOINT)
  {
    RowMajorDisjoint(v.shape);
    SpecWordBit(v, bitwidth, DISJOINT);
  }
}
