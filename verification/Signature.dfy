/**
 From the constants of a launch back to a kernel signature: parsing rebuilds the nesting and
 all values, and uses up the three streams it reads.

 What the signature claims about array arguments is true of them exactly if no stride is
 negative and, for arrays read through the CUDA array interface, sizes and strides fit the
 index type.
 */
module Signature {
  import opened Sequences
  import opened Wrappers
  import opened Bits
  import opened ArrayReaders
  import opened ArraySpec
  import opened ArgumentTree
  import opened ArgumentConstants

  datatype Constraint =
    | ScalarConstraint(kind: ParameterKind, bitwidth: nat)
    | ConstantBool(value: bool)
    | ConstantInt(number: int)
    | ConstantFloat(bits: int)
    | ArrayConstraint(
        dtype: Dtype, ndim: nat, indexBitwidth: nat,
        strideLowerBound: seq<Option<int>>, aliasGroups: seq<string>, mayAliasInternally: bool,
        strideConstant: seq<Option<int>>, shapeConstant: seq<Option<int>>,
        strideDivisibleBy: seq<int>, shapeDivisibleBy: seq<int>, baseAddrDivisibleBy: int)
    | ListConstraint(element: Constraint, storageAliasGroups: seq<string>, elementsMayAlias: bool)
    | TupleConstraint(items: seq<Constraint>)

  /**
   The data types that have a name.  The codes are those of the DLPack standard: int, uint,
   float, bfloat, bool, and the 8-bit floats e4m3fn, e5m2 and e8m0fnu.
   */
  predicate SupportedDtype(d: Dtype) {
    d.lanes == 1 &&
    match d.code
    case 0 => d.bits in {8, 16, 32, 64}
    case 1 => d.bits in {8, 16, 32, 64}
    case 2 => d.bits in {16, 32, 64}
    case 4 => d.bits == 16
    case 6 => d.bits == 8
    case 10 => d.bits == 8
    case 12 => d.bits == 8
    case 14 => d.bits == 8
    case _ => false
  }

  // ---------------------------------------------------------------- claims about arrays

  /** All arrays have bit `k`. */
  ghost predicate AllHave(views: seq<ArrayView>, bitwidth: nat, k: nat)
    requires AllValid(views)
  {
    forall i | 0 <= i < |views| :: SpecBit(views[i], bitwidth, k)
  }

  predicate AllValid(views: seq<ArrayView>) {
    forall i | 0 <= i < |views| :: views[i].Valid()
  }

  /** At least one array, all of the same rank. */
  predicate SameRank(views: seq<ArrayView>) {
    && AllValid(views) && views != [] && |views[0].shape| <= INT32_MAX
    && forall i | 0 <= i < |views| :: |views[i].shape| == |views[0].shape|
  }

  /** Sixteen bytes, in elements. */
  function StrideDivisor(d: Dtype): int
    requires 0 < d.bits
  {
    if DIVISOR_16 * BYTE_BITWIDTH % d.bits == 0 then DIVISOR_16 * BYTE_BITWIDTH / d.bits else 1
  }

  predicate IsStatic(dims: seq<int>, ndim: nat, count: nat, axis: nat)
    requires AxesInRange(dims, ndim) && count <= |dims|
  {
    exists i | 0 <= i < count :: Axis(dims, ndim, i) == axis
  }

  function StaticSizes(shape: seq<int>, dims: seq<int>, count: nat): (sizes: seq<Option<int>>)
    requires AxesInRange(dims, |shape|) && count <= |dims|
    ensures |sizes| == |shape|
  {
    seq(|shape|, i requires 0 <= i < |shape| => if IsStatic(dims, |shape|, count, i) then Some(shape[i]) else None)
  }

  /** What is said anyway of a constant is not said again. */
  function Cleared<T>(constants: seq<Option<int>>, values: seq<T>, none: T): (r: seq<T>)
    requires |constants| == |values|
    ensures |r| == |values|
  {
    seq(|values|, i requires 0 <= i < |values| => if constants[i].Some? then none else values[i])
  }

  /**
   What the signature will say about arrays that share a constraint: among other things, that
   strides are not negative, and that an array shares no memory with another parameter.
   */
  ghost function ArrayClaim(dtype: Dtype, indexBitwidth: nat, views: seq<ArrayView>, dims: seq<int>): Constraint
    requires SupportedDtype(dtype) && SameRank(views) && AxesInRange(dims, |views[0].shape|)
  {
    var n, bw := |views[0].shape|, Bitwidth(dtype);
    var strides := WhereAllHave(views, bw, STRIDE_ONE, n, Some(1), None);
    var sizes := StaticSizes(views[0].shape, dims, |dims|);
    ArrayConstraint(dtype, n, indexBitwidth,
      Cleared(strides, AllSome(n, 0), None), [], !AllHave(views, bw, DISJOINT),
      strides, sizes,
      Cleared(strides, WhereAllHave<int>(views, bw, STRIDE_DIVISIBLE, n, StrideDivisor(dtype), 1), 1),
      Cleared(sizes, WhereAllHave<int>(views, bw, SHAPE_DIVISIBLE, n, DIVISOR_16, 1), 1),
      if AllHave(views, bw, ALIGNED) then DIVISOR_16 else 1)
  }

  function AllSome(n: nat, x: int): (r: seq<Option<int>>)
    ensures |r| == n
  {
    seq(n, i => Some(x))
  }

  /** For each dimension, one value where all arrays have its flag in a field, and another one elsewhere. */
  ghost function WhereAllHave<T>(views: seq<ArrayView>, bitwidth: nat, field: nat, n: nat, yes: T, no: T)
    : (values: seq<T>)
    requires AllValid(views)
    ensures |values| == n
  {
    seq(n, i requires 0 <= i < n => if i < TMA_MAX_NDIM && AllHave(views, bitwidth, field + i) then yes else no)
  }

  /** The claims of a constraint hold of an array. */
  ghost predicate Satisfies(v: ArrayView, c: Constraint)
    requires v.Valid() && c.ArrayConstraint?
  {
    var n := |v.shape|;
    && n == c.ndim == |c.strideConstant| == |c.shapeConstant| == |c.strideDivisibleBy| == |c.shapeDivisibleBy|
    && n == |c.strideLowerBound| && InIndexRange(v, c.indexBitwidth)
    && (forall i | 0 <= i < n ::
          && (c.strideLowerBound[i].Some? ==> c.strideLowerBound[i].value <= v.strides[i])
          && (c.strideConstant[i].Some? ==> v.strides[i] == c.strideConstant[i].value)
          && (c.shapeConstant[i].Some? ==> v.shape[i] == c.shapeConstant[i].value)
          && c.strideDivisibleBy[i] > 0 && v.strides[i] % c.strideDivisibleBy[i] == 0
          && c.shapeDivisibleBy[i] > 0 && v.shape[i] % c.shapeDivisibleBy[i] == 0)
    && (!c.mayAliasInternally ==> Injective(v.Dims()))
    && c.baseAddrDivisibleBy > 0 && v.ptr % c.baseAddrDivisibleBy == 0
  }

  lemma StrideDivides(stride: int, d: Dtype)
    requires SupportedDtype(d) && StrideDivisible(stride, Bitwidth(d))
    ensures StrideDivisor(d) > 0 && stride % StrideDivisor(d) == 0
  {
    var b := d.bits;
    assert Bitwidth(d) == b && 128 % b == 0;
    var bytes := stride * b / 8;
    assert stride * b == 8 * bytes && bytes == 16 * (bytes / 16);
    assert b == 8 || b == 16 || b == 32 || b == 64;
  }

  lemma StrideClaims(d: Dtype, views: seq<ArrayView>, j: nat, i: nat)
    requires SupportedDtype(d) && SameRank(views) && j < |views| && i < |views[0].shape|
    ensures var bw := Bitwidth(d);
      && (i < TMA_MAX_NDIM && AllHave(views, bw, STRIDE_ONE + i) ==> views[j].strides[i] == 1)
      && (i < TMA_MAX_NDIM && AllHave(views, bw, SHAPE_DIVISIBLE + i) ==> views[j].shape[i] % DIVISOR_16 == 0)
      && (i < TMA_MAX_NDIM && AllHave(views, bw, STRIDE_DIVISIBLE + i) ==>
            StrideDivisor(d) > 0 && views[j].strides[i] % StrideDivisor(d) == 0)
  {
    var v, bw := views[j], Bitwidth(d);
    if i < TMA_MAX_NDIM {
      assert AllHave(views, bw, STRIDE_ONE + i) ==> SpecBit(v, bw, STRIDE_ONE + i);
      assert AllHave(views, bw, SHAPE_DIVISIBLE + i) ==> SpecBit(v, bw, SHAPE_DIVISIBLE + i);
      if AllHave(views, bw, STRIDE_DIVISIBLE + i) {
        assert SpecBit(v, bw, STRIDE_DIVISIBLE + i);
        StrideDivides(v.strides[i], d);
      }
    }
  }

  lemma ShapeClaims(views: seq<ArrayView>, dims: seq<int>, j: nat, i: nat)
    requires SameRank(views) && AxesInRange(dims, |views[0].shape|) && j < |views| && i < |views[0].shape|
    requires j == 0 || Agrees(views[j].shape, views[0].shape, dims)
    ensures IsStatic(dims, |views[0].shape|, |dims|, i) ==> views[j].shape[i] == views[0].shape[i]
  {
    if IsStatic(dims, |views[0].shape|, |dims|, i) && j != 0 {
      var k :| 0 <= k < |dims| && Axis(dims, |views[0].shape|, k) == i;
      assert AgreesAt(views[j].shape, views[0].shape, dims[k]);
    }
  }

  lemma GlobalClaims(views: seq<ArrayView>, bitwidth: nat, j: nat)
    requires AllValid(views) && j < |views|
    ensures AllHave(views, bitwidth, DISJOINT) ==> Injective(views[j].Dims())
    ensures AllHave(views, bitwidth, ALIGNED) ==> views[j].ptr % DIVISOR_16 == 0
  {
    if AllHave(views, bitwidth, DISJOINT) {
      assert SpecBit(views[j], bitwidth, DISJOINT);
      DisjointTestSound(views[j].Dims());
    }
    assert AllHave(views, bitwidth, ALIGNED) ==> SpecBit(views[j], bitwidth, ALIGNED);
  }

  predicate NoNegativeStride(v: ArrayView) {
    forall i | 0 <= i < |v.strides| :: 0 <= v.strides[i]
  }

  /**
   What the signature claims about an array is true of it exactly if no stride is negative, and
   sizes and strides fit the index type.
   */
  lemma ArrayClaimExactly(dtype: Dtype, indexBitwidth: nat, views: seq<ArrayView>, dims: seq<int>, j: nat)
    requires SupportedDtype(dtype) && SameRank(views) && AxesInRange(dims, |views[0].shape|) && j < |views|
    requires j == 0 || Agrees(views[j].shape, views[0].shape, dims)
    ensures Satisfies(views[j], ArrayClaim(dtype, indexBitwidth, views, dims)) <==>
      NoNegativeStride(views[j]) && InIndexRange(views[j], indexBitwidth)
  {
    hide AllHave, InIndexRange, Injective, WhereAllHave, StaticSizes, Cleared;
    var v, c := views[j], ArrayClaim(dtype, indexBitwidth, views, dims);
    forall i | 0 <= i < |views[0].shape|
      ensures c.strideConstant[i].Some? ==> v.strides[i] == c.strideConstant[i].value
      ensures c.shapeConstant[i].Some? ==> v.shape[i] == c.shapeConstant[i].value
      ensures c.strideDivisibleBy[i] > 0 && v.strides[i] % c.strideDivisibleBy[i] == 0
      ensures c.shapeDivisibleBy[i] > 0 && v.shape[i] % c.shapeDivisibleBy[i] == 0
      ensures (c.strideLowerBound[i].Some? ==> c.strideLowerBound[i].value <= v.strides[i]) <==> 0 <= v.strides[i]
    {
      DimensionClaims(dtype, indexBitwidth, views, dims, j, i, c);
    }
    GlobalClaims(views, Bitwidth(dtype), j);
    BoundsExactly(v, c);
  }

  lemma DimensionClaims(dtype: Dtype, indexBitwidth: nat, views: seq<ArrayView>, dims: seq<int>, j: nat, i: nat,
                        c: Constraint)
    requires SupportedDtype(dtype) && SameRank(views) && AxesInRange(dims, |views[0].shape|) && j < |views|
    requires j == 0 || Agrees(views[j].shape, views[0].shape, dims)
    requires c == ArrayClaim(dtype, indexBitwidth, views, dims) && i < |views[0].shape|
    ensures c.strideConstant[i].Some? ==> views[j].strides[i] == c.strideConstant[i].value
    ensures c.shapeConstant[i].Some? ==> views[j].shape[i] == c.shapeConstant[i].value
    ensures c.strideDivisibleBy[i] > 0 && views[j].strides[i] % c.strideDivisibleBy[i] == 0
    ensures c.shapeDivisibleBy[i] > 0 && views[j].shape[i] % c.shapeDivisibleBy[i] == 0
    ensures (c.strideLowerBound[i].Some? ==> c.strideLowerBound[i].value <= views[j].strides[i])
      <==> 0 <= views[j].strides[i]
  {
    hide AllHave, IsStatic;
    StrideClaims(dtype, views, j, i);
    ShapeClaims(views, dims, j, i);
  }

  lemma BoundsExactly(v: ArrayView, c: Constraint)
    requires v.Valid() && c.ArrayConstraint? && |c.strideLowerBound| == |v.strides|
    requires forall i | 0 <= i < |v.strides| ::
      (c.strideLowerBound[i].Some? ==> c.strideLowerBound[i].value <= v.strides[i]) <==> 0 <= v.strides[i]
    ensures NoNegativeStride(v) <==> forall i | 0 <= i < |v.strides| ::
      c.strideLowerBound[i].Some? ==> c.strideLowerBound[i].value <= v.strides[i]
  {
  }

  // ---------------------------------------------------------------- parsing an array

  lemma FlagsOf(views: seq<ArrayView>, bitwidth: nat, i: nat)
    requires AllValid(views)
    ensures var word := AndAll(views, bitwidth);
      && (IsStrideOne(word, i) <==> i < TMA_MAX_NDIM && AllHave(views, bitwidth, STRIDE_ONE + i))
      && (IsStride16ByteDivisible(word, i) <==> i < TMA_MAX_NDIM && AllHave(views, bitwidth, STRIDE_DIVISIBLE + i))
      && (IsShapeDivisibleBy16(word, i) <==> i < TMA_MAX_NDIM && AllHave(views, bitwidth, SHAPE_DIVISIBLE + i))
  {
    if i < TMA_MAX_NDIM {
      AndAllBit(views, bitwidth, STRIDE_ONE + i);
      AndAllBit(views, bitwidth, STRIDE_DIVISIBLE + i);
      AndAllBit(views, bitwidth, SHAPE_DIVISIBLE + i);
    }
  }

  lemma WhereMore<T>(views: seq<ArrayView>, bitwidth: nat, field: nat, n: nat, yes: T, no: T)
    requires AllValid(views)
    ensures WhereAllHave(views, bitwidth, field, n + 1, yes, no) == WhereAllHave(views, bitwidth, field, n, yes, no) +
      [if n < TMA_MAX_NDIM && AllHave(views, bitwidth, field + n) then yes else no]
  {
  }

  /** The flags of each dimension, read from the word. */
  method ReadDimensions(word: int, ndim: nat, divisor: int, ghost bw: nat, ghost views: seq<ArrayView>)
    returns (strideConstant: seq<Option<int>>, strideDivisibleBy: seq<int>, shapeDivisibleBy: seq<int>)
    requires AllValid(views) && word == AndAll(views, bw)
    ensures strideConstant == WhereAllHave(views, bw, STRIDE_ONE, ndim, Some(1), None)
    ensures strideDivisibleBy == WhereAllHave<int>(views, bw, STRIDE_DIVISIBLE, ndim, divisor, 1)
    ensures shapeDivisibleBy == WhereAllHave<int>(views, bw, SHAPE_DIVISIBLE, ndim, DIVISOR_16, 1)
  {
    strideConstant, strideDivisibleBy, shapeDivisibleBy := [], [], [];
    for i := 0 to ndim
      invariant strideConstant == WhereAllHave(views, bw, STRIDE_ONE, i, Some(1), None)
      invariant strideDivisibleBy == WhereAllHave<int>(views, bw, STRIDE_DIVISIBLE, i, divisor, 1)
      invariant shapeDivisibleBy == WhereAllHave<int>(views, bw, SHAPE_DIVISIBLE, i, DIVISOR_16, 1)
    {
      FlagsOf(views, bw, i);
      WhereMore<Option<int>>(views, bw, STRIDE_ONE, i, Some(1), None);
      WhereMore<int>(views, bw, STRIDE_DIVISIBLE, i, divisor, 1);
      WhereMore<int>(views, bw, SHAPE_DIVISIBLE, i, DIVISOR_16, 1);
      strideConstant := strideConstant + [if IsStrideOne(word, i) then Some(1) else None];
      strideDivisibleBy := strideDivisibleBy + [if IsStride16ByteDivisible(word, i) then divisor else 1];
      shapeDivisibleBy := shapeDivisibleBy + [if IsShapeDivisibleBy16(word, i) then DIVISOR_16 else 1];
    }
  }

  /** Read the static sizes; fails exactly if an axis is named twice. */
  method ReadStaticShape(cursor: Cursor<int>, ndim: nat, dims: seq<int>, ghost shape: seq<int>, ghost rest: seq<int>)
    returns (r: Option<seq<Option<int>>>)
    requires AxesInRange(dims, ndim) && |shape| == ndim && cursor.data == StaticShape(shape, dims) + rest
    modifies cursor
    ensures r.Some? <==> AxesDistinct(dims, ndim)
    ensures r.Some? ==> cursor.data == rest && r.value == StaticSizes(shape, dims, |dims|)
  {
    var sizes := seq(ndim, i => None);
    for k := 0 to |dims|
      invariant sizes == StaticSizes(shape, dims, k)
      invariant forall i, j | 0 <= i < j < k :: Axis(dims, ndim, i) != Axis(dims, ndim, j)
      invariant cursor.data == StaticShape(shape, dims)[k..] + rest
    {
      var dim := NormalizeDim(dims[k], ndim);
      if sizes[dim.value] != None {
        ghost var i :| 0 <= i < k && Axis(dims, ndim, i) == Axis(dims, ndim, k);
        return None;
      }
      var size := cursor.Next();
      ghost var before := sizes;
      sizes := sizes[dim.value := Some(size)];
      StaticMore(shape, dims, k, before);
    }
    r := Some(sizes);
  }

  lemma StaticMore(shape: seq<int>, dims: seq<int>, k: nat, sizes: seq<Option<int>>)
    requires AxesInRange(dims, |shape|) && k < |dims| && sizes == StaticSizes(shape, dims, k)
    ensures var axis := Axis(dims, |shape|, k);
      && StaticSizes(shape, dims, k + 1) == sizes[axis := Some(shape[axis])]
      && (sizes[axis].None? ==> forall i | 0 <= i < k :: Axis(dims, |shape|, i) != axis)
  {
    var n, axis := |shape|, Axis(dims, |shape|, k);
    forall i | 0 <= i < n ensures IsStatic(dims, n, k + 1, i) <==> IsStatic(dims, n, k, i) || i == axis {
      if i == axis {
        assert Axis(dims, n, k) == i;
      }
    }
  }

  /** The arrays of one constraint, whose constants come next in the stream. */
  ghost predicate Described(stream: seq<int>, dims: seq<int>, arrty: ArrayType, views: seq<ArrayView>, rest: seq<int>) {
    && arrty.dtype.Valid() && arrty.indexBitwidth in {32, 64} && SameRank(views) && |views[0].shape| == arrty.ndim
    && AxesInRange(dims, arrty.ndim) && 0 <= AndAll(views, Bitwidth(arrty.dtype)) < TWO64
    && stream == ArrayConstants(arrty, AndAll(views, Bitwidth(arrty.dtype)), views[0].shape, dims) + rest
  }

  lemma FirstTwo<T>(a: T, b: T, s: seq<T>, rest: seq<T>)
    ensures var t := ([a, b] + s) + rest; t[0] == a && t[1..][0] == b && t[1..][1..] == s + rest
  {
  }

  /** What the first two constants say. */
  lemma DescribedHead(stream: seq<int>, dims: seq<int>, arrty: ArrayType, views: seq<ArrayView>, rest: seq<int>,
                      word: int)
    requires Described(stream, dims, arrty, views, rest) && word == AndAll(views, Bitwidth(arrty.dtype))
    ensures |stream| >= 2 && UnpackArrayType(stream[0]) == arrty
    ensures ToUint64(stream[1..][0]) == word
    ensures stream[1..][1..] == StaticShape(views[0].shape, dims) + rest
  {
    FirstTwo(PackArrayType(arrty), ToInt64(word), StaticShape(views[0].shape, dims), rest);
    Unpacks(arrty, stream[0]);
    Widens(word, stream[1..][0]);
  }

  lemma Unpacks(arrty: ArrayType, c: int)
    requires arrty.dtype.Valid() && arrty.ndim <= INT32_MAX && arrty.indexBitwidth in {32, 64}
    requires c == PackArrayType(arrty)
    ensures UnpackArrayType(c) == arrty
  {
    PackRoundTrip(arrty);
  }

  lemma Widens(u: int, c: int)
    requires 0 <= u < TWO64 && c == ToInt64(u)
    ensures ToUint64(c) == u
  {
    Int64RoundTrip(u);
  }

  /** Of a constant stride, no lower bound needs to be said; it is an error if it is below. */
  method RemoveRedundantLowerBounds(constants: seq<Option<int>>, bounds: seq<Option<int>>)
    returns (r: Option<seq<Option<int>>>)
    requires |constants| == |bounds|
    ensures r.Some? <==> forall i | 0 <= i < |bounds| ::
      constants[i].Some? && bounds[i].Some? ==> bounds[i].value <= constants[i].value
    ensures r.Some? ==> r.value == Cleared(constants, bounds, None)
  {
    var ret := bounds;
    for i := 0 to |bounds|
      invariant |ret| == |bounds|
      invariant forall j | 0 <= j < i ::
        (constants[j].Some? && bounds[j].Some? ==> bounds[j].value <= constants[j].value)
        && ret[j] == if constants[j].Some? then None else bounds[j]
      invariant forall j | i <= j < |bounds| :: ret[j] == bounds[j]
    {
      if constants[i].Some? && ret[i].Some? {
        if constants[i].value < ret[i].value {
          return None;
        }
        ret := ret[i := None];
      }
    }
    r := Some(ret);
  }

  /** Nor a divisor; it is an error if it does not divide the constant. */
  method RemoveRedundantDivisors(constants: seq<Option<int>>, divisors: seq<int>) returns (r: Option<seq<int>>)
    requires |constants| == |divisors| && forall i | 0 <= i < |divisors| :: 0 < divisors[i]
    ensures r.Some? <==> Divide(constants, divisors)
    ensures r.Some? ==> r.value == Cleared(constants, divisors, 1)
  {
    var ret := divisors;
    for i := 0 to |divisors|
      invariant |ret| == |divisors|
      invariant forall j | 0 <= j < i ::
        (constants[j].Some? ==> constants[j].value % divisors[j] == 0)
        && ret[j] == if constants[j].Some? then 1 else divisors[j]
      invariant forall j | i <= j < |divisors| :: ret[j] == divisors[j]
    {
      if constants[i].Some? {
        if constants[i].value % ret[i] != 0 {
          return None;
        }
        ret := ret[i := 1];
      }
    }
    r := Some(ret);
  }

  predicate Divide(constants: seq<Option<int>>, divisors: seq<int>)
    requires |constants| == |divisors| && forall i | 0 <= i < |divisors| :: 0 < divisors[i]
  {
    forall i | 0 <= i < |divisors| :: constants[i].Some? ==> constants[i].value % divisors[i] == 0
  }

  predicate AllNonNegative(sizes: seq<Option<int>>) {
    forall i | 0 <= i < |sizes| :: sizes[i].Some? ==> 0 <= sizes[i].value
  }

  /** A signature says nothing about negative sizes: a static one is an error. */
  predicate StaticNonNegative(shape: seq<int>, dims: seq<int>)
    requires AxesInRange(dims, |shape|)
  {
    forall i | 0 <= i < |dims| :: 0 <= shape[Axis(dims, |shape|, i)]
  }

  lemma StaticSizesNonNegative(shape: seq<int>, dims: seq<int>)
    requires AxesInRange(dims, |shape|)
    ensures AllNonNegative(StaticSizes(shape, dims, |dims|)) <==> StaticNonNegative(shape, dims)
  {
    var sizes := StaticSizes(shape, dims, |dims|);
    if AllNonNegative(sizes) {
      forall i | 0 <= i < |dims| ensures 0 <= shape[Axis(dims, |shape|, i)] {
        assert IsStatic(dims, |shape|, |dims|, Axis(dims, |shape|, i));
        assert sizes[Axis(dims, |shape|, i)].Some?;
      }
    }
  }

  /** No array has stride 1 and a stride of a multiple of 16 bytes, and static sizes keep their divisors. */
  lemma DivisorsFit(dtype: Dtype, views: seq<ArrayView>, dims: seq<int>)
    requires SupportedDtype(dtype) && SameRank(views) && AxesInRange(dims, |views[0].shape|)
    ensures var n, bw := |views[0].shape|, Bitwidth(dtype);
      && 0 < StrideDivisor(dtype)
      && Divide(WhereAllHave(views, bw, STRIDE_ONE, n, Some(1), None),
                WhereAllHave<int>(views, bw, STRIDE_DIVISIBLE, n, StrideDivisor(dtype), 1))
      && Divide(StaticSizes(views[0].shape, dims, |dims|),
                WhereAllHave<int>(views, bw, SHAPE_DIVISIBLE, n, DIVISOR_16, 1))
  {
    var n, bw := |views[0].shape|, Bitwidth(dtype);
    var strides := WhereAllHave(views, bw, STRIDE_ONE, n, Some(1), None);
    var divisors := WhereAllHave<int>(views, bw, STRIDE_DIVISIBLE, n, StrideDivisor(dtype), 1);
    var sizes, factors :=
      StaticSizes(views[0].shape, dims, |dims|), WhereAllHave<int>(views, bw, SHAPE_DIVISIBLE, n, DIVISOR_16, 1);
    forall i | 0 <= i < n
      ensures strides[i].Some? ==> strides[i].value % divisors[i] == 0
      ensures sizes[i].Some? ==> sizes[i].value % factors[i] == 0
    {
      StrideClaims(dtype, views, 0, i);
      if i < TMA_MAX_NDIM && AllHave(views, bw, STRIDE_ONE + i) {
        NotBoth(dtype, views, i);
      }
    }
  }

  lemma NotBoth(dtype: Dtype, views: seq<ArrayView>, i: nat)
    requires SupportedDtype(dtype) && SameRank(views) && i < |views[0].shape| && i < TMA_MAX_NDIM
    requires AllHave(views, Bitwidth(dtype), STRIDE_ONE + i)
    ensures !AllHave(views, Bitwidth(dtype), STRIDE_DIVISIBLE + i)
  {
    assert SpecBit(views[0], Bitwidth(dtype), STRIDE_ONE + i);
    assert !SpecBit(views[0], Bitwidth(dtype), STRIDE_DIVISIBLE + i);
  }

  /** The constraint's own checks, and what it leaves out. */
  method MakeArrayConstraint(dtype: Dtype, ndim: nat, indexBitwidth: nat,
                             strideConstant: seq<Option<int>>, shapeConstant: seq<Option<int>>, strideLowerBound: int,
                             mayAliasInternally: bool, strideDivisibleBy: seq<int>, shapeDivisibleBy: seq<int>,
                             baseAddrDivisibleBy: int)
    returns (r: Option<Constraint>)
    requires |strideConstant| == |shapeConstant| == |strideDivisibleBy| == |shapeDivisibleBy| == ndim
    requires forall i | 0 <= i < ndim :: 0 < strideDivisibleBy[i] && 0 < shapeDivisibleBy[i]
    ensures r.Some? <==>
      && AllNonNegative(shapeConstant) && Divide(strideConstant, strideDivisibleBy)
      && Divide(shapeConstant, shapeDivisibleBy)
      && forall i | 0 <= i < ndim :: strideConstant[i].Some? ==> strideLowerBound <= strideConstant[i].value
    ensures r.Some? ==> r.value == ArrayConstraint(dtype, ndim, indexBitwidth,
      Cleared(strideConstant, AllSome(ndim, strideLowerBound), None), [], mayAliasInternally,
      strideConstant, shapeConstant, Cleared(strideConstant, strideDivisibleBy, 1),
      Cleared(shapeConstant, shapeDivisibleBy, 1), baseAddrDivisibleBy)
  {
    for i := 0 to ndim
      invariant AllNonNegative(shapeConstant[..i])
    {
      assert shapeConstant[..i + 1] == shapeConstant[..i] + [shapeConstant[i]];
      if shapeConstant[i].Some? && shapeConstant[i].value < 0 {
        return None;
      }
    }
    assert shapeConstant[..ndim] == shapeConstant;
    var bounds := RemoveRedundantLowerBounds(strideConstant, AllSome(ndim, strideLowerBound));
    if bounds.None? {
      return None;
    }
    var strideDivisors := RemoveRedundantDivisors(strideConstant, strideDivisibleBy);
    if strideDivisors.None? {
      return None;
    }
    var shapeDivisors := RemoveRedundantDivisors(shapeConstant, shapeDivisibleBy);
    if shapeDivisors.None? {
      return None;
    }
    r := Some(ArrayConstraint(dtype, ndim, indexBitwidth, bounds.value, [], mayAliasInternally, strideConstant,
                              shapeConstant, strideDivisors.value, shapeDivisors.value, baseAddrDivisibleBy));
  }

  /** Fails exactly if the data type has no name, or a static axis is named twice or has a negative size. */
  method ParseArrayConstraint(cursor: Cursor<int>, dims: seq<int>, ghost expected: ArrayType,
                              ghost views: seq<ArrayView>, ghost rest: seq<int>)
    returns (r: Option<Constraint>)
    requires Described(cursor.data, dims, expected, views, rest)
    modifies cursor
    ensures r.Some? <==>
      SupportedDtype(expected.dtype) && AxesDistinct(dims, expected.ndim) && StaticNonNegative(views[0].shape, dims)
    ensures r.Some? ==>
      cursor.data == rest && r.value == ArrayClaim(expected.dtype, expected.indexBitwidth, views, dims)
  {
    hide PackArrayType, UnpackArrayType, ToInt64, ToUint64, StaticShape, AndAll, WhereAllHave, StaticSizes,
      StrideDivisor, Bit, Cleared, AllNonNegative, Divide;
    ghost var expectedWord := AndAll(views, Bitwidth(expected.dtype));
    DescribedHead(cursor.data, dims, expected, views, rest, expectedWord);
    var packed := cursor.Next();
    var arrty := UnpackArrayType(packed);
    var next := cursor.Next();
    var word := ToUint64(next);
    assert arrty.indexBitwidth == 32 || arrty.indexBitwidth == 64;  // checked at run time by the program
    if !SupportedDtype(arrty.dtype) {
      return None;
    }
    var strideConstant, strideDivisibleBy, shapeDivisibleBy :=
      ReadDimensions(word, arrty.ndim, StrideDivisor(arrty.dtype), Bitwidth(arrty.dtype), views);
    var shapeConstant := ReadStaticShape(cursor, arrty.ndim, dims, views[0].shape, rest);
    if shapeConstant.None? {
      return None;
    }
    AndAllBit(views, Bitwidth(arrty.dtype), DISJOINT);
    AndAllBit(views, Bitwidth(arrty.dtype), ALIGNED);
    StaticSizesNonNegative(views[0].shape, dims);
    DivisorsFit(arrty.dtype, views, dims);
    WhereValues(views, Bitwidth(arrty.dtype), arrty.ndim, StrideDivisor(arrty.dtype));
    r := MakeArrayConstraint(arrty.dtype, arrty.ndim, arrty.indexBitwidth, strideConstant, shapeConstant.value, 0,
                             !Bit(word, DISJOINT), strideDivisibleBy, shapeDivisibleBy,
                             if Bit(word, ALIGNED) then DIVISOR_16 else 1);
  }

  lemma WhereValues(views: seq<ArrayView>, bw: nat, n: nat, divisor: int)
    requires AllValid(views) && 0 < divisor
    ensures var strides := WhereAllHave<Option<int>>(views, bw, STRIDE_ONE, n, Some(1), None);
      |strides| == n && forall i | 0 <= i < n :: strides[i].Some? ==> strides[i].value == 1
    ensures var divisors := WhereAllHave<int>(views, bw, STRIDE_DIVISIBLE, n, divisor, 1);
      |divisors| == n && forall i | 0 <= i < n :: 0 < divisors[i]
    ensures var divisors := WhereAllHave<int>(views, bw, SHAPE_DIVISIBLE, n, DIVISOR_16, 1);
      |divisors| == n && forall i | 0 <= i < n :: 0 < divisors[i]
  {
  }

  // ---------------------------------------------------------------- parsing one leaf

  /** Extraction of the leaf succeeded. */
  predicate Extracted(arg: PyArg, a: LeafAnnotation) {
    ValidLeaf(arg) && ValidAnnotation(a) && ExtractStatus(arg, a).Success?
  }

  /** The arrays of a leaf. */
  function ArraysOf(arg: PyArg, a: LeafAnnotation): (views: seq<ArrayView>)
    requires Extracted(arg, a) && (arg.Array? || arg.List?)
    ensures SameRank(views) && |views| == if arg.Array? then 1 else |arg.elements|
  {
    if arg.Array? then [View(arg)]
    else
      assert forall i | 0 <= i < |arg.elements| :: UniformItem(arg.elements[i], arg.elements[0], a.asElement);
      Views(arg.elements)
  }

  function TypeIn(arg: PyArg, a: LeafAnnotation): ArrayType
    requires Extracted(arg, a) && (arg.Array? || arg.List?)
  {
    if arg.Array? then TypeOf(arg.dtype, View(arg), a.asArray)
      else TypeOf(arg.elements[0].dtype, View(arg.elements[0]), a.asElement)
  }

  function StaticDims(arg: PyArg, a: LeafAnnotation): seq<int> {
    if arg.Array? then a.asArray.staticShapeDims else a.asElement.staticShapeDims
  }

  /** Whether the constants of the leaf can be parsed. */
  predicate Parsable(arg: PyArg, a: LeafAnnotation)
    requires Extracted(arg, a)
  {
    arg.Array? || arg.List? ==>
      && SupportedDtype(TypeIn(arg, a).dtype) && AxesDistinct(StaticDims(arg, a), TypeIn(arg, a).ndim)
      && StaticNonNegative(ArraysOf(arg, a)[0].shape, StaticDims(arg, a))
  }

  /** The constraint of a leaf: its exact value if it is a constant, its type if it is not. */
  ghost function ConstraintOf(arg: PyArg, a: LeafAnnotation): Constraint
    requires Extracted(arg, a) && Parsable(arg, a)
  {
    match arg
    case Bool(value) => if a.constant then ConstantBool(value) else ScalarConstraint(BooleanKind, 8)
    case Int(n) => if a.constant then ConstantInt(n) else ScalarConstraint(IntegerKind, a.bitwidth)
    case Float(bits) => if a.constant then ConstantFloat(bits) else ScalarConstraint(FloatKind, 32)
    case Array(_, _) =>
      ArrayClaim(TypeIn(arg, a).dtype, TypeIn(arg, a).indexBitwidth, ArraysOf(arg, a), StaticDims(arg, a))
    case List(_) =>
      ListConstraint(ArrayClaim(TypeIn(arg, a).dtype, TypeIn(arg, a).indexBitwidth, ArraysOf(arg, a),
                                StaticDims(arg, a)), [], true)
    case _ => TupleConstraint([])
  }

  /** Where array `j` of a leaf was read from. */
  function SourceOf(arg: PyArg, a: LeafAnnotation, j: nat): ArraySource
    requires Extracted(arg, a) && (arg.Array? || arg.List?) && j < |ArraysOf(arg, a)|
  {
    if arg.Array? then arg.source
    else
      assert UniformItem(arg.elements[j], arg.elements[0], a.asElement);
      arg.elements[j].source
  }

  /** No stride is negative and, where the reader did not check it, sizes and strides fit the index type. */
  predicate MeetsConditions(arg: PyArg, a: LeafAnnotation, j: nat)
    requires Extracted(arg, a) && (arg.Array? || arg.List?) && j < |ArraysOf(arg, a)|
  {
    && NoNegativeStride(ArraysOf(arg, a)[j])
    && (SourceOf(arg, a, j).CudaInterface? ==> InIndexRange(ArraysOf(arg, a)[j], TypeIn(arg, a).indexBitwidth))
  }

  /** The constraint of the leaf's arrays. */
  ghost function ArrayConstraintOf(arg: PyArg, a: LeafAnnotation): (c: Constraint)
    requires Extracted(arg, a) && Parsable(arg, a) && (arg.Array? || arg.List?)
    ensures c.ArrayConstraint?
  {
    if arg.Array? then ConstraintOf(arg, a) else ConstraintOf(arg, a).element
  }

  /** What the signature says about an array of a leaf is true exactly if the conditions are met. */
  lemma LeafClaimsExactly(arg: PyArg, a: LeafAnnotation, j: nat)
    requires Extracted(arg, a) && Parsable(arg, a) && (arg.Array? || arg.List?) && j < |ArraysOf(arg, a)|
    ensures Satisfies(ArraysOf(arg, a)[j], ArrayConstraintOf(arg, a)) <==> MeetsConditions(arg, a, j)
  {
    if arg.List? {
      assert UniformItem(arg.elements[j], arg.elements[0], a.asElement);
      if j != 0 {
        assert Agrees(View(arg.elements[j]).shape, View(arg.elements[0]).shape, a.asElement.staticShapeDims);
      }
    }
    ArrayClaimExactly(TypeIn(arg, a).dtype, TypeIn(arg, a).indexBitwidth, ArraysOf(arg, a), StaticDims(arg, a), j);
    if !SourceOf(arg, a, j).CudaInterface? {
      ReadFits(SourceOf(arg, a, j), if arg.Array? then arg.dtype else arg.elements[j].dtype,
               TypeIn(arg, a).indexBitwidth);
    }
  }

  /** A reversed array is launched, with a signature that is false of it. */
  lemma NegativeStrideLaunched(ptr: int)
    requires IsInt64(ptr)
    ensures var arg, a := Array(Dtype(2, 32, 1), Torch(ptr, [4], [-1])), DEFAULT_ANNOTATION;
      && Extracted(arg, a) && Parsable(arg, a)
      && !Satisfies(ArraysOf(arg, a)[0], ArrayConstraintOf(arg, a))
  {
    var arg, a := Array(Dtype(2, 32, 1), Torch(ptr, [4], [-1])), DEFAULT_ANNOTATION;
    assert Extracted(arg, a) && Parsable(arg, a);
    LeafClaimsExactly(arg, a, 0);
    assert View(arg).strides[0] == -1;
  }

  /** So is an array whose size does not fit 32-bit indices, with a signature that says it does. */
  lemma WideArrayLaunched(ptr: int)
    requires IsInt64(ptr)
    ensures var arg, a := Array(Dtype(2, 32, 1), CudaInterface(ptr, [0x1_0000_0000], None)), DEFAULT_ANNOTATION;
      && Extracted(arg, a) && Parsable(arg, a)
      && !Satisfies(ArraysOf(arg, a)[0], ArrayConstraintOf(arg, a))
  {
    var arg, a := Array(Dtype(2, 32, 1), CudaInterface(ptr, [0x1_0000_0000], None)), DEFAULT_ANNOTATION;
    WideSizeIsRead(ptr);
    assert Extracted(arg, a) && Parsable(arg, a);
    LeafClaimsExactly(arg, a, 0);
  }

  /** 32-bit numbers and indices, no static sizes. */
  const DEFAULT_ANNOTATION: LeafAnnotation :=
    LeafAnnotation(false, 32, ArrayAnnotation(32, []), ArrayAnnotation(32, []))

  lemma LeafDescribed(arg: PyArg, a: LeafAnnotation, stream: seq<int>, rest: seq<int>)
    requires Extracted(arg, a) && (arg.Array? || arg.List?) && stream == LeafConstants(arg, a) + rest
    ensures Described(stream, StaticDims(arg, a), TypeIn(arg, a), ArraysOf(arg, a), rest)
  {
    if arg.Array? {
      AndAllOne([View(arg)], Bitwidth(arg.dtype));
      AllOnes(SpecWord(View(arg), Bitwidth(arg.dtype)));
    } else {
      AndAllSmall(Views(arg.elements), Bitwidth(arg.elements[0].dtype));
    }
  }

  method ParsePyLong(cursor: Cursor<int>, a: LeafAnnotation, ghost n: int, ghost rest: seq<int>) returns (c: Constraint)
    requires Extracted(Int(n), a) && cursor.data == LeafConstants(Int(n), a) + rest
    modifies cursor
    ensures cursor.data == rest && c == ConstraintOf(Int(n), a)
  {
    if a.constant {
      var format := cursor.Next();
      if format == I64 {
        var value := cursor.Next();
        return ConstantInt(value);
      }
      assert format == U64;  // checked at run time by the program
      var value := cursor.Next();
      Int64RoundTrip(n);
      return ConstantInt(ToUint64(value));
    }
    c := ScalarConstraint(IntegerKind, a.bitwidth);
  }

  /** Parse the constants of one leaf.  Its kind was found when it was classified. */
  method ParseElement(cursor: Cursor<int>, kind: ParameterKind, a: LeafAnnotation, ghost arg: PyArg,
                      ghost rest: seq<int>)
    returns (r: Option<Constraint>)
    requires !arg.Tuple? && LeafKind(arg) == Some(kind)
    requires Extracted(arg, a) && cursor.data == LeafConstants(arg, a) + rest
    modifies cursor
    ensures r.Some? <==> Parsable(arg, a)
    ensures r.Some? ==> cursor.data == rest && r.value == ConstraintOf(arg, a)
  {
    match kind {
      case ArrayKind =>
        LeafDescribed(arg, a, cursor.data, rest);
        r := ParseArrayConstraint(cursor, a.asArray.staticShapeDims, TypeIn(arg, a), ArraysOf(arg, a), rest);
      case BooleanKind =>
        if a.constant {
          var val := cursor.Next();
          r := Some(ConstantBool(val != 0));
        } else {
          r := Some(ScalarConstraint(BooleanKind, 8));
        }
      case IntegerKind =>
        var c := ParsePyLong(cursor, a, arg.number, rest);
        r := Some(c);
      case FloatKind =>
        if a.constant {
          var bits := cursor.Next();
          r := Some(ConstantFloat(bits));
        } else {
          r := Some(ScalarConstraint(FloatKind, 32));
        }
      case ListKind =>
        LeafDescribed(arg, a, cursor.data, rest);
        var element := ParseArrayConstraint(cursor, a.asElement.staticShapeDims, TypeIn(arg, a), ArraysOf(arg, a),
                                            rest);
        r := if element.Some? then Some(ListConstraint(element.value, [], true)) else None;
    }
  }

  // ---------------------------------------------------------------- all leaves

  /** Every leaf was extracted, with the annotation at its position. */
  predicate AllExtracted(leaves: seq<PyArg>, anns: seq<LeafAnnotation>) {
    |leaves| == |anns| && (leaves != [] ==> Extracted(leaves[0], anns[0]) && AllExtracted(leaves[1..], anns[1..]))
  }

  function AllConstants(leaves: seq<PyArg>, anns: seq<LeafAnnotation>): seq<int>
    requires AllExtracted(leaves, anns)
  {
    if leaves == [] then [] else LeafConstants(leaves[0], anns[0]) + AllConstants(leaves[1..], anns[1..])
  }

  predicate AllParsable(leaves: seq<PyArg>, anns: seq<LeafAnnotation>)
    requires AllExtracted(leaves, anns)
  {
    leaves != [] ==> Parsable(leaves[0], anns[0]) && AllParsable(leaves[1..], anns[1..])
  }

  lemma {:induction false} Concat(a: seq<PyArg>, x: seq<LeafAnnotation>, b: seq<PyArg>, y: seq<LeafAnnotation>)
    requires |a| == |x| && |b| == |y|
    ensures AllExtracted(a + b, x + y) <==> AllExtracted(a, x) && AllExtracted(b, y)
    ensures AllExtracted(a + b, x + y) ==>
      && AllConstants(a + b, x + y) == AllConstants(a, x) + AllConstants(b, y)
      && (AllParsable(a + b, x + y) <==> AllParsable(a, x) && AllParsable(b, y))
  {
    if a == [] {
      assert a + b == b && x + y == y;
    } else {
      Concat(a[1..], x[1..], b, y);
      TailConcat(a, b);
      TailConcat(x, y);
      if AllExtracted(a + b, x + y) {
        Assoc(LeafConstants(a[0], x[0]), AllConstants(a[1..], x[1..]), AllConstants(b, y));
      }
    }
  }

  lemma ExtractedOne(arg: PyArg, a: LeafAnnotation)
    requires Extracted(arg, a)
    ensures AllExtracted([arg], [a]) && AllConstants([arg], [a]) == LeafConstants(arg, a)
  {
    assert [arg][1..] == [] && [a][1..] == [];
    assert AllConstants([arg][1..], [a][1..]) == [];
  }

  /** Extract the constants of all leaves, in order; stops at the first leaf that fails. */
  method ExtractCudaArgs(objs: seq<PyArg>, anns: seq<LeafAnnotation>, constants: Vec<int>) returns (status: Status)
    requires |anns| == |objs|
    requires forall i | 0 <= i < |objs| ::
      !objs[i].Tuple? && !objs[i].Unsupported? && ValidLeaf(objs[i]) && ValidAnnotation(anns[i])
    modifies constants
    ensures status.Success? <==> AllExtracted(objs, anns)
    ensures status.Success? ==> constants.data == AllConstants(objs, anns)
    ensures status.Aborted? ==> exists i :: 0 <= i < |objs| && ExtractStatus(objs[i], anns[i]).Aborted?
  {
    constants.data := [];
    for i := 0 to |objs|
      invariant AllExtracted(objs[..i], anns[..i]) && constants.data == AllConstants(objs[..i], anns[..i])
    {
      status := ExtractArg(objs[i], anns[i], constants);
      SplitAt(objs, i);
      SplitAt(anns, i);
      if !status.Success? {
        Concat(objs[..i], anns[..i], objs[i..], anns[i..]);
        return;
      }
      ExtractedOne(objs[i], anns[i]);
      Concat(objs[..i], anns[..i], [objs[i]], [anns[i]]);
    }
    assert objs[..|objs|] == objs && anns[..|anns|] == anns;
    status := Success;
  }

  // ---------------------------------------------------------------- the whole signature

  /** The constraints of the arguments, nested like the arguments themselves. */
  ghost function Expected(args: seq<PyArg>, anns: seq<LeafAnnotation>): seq<Constraint>
    requires AllExtracted(Leaves(args), anns) && AllParsable(Leaves(args), anns)
    decreases args
  {
    if args == [] then []
    else
      SplitLeaves(args, anns);
      var k := |LeavesOf(args[0])|;
      [ExpectedOf(args[0], anns[..k])] + Expected(args[1..], anns[k..])
  }

  ghost function ExpectedOf(arg: PyArg, anns: seq<LeafAnnotation>): Constraint
    requires AllExtracted(LeavesOf(arg), anns) && AllParsable(LeavesOf(arg), anns)
    decreases arg
  {
    if arg.Tuple? then TupleConstraint(Expected(arg.items, anns)) else ConstraintOf(arg, anns[0])
  }

  lemma SplitLeaves(args: seq<PyArg>, anns: seq<LeafAnnotation>)
    requires args != [] && AllExtracted(Leaves(args), anns)
    ensures var k := |LeavesOf(args[0])|;
      && k <= |anns| && AllExtracted(LeavesOf(args[0]), anns[..k]) && AllExtracted(Leaves(args[1..]), anns[k..])
      && AllConstants(Leaves(args), anns) ==
        AllConstants(LeavesOf(args[0]), anns[..k]) + AllConstants(Leaves(args[1..]), anns[k..])
      && (AllParsable(Leaves(args), anns) <==>
          AllParsable(LeavesOf(args[0]), anns[..k]) && AllParsable(Leaves(args[1..]), anns[k..]))
  {
    FirstLeaves(args);
    var k := |LeavesOf(args[0])|;
    SplitAt(anns, k);
    Concat(LeavesOf(args[0]), anns[..k], Leaves(args[1..]), anns[k..]);
  }

  /** What the three streams hold: constants, kinds and annotations of arguments, then whatever follows. */
  datatype Streams = Streams(constants: seq<int>, kinds: seq<ParameterKind>, annotations: seq<LeafAnnotation>)

  ghost function StreamsOf(arg: PyArg, anns: seq<LeafAnnotation>, rest: Streams): Streams
    requires IsSupported(arg) && AllExtracted(LeavesOf(arg), anns)
  {
    Streams(AllConstants(LeavesOf(arg), anns) + rest.constants, KindsIn(arg) + rest.kinds, anns + rest.annotations)
  }

  ghost function StreamsOfAll(args: seq<PyArg>, anns: seq<LeafAnnotation>, rest: Streams): Streams
    requires Supported(args) && AllExtracted(Leaves(args), anns)
  {
    Streams(AllConstants(Leaves(args), anns) + rest.constants, Kinds(args) + rest.kinds, anns + rest.annotations)
  }

  /** The streams of several arguments start with those of the first one. */
  lemma SplitStreams(args: seq<PyArg>, anns: seq<LeafAnnotation>, rest: Streams)
    requires args != [] && Supported(args) && AllExtracted(Leaves(args), anns)
    ensures var k := |LeavesOf(args[0])|;
      && k <= |anns| && IsSupported(args[0]) && Supported(args[1..])
      && AllExtracted(LeavesOf(args[0]), anns[..k]) && AllExtracted(Leaves(args[1..]), anns[k..])
      && StreamsOfAll(args, anns, rest) == StreamsOf(args[0], anns[..k], StreamsOfAll(args[1..], anns[k..], rest))
      && (AllParsable(Leaves(args), anns) <==>
          AllParsable(LeavesOf(args[0]), anns[..k]) && AllParsable(Leaves(args[1..]), anns[k..]))
  {
    SplitLeaves(args, anns);
    First(args);
    var k := |LeavesOf(args[0])|;
    Assoc(AllConstants(LeavesOf(args[0]), anns[..k]), AllConstants(Leaves(args[1..]), anns[k..]), rest.constants);
    Assoc(KindsIn(args[0]), Kinds(args[1..]), rest.kinds);
    Assoc(anns[..k], anns[k..], rest.annotations);
    SplitAt(anns, k);
  }

  /** A closing bracket or the end is next exactly if no arguments are left. */
  lemma WhatIsNext(args: seq<PyArg>, anns: seq<LeafAnnotation>, rest: Streams)
    requires Supported(args) && AllExtracted(Leaves(args), anns)
    requires rest.kinds != [] ==> rest.kinds[0] == TupleEnd
    ensures var s := StreamsOfAll(args, anns, rest).kinds; args == [] <==> s == [] || s[0] == TupleEnd
    ensures args == [] ==>
      && StreamsOfAll(args, anns, rest) == rest && AllParsable(Leaves(args), anns) && Expected(args, anns) == []
  {
    if args != [] {
      First(args);
    }
  }

  /** The three streams that a signature is parsed from. */
  class Reader {
    const constants: Cursor<int>
    const kinds: Cursor<ParameterKind>
    const annotations: Cursor<LeafAnnotation>

    constructor (constants: seq<int>, kinds: seq<ParameterKind>, annotations: seq<LeafAnnotation>)
      ensures Valid() && View() == Streams(constants, kinds, annotations)
      ensures fresh(this.constants) && fresh(this.kinds) && fresh(this.annotations)
    {
      var c := new Cursor(constants);
      var k := new Cursor(kinds);
      var a := new Cursor(annotations);
      this.constants, this.kinds, this.annotations := c, k, a;
    }

    ghost predicate Valid() {
      constants as object != kinds as object && constants as object != annotations as object
        && kinds as object != annotations as object
    }

    ghost function View(): Streams
      reads constants, kinds, annotations
    {
      Streams(constants.data, kinds.data, annotations.data)
    }

    /** Parse one leaf. */
    method ParseLeaf(kind: ParameterKind, ghost arg: PyArg, ghost anns: seq<LeafAnnotation>, ghost rest: Streams)
      returns (r: Option<Constraint>)
      requires Valid() && !arg.Tuple? && LeafKind(arg) == Some(kind) && AllExtracted([arg], anns)
      requires View() == Streams(AllConstants([arg], anns) + rest.constants, rest.kinds, anns + rest.annotations)
      modifies constants, annotations
      ensures r.Some? <==> AllParsable([arg], anns)
      ensures r.Some? ==> r.value == ConstraintOf(arg, anns[0]) && View() == rest
    {
      hide Extracted, Parsable, ConstraintOf, LeafConstants;
      assert anns == [anns[0]];
      ExtractedOne(arg, anns[0]);
      assert [arg][1..] == [] && AllParsable([arg], anns) == Parsable(arg, anns[0]);
      var annotation := annotations.Next();
      r := ParseElement(constants, kind, annotation, arg, rest.constants);
    }

    /** Parse one parameter, a tuple at once with all its items. */
    method ParseParamConstraint(ghost arg: PyArg, ghost anns: seq<LeafAnnotation>, ghost rest: Streams)
      returns (r: Option<Constraint>)
      requires Valid() && IsSupported(arg) && AllExtracted(LeavesOf(arg), anns) && View() == StreamsOf(arg, anns, rest)
      modifies constants, kinds, annotations
      ensures r.Some? <==> AllParsable(LeavesOf(arg), anns)
      ensures r.Some? ==> r.value == ExpectedOf(arg, anns) && View() == rest
      decreases |kinds.data|, 0
    {
      hide Parsable, Extracted, AllConstants, Supported, AllParsable, AllExtracted, Leaves;
      var kind := kinds.Next();
      if kind == TupleBegin {
        ghost var after := rest.(kinds := [TupleEnd] + rest.kinds);
        var items := ParseItems(arg.items, anns, after);
        if items.None? {
          return None;
        }
        var end := kinds.Next();
        assert end == TupleEnd;  // checked at run time by the program
        r := Some(TupleConstraint(items.value));
      } else {
        r := ParseLeaf(kind, arg, anns, rest);
      }
    }

    /** Parse the first of several parameters. */
    method ParseNext(ghost left: seq<PyArg>, ghost anns: seq<LeafAnnotation>, ghost rest: Streams, ghost n: nat)
      returns (r: Option<Constraint>)
      requires Valid() && left != [] && Supported(left) && AllExtracted(Leaves(left), anns)
      requires View() == StreamsOfAll(left, anns, rest)
      requires n == |LeavesOf(left[0])|
      modifies constants, kinds, annotations
      ensures n <= |anns| && AllExtracted(LeavesOf(left[0]), anns[..n])
      ensures Supported(left[1..]) && AllExtracted(Leaves(left[1..]), anns[n..])
      ensures r.None? ==> !AllParsable(Leaves(left), anns)
      ensures r.Some? ==>
        && (AllParsable(Leaves(left), anns) <==> AllParsable(Leaves(left[1..]), anns[n..]))
        && (AllParsable(Leaves(left), anns) ==> Expected(left, anns) == [r.value] + Expected(left[1..], anns[n..]))
        && View() == StreamsOfAll(left[1..], anns[n..], rest)
      decreases |kinds.data|, 1
    {
      SplitStreams(left, anns, rest);
      r := ParseParamConstraint(left[0], anns[..n], StreamsOfAll(left[1..], anns[n..], rest));
    }

    /** Parse parameters, up to a closing bracket or the end. */
    method ParseItems(ghost items: seq<PyArg>, ghost anns: seq<LeafAnnotation>, ghost rest: Streams)
      returns (r: Option<seq<Constraint>>)
      requires Valid() && Supported(items) && AllExtracted(Leaves(items), anns)
      requires View() == StreamsOfAll(items, anns, rest)
      requires rest.kinds != [] ==> rest.kinds[0] == TupleEnd
      modifies constants, kinds, annotations
      ensures r.Some? <==> AllParsable(Leaves(items), anns)
      ensures r.Some? ==> r.value == Expected(items, anns) && View() == rest
      decreases |kinds.data|, 2
    {
      hide Supported, AllParsable, AllExtracted, Expected, Kinds, AllConstants;
      var parsed: seq<Constraint> := [];
      ghost var left, leftAnns := items, anns;
      while kinds.data != [] && kinds.data[0] != TupleEnd
        invariant Supported(left) && AllExtracted(Leaves(left), leftAnns)
        invariant View() == StreamsOfAll(left, leftAnns, rest)
        invariant |kinds.data| <= |old(kinds.data)|
        invariant AllParsable(Leaves(items), anns) <==> AllParsable(Leaves(left), leftAnns)
        invariant AllParsable(Leaves(items), anns) ==> Expected(items, anns) == parsed + Expected(left, leftAnns)
        decreases |left|
      {
        WhatIsNext(left, leftAnns, rest);
        ghost var n := |LeavesOf(left[0])|;
        KindsShrink(left);
        var item := ParseNext(left, leftAnns, rest, n);
        if item.None? {
          return None;
        }
        if AllParsable(Leaves(items), anns) {
          Assoc(parsed, [item.value], Expected(left[1..], leftAnns[n..]));
        }
        parsed := parsed + [item.value];
        left, leftAnns := left[1..], leftAnns[n..];
      }
      WhatIsNext(left, leftAnns, rest);
      r := Some(parsed);
    }
  }

  lemma KindsShrink(args: seq<PyArg>)
    requires args != [] && Supported(args)
    ensures Supported(args[1..]) && |Kinds(args[1..])| < |Kinds(args)|
  {
    First(args);
  }

  /**
   Parsing what extraction wrote: all three streams are used up, and the nesting and every
   constant value are rebuilt.  It fails exactly if an array has an unnamed data type, or if
   a static axis is named twice.
   */
  method ParseParameterConstraints(constants: seq<int>, kinds: seq<ParameterKind>, anns: seq<LeafAnnotation>,
                                   ghost args: seq<PyArg>)
    returns (r: Option<seq<Constraint>>)
    requires Supported(args) && AllExtracted(Leaves(args), anns)
    requires constants == AllConstants(Leaves(args), anns) && kinds == Kinds(args)
    ensures r.Some? <==> AllParsable(Leaves(args), anns)
    ensures r.Some? ==> r.value == Expected(args, anns)
  {
    var reader := new Reader(constants, kinds, anns);
    assert constants + [] == constants && kinds + [] == kinds && anns + [] == anns;
    r := reader.ParseItems(args, anns, Streams([], [], []));
    if r.Some? {
      assert reader.View() == Streams([], [], []);
      assert reader.constants.data == [] && reader.annotations.data == [];  // checked at run time by the program
    }
  }
}
