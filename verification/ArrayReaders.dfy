/**
 How array arguments are read: through the CUDA array interface, a DLPack capsule, or the
 methods of a PyTorch tensor.  The three do not check the same things.

 Main results: exactly which arrays are accepted and with which words; only the CUDA array
 interface lets sizes and strides through that do not fit 32-bit indices.
 */
module ArrayReaders {
  import opened ArraySpec
  import opened Bits
  import opened Wrappers

  const INT32_MIN: int := -0x8000_0000

  /**
   An array argument: base pointer, sizes, and strides, in bytes for the CUDA array interface
   and in elements otherwise.  Without strides, they are row-major.
   */
  datatype ArraySource =
    | CudaInterface(ptr: int, shape: seq<int>, byteStrides: Option<seq<int>>)
    | Dlpack(ptr: int, shape: seq<int>, strides: Option<seq<int>>)
    | Torch(ptr: int, shape: seq<int>, strideTuple: seq<int>)

  /** Division as the program does it, towards zero. */
  function Quotient(a: int, b: int): int
    requires 0 < b
  {
    if 0 <= a then a / b else -(-a / b)
  }

  /** The first `n` strides; missing ones are never looked at. */
  function Strides(s: seq<int>, width: nat, n: nat): (strides: seq<int>)
    requires 0 < width
    ensures |strides| == n
  {
    seq(n, i requires 0 <= i < n => if i < |s| then Quotient(s[i], width) else 0)
  }

  function ByteWidth(d: Dtype): (width: nat)
    ensures 0 < width
  {
    if d.bits < 8 then 1 else d.bits / 8
  }

  /** The words of the array: pointer, sizes and strides, in elements. */
  function ViewOf(source: ArraySource, dtype: Dtype): (v: ArrayView)
    ensures v.Valid() && v.ptr == source.ptr && v.shape == source.shape
  {
    var n := |source.shape|;
    match source
    case CudaInterface(ptr, shape, strides) =>
      ArrayView(ptr, shape, if strides.None? then StrideWords(shape) else Strides(strides.value, ByteWidth(dtype), n))
    case Dlpack(ptr, shape, strides) =>
      ArrayView(ptr, shape, if strides.None? then StrideWords(shape) else Strides(strides.value, 1, n))
    case Torch(ptr, shape, strides) => ArrayView(ptr, shape, Strides(strides, 1, n))
  }

  predicate AllInt64(s: seq<int>, n: nat) {
    forall i | 0 <= i < n && i < |s| :: IsInt64(s[i])
  }

  predicate FitsIndex(s: seq<int>, n: nat, indexBitwidth: nat) {
    forall i | 0 <= i < n && i < |s| :: indexBitwidth == 64 || INT32_MIN <= s[i] <= INT32_MAX
  }

  /** Row-major strides can be computed. */
  predicate CanFill(shape: seq<int>, indexBitwidth: nat) {
    indexBitwidth == 64 || Fits32(shape, 0)
  }

  /**
   Arguments as the C++ code gets to see them: at least as many strides as sizes where the
   program does not compare the lengths, 64-bit numbers in a capsule, and whole bytes.
   */
  predicate ValidSource(source: ArraySource, dtype: Dtype) {
    match source
    case CudaInterface(_, shape, strides) =>
      dtype.bits in {8, 16, 32, 64} && dtype.lanes == 1 && (strides.Some? ==> |shape| <= |strides.value|)
    case Dlpack(ptr, shape, strides) =>
      && IsInt64(ptr) && AllInt64(shape, |shape|)
      && (strides.Some? ==> |shape| == |strides.value| && AllInt64(strides.value, |shape|))
    case Torch(_, _, _) => true
  }

  /** What each reader accepts. */
  predicate Readable(source: ArraySource, dtype: Dtype, indexBitwidth: nat) {
    var n := |source.shape|;
    n <= INT32_MAX &&
    match source
    case CudaInterface(ptr, shape, strides) =>
      && IsInt64(ptr) && AllInt64(shape, n)
      && (if strides.None? then CanFill(shape, indexBitwidth) else AllInt64(strides.value, n))
    case Dlpack(_, shape, strides) =>
      && FitsIndex(shape, n, indexBitwidth)
      && (if strides.None? then CanFill(shape, indexBitwidth) else FitsIndex(strides.value, n, indexBitwidth))
    case Torch(ptr, shape, strides) =>
      && IsInt64(ptr) && AllInt64(shape, n) && |strides| == n && AllInt64(strides, n)
      && FitsIndex(shape, n, indexBitwidth) && FitsIndex(strides, n, indexBitwidth)
  }

  /** Sizes and strides are in the range of the index type. */
  predicate InIndexRange(v: ArrayView, indexBitwidth: nat)
    requires v.Valid()
  {
    FitsIndex(v.shape, |v.shape|, indexBitwidth) && FitsIndex(v.strides, |v.shape|, indexBitwidth)
  }

  lemma QuotientByOne(s: seq<int>, n: nat)
    requires n <= |s|
    ensures Strides(s, 1, n) == s[..n]
  {
  }

  /** Computed strides that pass the test fit the index type, whether or not they are right. */
  lemma FilledFits(shape: seq<int>, indexBitwidth: nat)
    requires CanFill(shape, indexBitwidth)
    ensures FitsIndex(StrideWords(shape), |shape|, indexBitwidth)
  {
    if indexBitwidth != 64 {
      forall i | 0 <= i < |shape| ensures INT32_MIN <= StrideWords(shape)[i] <= INT32_MAX {
        assert WrappedStride(shape, i) <= INT32_MAX;
      }
    }
  }

  /** Whatever is read from a capsule or a tensor fits the index type. */
  lemma ReadFits(source: ArraySource, dtype: Dtype, indexBitwidth: nat)
    requires ValidSource(source, dtype) && Readable(source, dtype, indexBitwidth) && !source.CudaInterface?
    ensures InIndexRange(ViewOf(source, dtype), indexBitwidth)
  {
    hide StrideWords;
    match source
    case Dlpack(_, shape, strides) =>
      if strides.Some? {
        QuotientByOne(strides.value, |shape|);
      } else {
        FilledFits(shape, indexBitwidth);
      }
    case Torch(_, shape, strides) => QuotientByOne(strides, |shape|);
  }

  /** The CUDA array interface lets any 64-bit size through, also with 32-bit indices. */
  lemma WideSizeIsRead(ptr: int)
    requires IsInt64(ptr)
    ensures var source, dtype := CudaInterface(ptr, [0x1_0000_0000], None), Dtype(2, 32, 1);
      ValidSource(source, dtype) && Readable(source, dtype, 32) && !InIndexRange(ViewOf(source, dtype), 32)
  {
    var shape := [0x1_0000_0000];
    LastStride(shape);
    assert Fits32(shape, 0);
    assert ViewOf(CudaInterface(ptr, shape, None), Dtype(2, 32, 1)).shape[0] == 0x1_0000_0000;
  }

  /** Strides in bytes are kept exactly if they are multiples of the element's width. */
  lemma ByteStridesKept(byteStrides: seq<int>, width: nat, n: nat)
    requires 0 < width && n <= |byteStrides|
    ensures (forall i | 0 <= i < n :: Strides(byteStrides, width, n)[i] * width == byteStrides[i])
      <==> forall i | 0 <= i < n :: byteStrides[i] % width == 0
  {
    forall i | 0 <= i < n
      ensures Strides(byteStrides, width, n)[i] * width == byteStrides[i] <==> byteStrides[i] % width == 0
    {
      QuotientExact(byteStrides[i], width);
    }
  }

  lemma QuotientExact(a: int, b: int)
    requires 0 < b
    ensures Quotient(a, b) * b == a <==> a % b == 0
  {
    if 0 <= a {
      assert a == b * (a / b) + a % b;
    } else {
      assert -a == b * (-a / b) + -a % b;
      assert Quotient(a, b) * b == -(b * (-a / b));
      if -a % b == 0 {
        ModUnique(a, b, -(-a / b), 0);
      } else {
        ModUnique(a, b, -(-a / b) - 1, b - -a % b);
      }
    }
  }

  /** Such strides are cut off: six bytes become one element of four. */
  lemma ByteStrideCut()
    ensures Strides([6], 4, 1) == [1]
  {
  }

  /** No product that the specialisation bits are computed from leaves the signed 64-bit numbers. */
  predicate NoOverflow(v: ArrayView, bitwidth: nat)
    requires v.Valid()
  {
    && (forall i | 0 <= i < |v.shape| :: IsInt64(v.strides[i] * bitwidth) && IsInt64(v.shape[i] * bitwidth))
    && (forall i, j | 0 <= i < |v.shape| && 0 <= j < |v.shape| :: IsInt64(v.strides[i] * v.shape[j]))
  }

  /** With 32-bit indices, nothing overflows. */
  lemma NoOverflowIn32Bits(v: ArrayView, dtype: Dtype)
    requires v.Valid() && InIndexRange(v, 32) && dtype.Valid()
    ensures NoOverflow(v, dtype.bits * dtype.lanes)
  {
    SmallFactors(dtype.bits, 0x100, dtype.lanes, 0x1_0000);
    var bitwidth := dtype.bits * dtype.lanes;
    forall i | 0 <= i < |v.shape| ensures IsInt64(v.strides[i] * bitwidth) && IsInt64(v.shape[i] * bitwidth) {
      SmallFactors(v.strides[i], 0x8000_0000, bitwidth, 0x100_0000);
      SmallFactors(v.shape[i], 0x8000_0000, bitwidth, 0x100_0000);
    }
    forall i, j | 0 <= i < |v.shape| && 0 <= j < |v.shape| ensures IsInt64(v.strides[i] * v.shape[j]) {
      SmallFactors(v.strides[i], 0x8000_0000, v.shape[j], 0x8000_0000);
    }
  }

  lemma SmallFactors(a: int, m: int, b: int, n: int)
    requires -m <= a <= m && -n <= b <= n
    ensures -(m * n) <= a * b <= m * n
  {
    assert (m - a) * (n + b) == m * n + m * b - a * n - a * b;
    assert (m + a) * (n - b) == m * n - m * b + a * n - a * b;
    assert (m - a) * (n - b) == m * n - m * b - a * n + a * b;
    assert (m + a) * (n + b) == m * n + m * b + a * n + a * b;
    NotNegative(m - a, n + b);
    NotNegative(m + a, n - b);
    NotNegative(m - a, n - b);
    NotNegative(m + a, n + b);
  }

  lemma NotNegative(a: int, b: int)
    requires 0 <= a && 0 <= b
    ensures 0 <= a * b
  {
  }

  // ---------------------------------------------------------------- the readers

  /** Reads an array into words, or raises an error. */
  method ReadArray(source: ArraySource, dtype: Dtype, indexBitwidth: nat) returns (r: Option<ArrayView>)
    requires ValidSource(source, dtype)
    ensures r == if Readable(source, dtype, indexBitwidth) then Some(ViewOf(source, dtype)) else None
  {
    var n := |source.shape|;
    if n > INT32_MAX {
      return None;
    }
    var words := new int[1 + 2 * n];
    var ok;
    match source {
      case CudaInterface(ptr, shape, strides) =>
        ok := ReadCudaInterface(ptr, shape, strides, ByteWidth(dtype), indexBitwidth, words);
      case Dlpack(ptr, shape, strides) =>
        ok := ReadDlpack(ptr, shape, strides, indexBitwidth, words);
      case Torch(ptr, shape, strides) =>
        ok := ReadTorch(ptr, shape, strides, indexBitwidth, words);
    }
    r := if ok then Some(ArrayView(words[0], words[1..1 + n], words[1 + n..])) else None;
  }

  /** The words hold pointer, sizes and strides. */
  predicate Holds(words: seq<int>, ptr: int, shape: seq<int>, strides: seq<int>) {
    && |words| == 1 + |shape| + |strides|
    && words[0] == ptr && words[1..1 + |shape|] == shape && words[1 + |shape|..] == strides
  }

  /** Neither sizes nor strides are compared with the range of the index type. */
  method ReadCudaInterface(ptr: int, shape: seq<int>, strides: Option<seq<int>>, width: nat, indexBitwidth: nat,
                           words: array<int>) returns (ok: bool)
    requires words.Length == 1 + 2 * |shape| && 0 < width && (strides.Some? ==> |shape| <= |strides.value|)
    modifies words
    ensures ok <==>
      && IsInt64(ptr) && AllInt64(shape, |shape|)
      && (if strides.None? then CanFill(shape, indexBitwidth) else AllInt64(strides.value, |shape|))
    ensures ok ==> Holds(words[..], ptr, shape,
      if strides.None? then StrideWords(shape) else Strides(strides.value, width, |shape|))
  {
    hide StrideWords, Strides, Fits32;
    if !IsInt64(ptr) {
      return false;
    }
    words[0] := ptr;
    ok := ReadSizes(shape, 64, words);
    if ok {
      ghost var before := words[..];
      if strides.None? {
        assert words[0 + 1..0 + 1 + |shape|] == shape;
        ok := FillRowMajorStrides(indexBitwidth, words, 0, |shape|);
        assert ok ==> words[1 + |shape|..] == StrideWords(shape);
      } else {
        ok := ReadStrides(strides.value, width, 64, |shape|, words);
      }
      assert words[..1 + |shape|] == before[..1 + |shape|];
      KeptPrefix(words[..], before, |shape|);
    }
  }

  method ReadDlpack(ptr: int, shape: seq<int>, strides: Option<seq<int>>, indexBitwidth: nat, words: array<int>)
    returns (ok: bool)
    requires words.Length == 1 + 2 * |shape| && AllInt64(shape, |shape|)
    requires strides.Some? ==> |shape| == |strides.value| && AllInt64(strides.value, |shape|)
    modifies words
    ensures ok <==>
      && FitsIndex(shape, |shape|, indexBitwidth)
      && (if strides.None? then CanFill(shape, indexBitwidth) else FitsIndex(strides.value, |shape|, indexBitwidth))
    ensures ok ==> Holds(words[..], ptr, shape,
      if strides.None? then StrideWords(shape) else Strides(strides.value, 1, |shape|))
  {
    hide StrideWords, Strides, Fits32;
    words[0] := ptr;
    ok := ReadSizes(shape, indexBitwidth, words);
    if ok {
      ghost var before := words[..];
      if strides.None? {
        assert words[0 + 1..0 + 1 + |shape|] == shape;
        ok := FillRowMajorStrides(indexBitwidth, words, 0, |shape|);
        assert ok ==> words[1 + |shape|..] == StrideWords(shape);
      } else {
        ok := ReadStrides(strides.value, 1, indexBitwidth, |shape|, words);
      }
      assert words[..1 + |shape|] == before[..1 + |shape|];
      KeptPrefix(words[..], before, |shape|);
    }
  }

  method ReadTorch(ptr: int, shape: seq<int>, strides: seq<int>, indexBitwidth: nat, words: array<int>)
    returns (ok: bool)
    requires words.Length == 1 + 2 * |shape|
    modifies words
    ensures ok <==>
      && IsInt64(ptr) && AllInt64(shape, |shape|) && |strides| == |shape| && AllInt64(strides, |shape|)
      && FitsIndex(shape, |shape|, indexBitwidth) && FitsIndex(strides, |shape|, indexBitwidth)
    ensures ok ==> Holds(words[..], ptr, shape, Strides(strides, 1, |shape|))
  {
    hide Strides;
    if !IsInt64(ptr) {
      return false;
    }
    words[0] := ptr;
    ok := ReadSizes(shape, indexBitwidth, words);
    if ok {
      if |strides| != |shape| {
        return false;
      }
      ghost var before := words[..];
      ok := ReadStrides(strides, 1, indexBitwidth, |shape|, words);
      KeptPrefix(words[..], before, |shape|);
    }
  }

  lemma KeptPrefix(words: seq<int>, before: seq<int>, n: nat)
    requires 1 + n <= |words| && 1 + n <= |before| && words[..1 + n] == before[..1 + n]
    ensures words[0] == before[0] && words[1..1 + n] == before[1..1 + n]
  {
    assert words[0] == words[..1 + n][0] && before[0] == before[..1 + n][0];
    assert words[1..1 + n] == words[..1 + n][1..] && before[1..1 + n] == before[..1 + n][1..];
  }

  /** Sizes that are 64-bit numbers and fit the index type. */
  method ReadSizes(shape: seq<int>, indexBitwidth: nat, words: array<int>) returns (ok: bool)
    requires words.Length == 1 + 2 * |shape|
    modifies words
    ensures ok <==> AllInt64(shape, |shape|) && FitsIndex(shape, |shape|, indexBitwidth)
    ensures ok ==> words[1..1 + |shape|] == shape
    ensures words[0] == old(words[0])
  {
    for i := 0 to |shape|
      invariant AllInt64(shape, i) && FitsIndex(shape, i, indexBitwidth)
      invariant words[0] == old(words[0]) && forall j | 0 <= j < i :: words[1 + j] == shape[j]
    {
      if !IsInt64(shape[i]) || (indexBitwidth != 64 && !(INT32_MIN <= shape[i] <= INT32_MAX)) {
        return false;
      }
      words[1 + i] := shape[i];
    }
    ok := true;
  }

  /** The first `n` strides, in elements. */
  method ReadStrides(strides: seq<int>, width: nat, indexBitwidth: nat, n: nat, words: array<int>)
    returns (ok: bool)
    requires words.Length == 1 + 2 * n && n <= |strides| && 0 < width
    modifies words
    ensures ok <==> AllInt64(strides, n) && FitsIndex(strides, n, indexBitwidth)
    ensures ok ==> words[1 + n..] == Strides(strides, width, n)
    ensures words[..1 + n] == old(words[..1 + n])
  {
    hide Quotient;
    for i := 0 to n
      invariant AllInt64(strides, i) && FitsIndex(strides, i, indexBitwidth)
      invariant forall j | 0 <= j < i :: words[1 + n + j] == Quotient(strides[j], width)
      invariant forall j | 0 <= j < 1 + n :: words[j] == old(words[j])
    {
      if !IsInt64(strides[i]) || (indexBitwidth != 64 && !(INT32_MIN <= strides[i] <= INT32_MAX)) {
        return false;
      }
      words[1 + n + i] := Quotient(strides[i], width);
    }
    ok := true;
  }
}
