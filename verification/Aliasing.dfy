/**
 What a whole signature claims about the arrays of a launch: besides the claims about each
 array, that no array shares memory with one of another parameter.

 Main results: the claims hold exactly if each array meets the conditions of its own and no two
 parameters share memory; and two row-major arrays share memory exactly if their ranges of
 bytes meet.
 */
module Aliasing {
  import opened ArgumentConstants
  import opened ArgumentTree
  import opened ArrayReaders
  import opened ArraySpec
  import opened Bits
  import opened Signature
  import opened Wrappers

  // ---------------------------------------------------------------- memory

  /** One of the array's elements, of `width` bytes each, has a byte at address `a`. */
  ghost predicate Occupies(v: ArrayView, width: nat, a: int)
    requires v.Valid()
  {
    exists x: seq<int> :: InRange(v.Dims(), x) && IsElementByte(v, width, x, a)
  }

  predicate IsElementByte(v: ArrayView, width: nat, x: seq<int>, a: int)
    requires v.Valid() && |x| == |v.shape|
  {
    var first := v.ptr + width * Offset(v.Dims(), x);
    first <= a < first + width
  }

  ghost predicate SharesMemory(v: ArrayView, vWidth: nat, w: ArrayView, wWidth: nat)
    requires v.Valid() && w.Valid()
  {
    exists a :: Occupies(v, vWidth, a) && Occupies(w, wWidth, a)
  }

  // ---------------------------------------------------------------- row-major arrays

  predicate IsRowMajor(v: ArrayView) {
    v.strides == RowMajor(v.shape) && forall i | 0 <= i < |v.shape| :: 0 < v.shape[i]
  }

  /** The number of the element at `x`, in row-major order. */
  function Number(shape: seq<int>, x: seq<int>): int
    requires |x| == |shape|
  {
    if shape == [] then 0 else x[0] * Product(shape[1..]) + Number(shape[1..], x[1..])
  }

  /** The index of the element with number `n`. */
  function IndexOf(shape: seq<int>, n: int): (x: seq<int>)
    requires forall i | 0 <= i < |shape| :: 0 < shape[i]
    ensures |x| == |shape|
  {
    if shape == [] then []
    else
      PositiveProduct(shape[1..]);
      [n / Product(shape[1..])] + IndexOf(shape[1..], n % Product(shape[1..]))
  }

  lemma {:induction false} FirstDimension(dims: seq<Dim>, x: seq<int>)
    requires |x| == |dims| && dims != []
    ensures Offset(dims, x) == x[0] * dims[0].stride + Offset(dims[1..], x[1..])
    decreases |dims|
  {
    var k := |dims| - 1;
    if k == 0 {
      assert dims[..0] == [] && x[..0] == [] && dims[1..] == [];
    } else {
      FirstDimension(dims[..k], x[..k]);
      assert dims[..k][1..] == dims[1..][..k - 1] && x[..k][1..] == x[1..][..k - 1];
    }
  }

  lemma {:induction false} OffsetIsNumber(shape: seq<int>, x: seq<int>)
    requires |x| == |shape|
    ensures Offset(Zip(RowMajor(shape), shape), x) == Number(shape, x)
    decreases |shape|
  {
    if shape != [] {
      FirstDimension(Zip(RowMajor(shape), shape), x);
      assert Zip(RowMajor(shape), shape)[1..] == Zip(RowMajor(shape[1..]), shape[1..]);
      OffsetIsNumber(shape[1..], x[1..]);
    }
  }

  predicate IsIndex(shape: seq<int>, x: seq<int>) {
    |x| == |shape| && forall i | 0 <= i < |shape| :: 0 <= x[i] < shape[i]
  }

  lemma {:induction false} NumberInRange(shape: seq<int>, x: seq<int>)
    requires IsIndex(shape, x)
    ensures 0 <= Number(shape, x) < Product(shape)
    decreases |shape|
  {
    if shape != [] {
      NumberInRange(shape[1..], x[1..]);
      DigitBounded(Number(shape[1..], x[1..]), x[0], Product(shape[1..]), shape[0]);
    }
  }

  lemma {:induction false} EveryNumber(shape: seq<int>, n: int)
    requires (forall i | 0 <= i < |shape| :: 0 < shape[i]) && 0 <= n < Product(shape)
    ensures IsIndex(shape, IndexOf(shape, n)) && Number(shape, IndexOf(shape, n)) == n
    decreases |shape|
  {
    if shape != [] {
      var p := Product(shape[1..]);
      PositiveProduct(shape[1..]);
      EveryNumber(shape[1..], n % p);
      Digit(n, p, shape[0]);
      assert IndexOf(shape, n)[1..] == IndexOf(shape[1..], n % p);
    }
  }

  lemma Digit(n: int, p: int, s: int)
    requires 0 < p && 0 <= n < s * p
    ensures n == n / p * p + n % p && 0 <= n / p < s
  {
    Quotients(n, p);
    if s <= n / p {
      assert s * p <= n / p * p by { Scaled(s, n / p, p); }
    }
  }

  lemma Scaled(a: int, b: int, p: int)
    requires a <= b && 0 <= p
    ensures a * p <= b * p
  {
  }

  lemma RowMajorElement(v: ArrayView, width: nat, x: seq<int>, a: int)
    requires v.Valid() && IsRowMajor(v) && InRange(v.Dims(), x) && IsElementByte(v, width, x, a)
    ensures v.ptr <= a < v.ptr + width * Product(v.shape)
  {
    OffsetIsNumber(v.shape, x);
    forall i | 0 <= i < |v.shape| ensures 0 <= x[i] < v.shape[i] {
      assert v.Dims()[i].shape == v.shape[i];
    }
    NumberInRange(v.shape, x);
    BytesInRange(width, Number(v.shape, x), Product(v.shape));
  }

  lemma RowMajorByte(v: ArrayView, width: nat, n: int, a: int)
    requires v.Valid() && IsRowMajor(v) && 0 <= n < Product(v.shape)
    requires v.ptr + width * n <= a < v.ptr + width * n + width
    ensures Occupies(v, width, a)
  {
    EveryNumber(v.shape, n);
    var x := IndexOf(v.shape, n);
    OffsetIsNumber(v.shape, x);
    assert InRange(v.Dims(), x) && IsElementByte(v, width, x, a);
  }

  /** A row-major array occupies exactly the bytes of its elements from its base on. */
  lemma RowMajorOccupies(v: ArrayView, width: nat, a: int)
    requires v.Valid() && IsRowMajor(v) && 0 < width
    ensures Occupies(v, width, a) <==> v.ptr <= a < v.ptr + width * Product(v.shape)
  {
    hide IsRowMajor, Product, IsElementByte;
    if Occupies(v, width, a) {
      var x: seq<int> :| InRange(v.Dims(), x) && IsElementByte(v, width, x, a);
      RowMajorElement(v, width, x, a);
    } else if v.ptr <= a < v.ptr + width * Product(v.shape) {
      Digit(a - v.ptr, width, Product(v.shape));
      RowMajorByte(v, width, (a - v.ptr) / width, a);
    }
  }

  lemma BytesInRange(width: nat, n: int, count: int)
    requires 0 <= n < count
    ensures 0 <= width * n && width * n + width <= width * count
  {
    assert width * n + width == width * (n + 1);
    Scaled(n + 1, count, width);
  }

  /** Two row-major arrays share memory exactly if their ranges of bytes meet. */
  lemma RowMajorShareExactly(v: ArrayView, vWidth: nat, w: ArrayView, wWidth: nat)
    requires v.Valid() && w.Valid() && IsRowMajor(v) && IsRowMajor(w) && 0 < vWidth && 0 < wWidth
    ensures SharesMemory(v, vWidth, w, wWidth) <==>
      v.ptr < w.ptr + wWidth * Product(w.shape) && w.ptr < v.ptr + vWidth * Product(v.shape)
  {
    hide Occupies, IsRowMajor;
    if SharesMemory(v, vWidth, w, wWidth) {
      var a :| Occupies(v, vWidth, a) && Occupies(w, wWidth, a);
      RowMajorOccupies(v, vWidth, a);
      RowMajorOccupies(w, wWidth, a);
    }
    Nonempty(v, vWidth);
    Nonempty(w, wWidth);
    var a := if v.ptr < w.ptr then w.ptr else v.ptr;
    RowMajorOccupies(v, vWidth, a);
    RowMajorOccupies(w, wWidth, a);
  }

  lemma Nonempty(v: ArrayView, width: nat)
    requires v.Valid() && IsRowMajor(v) && 0 < width
    ensures 0 < width * Product(v.shape)
  {
    PositiveProduct(v.shape);
    AtLeastOnce(width, Product(v.shape));
  }

  /** An array without elements shares no memory. */
  lemma EmptySharesNothing(v: ArrayView, vWidth: nat, w: ArrayView, wWidth: nat, i: nat)
    requires v.Valid() && w.Valid() && i < |v.shape| && v.shape[i] <= 0
    ensures !SharesMemory(v, vWidth, w, wWidth)
  {
    forall x: seq<int> ensures !InRange(v.Dims(), x) {
      assert v.Dims()[i].shape == v.shape[i];
    }
  }

  // ---------------------------------------------------------------- the whole signature

  predicate HasArrays(arg: PyArg) {
    arg.Array? || arg.List?
  }

  /** All leaves are extracted, and their constants can be parsed. */
  predicate Ready(leaves: seq<PyArg>, anns: seq<LeafAnnotation>) {
    |leaves| == |anns| && forall k | 0 <= k < |leaves| :: Extracted(leaves[k], anns[k]) && Parsable(leaves[k], anns[k])
  }

  lemma {:induction false} AllReady(leaves: seq<PyArg>, anns: seq<LeafAnnotation>)
    requires AllExtracted(leaves, anns) && AllParsable(leaves, anns)
    ensures Ready(leaves, anns)
  {
    if leaves != [] {
      AllReady(leaves[1..], anns[1..]);
      forall k | 0 <= k < |leaves| ensures Extracted(leaves[k], anns[k]) && Parsable(leaves[k], anns[k]) {
        if k != 0 {
          assert leaves[k] == leaves[1..][k - 1] && anns[k] == anns[1..][k - 1];
        }
      }
    }
  }

  /** Two parameters may share memory exactly if they have an alias group in common. */
  predicate MayAlias(c: Constraint, d: Constraint)
    requires c.ArrayConstraint? && d.ArrayConstraint?
  {
    exists g | g in c.aliasGroups :: g in d.aliasGroups
  }

  /** An array of one leaf shares memory with an array of the other. */
  ghost predicate LeavesShare(arg: PyArg, a: LeafAnnotation, other: PyArg, b: LeafAnnotation)
    requires Extracted(arg, a) && HasArrays(arg) && Extracted(other, b) && HasArrays(other)
  {
    exists i, j | 0 <= i < |ArraysOf(arg, a)| && 0 <= j < |ArraysOf(other, b)| ::
      SharesMemory(ArraysOf(arg, a)[i], TypeIn(arg, a).dtype.bits / 8,
                   ArraysOf(other, b)[j], TypeIn(other, b).dtype.bits / 8)
  }

  /** Everything that the signature says about one array parameter by itself. */
  ghost predicate ClaimsHold(arg: PyArg, a: LeafAnnotation)
    requires Extracted(arg, a) && Parsable(arg, a) && HasArrays(arg)
  {
    forall j | 0 <= j < |ArraysOf(arg, a)| :: Satisfies(ArraysOf(arg, a)[j], ArrayConstraintOf(arg, a))
  }

  /** What a caller can check instead. */
  predicate AllMeetConditions(arg: PyArg, a: LeafAnnotation)
    requires Extracted(arg, a) && HasArrays(arg)
  {
    forall j | 0 <= j < |ArraysOf(arg, a)| :: MeetsConditions(arg, a, j)
  }

  /** Everything that the signature says is true of the launch. */
  ghost predicate SignatureHolds(leaves: seq<PyArg>, anns: seq<LeafAnnotation>)
    requires Ready(leaves, anns)
  {
    && (forall k | 0 <= k < |leaves| && HasArrays(leaves[k]) :: ClaimsHold(leaves[k], anns[k]))
    && (forall k, l | 0 <= k < l < |leaves| && HasArrays(leaves[k]) && HasArrays(leaves[l]) ::
          LeavesShare(leaves[k], anns[k], leaves[l], anns[l]) ==>
            MayAlias(ArrayConstraintOf(leaves[k], anns[k]), ArrayConstraintOf(leaves[l], anns[l])))
  }

  lemma LeafConditions(arg: PyArg, a: LeafAnnotation)
    requires Extracted(arg, a) && Parsable(arg, a) && HasArrays(arg)
    ensures ClaimsHold(arg, a) <==> AllMeetConditions(arg, a)
    ensures ArrayConstraintOf(arg, a).aliasGroups == []
  {
    hide Satisfies, Extracted, Parsable, MeetsConditions;
    forall j | 0 <= j < |ArraysOf(arg, a)|
      ensures Satisfies(ArraysOf(arg, a)[j], ArrayConstraintOf(arg, a)) <==> MeetsConditions(arg, a, j)
    {
      LeafClaimsExactly(arg, a, j);
    }
  }

  /**
   The signature of a launch is true of it exactly if its arrays have no negative strides, and
   where the CUDA array interface let them through, fit the index type; and if no two of its
   parameters share memory.
   */
  lemma SignatureHoldsExactly(leaves: seq<PyArg>, anns: seq<LeafAnnotation>)
    requires Ready(leaves, anns)
    ensures SignatureHolds(leaves, anns) <==>
      && (forall k | 0 <= k < |leaves| && HasArrays(leaves[k]) :: AllMeetConditions(leaves[k], anns[k]))
      && (forall k, l | 0 <= k < l < |leaves| && HasArrays(leaves[k]) && HasArrays(leaves[l]) ::
            !LeavesShare(leaves[k], anns[k], leaves[l], anns[l]))
  {
    hide ClaimsHold, AllMeetConditions, LeavesShare;
    forall k | 0 <= k < |leaves| && HasArrays(leaves[k])
      ensures ClaimsHold(leaves[k], anns[k]) <==> AllMeetConditions(leaves[k], anns[k])
      ensures ArrayConstraintOf(leaves[k], anns[k]).aliasGroups == []
    {
      LeafConditions(leaves[k], anns[k]);
    }
  }

  /** An array passed twice, with nothing else wrong, makes the signature false. */
  lemma ArrayTwiceLaunched(ptr: int)
    requires IsInt64(ptr)
    ensures var arg, a := Array(Dtype(2, 32, 1), Torch(ptr, [4], [1])), DEFAULT_ANNOTATION;
      && Ready([arg], [a]) && SignatureHolds([arg], [a])
      && Ready([arg, arg], [a, a]) && !SignatureHolds([arg, arg], [a, a])
  {
    var arg, a := Array(Dtype(2, 32, 1), Torch(ptr, [4], [1])), DEFAULT_ANNOTATION;
    OneArray(ptr, arg, a);
    hide Extracted, Parsable, ArraysOf, TypeIn, AllMeetConditions, LeavesShare;
    SignatureHoldsExactly([arg], [a]);
    SignatureHoldsExactly([arg, arg], [a, a]);
    assert [arg, arg][0] == arg && [arg, arg][1] == arg;
  }

  lemma OneArray(ptr: int, arg: PyArg, a: LeafAnnotation)
    requires IsInt64(ptr) && arg == Array(Dtype(2, 32, 1), Torch(ptr, [4], [1])) && a == DEFAULT_ANNOTATION
    ensures Extracted(arg, a) && Parsable(arg, a)
    ensures AllMeetConditions(arg, a) && LeavesShare(arg, a, arg, a)
  {
    var v := View(arg);
    assert Extracted(arg, a) && Parsable(arg, a);
    assert v.strides == [1] && RowMajor([4]) == [1];
    SharesWithItself(v, 4);
    assert ArraysOf(arg, a)[0] == v && TypeIn(arg, a).dtype.bits / 8 == 4;
  }

  lemma SharesWithItself(v: ArrayView, width: nat)
    requires v.Valid() && IsRowMajor(v) && 0 < width
    ensures SharesMemory(v, width, v, width)
  {
    Nonempty(v, width);
    RowMajorShareExactly(v, width, v, width);
  }
}
