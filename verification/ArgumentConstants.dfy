/**
 The constants that a kernel is specialised to.  Extraction writes them to one stream, leaf
 by leaf; parsing reads them back into constraints.
 */
module ArgumentConstants {
  import opened Wrappers
  import opened Bits
  import opened ArrayReaders
  import opened ArraySpec
  import opened ArgumentTree

  const BYTE_BITWIDTH: nat := 8
  const DIVISOR_16: nat := 16

  /** `Aborted`: a run-time check of the program fails. */
  datatype Status = Success | Raised | Aborted

  // ---------------------------------------------------------------- static dimensions

  /** Negative axes count from the end. */
  function NormalizeDim(d: int, ndim: nat): (r: Option<nat>)
    ensures r.Some? ==> r.value < ndim && (r.value == d || r.value == d + ndim)
    ensures r.None? <==> d + ndim < 0 || ndim <= d
  {
    var e := if d < 0 then d + ndim else d;
    if e < 0 || e >= ndim then None else Some(e)
  }

  predicate AxesInRange(dims: seq<int>, ndim: nat) {
    forall i | 0 <= i < |dims| :: NormalizeDim(dims[i], ndim).Some?
  }

  function Axis(dims: seq<int>, ndim: nat, i: nat): (axis: nat)
    requires AxesInRange(dims, ndim) && i < |dims|
    ensures axis < ndim
  {
    NormalizeDim(dims[i], ndim).value
  }

  predicate AxesDistinct(dims: seq<int>, ndim: nat)
    requires AxesInRange(dims, ndim)
  {
    forall i, j | 0 <= i < j < |dims| :: Axis(dims, ndim, i) != Axis(dims, ndim, j)
  }

  /** The sizes of the dimensions that the kernel is specialised to. */
  function StaticShape(shape: seq<int>, dims: seq<int>): seq<int>
    requires AxesInRange(dims, |shape|)
  {
    seq(|dims|, i requires 0 <= i < |dims| => shape[Axis(dims, |shape|, i)])
  }

  // ---------------------------------------------------------------- arrays

  function Bitwidth(d: Dtype): nat {
    d.bits * d.lanes
  }

  function ArrayConstants(arrty: ArrayType, bits: int, shape: seq<int>, dims: seq<int>): seq<int>
    requires 0 <= bits < TWO64 && AxesInRange(dims, |shape|)
  {
    [PackArrayType(arrty), ToInt64(bits)] + StaticShape(shape, dims)
  }

  class ArrayTypeConstantBuilder {
    var bits: int
    var firstArrayShape: Option<seq<int>>

    constructor ()
      ensures bits == ToUint64(-1) && firstArrayShape == None
    {
      bits, firstArrayShape := ToUint64(-1), None;
    }

    /** Take an array into account; fails if it is not like the first one in the static dimensions. */
    method Update(dtype: Dtype, v: ArrayView, dims: seq<int>) returns (ok: bool)
      requires v.Valid() && (firstArrayShape.Some? ==> |firstArrayShape.value| == |v.shape|)
      modifies this
      ensures bits == BitAnd(old(bits), SpecWord(v, Bitwidth(dtype)))
      ensures firstArrayShape == if old(firstArrayShape).None? then Some(v.shape) else old(firstArrayShape)
      ensures ok <==> old(firstArrayShape).None? || Agrees(v.shape, old(firstArrayShape).value, dims)
    {
      var word := ComputeSpecializationBits(v, Bitwidth(dtype));
      bits := BitAnd(bits, word);
      if firstArrayShape.None? {
        firstArrayShape := Some(v.shape);
        return true;
      }
      for i := 0 to |dims|
        invariant forall j | 0 <= j < i :: AgreesAt(v.shape, firstArrayShape.value, dims[j])
      {
        var dim := NormalizeDim(dims[i], |v.shape|);
        if dim.None? || firstArrayShape.value[dim.value] != v.shape[dim.value] {
          return false;
        }
      }
      ok := true;
    }

    /** Write the constants: type, bits, static sizes.  Aborts exactly if an axis is out of range. */
    method Finalize(arrty: ArrayType, dims: seq<int>, constants: Vec<int>) returns (status: Status)
      requires firstArrayShape.Some? && |firstArrayShape.value| == arrty.ndim && 0 <= bits < TWO64
      modifies constants
      ensures status == if AxesInRange(dims, arrty.ndim) then Success else Aborted
      ensures status.Success? ==>
        constants.data == old(constants.data) + ArrayConstants(arrty, bits, firstArrayShape.value, dims)
    {
      hide PackArrayType, ToInt64;
      constants.Push(PackArrayType(arrty));
      constants.Push(ToInt64(bits));
      ghost var start := constants.data;
      for i := 0 to |dims|
        invariant forall j | 0 <= j < i :: NormalizeDim(dims[j], arrty.ndim).Some?
        invariant |constants.data| == |start| + i && constants.data[..|start|] == start
        invariant forall j | 0 <= j < i ::
          constants.data[|start| + j] == firstArrayShape.value[NormalizeDim(dims[j], arrty.ndim).value]
      {
        var dim := NormalizeDim(dims[i], arrty.ndim);
        if dim.None? {
          return Aborted;
        }
        constants.Push(firstArrayShape.value[dim.value]);
      }
      assert constants.data == start + StaticShape(firstArrayShape.value, dims);
      status := Success;
    }
  }

  predicate AgreesAt(shape: seq<int>, first: seq<int>, d: int)
    requires |shape| == |first|
  {
    var dim := NormalizeDim(d, |shape|);
    dim.Some? && first[dim.value] == shape[dim.value]
  }

  predicate Agrees(shape: seq<int>, first: seq<int>, dims: seq<int>)
    requires |shape| == |first|
  {
    forall i | 0 <= i < |dims| :: AgreesAt(shape, first, dims[i])
  }

  // ---------------------------------------------------------------- what is extracted

  const I64: int := 0
  const U64: int := 1

  predicate IsInt32(n: int) {
    INT32_MIN <= n <= INT32_MAX
  }

  predicate ValidAnnotation(a: LeafAnnotation) {
    a.bitwidth in {32, 64} && a.asArray.indexBitwidth in {32, 64} && a.asElement.indexBitwidth in {32, 64}
  }

  /** Arguments as the C++ code gets to see them. */
  predicate ValidLeaf(arg: PyArg) {
    match arg
    case Array(dtype, source) => dtype.Valid() && ValidSource(source, dtype)
    case Float(bits) => IsInt64(bits)
    case List(elements) => forall i | 0 <= i < |elements| && elements[i].Array? ::
      elements[i].dtype.Valid() && ValidSource(elements[i].source, elements[i].dtype)
    case _ => true
  }

  function TypeOf(dtype: Dtype, v: ArrayView, a: ArrayAnnotation): ArrayType {
    ArrayType(dtype, |v.shape|, a.indexBitwidth)
  }

  /** The words that an array is read into. */
  function View(arg: PyArg): (v: ArrayView)
    requires arg.Array?
    ensures v.Valid()
  {
    ViewOf(arg.source, arg.dtype)
  }

  /** The array is accepted by its reader. */
  predicate CanRead(arg: PyArg, indexBitwidth: nat)
    requires arg.Array?
  {
    Readable(arg.source, arg.dtype, indexBitwidth)
  }

  function Views(elements: seq<PyArg>): seq<ArrayView>
    requires forall i | 0 <= i < |elements| :: elements[i].Array?
  {
    seq(|elements|, i requires 0 <= i < |elements| => View(elements[i]))
  }

  /** The items of a list are arrays of one type, and alike in their static dimensions. */
  predicate UniformItem(item: PyArg, first: PyArg, a: ArrayAnnotation)
    requires first.Array?
  {
    && item.Array? && CanRead(item, a.indexBitwidth)
    && item.dtype == first.dtype && |View(item).shape| == |View(first).shape|
  }

  predicate Uniform(elements: seq<PyArg>, a: ArrayAnnotation) {
    && elements != [] && elements[0].Array?
    && forall i | 0 <= i < |elements| :: UniformItem(elements[i], elements[0], a)
  }

  predicate ItemsAgree(elements: seq<PyArg>, a: ArrayAnnotation)
    requires Uniform(elements, a)
  {
    forall i {:trigger elements[i]} | 1 <= i < |elements| ::
      UniformItem(elements[i], elements[0], a)
        && Agrees(View(elements[i]).shape, View(elements[0]).shape, a.staticShapeDims)
  }

  /** Whether extraction of a leaf succeeds. */
  function ExtractStatus(arg: PyArg, a: LeafAnnotation): Status {
    match arg
    case Bool(_) => Success
    case Int(n) =>
      if a.constant then if IsInt64(n) || 0 <= n < TWO64 then Success else Raised
      else if a.bitwidth == 64 then if IsInt64(n) then Success else Raised
      else if IsInt32(n) then Success else Raised
    case Float(_) => Success
    case Array(_, source) =>
      if !CanRead(arg, a.asArray.indexBitwidth) then Raised
      else if AxesInRange(a.asArray.staticShapeDims, |source.shape|) then Success
      else Aborted
    case List(elements) =>
      if |elements| > INT32_MAX || !Uniform(elements, a.asElement) || !ItemsAgree(elements, a.asElement) then Raised
      else if AxesInRange(a.asElement.staticShapeDims, |View(elements[0]).shape|) then Success
      else Aborted
    case _ => Raised
  }

  /** The constants of a leaf. */
  function LeafConstants(arg: PyArg, a: LeafAnnotation): seq<int>
    requires ExtractStatus(arg, a).Success?
  {
    match arg
    case Bool(value) => if a.constant then [if value then 1 else 0] else []
    case Int(n) => if !a.constant then [] else if IsInt64(n) then [I64, n] else [U64, ToInt64(n)]
    case Float(bits) => if a.constant then [bits] else []
    case Array(dtype, _) =>
      var view := View(arg);
      SpecWordBound(view, Bitwidth(dtype));
      ArrayConstants(TypeOf(dtype, view, a.asArray), SpecWord(view, Bitwidth(dtype)), view.shape,
                     a.asArray.staticShapeDims)
    case List(elements) =>
      var first := elements[0];
      AndAllSmall(Views(elements), Bitwidth(first.dtype));
      ArrayConstants(TypeOf(first.dtype, View(first), a.asElement), AndAll(Views(elements), Bitwidth(first.dtype)),
                     View(first).shape, a.asElement.staticShapeDims)
    case _ => []
  }

  lemma SpecWordBound(v: ArrayView, bitwidth: nat)
    requires v.Valid()
    ensures 0 <= SpecWord(v, bitwidth) < TWO64
  {
  }

  /** A list of two or more arrays reports an axis that is out of range; a single array aborts the program. */
  lemma AbortsExactly(arg: PyArg, a: LeafAnnotation)
    ensures ExtractStatus(arg, a).Aborted? <==>
      || (arg.Array? && CanRead(arg, a.asArray.indexBitwidth)
          && !AxesInRange(a.asArray.staticShapeDims, |View(arg).shape|))
      || (arg.List? && |arg.elements| == 1 && Uniform(arg.elements, a.asElement)
          && !AxesInRange(a.asElement.staticShapeDims, |View(arg.elements[0]).shape|))
  {
    if arg.List? && |arg.elements| > 1 && Uniform(arg.elements, a.asElement) && ItemsAgree(arg.elements, a.asElement) {
      var dims, n := a.asElement.staticShapeDims, |View(arg.elements[0]).shape|;
      assert UniformItem(arg.elements[1], arg.elements[0], a.asElement);
      forall i | 0 <= i < |dims| ensures NormalizeDim(dims[i], n).Some? {
        assert AgreesAt(View(arg.elements[1]).shape, View(arg.elements[0]).shape, dims[i]);
      }
    }
  }

  /** Such an input: axis 1 of a one-dimensional array of 32-bit floats is to be static. */
  lemma AxisOutOfRangeAborts(ptr: int)
    ensures var a := ArrayAnnotation(32, [1]);
      ExtractStatus(Array(Dtype(2, 32, 1), Dlpack(ptr, [4], Some([1]))), LeafAnnotation(false, 32, a, a)).Aborted?
  {
    var a := ArrayAnnotation(32, [1]);
    assert NormalizeDim(a.staticShapeDims[0], |[4]|).None?;
  }

  /** So does one whose size does not fit 32-bit indices, which the CUDA array interface lets through. */
  lemma WideArrayAborts(ptr: int)
    requires IsInt64(ptr)
    ensures var a := ArrayAnnotation(32, [1]);
      ExtractStatus(Array(Dtype(2, 32, 1), CudaInterface(ptr, [0x1_0000_0000], None)),
                    LeafAnnotation(false, 32, a, a)).Aborted?
  {
    var a := ArrayAnnotation(32, [1]);
    WideSizeIsRead(ptr);
    assert NormalizeDim(a.staticShapeDims[0], |[0x1_0000_0000]|).None?;
  }

  // ---------------------------------------------------------------- extraction

  method ExtractPyBool(value: bool, isConstant: bool, constants: Vec<int>)
    modifies constants
    ensures constants.data == old(constants.data) + if isConstant then [if value then 1 else 0] else []
  {
    if isConstant {
      constants.Push(if value then 1 else 0);
    }
  }

  method ExtractPyLong(n: int, a: LeafAnnotation, constants: Vec<int>) returns (status: Status)
    modifies constants
    ensures status == ExtractStatus(Int(n), a)
    ensures status.Success? ==> constants.data == old(constants.data) + LeafConstants(Int(n), a)
  {
    if a.constant {
      if !IsInt64(n) {
        constants.Push(U64);
        if !(0 <= n < TWO64) {
          return Raised;
        }
        constants.Push(ToInt64(n));
      } else {
        constants.Push(I64);
        constants.Push(n);
      }
      return Success;
    }
    if a.bitwidth == 64 {
      status := if IsInt64(n) then Success else Raised;
    } else {
      status := if IsInt32(n) then Success else Raised;
    }
  }

  method ExtractArray(arg: PyArg, a: LeafAnnotation, constants: Vec<int>) returns (status: Status)
    requires arg.Array? && ValidLeaf(arg)
    modifies constants
    ensures status == ExtractStatus(arg, a)
    ensures status.Success? ==> constants.data == old(constants.data) + LeafConstants(arg, a)
  {
    hide Readable, ViewOf, ValidSource;
    var read := ReadArray(arg.source, arg.dtype, a.asArray.indexBitwidth);
    if read.None? {
      return Raised;
    }
    var view := read.value;
    var builder := new ArrayTypeConstantBuilder();
    var ok := builder.Update(arg.dtype, view, a.asArray.staticShapeDims);
    SpecWordBound(view, Bitwidth(arg.dtype));
    AllOnes(SpecWord(view, Bitwidth(arg.dtype)));
    status := builder.Finalize(TypeOf(arg.dtype, view, a.asArray), a.asArray.staticShapeDims, constants);
  }

  lemma AndAllOne(views: seq<ArrayView>, bitwidth: nat)
    requires |views| == 1 && views[0].Valid()
    ensures AndAll(views, bitwidth) == BitAnd(ToUint64(-1), SpecWord(views[0], bitwidth))
  {
    assert views[..0] == [];
  }

  method ExtractPyList(elements: seq<PyArg>, a: LeafAnnotation, constants: Vec<int>) returns (status: Status)
    requires ValidLeaf(List(elements))
    modifies constants
    ensures status == ExtractStatus(List(elements), a)
    ensures status.Success? ==> constants.data == old(constants.data) + LeafConstants(List(elements), a)
  {
    hide Readable, ViewOf, ValidSource, SpecWord, ArrayConstants, LeafConstants;
    if |elements| > INT32_MAX || |elements| == 0 || !elements[0].Array? {
      return Raised;
    }
    var first, dims := elements[0], a.asElement.staticShapeDims;
    var read := ReadArray(first.source, first.dtype, a.asElement.indexBitwidth);
    if read.None? {
      assert Uniform(elements, a.asElement) ==> UniformItem(elements[0], elements[0], a.asElement);
      return Raised;
    }
    var view := read.value;
    var builder := new ArrayTypeConstantBuilder();
    var ok := builder.Update(first.dtype, view, dims);
    AndAllOne([view], Bitwidth(first.dtype));
    assert Views(elements[..1]) == [view];
    for i := 1 to |elements|
      invariant fresh(builder) && builder.firstArrayShape == Some(view.shape)
      invariant constants.data == old(constants.data)
      invariant Uniform(elements[..i], a.asElement) && ItemsAgree(elements[..i], a.asElement)
      invariant builder.bits == AndAll(Views(elements[..i]), Bitwidth(first.dtype))
    {
      ok := ExtractItem(elements, i, a.asElement, builder);
      if !ok {
        AllPrefixes(elements, i + 1, a.asElement);
        return Raised;
      }
    }
    assert elements[..|elements|] == elements;
    var arrty := TypeOf(first.dtype, view, a.asElement);
    ListConstants(elements, a, arrty, builder.bits);
    status := builder.Finalize(arrty, dims, constants);
  }

  lemma AllPrefixes(elements: seq<PyArg>, k: nat, a: ArrayAnnotation)
    requires 0 < k <= |elements|
    ensures Uniform(elements, a) && ItemsAgree(elements, a) ==>
      Uniform(elements[..k], a) && ItemsAgree(elements[..k], a)
  {
    if Uniform(elements, a) && ItemsAgree(elements, a) {
      forall i | 0 <= i < k ensures UniformItem(elements[..k][i], elements[0], a) {
        assert elements[..k][i] == elements[i];
      }
    }
  }

  lemma ListConstants(elements: seq<PyArg>, a: LeafAnnotation, arrty: ArrayType, bits: int)
    requires |elements| <= INT32_MAX && Uniform(elements, a.asElement) && ItemsAgree(elements, a.asElement)
    requires arrty == TypeOf(elements[0].dtype, View(elements[0]), a.asElement)
    requires bits == AndAll(Views(elements), Bitwidth(elements[0].dtype))
    ensures 0 <= bits < TWO64
    ensures var ok := AxesInRange(a.asElement.staticShapeDims, arrty.ndim);
      && ExtractStatus(List(elements), a) == (if ok then Success else Aborted)
      && (ok ==>
            LeafConstants(List(elements), a)
            == ArrayConstants(arrty, bits, View(elements[0]).shape, a.asElement.staticShapeDims))
  {
    AndAllSmall(Views(elements), Bitwidth(elements[0].dtype));
  }

  /** Item `i` is alike the first one, and its bits are taken into account. */
  method ExtractItem(elements: seq<PyArg>, i: nat, a: ArrayAnnotation, builder: ArrayTypeConstantBuilder)
    returns (ok: bool)
    requires ValidLeaf(List(elements))
    requires 1 <= i < |elements| && Uniform(elements[..i], a) && ItemsAgree(elements[..i], a)
    requires builder.firstArrayShape == Some(View(elements[0]).shape)
    requires builder.bits == AndAll(Views(elements[..i]), Bitwidth(elements[0].dtype))
    modifies builder
    ensures ok <==> Uniform(elements[..i + 1], a) && ItemsAgree(elements[..i + 1], a)
    ensures ok ==> builder.bits == AndAll(Views(elements[..i + 1]), Bitwidth(elements[0].dtype))
    ensures ok ==> builder.firstArrayShape == old(builder.firstArrayShape)
  {
    var item, first := elements[i], elements[0];
    ghost var more := elements[..i + 1];
    assert more[..i] == elements[..i] && more[i] == item && more[0] == first;
    assert Uniform(more, a) ==> UniformItem(more[i], more[0], a);
    if !item.Array? {
      return false;
    }
    var read := ReadArray(item.source, item.dtype, a.indexBitwidth);
    if read.None? {
      return false;
    }
    var view := read.value;
    if first.dtype != item.dtype || |builder.firstArrayShape.value| != |view.shape| {
      return false;
    }
    UniformMore(more, i, a);
    ok := builder.Update(item.dtype, view, a.staticShapeDims);
  }

  lemma UniformMore(more: seq<PyArg>, i: nat, a: ArrayAnnotation)
    requires |more| == i + 1 && 1 <= i && Uniform(more[..i], a) && ItemsAgree(more[..i], a)
    requires UniformItem(more[i], more[0], a)
    ensures Uniform(more, a)
    ensures ItemsAgree(more, a) <==> Agrees(View(more[i]).shape, View(more[0]).shape, a.staticShapeDims)
    ensures AndAll(Views(more), Bitwidth(more[0].dtype)) ==
      BitAnd(AndAll(Views(more[..i]), Bitwidth(more[0].dtype)), SpecWord(View(more[i]), Bitwidth(more[i].dtype)))
  {
    forall k | 0 <= k <= i ensures UniformItem(more[k], more[0], a) {
      if k < i {
        assert UniformItem(more[..i][k], more[..i][0], a);
      }
    }
    forall k | 1 <= k < i ensures Agrees(View(more[k]).shape, View(more[0]).shape, a.staticShapeDims) {
      assert more[..i][k] == more[k];
    }
    assert Views(more)[..i] == Views(more[..i]);
  }

  /** Extract the constants of one leaf. */
  method ExtractArg(arg: PyArg, a: LeafAnnotation, constants: Vec<int>) returns (status: Status)
    requires !arg.Tuple? && !arg.Unsupported? && ValidLeaf(arg)
    modifies constants
    ensures status == ExtractStatus(arg, a)
    ensures status.Success? ==> constants.data == old(constants.data) + LeafConstants(arg, a)
  {
    match arg {
      case Array(_, _) => status := ExtractArray(arg, a, constants);
      case Bool(value) => ExtractPyBool(value, a.constant, constants); status := Success;
      case Int(n) => status := ExtractPyLong(n, a, constants);
      case Float(bits) =>
        if a.constant {
          constants.Push(bits);
        }
        status := Success;
      case List(elements) => status := ExtractPyList(elements, a, constants);
    }
  }
}
