/**
 Flattening kernel arguments: nested tuples become a bracket sequence of parameter kinds
 and a list of leaves, and the annotation trees become one leaf annotation for each leaf.
 */
module ArgumentTree {
  import opened Wrappers
  import opened ArrayReaders
  import opened ArraySpec

  const MAX_TUPLE_NESTING_DEPTH: nat := 64

  // ---------------------------------------------------------------- vectors and cursors

  class Vec<T> {
    var data: seq<T>

    constructor ()
      ensures data == []
    {
      data := [];
    }

    method Push(x: T)
      modifies this
      ensures data == old(data) + [x]
    {
      data := data + [x];
    }
  }

  /** What is left to read of a vector. */
  class Cursor<T> {
    var data: seq<T>

    constructor (data: seq<T>)
      ensures this.data == data
    {
      this.data := data;
    }

    method Next() returns (x: T)
      requires data != []
      modifies this
      ensures x == old(data)[0] && data == old(data)[1..]
    {
      x := data[0];
      data := data[1..];
    }
  }

  // ---------------------------------------------------------------- arguments

  /** `Unsupported` is an argument of a type that no parameter can have (a subclass of tuple, say). */
  datatype PyArg =
    | Tuple(items: seq<PyArg>)
    | Array(dtype: Dtype, source: ArraySource)
    | Bool(value: bool)
    | Int(number: int)
    | Float(bits: int)
    | List(elements: seq<PyArg>)
    | Unsupported

  datatype ParameterKind = ArrayKind | BooleanKind | IntegerKind | FloatKind | ListKind | TupleBegin | TupleEnd

  /** What flattening sees of a type. */
  datatype TypeToken = TupleType | TupleEndType | LeafType

  /** Tuples at any depth hold supported leaves only. */
  predicate Supported(args: seq<PyArg>) {
    args != [] ==> Supported(args[..|args| - 1]) && IsSupported(args[|args| - 1])
  }

  predicate IsSupported(arg: PyArg) {
    if arg.Tuple? then Supported(arg.items) else !arg.Unsupported?
  }

  function Types(args: seq<PyArg>): seq<TypeToken> {
    if args == [] then [] else Types(args[..|args| - 1]) + TypesOf(args[|args| - 1])
  }

  function TypesOf(arg: PyArg): seq<TypeToken> {
    if arg.Tuple? then [TupleType] + Types(arg.items) + [TupleEndType] else [LeafType]
  }

  function Leaves(args: seq<PyArg>): (leaves: seq<PyArg>)
    ensures forall i | 0 <= i < |leaves| :: !leaves[i].Tuple?
  {
    if args == [] then [] else Leaves(args[..|args| - 1]) + LeavesOf(args[|args| - 1])
  }

  function LeavesOf(arg: PyArg): (leaves: seq<PyArg>)
    ensures forall i | 0 <= i < |leaves| :: !leaves[i].Tuple?
  {
    if arg.Tuple? then Leaves(arg.items) else [arg]
  }

  function Max(a: nat, b: nat): nat {
    if a < b then b else a
  }

  /** How deeply tuples are nested. */
  function Depth(args: seq<PyArg>): nat {
    if args == [] then 0 else Max(Depth(args[..|args| - 1]), DepthOf(args[|args| - 1]))
  }

  function DepthOf(arg: PyArg): nat {
    if arg.Tuple? then 1 + Depth(arg.items) else 0
  }

  function LeafKind(arg: PyArg): (kind: Option<ParameterKind>)
    requires !arg.Tuple?
    ensures kind.Some? ==> kind.value != TupleBegin && kind.value != TupleEnd
  {
    match arg
    case Array(_, _) => Some(ArrayKind)
    case Bool(_) => Some(BooleanKind)
    case Int(_) => Some(IntegerKind)
    case Float(_) => Some(FloatKind)
    case List(_) => Some(ListKind)
    case Unsupported => None
  }

  /** The bracket sequence of the arguments. */
  function Kinds(args: seq<PyArg>): seq<ParameterKind>
    requires Supported(args)
  {
    if args == [] then [] else Kinds(args[..|args| - 1]) + KindsIn(args[|args| - 1])
  }

  function KindsIn(arg: PyArg): (kinds: seq<ParameterKind>)
    requires IsSupported(arg)
    ensures kinds != [] && kinds[0] != TupleEnd
  {
    if arg.Tuple? then [TupleBegin] + Kinds(arg.items) + [TupleEnd] else [LeafKind(arg).value]
  }

  /** Reading from the front: the first argument, then the others. */
  lemma First(args: seq<PyArg>)
    requires args != []
    ensures Leaves(args) == LeavesOf(args[0]) + Leaves(args[1..])
    ensures Supported(args) <==> IsSupported(args[0]) && Supported(args[1..])
    ensures Supported(args) ==> Kinds(args) == KindsIn(args[0]) + Kinds(args[1..])
  {
    FirstLeaves(args);
    FirstSupported(args);
    if Supported(args) {
      FirstKinds(args);
    }
  }

  lemma {:induction false} FirstLeaves(args: seq<PyArg>)
    requires args != []
    ensures Leaves(args) == LeavesOf(args[0]) + Leaves(args[1..])
    decreases |args|
  {
    var k := |args| - 1;
    if k == 0 {
      assert args[..0] == [] && args[1..] == [];
    } else {
      var init, rest := args[..k], args[1..];
      FirstLeaves(init);
      assert init[1..] == rest[..k - 1];
      assert Leaves(rest) == Leaves(rest[..k - 1]) + LeavesOf(args[k]);
    }
  }

  lemma {:induction false} FirstSupported(args: seq<PyArg>)
    requires args != []
    ensures Supported(args) <==> IsSupported(args[0]) && Supported(args[1..])
    decreases |args|
  {
    var k := |args| - 1;
    if k == 0 {
      assert args[..0] == [] && args[1..] == [];
    } else {
      FirstSupported(args[..k]);
      assert args[..k][1..] == args[1..][..k - 1];
    }
  }

  lemma {:induction false} FirstKinds(args: seq<PyArg>)
    requires args != [] && Supported(args) && IsSupported(args[0]) && Supported(args[1..])
    ensures Kinds(args) == KindsIn(args[0]) + Kinds(args[1..])
    decreases |args|
  {
    var k := |args| - 1;
    if k == 0 {
      assert args[..0] == [] && args[1..] == [];
    } else {
      var init, rest := args[..k], args[1..];
      assert init[1..] == rest[..k - 1];
      FirstSupported(init);
      FirstKinds(init);
      calc {
        Kinds(args);
        Kinds(init) + KindsIn(args[k]);
        KindsIn(args[0]) + (Kinds(rest[..k - 1]) + KindsIn(rest[k - 1]));
        KindsIn(args[0]) + Kinds(rest);
      }
    }
  }

  // ---------------------------------------------------------------- flattening arguments

  lemma {:induction false} DepthPrefix(args: seq<PyArg>, k: nat)
    requires k <= |args|
    ensures Depth(args[..k]) <= Depth(args)
    decreases |args|
  {
    if k < |args| {
      DepthPrefix(args[..|args| - 1], k);
      assert args[..|args| - 1][..k] == args[..k];
    } else {
      assert args[..k] == args;
    }
  }

  lemma Snoc(args: seq<PyArg>, i: nat)
    requires i < |args|
    ensures Types(args[..i + 1]) == Types(args[..i]) + TypesOf(args[i])
    ensures Leaves(args[..i + 1]) == Leaves(args[..i]) + LeavesOf(args[i])
    ensures Depth(args[..i + 1]) == Max(Depth(args[..i]), DepthOf(args[i])) <= Depth(args)
  {
    assert args[..i + 1][..i] == args[..i];
    DepthPrefix(args, i + 1);
  }

  /** Flattening fails exactly when tuples are nested too deeply. */
  method FlattenPyargs(args: seq<PyArg>, depth: nat, types: Vec<TypeToken>, objs: Vec<PyArg>) returns (ok: bool)
    requires depth <= MAX_TUPLE_NESTING_DEPTH
    modifies types, objs
    ensures ok <==> depth + Depth(args) <= MAX_TUPLE_NESTING_DEPTH
    ensures ok ==> types.data == old(types.data) + Types(args) && objs.data == old(objs.data) + Leaves(args)
    decreases args
  {
    for i := 0 to |args|
      invariant depth + Depth(args[..i]) <= MAX_TUPLE_NESTING_DEPTH
      invariant types.data == old(types.data) + Types(args[..i]) && objs.data == old(objs.data) + Leaves(args[..i])
    {
      Snoc(args, i);
      var ok := FlattenPyarg(args[i], depth, types, objs);
      if !ok {
        return false;
      }
    }
    assert args[..|args|] == args;
    ok := true;
  }

  /** The body of the loop. */
  method FlattenPyarg(arg: PyArg, depth: nat, types: Vec<TypeToken>, objs: Vec<PyArg>) returns (ok: bool)
    requires depth <= MAX_TUPLE_NESTING_DEPTH
    modifies types, objs
    ensures ok <==> depth + DepthOf(arg) <= MAX_TUPLE_NESTING_DEPTH
    ensures ok ==> types.data == old(types.data) + TypesOf(arg) && objs.data == old(objs.data) + LeavesOf(arg)
    decreases arg
  {
    hide Types, Leaves, Depth;
    if arg.Tuple? {
      types.Push(TupleType);
      if depth >= MAX_TUPLE_NESTING_DEPTH {
        return false;
      }
      ok := FlattenPyargs(arg.items, depth + 1, types, objs);
      if ok {
        types.Push(TupleEndType);
      }
    } else {
      types.Push(LeafType);
      objs.Push(arg);
      ok := true;
    }
  }

  /** The kinds that a list of type tokens and a list of leaves stand for. */
  function KindsOf(types: seq<TypeToken>, objs: seq<PyArg>): Option<seq<ParameterKind>>
    requires forall i | 0 <= i < |objs| :: !objs[i].Tuple?
  {
    if types == [] then Some([])
    else match types[0]
      case TupleType => PrependAll([TupleBegin], KindsOf(types[1..], objs))
      case TupleEndType => PrependAll([TupleEnd], KindsOf(types[1..], objs))
      case LeafType =>
        if objs == [] || LeafKind(objs[0]).None? then None
        else PrependAll([LeafKind(objs[0]).value], KindsOf(types[1..], objs[1..]))
  }

  function PrependAll<T>(xs: seq<T>, rest: Option<seq<T>>): Option<seq<T>> {
    if rest.None? then None else Some(xs + rest.value)
  }

  lemma PrependNothing<T>(rest: Option<seq<T>>)
    ensures PrependAll([], rest) == rest
  {
    if rest.Some? {
      assert [] + rest.value == rest.value;
    }
  }

  lemma PrependTwice<T>(a: seq<T>, b: seq<T>, rest: Option<seq<T>>)
    ensures PrependAll(a, PrependAll(b, rest)) == PrependAll(a + b, rest)
  {
    if rest.Some? {
      assert a + (b + rest.value) == (a + b) + rest.value;
    }
  }

  /** Flattened arguments get the bracket sequence of the arguments, if all leaves are supported. */
  lemma {:induction false} KindsOfFlattened(args: seq<PyArg>, t: seq<TypeToken>, o: seq<PyArg>)
    requires forall i | 0 <= i < |o| :: !o[i].Tuple?
    ensures KindsOf(Types(args) + t, Leaves(args) + o) ==
      if Supported(args) then PrependAll(Kinds(args), KindsOf(t, o)) else None
    decreases args
  {
    if args == [] {
      assert Types(args) + t == t && Leaves(args) + o == o;
      PrependNothing(KindsOf(t, o));
    } else {
      var init, last := args[..|args| - 1], args[|args| - 1];
      KindsOfFlattened(init, TypesOf(last) + t, LeavesOf(last) + o);
      KindsOfArg(last, t, o);
      assert Types(args) + t == Types(init) + (TypesOf(last) + t);
      assert Leaves(args) + o == Leaves(init) + (LeavesOf(last) + o);
      if Supported(args) {
        PrependTwice(Kinds(init), KindsIn(last), KindsOf(t, o));
      }
    }
  }

  lemma {:induction false} KindsOfArg(arg: PyArg, t: seq<TypeToken>, o: seq<PyArg>)
    requires forall i | 0 <= i < |o| :: !o[i].Tuple?
    ensures KindsOf(TypesOf(arg) + t, LeavesOf(arg) + o) ==
      if IsSupported(arg) then PrependAll(KindsIn(arg), KindsOf(t, o)) else None
    decreases arg
  {
    if arg.Tuple? {
      var end := [TupleEndType] + t;
      assert end[1..] == t;
      KindsOfFlattened(arg.items, end, o);
      assert TypesOf(arg) + t == [TupleType] + (Types(arg.items) + end);
      assert ([TupleType] + (Types(arg.items) + end))[1..] == Types(arg.items) + end;
      if IsSupported(arg) && KindsOf(t, o).Some? {
        var rest := KindsOf(t, o).value;
        assert [TupleBegin] + (Kinds(arg.items) + ([TupleEnd] + rest)) == KindsIn(arg) + rest;
      }
    } else {
      assert ([LeafType] + t)[1..] == t && ([arg] + o)[1..] == o;
    }
  }

  function LeafCount(types: seq<TypeToken>): nat {
    if types == [] then 0 else (if types[0] == LeafType then 1 else 0) + LeafCount(types[1..])
  }

  lemma {:induction false} LeafCountConcat(a: seq<TypeToken>, b: seq<TypeToken>)
    ensures LeafCount(a + b) == LeafCount(a) + LeafCount(b)
  {
    if a == [] {
      assert a + b == b;
    } else {
      LeafCountConcat(a[1..], b);
      assert (a + b)[1..] == a[1..] + b;
    }
  }

  lemma {:induction false} LeafCounted(args: seq<PyArg>)
    ensures LeafCount(Types(args)) == |Leaves(args)|
    decreases args
  {
    if args != [] {
      var last := args[|args| - 1];
      LeafCounted(args[..|args| - 1]);
      LeafCountConcat(Types(args[..|args| - 1]), TypesOf(last));
      if last.Tuple? {
        var inner := Types(last.items);
        LeafCounted(last.items);
        LeafCountConcat([TupleType] + inner, [TupleEndType]);
        LeafCountConcat([TupleType], inner);
      }
    }
  }

  /** Classify the leaves; fails exactly if one is not supported. */
  method GetParameterKinds(types: seq<TypeToken>, objs: seq<PyArg>, ghost args: seq<PyArg>)
    returns (r: Option<seq<ParameterKind>>)
    requires types == Types(args) && objs == Leaves(args)
    ensures r == if Supported(args) then Some(Kinds(args)) else None
  {
    KindsOfFlattened(args, [], []);
    LeafCounted(args);
    assert types + [] == types && objs + [] == objs;
    assert KindsOf([], []) == Some([]) && (Supported(args) ==> Kinds(args) + [] == Kinds(args));
    var kinds: seq<ParameterKind>, objIndex := [], 0;
    assert objs[0..] == objs && types[0..] == types;
    PrependNothing(KindsOf(types, objs));
    for i := 0 to |types|
      invariant objIndex <= |objs| && LeafCount(types[i..]) == |objs| - objIndex
      invariant KindsOf(types, objs) == PrependAll(kinds, KindsOf(types[i..], objs[objIndex..]))
    {
      ghost var rest := objs[objIndex..];
      assert types[i..][1..] == types[i + 1..];
      match types[i] {
        case TupleType =>
          PrependTwice(kinds, [TupleBegin], KindsOf(types[i + 1..], rest));
          kinds := kinds + [TupleBegin];
        case TupleEndType =>
          PrependTwice(kinds, [TupleEnd], KindsOf(types[i + 1..], rest));
          kinds := kinds + [TupleEnd];
        case LeafType =>
          var kind := LeafKind(objs[objIndex]);
          if kind.None? {
            return None;
          }
          assert rest[1..] == objs[objIndex + 1..];
          objIndex := objIndex + 1;
          PrependTwice(kinds, [kind.value], KindsOf(types[i + 1..], objs[objIndex..]));
          kinds := kinds + [kind.value];
      }
    }
    assert types[|types|..] == [] && kinds + [] == kinds;
    r := Some(kinds);
  }

  // ---------------------------------------------------------------- annotation trees

  datatype ArrayAnnotation = ArrayAnnotation(indexBitwidth: nat, staticShapeDims: seq<int>)

  /** What is known about a leaf; `asElement` is about the items of a list. */
  datatype LeafAnnotation = LeafAnnotation(constant: bool, bitwidth: nat, asArray: ArrayAnnotation,
                                           asElement: ArrayAnnotation)

  datatype Annotation =
    | Leaf(leaf: LeafAnnotation)
    | Homogeneous(each: Annotation)
    | Heterogeneous(parts: seq<Annotation>)

  const DEFAULT_ARRAY: ArrayAnnotation := ArrayAnnotation(32, [])
  const DEFAULT_LEAF: Annotation := Leaf(LeafAnnotation(false, 32, DEFAULT_ARRAY, DEFAULT_ARRAY))

  /** The annotation of item `i` of a tuple annotated with `node`. */
  function Child(node: Annotation, i: nat): Annotation {
    match node
    case Leaf(_) => node
    case Homogeneous(each) => each
    case Heterogeneous(parts) => if i < |parts| then parts[i] else DEFAULT_LEAF
  }

  /** The leaf annotations of an argument, one for each of its leaves, unless the shapes do not match. */
  function Flat(node: Annotation, arg: PyArg): Option<seq<LeafAnnotation>>
    decreases arg
  {
    if arg.Tuple? then
      if node.Heterogeneous? && |node.parts| != |arg.items| then None else FlatItems(node, arg.items)
    else if node.Leaf? then Some([node.leaf])
    else None
  }

  function FlatItems(node: Annotation, items: seq<PyArg>): Option<seq<LeafAnnotation>>
    decreases items
  {
    if items == [] then Some([])
    else
      var k := |items| - 1;
      Both(FlatItems(node, items[..k]), Flat(Child(node, k), items[k]))
  }

  function Both<T>(a: Option<seq<T>>, b: Option<seq<T>>): Option<seq<T>> {
    if a.Some? && b.Some? then Some(a.value + b.value) else None
  }

  lemma {:induction false} FlatPrefix(node: Annotation, items: seq<PyArg>, k: nat)
    requires k <= |items| && FlatItems(node, items).Some?
    ensures FlatItems(node, items[..k]).Some?
    decreases |items|
  {
    if k < |items| {
      FlatPrefix(node, items[..|items| - 1], k);
      assert items[..|items| - 1][..k] == items[..k];
    } else {
      assert items[..k] == items;
    }
  }

  /** One annotation for each leaf. */
  lemma {:induction false} FlatSize(node: Annotation, arg: PyArg)
    requires Flat(node, arg).Some?
    ensures |Flat(node, arg).value| == |LeavesOf(arg)|
    decreases arg
  {
    if arg.Tuple? {
      FlatItemsSize(node, arg.items);
    }
  }

  lemma {:induction false} FlatItemsSize(node: Annotation, items: seq<PyArg>)
    requires FlatItems(node, items).Some?
    ensures |FlatItems(node, items).value| == |Leaves(items)|
    decreases items
  {
    if items != [] {
      var k := |items| - 1;
      FlatItemsSize(node, items[..k]);
      FlatSize(Child(node, k), items[k]);
    }
  }

  /** Read one argument off the kinds, and push the annotations of its leaves. */
  method FlattenAnnotation(node: Annotation, cursor: Cursor<ParameterKind>, out: Vec<LeafAnnotation>,
      ghost arg: PyArg, ghost rest: seq<ParameterKind>)
    returns (ok: bool)
    requires IsSupported(arg) && cursor.data == KindsIn(arg) + rest
    modifies cursor, out
    ensures ok <==> Flat(node, arg).Some?
    ensures ok ==> cursor.data == rest && out.data == old(out.data) + Flat(node, arg).value
    decreases arg, 0
  {
    var kind := cursor.Next();
    if kind == TupleBegin {
      ok := FlattenTuple(node, cursor, out, arg.items, [TupleEnd] + rest);
      if !ok {
        return;
      }
      var end := cursor.Next();
      assert end == TupleEnd;  // checked at run time by the program
    } else {
      if !node.Leaf? {
        return false;
      }
      out.Push(node.leaf);
      ok := true;
    }
  }

  /** Read item `i` of a tuple. */
  method FlattenItem(node: Annotation, cursor: Cursor<ParameterKind>, out: Vec<LeafAnnotation>, i: nat,
      ghost items: seq<PyArg>, ghost rest: seq<ParameterKind>)
    returns (ok: bool)
    requires i < |items| && Supported(items[i..]) && cursor.data == Kinds(items[i..]) + rest
    modifies cursor, out
    ensures Supported(items[i + 1..])
    ensures ok <==> Flat(Child(node, i), items[i]).Some?
    ensures ok ==> cursor.data == Kinds(items[i + 1..]) + rest
    ensures ok ==> out.data == old(out.data) + Flat(Child(node, i), items[i]).value
    decreases items, 0
  {
    ghost var left := items[i..];
    First(left);
    assert left[1..] == items[i + 1..];
    assert Kinds(left) + rest == KindsIn(items[i]) + (Kinds(left[1..]) + rest);
    ok := FlattenAnnotation(Child(node, i), cursor, out, items[i], Kinds(left[1..]) + rest);
  }

  /** Read the items of a tuple, up to its closing bracket. */
  method FlattenTuple(node: Annotation, cursor: Cursor<ParameterKind>, out: Vec<LeafAnnotation>,
      ghost items: seq<PyArg>, ghost rest: seq<ParameterKind>)
    returns (ok: bool)
    requires Supported(items) && cursor.data == Kinds(items) + rest && rest != [] && rest[0] == TupleEnd
    modifies cursor, out
    ensures ok <==> FlatItems(node, items).Some? && (node.Heterogeneous? ==> |node.parts| == |items|)
    ensures ok ==> cursor.data == rest && out.data == old(out.data) + FlatItems(node, items).value
    decreases items, 1
  {
    var itemIndex := 0;
    ghost var done: seq<LeafAnnotation> := [];
    assert items[0..] == items && items[..0] == [];
    while cursor.data[0] != TupleEnd
      invariant itemIndex <= |items| && Supported(items[itemIndex..])
      invariant cursor.data == Kinds(items[itemIndex..]) + rest
      invariant FlatItems(node, items[..itemIndex]) == Some(done)
      invariant out.data == old(out.data) + done
      decreases |items| - itemIndex
    {
      assert itemIndex < |items|;
      FlatStep(node, items, itemIndex);
      ghost var next := Flat(Child(node, itemIndex), items[itemIndex]);
      ok := FlattenItem(node, cursor, out, itemIndex, items, rest);
      if !ok {
        return;
      }
      done := done + next.value;
      itemIndex := itemIndex + 1;
    }
    if itemIndex < |items| {
      First(items[itemIndex..]);
    }
    assert items[..|items|] == items;
    ok := node.Heterogeneous? ==> itemIndex == |node.parts|;
  }

  lemma FlatStep(node: Annotation, items: seq<PyArg>, i: nat)
    requires i < |items|
    ensures FlatItems(node, items[..i + 1]) == Both(FlatItems(node, items[..i]), Flat(Child(node, i), items[i]))
    ensures FlatItems(node, items[..i + 1]).None? ==> FlatItems(node, items).None?
  {
    assert items[..i + 1][..i] == items[..i];
    if FlatItems(node, items).Some? {
      FlatPrefix(node, items, i + 1);
    }
  }

  /** The annotations of the parameters of a kernel: `nodes[i]` is about argument `i`. */
  function FlatParameters(nodes: seq<Annotation>, args: seq<PyArg>): Option<seq<LeafAnnotation>>
    requires |nodes| == |args|
  {
    FlatItems(Heterogeneous(nodes), args)
  }

  /** Match one annotation with each argument; the kinds are used up. */
  method FlattenAnnotations(nodes: seq<Annotation>, kinds: seq<ParameterKind>, ghost args: seq<PyArg>)
    returns (r: Option<seq<LeafAnnotation>>)
    requires |nodes| == |args| && Supported(args) && kinds == Kinds(args)
    ensures r == FlatParameters(nodes, args)
  {
    var out := new Vec<LeafAnnotation>();
    var cursor := new Cursor(kinds);
    ghost var node := Heterogeneous(nodes);
    assert args[0..] == args && args[..0] == [];
    for i := 0 to |nodes|
      invariant fresh(out) && fresh(cursor)
      invariant Supported(args[i..]) && cursor.data == Kinds(args[i..])
      invariant FlatItems(node, args[..i]) == Some(out.data)
    {
      FlatStep(node, args, i);
      var ok := FlattenItem(Heterogeneous(nodes), cursor, out, i, args, []);
      if !ok {
        return None;
      }
    }
    assert args[..|args|] == args && args[|args|..] == [];
    assert cursor.data == [];  // checked at run time by the program
    r := Some(out.data);
  }
}
