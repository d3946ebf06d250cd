/**
 The little stack machine that computes sizes at launch time: a checker that looks at every
 opcode once, and an evaluator that does not check anything.

 Main result: the programs the checker accepts are exactly the postfix encodings of the
 expected number of expressions that fit the stack, and evaluating one leaves their values.
 */
module HostProgram {
  import opened Sequences
  import opened Wrappers
  import opened Bits

  const MAX_STACK_DEPTH: nat := 32

  datatype Opcode = Const | KernelArgI32 | KernelArgI64 | Add | Mul | RoundUpToPow2

  function NumAttrs(op: Opcode): nat {
    match op
    case Const => 1
    case KernelArgI32 => 1
    case KernelArgI64 => 1
    case Add => 0
    case Mul => 0
    case RoundUpToPow2 => 1
  }

  function MinStack(op: Opcode): nat {
    match op
    case Add => 2
    case Mul => 2
    case RoundUpToPow2 => 1
    case _ => 0
  }

  function StackEffect(op: Opcode): int {
    match op
    case Add => -1
    case Mul => -1
    case RoundUpToPow2 => 0
    case _ => 1
  }

  function OpcodeOf(name: string): Option<Opcode> {
    if name == "Const" then Some(Const)
    else if name == "KernelArgI32" then Some(KernelArgI32)
    else if name == "KernelArgI64" then Some(KernelArgI64)
    else if name == "Add" then Some(Add)
    else if name == "Mul" then Some(Mul)
    else if name == "RoundUpToPow2" then Some(RoundUpToPow2)
    else None
  }

  datatype Program = Program(opcodes: seq<Opcode>, attrs: seq<int>)

  // ---------------------------------------------------------------- expressions

  datatype Expr =
    | Literal(n: int)
    | ArgI32(index: int)
    | ArgI64(index: int)
    | Sum(left: Expr, right: Expr)
    | Product(left: Expr, right: Expr)
    | RoundUp(arg: Expr, alignment: int)

  /** The postfix encoding of an expression. */
  function Ops(e: Expr): seq<Opcode> {
    match e
    case Literal(_) => [Const]
    case ArgI32(_) => [KernelArgI32]
    case ArgI64(_) => [KernelArgI64]
    case Sum(l, r) => Ops(l) + Ops(r) + [Add]
    case Product(l, r) => Ops(l) + Ops(r) + [Mul]
    case RoundUp(arg, _) => Ops(arg) + [RoundUpToPow2]
  }

  function Attrs(e: Expr): seq<int> {
    match e
    case Literal(n) => [n]
    case ArgI32(index) => [index]
    case ArgI64(index) => [index]
    case Sum(l, r) => Attrs(l) + Attrs(r)
    case Product(l, r) => Attrs(l) + Attrs(r)
    case RoundUp(arg, alignment) => Attrs(arg) + [alignment]
  }

  function OpsAll(es: seq<Expr>): seq<Opcode> {
    if es == [] then [] else OpsAll(es[..|es| - 1]) + Ops(es[|es| - 1])
  }

  function AttrsAll(es: seq<Expr>): seq<int> {
    if es == [] then [] else AttrsAll(es[..|es| - 1]) + Attrs(es[|es| - 1])
  }

  function Max(a: nat, b: nat): nat {
    if a < b then b else a
  }

  /** How many stack slots the evaluation of an expression needs. */
  function Height(e: Expr): (h: nat)
    ensures 1 <= h
  {
    match e
    case Sum(l, r) => Max(Height(l), 1 + Height(r))
    case Product(l, r) => Max(Height(l), 1 + Height(r))
    case RoundUp(arg, _) => Height(arg)
    case _ => 1
  }

  function HeightAll(es: seq<Expr>): nat {
    if es == [] then 0 else Max(HeightAll(es[..|es| - 1]), |es| - 1 + Height(es[|es| - 1]))
  }

  function ToInt32(w: int): int {
    var u := w % 0x1_0000_0000;
    if u < 0x8000_0000 then u else u - 0x1_0000_0000
  }

  function Mask(value: int, alignment: int): int {
    BitAnd(value + (alignment - 1), BitNot(alignment - 1))
  }

  /** All kernel arguments that the expression names exist. */
  predicate ArgsExist(e: Expr, args: seq<int>) {
    match e
    case ArgI32(index) => 0 <= index < |args|
    case ArgI64(index) => 0 <= index < |args|
    case Sum(l, r) => ArgsExist(l, args) && ArgsExist(r, args)
    case Product(l, r) => ArgsExist(l, args) && ArgsExist(r, args)
    case RoundUp(arg, _) => ArgsExist(arg, args)
    case Literal(_) => true
  }

  function Value(e: Expr, args: seq<int>): int
    requires ArgsExist(e, args)
  {
    match e
    case Literal(n) => n
    case ArgI32(index) => ToInt32(args[index])
    case ArgI64(index) => args[index]
    case Sum(l, r) => Value(l, args) + Value(r, args)
    case Product(l, r) => Value(l, args) * Value(r, args)
    case RoundUp(arg, alignment) => Mask(Value(arg, args), alignment)
  }

  /**
   Evaluation is defined in C++: kernel arguments exist, and no sum or product of signed 64-bit
   numbers leaves their range.
   */
  predicate Defined(e: Expr, args: seq<int>)
    ensures Defined(e, args) ==> ArgsExist(e, args)
  {
    match e
    case Literal(_) => true
    case ArgI32(index) => 0 <= index < |args|
    case ArgI64(index) => 0 <= index < |args|
    case Sum(l, r) => Defined(l, args) && Defined(r, args) && IsInt64(Value(l, args) + Value(r, args))
    case Product(l, r) => Defined(l, args) && Defined(r, args) && IsInt64(Value(l, args) * Value(r, args))
    case RoundUp(arg, alignment) =>
      Defined(arg, args) && IsInt64(alignment - 1) && IsInt64(Value(arg, args) + (alignment - 1))
  }

  /** For a power of two, the mask trick yields the least multiple that is not below the value. */
  lemma RoundUpValue(e: Expr, k: nat, args: seq<int>)
    requires ArgsExist(e, args)
    ensures IsRoundUp(Value(e, args), Pow2(k), Value(RoundUp(e, Pow2(k)), args))
  {
    RoundUpByMask(Value(e, args), k);
  }

  // ---------------------------------------------------------------- what the checker accepts

  function Depth(ops: seq<Opcode>): int {
    if ops == [] then 0 else Depth(ops[..|ops| - 1]) + StackEffect(ops[|ops| - 1])
  }

  function AttrCount(ops: seq<Opcode>): nat {
    if ops == [] then 0 else AttrCount(ops[..|ops| - 1]) + NumAttrs(ops[|ops| - 1])
  }

  /** Every opcode finds its operands, and the stack never overflows. */
  predicate Fits(ops: seq<Opcode>)
    ensures Fits(ops) ==> 0 <= Depth(ops) <= MAX_STACK_DEPTH
  {
    ops == [] ||
      (Fits(ops[..|ops| - 1]) && MinStack(ops[|ops| - 1]) <= Depth(ops[..|ops| - 1]) && Depth(ops) <= MAX_STACK_DEPTH)
  }

  /** The expressions on the stack after running `ops`. */
  function Symbolic(ops: seq<Opcode>, attrs: seq<int>): (es: seq<Expr>)
    requires Fits(ops) && |attrs| == AttrCount(ops)
    ensures |es| == Depth(ops)
  {
    if ops == [] then []
    else
      var k := |ops| - 1;
      Push(ops[k], Symbolic(ops[..k], attrs[..AttrCount(ops[..k])]), attrs[AttrCount(ops[..k])..])
  }

  /** One step on a stack of expressions. */
  function Push(op: Opcode, es: seq<Expr>, attrs: seq<int>): (r: seq<Expr>)
    requires MinStack(op) <= |es| && |attrs| == NumAttrs(op)
    ensures |r| == |es| + StackEffect(op)
  {
    var n := |es|;
    match op
    case Const => es + [Literal(attrs[0])]
    case KernelArgI32 => es + [ArgI32(attrs[0])]
    case KernelArgI64 => es + [ArgI64(attrs[0])]
    case Add => es[..n - 2] + [Sum(es[n - 2], es[n - 1])]
    case Mul => es[..n - 2] + [Product(es[n - 2], es[n - 1])]
    case RoundUpToPow2 => es[..n - 1] + [RoundUp(es[n - 1], attrs[0])]
  }

  lemma OneMore(es: seq<Expr>, e: Expr)
    ensures OpsAll(es + [e]) == OpsAll(es) + Ops(e) && AttrsAll(es + [e]) == AttrsAll(es) + Attrs(e)
  {
    assert (es + [e])[..|es|] == es;
  }

  lemma LastOnes<T>(s: seq<T>, k: nat)
    requires k <= |s|
    ensures s == s[..k] + s[k..]
    ensures k + 1 == |s| ==> s == s[..k] + [s[k]]
    ensures k + 2 == |s| ==> s == s[..k] + [s[k]] + [s[k + 1]]
    ensures s + [] == s
  {
  }

  lemma PushedRoundUp(es: seq<Expr>, alignment: int)
    requires es != []
    ensures var r := Push(RoundUpToPow2, es, [alignment]);
      OpsAll(r) == OpsAll(es) + [RoundUpToPow2] && AttrsAll(r) == AttrsAll(es) + [alignment]
  {
    var init, e := es[..|es| - 1], es[|es| - 1];
    OneMore(init, RoundUp(e, alignment));
    Assoc(OpsAll(init), Ops(e), [RoundUpToPow2]);
    Assoc(AttrsAll(init), Attrs(e), [alignment]);
  }

  lemma PushedPair(op: Opcode, es: seq<Expr>)
    requires 2 <= |es| && (op == Add || op == Mul)
    ensures var r := Push(op, es, []);
      OpsAll(r) == OpsAll(es) + [op] && AttrsAll(r) == AttrsAll(es)
  {
    var n := |es|;
    LastOnes(es, n - 2);
    PairEncodes(es[..n - 2], es[n - 2], es[n - 1], es, op,
                if op == Add then Sum(es[n - 2], es[n - 1]) else Product(es[n - 2], es[n - 1]));
  }

  lemma PushedLeaf(op: Opcode, es: seq<Expr>, attr: int)
    requires op == Const || op == KernelArgI32 || op == KernelArgI64
    ensures var r := Push(op, es, [attr]);
      OpsAll(r) == OpsAll(es) + [op] && AttrsAll(r) == AttrsAll(es) + [attr]
  {
    OneMore(es, if op == Const then Literal(attr) else if op == KernelArgI32 then ArgI32(attr) else ArgI64(attr));
  }

  /** A step appends its opcode and attributes to the postfix encoding. */
  lemma PushEncodes(op: Opcode, es: seq<Expr>, attrs: seq<int>)
    requires MinStack(op) <= |es| && |attrs| == NumAttrs(op)
    ensures OpsAll(Push(op, es, attrs)) == OpsAll(es) + [op] && AttrsAll(Push(op, es, attrs)) == AttrsAll(es) + attrs
  {
    if op == Add || op == Mul {
      assert attrs == [];
      LastOnes(AttrsAll(es), |AttrsAll(es)|);
      PushedPair(op, es);
    } else {
      assert attrs == [attrs[0]];
      if op == RoundUpToPow2 {
        PushedRoundUp(es, attrs[0]);
      } else {
        PushedLeaf(op, es, attrs[0]);
      }
    }
  }

  lemma PairEncodes(init: seq<Expr>, l: Expr, r: Expr, es: seq<Expr>, op: Opcode, e: Expr)
    requires es == init + [l] + [r] && Ops(e) == Ops(l) + Ops(r) + [op] && Attrs(e) == Attrs(l) + Attrs(r)
    ensures OpsAll(init + [e]) == OpsAll(es) + [op] && AttrsAll(init + [e]) == AttrsAll(es)
  {
    OneMore(init, e);
    OneMore(init, l);
    OneMore(init + [l], r);
    Assoc(OpsAll(init), Ops(l), Ops(r));
    Assoc(OpsAll(init), Ops(l) + Ops(r), [op]);
    Assoc(AttrsAll(init), Attrs(l), Attrs(r));
  }

  /** A program that fits is the postfix encoding of the expressions it leaves on the stack. */
  lemma {:induction false} Decodes(ops: seq<Opcode>, attrs: seq<int>)
    requires Fits(ops) && |attrs| == AttrCount(ops)
    ensures OpsAll(Symbolic(ops, attrs)) == ops && AttrsAll(Symbolic(ops, attrs)) == attrs
    decreases |ops|
  {
    if ops != [] {
      var k := |ops| - 1;
      var n := AttrCount(ops[..k]);
      Decodes(ops[..k], attrs[..n]);
      PushEncodes(ops[k], Symbolic(ops[..k], attrs[..n]), attrs[n..]);
      LastOnes(ops, k);
      LastOnes(attrs, n);
    }
  }

  lemma StepFits(ops: seq<Opcode>, attrs: seq<int>, op: Opcode, more: seq<int>)
    requires Fits(ops) && |attrs| == AttrCount(ops) && |more| == NumAttrs(op)
    ensures Depth(ops + [op]) == Depth(ops) + StackEffect(op) && AttrCount(ops + [op]) == |attrs + more|
    ensures Fits(ops + [op]) <==> MinStack(op) <= Depth(ops) && Depth(ops) + StackEffect(op) <= MAX_STACK_DEPTH
    ensures Fits(ops + [op]) ==> Symbolic(ops + [op], attrs + more) == Push(op, Symbolic(ops, attrs), more)
  {
    var t, a := ops + [op], attrs + more;
    assert t[..|ops|] == ops && a[..|attrs|] == attrs && a[|attrs|..] == more;
  }

  lemma {:induction false} FitsPrefix(ops: seq<Opcode>, k: nat)
    requires k <= |ops| && Fits(ops)
    ensures Fits(ops[..k])
    decreases |ops|
  {
    if k == |ops| {
      assert ops[..k] == ops;
    } else {
      FitsPrefix(ops[..|ops| - 1], k);
      assert ops[..|ops| - 1][..k] == ops[..k];
    }
  }

  /** Running the encoding of an expression pushes it, if it fits. */
  ghost predicate Pushes(e: Expr, ops: seq<Opcode>, attrs: seq<int>)
    requires Fits(ops) && |attrs| == AttrCount(ops)
  {
    var t, a := ops + Ops(e), attrs + Attrs(e);
    && (Fits(t) <==> Depth(ops) + Height(e) <= MAX_STACK_DEPTH)
    && (Fits(t) ==> AttrCount(t) == |a| && Symbolic(t, a) == Symbolic(ops, attrs) + [e])
  }

  lemma {:induction false} Encodes(e: Expr, ops: seq<Opcode>, attrs: seq<int>)
    requires Fits(ops) && |attrs| == AttrCount(ops)
    ensures Pushes(e, ops, attrs)
    decreases e
  {
    match e
    case Sum(l, r) => EncodesPair(e, l, r, Add, ops, attrs);
    case Product(l, r) => EncodesPair(e, l, r, Mul, ops, attrs);
    case RoundUp(arg, alignment) =>
      Encodes(arg, ops, attrs);
      EncodesRoundUp(e, ops, attrs);
    case Literal(n) => StepFits(ops, attrs, Const, [n]);
    case ArgI32(index) => StepFits(ops, attrs, KernelArgI32, [index]);
    case ArgI64(index) => StepFits(ops, attrs, KernelArgI64, [index]);
  }

  lemma EncodesRoundUp(e: Expr, ops: seq<Opcode>, attrs: seq<int>)
    requires Fits(ops) && |attrs| == AttrCount(ops) && e.RoundUp? && Pushes(e.arg, ops, attrs)
    ensures Pushes(e, ops, attrs)
  {
    Assoc(ops, Ops(e.arg), [RoundUpToPow2]);
    Assoc(attrs, Attrs(e.arg), [e.alignment]);
    EncodesLast(e, ops, attrs, ops + Ops(e.arg), attrs + Attrs(e.arg), Symbolic(ops, attrs));
  }

  lemma EncodesLast(e: Expr, ops: seq<Opcode>, attrs: seq<int>, t: seq<Opcode>, a: seq<int>, es: seq<Expr>)
    requires Fits(ops) && |attrs| == AttrCount(ops) && e.RoundUp? && es == Symbolic(ops, attrs)
    requires Fits(t) <==> |es| + Height(e) <= MAX_STACK_DEPTH
    requires Fits(t) ==> AttrCount(t) == |a| && Symbolic(t, a) == es + [e.arg]
    requires ops + Ops(e) == t + [RoundUpToPow2] && attrs + Attrs(e) == a + [e.alignment]
    ensures Pushes(e, ops, attrs)
  {
    if Fits(t) {
      StepFits(t, a, RoundUpToPow2, [e.alignment]);
      LastOf(es, e.arg);
    } else {
      NotPrefix(t, ops + Ops(e));
    }
  }

  lemma {:induction false} EncodesPair(e: Expr, l: Expr, r: Expr, op: Opcode, ops: seq<Opcode>, attrs: seq<int>)
    requires Fits(ops) && |attrs| == AttrCount(ops)
    requires (op == Add && e == Sum(l, r)) || (op == Mul && e == Product(l, r))
    ensures Pushes(e, ops, attrs)
    decreases e, 0
  {
    var t, a := ops + Ops(l), attrs + Attrs(l);
    Encodes(l, ops, attrs);
    Assoc(ops, Ops(l), Ops(r));
    Assoc(ops, Ops(l) + Ops(r), [op]);
    Assoc(attrs, Attrs(l), Attrs(r));
    if Fits(t) {
      Encodes(r, t, a);
      EncodesOp(e, l, r, op, ops, attrs);
    } else {
      NotPrefix(t, ops + Ops(e));
    }
  }

  lemma EncodesOp(e: Expr, l: Expr, r: Expr, op: Opcode, ops: seq<Opcode>, attrs: seq<int>)
    requires Fits(ops) && |attrs| == AttrCount(ops) && Pushes(l, ops, attrs)
    requires Fits(ops + Ops(l)) && Pushes(r, ops + Ops(l), attrs + Attrs(l))
    requires (op == Add && e == Sum(l, r)) || (op == Mul && e == Product(l, r))
    requires ops + Ops(e) == (ops + Ops(l)) + Ops(r) + [op] && attrs + Attrs(e) == (attrs + Attrs(l)) + Attrs(r)
    ensures Pushes(e, ops, attrs)
  {
    var u, b := (ops + Ops(l)) + Ops(r), (attrs + Attrs(l)) + Attrs(r);
    if Fits(u) {
      assert b + [] == b;
      StepFits(u, b, op, []);
      var es := Symbolic(ops, attrs);
      LastTwoOf(es, l, r);
    } else {
      NotPrefix(u, ops + Ops(e));
    }
  }

  lemma LastOf(es: seq<Expr>, e: Expr)
    ensures var s, n := es + [e], |es| + 1; s[..n - 1] == es && s[n - 1] == e
  {
  }

  lemma LastTwoOf(es: seq<Expr>, l: Expr, r: Expr)
    ensures var s, n := es + [l] + [r], |es| + 2; s[..n - 2] == es && s[n - 2] == l && s[n - 1] == r
  {
  }

  lemma NotPrefix(prefix: seq<Opcode>, ops: seq<Opcode>)
    requires !Fits(prefix) && prefix <= ops
    ensures !Fits(ops)
  {
    assert ops[..|prefix|] == prefix;
    if Fits(ops) {
      FitsPrefix(ops, |prefix|);
    }
  }

  /** The encoding of expressions is accepted exactly if they fit the stack, and decodes to them. */
  lemma {:induction false} EncodesAll(es: seq<Expr>)
    ensures Fits(OpsAll(es)) <==> HeightAll(es) <= MAX_STACK_DEPTH
    ensures Fits(OpsAll(es)) ==> |AttrsAll(es)| == AttrCount(OpsAll(es)) && Symbolic(OpsAll(es), AttrsAll(es)) == es
  {
    if es != [] {
      var init, last := es[..|es| - 1], es[|es| - 1];
      EncodesAll(init);
      if Fits(OpsAll(init)) {
        Encodes(last, OpsAll(init), AttrsAll(init));
        assert es == init + [last];
      } else {
        NotPrefix(OpsAll(init), OpsAll(es));
      }
    }
  }

  // ---------------------------------------------------------------- the checker

  datatype Source = Source(opcodes: seq<string>, attrs: seq<int>)

  /** The opcodes that the names stand for, if all of them are names of opcodes. */
  function Opcodes(names: seq<string>): Option<seq<Opcode>> {
    if names == [] then Some([])
    else
      var k := |names| - 1;
      var init, last := Opcodes(names[..k]), OpcodeOf(names[k]);
      if init.Some? && last.Some? then Some(init.value + [last.value]) else None
  }

  lemma {:induction false} OpcodesPrefix(names: seq<string>, k: nat)
    requires k <= |names| && Opcodes(names).Some?
    ensures Opcodes(names[..k]).Some? && Opcodes(names[..k]).value <= Opcodes(names).value
    ensures |Opcodes(names[..k]).value| == k
    ensures |Opcodes(names).value| == |names|
    decreases |names|
  {
    if names == [] {
    } else if k == |names| {
      assert names[..k] == names;
      OpcodesPrefix(names[..k - 1], k - 1);
    } else {
      OpcodesPrefix(names[..|names| - 1], k);
      assert names[..|names| - 1][..k] == names[..k];
    }
  }

  lemma {:induction false} CountPrefix(ops: seq<Opcode>, k: nat)
    requires k <= |ops|
    ensures AttrCount(ops[..k]) <= AttrCount(ops)
    decreases |ops|
  {
    if k == |ops| {
      assert ops[..k] == ops;
    } else {
      CountPrefix(ops[..|ops| - 1], k);
      assert ops[..|ops| - 1][..k] == ops[..k];
    }
  }

  predicate AllInt64(attrs: seq<int>) {
    forall i | 0 <= i < |attrs| :: IsInt64(attrs[i])
  }

  /** The programs that are accepted. */
  predicate Accepted(source: Source, expectedResults: int) {
    && Opcodes(source.opcodes).Some?
    && var ops := Opcodes(source.opcodes).value;
    && Fits(ops) && AttrCount(ops) == |source.attrs| && Depth(ops) == expectedResults
    && AllInt64(source.attrs)
  }

  /** The source spells the postfix encoding of the expressions `es`, which fit the stack. */
  ghost predicate Spells(source: Source, es: seq<Expr>) {
    && Opcodes(source.opcodes) == Some(OpsAll(es)) && source.attrs == AttrsAll(es)
    && HeightAll(es) <= MAX_STACK_DEPTH
  }

  /** Exactly the encodings of the expected number of expressions that fit the stack are accepted. */
  lemma AcceptedExactly(source: Source, expectedResults: int)
    ensures Accepted(source, expectedResults) <==>
      && (exists es: seq<Expr> :: |es| == expectedResults && Spells(source, es))
      && AllInt64(source.attrs)
  {
    if Accepted(source, expectedResults) {
      var ops := Opcodes(source.opcodes).value;
      var es := Symbolic(ops, source.attrs);
      Decodes(ops, source.attrs);
      EncodesAll(es);
      assert Spells(source, es);
    }
    forall es: seq<Expr> | |es| == expectedResults && Spells(source, es)
      ensures Fits(OpsAll(es)) && AttrCount(OpsAll(es)) == |source.attrs| && Depth(OpsAll(es)) == expectedResults
    {
      EncodesAll(es);
    }
  }

  lemma PrefixAccepted(source: Source, k: nat, expectedResults: int)
    requires k <= |source.opcodes| && Accepted(source, expectedResults)
    ensures Opcodes(source.opcodes[..k]).Some?
    ensures var ops := Opcodes(source.opcodes[..k]).value; Fits(ops) && AttrCount(ops) <= |source.attrs|
  {
    var ops := Opcodes(source.opcodes).value;
    OpcodesPrefix(source.opcodes, k);
    assert ops[..k] == Opcodes(source.opcodes[..k]).value;
    FitsPrefix(ops, k);
    CountPrefix(ops, k);
  }

  /** The program that parsing yields: a missing one stands for the constant zero, whatever is expected. */
  function Parsed(source: Option<Source>, expectedResults: int): Option<Program> {
    match source
    case None => Some(Program([Const], [0]))
    case Some(src) =>
      if Accepted(src, expectedResults) then Some(Program(Opcodes(src.opcodes).value, src.attrs)) else None
  }

  /**
   A program that parses leaves as many results as are expected exactly if it is not missing,
   or one result is expected.  In any case it is safe to evaluate.
   */
  lemma ResultsExactly(source: Option<Source>, expectedResults: int)
    requires Parsed(source, expectedResults).Some?
    ensures var p := Parsed(source, expectedResults).value;
      && Fits(p.opcodes) && AttrCount(p.opcodes) == |p.attrs|
      && (Depth(p.opcodes) == expectedResults <==> source.Some? || expectedResults == 1)
  {
    ConstantZero();
  }

  lemma ConstantZero()
    ensures Fits([Const]) && Depth([Const]) == 1 && AttrCount([Const]) == 1
  {
    assert [Const][..0] == [];
  }

  /** The shape and strides of an array of rank one are two results: a missing program leaves one. */
  lemma MissingProgramLeavesOne()
    ensures Parsed(None, 2).Some? && Depth(Parsed(None, 2).value.opcodes) == 1
  {
    ConstantZero();
  }

  /** What one more opcode means for the prefix that has been checked. */
  lemma ParseStep(source: Source, expectedResults: int, i: nat, opcodes: seq<Opcode>, opcode: Option<Opcode>)
    requires i < |source.opcodes| && Opcodes(source.opcodes[..i]) == Some(opcodes) && Fits(opcodes)
    requires opcode == OpcodeOf(source.opcodes[i])
    ensures opcode.Some? ==>
      && Opcodes(source.opcodes[..i + 1]) == Some(opcodes + [opcode.value])
      && Depth(opcodes + [opcode.value]) == Depth(opcodes) + StackEffect(opcode.value)
      && AttrCount(opcodes + [opcode.value]) == AttrCount(opcodes) + NumAttrs(opcode.value)
      && (Fits(opcodes + [opcode.value]) <==>
            MinStack(opcode.value) <= Depth(opcodes) && Depth(opcodes) + StackEffect(opcode.value) <= MAX_STACK_DEPTH)
    ensures Accepted(source, expectedResults) ==>
      && opcode.Some? && Fits(opcodes + [opcode.value])
      && AttrCount(opcodes) + NumAttrs(opcode.value) <= |source.attrs|
  {
    hide Accepted, Fits, Depth, AttrCount, OpcodeOf, Symbolic;
    var next := source.opcodes[..i + 1];
    assert next[..i] == source.opcodes[..i] && next[i] == source.opcodes[i];
    if opcode.Some? {
      StepFits(opcodes, seq(AttrCount(opcodes), k => 0), opcode.value, seq(NumAttrs(opcode.value), k => 0));
    }
    if Accepted(source, expectedResults) {
      PrefixAccepted(source, i + 1, expectedResults);
    }
  }

  /** Check a program, in one pass over its opcodes. */
  method Parse(source: Option<Source>, expectedResults: int) returns (r: Option<Program>)
    ensures r == Parsed(source, expectedResults)
    ensures r.Some? ==> (Depth(r.value.opcodes) == expectedResults <==> source.Some? || expectedResults == 1)
  {
    if Parsed(source, expectedResults).Some? {
      ResultsExactly(source, expectedResults);
    }
    if source.None? {
      return Some(Program([Const], [0]));
    }
    r := ParseSource(source.value, expectedResults);
  }

  method ParseSource(source: Source, expectedResults: int) returns (r: Option<Program>)
    ensures r == Parsed(Some(source), expectedResults)
  {
    hide Opcodes, Fits, Depth, AttrCount, OpcodeOf, Symbolic;
    var names, attrs := source.opcodes, source.attrs;
    var opcodes: seq<Opcode>, remainingAttrs, depth := [], |attrs|, 0;
    NoOpcodes(names);
    for i := 0 to |names|
      invariant Opcodes(names[..i]) == Some(opcodes) && Fits(opcodes)
      invariant depth == Depth(opcodes) && remainingAttrs == |attrs| - AttrCount(opcodes) && 0 <= remainingAttrs
    {
      var opcode := OpcodeOf(names[i]);
      ParseStep(source, expectedResults, i, opcodes, opcode);
      if opcode.None? {
        return None;
      }
      if remainingAttrs < NumAttrs(opcode.value) {
        return None;
      }
      remainingAttrs := remainingAttrs - NumAttrs(opcode.value);
      if depth < MinStack(opcode.value) {
        return None;
      }
      depth := depth + StackEffect(opcode.value);
      if depth > MAX_STACK_DEPTH {
        return None;
      }
      opcodes := opcodes + [opcode.value];
    }
    assert names[..|names|] == names;
    if remainingAttrs != 0 || depth != expectedResults {
      return None;
    }
    for i := 0 to |attrs|
      invariant forall j | 0 <= j < i :: IsInt64(attrs[j])
    {
      if !IsInt64(attrs[i]) {
        return None;
      }
    }
    r := Some(Program(opcodes, attrs));
  }

  lemma NoOpcodes(names: seq<string>)
    ensures Opcodes(names[..0]) == Some([]) && Fits([]) && Depth([]) == 0 && AttrCount([]) == 0
  {
  }

  // ---------------------------------------------------------------- the evaluator

  predicate AllDefined(es: seq<Expr>, args: seq<int>) {
    forall i | 0 <= i < |es| :: Defined(es[i], args)
  }

  function Values(es: seq<Expr>, args: seq<int>): (vs: seq<int>)
    requires AllDefined(es, args)
    ensures |vs| == |es|
  {
    seq(|es|, i requires 0 <= i < |es| => Value(es[i], args))
  }

  /** What one more opcode needs, to be defined. */
  predicate StepDefined(op: Opcode, es: seq<Expr>, attrs: seq<int>, args: seq<int>)
    requires MinStack(op) <= |es| && |attrs| == NumAttrs(op) && AllDefined(es, args)
  {
    var n := |es|;
    match op
    case Const => true
    case KernelArgI32 => 0 <= attrs[0] < |args|
    case KernelArgI64 => 0 <= attrs[0] < |args|
    case Add => IsInt64(Value(es[n - 2], args) + Value(es[n - 1], args))
    case Mul => IsInt64(Value(es[n - 2], args) * Value(es[n - 1], args))
    case RoundUpToPow2 => IsInt64(attrs[0] - 1) && IsInt64(Value(es[n - 1], args) + (attrs[0] - 1))
  }

  /** Nothing is ever dropped from the stack, so what was undefined stays so. */
  lemma PushDefined(op: Opcode, es: seq<Expr>, attrs: seq<int>, args: seq<int>)
    requires MinStack(op) <= |es| && |attrs| == NumAttrs(op)
    ensures AllDefined(Push(op, es, attrs), args) <==> AllDefined(es, args) && StepDefined(op, es, attrs, args)
  {
    var next := Push(op, es, attrs);
    var kept := |es| - MinStack(op);
    assert forall i | 0 <= i < kept :: next[i] == es[i];
    if AllDefined(next, args) {
      assert Defined(next[|next| - 1], args);
      forall i | 0 <= i < |es| ensures Defined(es[i], args) {
        if i < kept {
          assert Defined(next[i], args);
        }
      }
    }
  }

  lemma {:induction false} DefinedPrefix(ops: seq<Opcode>, attrs: seq<int>, args: seq<int>, k: nat)
    requires k <= |ops| && Fits(ops) && |attrs| == AttrCount(ops) && AllDefined(Symbolic(ops, attrs), args)
    ensures Fits(ops[..k]) && AttrCount(ops[..k]) <= |attrs|
    ensures AllDefined(Symbolic(ops[..k], attrs[..AttrCount(ops[..k])]), args)
    decreases |ops|
  {
    CountPrefix(ops, k);
    FitsPrefix(ops, k);
    if k == |ops| {
      assert ops[..k] == ops && attrs[..|attrs|] == attrs;
    } else {
      var init, n := ops[..|ops| - 1], AttrCount(ops[..|ops| - 1]);
      PushDefined(ops[|ops| - 1], Symbolic(init, attrs[..n]), attrs[n..], args);
      DefinedPrefix(init, attrs[..n], args, k);
      assert init[..k] == ops[..k];
      assert attrs[..n][..AttrCount(ops[..k])] == attrs[..AttrCount(ops[..k])];
    }
  }

  /** What one opcode does to the stack of expressions. */
  lemma StepValue(ops: seq<Opcode>, attrs: seq<int>, i: nat)
    requires i < |ops| && Fits(ops) && |attrs| == AttrCount(ops)
    ensures var n, m := AttrCount(ops[..i]), AttrCount(ops[..i + 1]);
      && m == n + NumAttrs(ops[i]) && m <= |attrs| && Fits(ops[..i]) && Fits(ops[..i + 1])
      && var es, next := Symbolic(ops[..i], attrs[..n]), Symbolic(ops[..i + 1], attrs[..m]);
      && MinStack(ops[i]) <= |es| && next == Push(ops[i], es, attrs[n..m])
  {
    assert ops[..i + 1][..i] == ops[..i];
    FitsPrefix(ops, i);
    FitsPrefix(ops, i + 1);
    CountPrefix(ops, i + 1);
    var n, m := AttrCount(ops[..i]), AttrCount(ops[..i + 1]);
    assert attrs[..m][..n] == attrs[..n] && attrs[..m][n..] == attrs[n..m];
  }

  /** Evaluate one opcode in place, if that is defined; `top` is the number of values on the stack. */
  method EvalOp(op: Opcode, attrs: seq<int>, args: seq<int>, stack: array<int>, top: nat, ghost es: seq<Expr>)
    returns (newTop: nat, defined: bool)
    requires MinStack(op) <= |es| == top && top + StackEffect(op) <= stack.Length == MAX_STACK_DEPTH
    requires top <= stack.Length
    requires |attrs| == NumAttrs(op) && AllDefined(es, args)
    requires forall i | 0 <= i < top :: stack[i] == Value(es[i], args)
    modifies stack
    ensures newTop == top + StackEffect(op) && (defined <==> AllDefined(Push(op, es, attrs), args))
    ensures defined ==> forall i | 0 <= i < newTop :: stack[i] == Value(Push(op, es, attrs)[i], args)
  {
    PushDefined(op, es, attrs, args);
    newTop := top + StackEffect(op);
    match op {
      case Const => stack[top] := attrs[0]; defined := true;
      case KernelArgI32 =>
        defined := 0 <= attrs[0] < |args|;
        if defined { stack[top] := ToInt32(args[attrs[0]]); }
      case KernelArgI64 =>
        defined := 0 <= attrs[0] < |args|;
        if defined { stack[top] := args[attrs[0]]; }
      case Add => stack[top - 2] := stack[top - 2] + stack[top - 1]; defined := IsInt64(stack[top - 2]);
      case Mul => stack[top - 2] := stack[top - 2] * stack[top - 1]; defined := IsInt64(stack[top - 2]);
      case RoundUpToPow2 =>
        defined := IsInt64(attrs[0] - 1) && IsInt64(stack[top - 1] + (attrs[0] - 1));
        stack[top - 1] := Mask(stack[top - 1], attrs[0]);
    }
  }

  /**
   Run a program that was accepted.  No access to the stack is out of bounds, all attributes
   are used, and the values of its expressions are left, in order.  What C++ leaves undefined
   happens exactly if an expression of the program is not defined.
   */
  method Eval(prog: Program, args: seq<int>, stack: array<int>) returns (top: nat, defined: bool)
    requires Fits(prog.opcodes) && AttrCount(prog.opcodes) == |prog.attrs| && stack.Length == MAX_STACK_DEPTH
    modifies stack
    ensures defined <==> AllDefined(Symbolic(prog.opcodes, prog.attrs), args)
    ensures defined ==> top == Depth(prog.opcodes) <= MAX_STACK_DEPTH
    ensures defined ==> stack[..top] == Values(Symbolic(prog.opcodes, prog.attrs), args)
  {
    hide Fits, Symbolic, AttrCount, Push, Value, Defined, Depth;
    var opAttr := 0;
    ghost var es: seq<Expr> := [];
    var ops, attrs := prog.opcodes, prog.attrs;
    top := 0;
    EmptyStack(ops, attrs);
    for i := 0 to |ops|
      invariant Fits(ops[..i]) && opAttr == AttrCount(ops[..i]) <= |attrs| && es == Symbolic(ops[..i], attrs[..opAttr])
      invariant top == |es| <= MAX_STACK_DEPTH && AllDefined(es, args)
      invariant forall j | 0 <= j < top :: stack[j] == Value(es[j], args)
    {
      StepValue(ops, attrs, i);
      var count := NumAttrs(ops[i]);
      if AllDefined(Symbolic(ops, attrs), args) {
        DefinedPrefix(ops, attrs, args, i + 1);
      }
      top, defined := EvalOp(ops[i], attrs[opAttr..opAttr + count], args, stack, top, es);
      if !defined {
        return;
      }
      es := Push(ops[i], es, attrs[opAttr..opAttr + count]);
      opAttr := opAttr + count;
    }
    assert ops[..|ops|] == ops && attrs[..|attrs|] == attrs;
    assert opAttr == |attrs|;
    defined := true;
  }

  lemma EmptyStack(ops: seq<Opcode>, attrs: seq<int>)
    ensures Fits(ops[..0]) && AttrCount(ops[..0]) == 0 && Symbolic(ops[..0], attrs[..0]) == []
  {
  }
}
