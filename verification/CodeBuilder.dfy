/**
 Building the code of one function: value numbering, operation counts and debug attributes
 across nested blocks.

 Main results: for every tree of operations, the bytes the builder writes, read in order by a
 decoder that numbers values as it goes, give back the tree with the very identifiers the
 builder handed out; values in scope at once have different identifiers; every block is
 preceded by the number of its own operations; and the debug list holds one entry for each
 operation in reading order.
 */
module CodeBuilding {
  import opened Basic
  import opened Sequences
  import opened Wrappers

  /** `n` consecutive value identifiers. */
  function Range(start: nat, n: nat): (r: seq<nat>)
    ensures |r| == n
    ensures forall i | 0 <= i < n :: r[i] == start + i
    decreases n
  {
    if n == 0 then [] else [start] + Range(start + 1, n - 1)
  }

  function BlockHeader(argTypes: seq<nat>): Bytes {
    [1] + VarintList(argTypes)
  }

  /** What a block puts back when it ends. */
  datatype Saved = Saved(buf: ByteBuffer, nextValueId: nat, numOps: nat)

  class CodeBuilder {
    var buf: ByteBuffer
    var debugAttrPerOp: seq<nat>
    var nextValueId: nat
    var curDebugAttr: nat
    var numOps: nat

    constructor (debugAttrPerOp: seq<nat>)
      ensures fresh(buf) && buf.bytes == [] && this.debugAttrPerOp == debugAttrPerOp
      ensures nextValueId == 0 && curDebugAttr == 0 && numOps == 0
    {
      buf := new ByteBuffer();
      this.debugAttrPerOp := debugAttrPerOp;
      nextValueId, curDebugAttr, numOps := 0, 0, 0;
    }

    method MakeValueTuple(length: nat) returns (values: seq<nat>)
      modifies this`nextValueId
      ensures values == Range(old(nextValueId), length) && nextValueId == old(nextValueId) + length
    {
      var end := nextValueId + length;
      values := Range(nextValueId, end - nextValueId);
      nextValueId := end;
    }

    /** Without a count, the operation has one result. */
    method NewOp(numResults: Option<nat>) returns (values: seq<nat>)
      modifies this`debugAttrPerOp, this`numOps, this`nextValueId
      ensures debugAttrPerOp == old(debugAttrPerOp) + [curDebugAttr] && numOps == old(numOps) + 1
      ensures var n := if numResults.None? then 1 else numResults.value;
        values == Range(old(nextValueId), n) && nextValueId == old(nextValueId) + n
    {
      debugAttrPerOp := debugAttrPerOp + [curDebugAttr];
      numOps := numOps + 1;
      if numResults.None? {
        values := [nextValueId];
        nextValueId := nextValueId + 1;
        assert values == Range(old(nextValueId), 1);
      } else if numResults.value == 0 {
        values := [];
      } else {
        values := MakeValueTuple(numResults.value);
      }
    }

    method NewOpWithNestedBlocks(numResults: nat, numBlocks: nat) returns (nested: NestedBlockBuilder)
      modifies this`debugAttrPerOp, this`numOps, buf
      ensures debugAttrPerOp == old(debugAttrPerOp) + [curDebugAttr] && numOps == old(numOps) + 1
      ensures buf.bytes == old(buf.bytes) + Varint(numBlocks)
      ensures fresh(nested) && nested.builder == this && nested.numResults == numResults
      ensures nested.numBlocks == numBlocks
    {
      debugAttrPerOp := debugAttrPerOp + [curDebugAttr];
      numOps := numOps + 1;
      EncodeVarint(numBlocks, buf);
      nested := new NestedBlockBuilder(this, numResults, numBlocks);
    }

    method EnterDebugAttr(debugAttr: nat) returns (previous: nat)
      modifies this`curDebugAttr
      ensures previous == old(curDebugAttr) && curDebugAttr == debugAttr
    {
      previous := curDebugAttr;
      curDebugAttr := debugAttr;
    }

    method LeaveDebugAttr(previous: nat)
      modifies this`curDebugAttr
      ensures curDebugAttr == previous
    {
      curDebugAttr := previous;
    }
  }

  class NestedBlockBuilder {
    const builder: CodeBuilder
    const numResults: nat
    var numBlocks: nat

    constructor (builder: CodeBuilder, numResults: nat, numBlocks: nat)
      ensures this.builder == builder && this.numResults == numResults && this.numBlocks == numBlocks
    {
      this.builder, this.numResults, this.numBlocks := builder, numResults, numBlocks;
    }

    /** From here on, operations are written to a buffer of their own. */
    method BeginBlock(argTypes: seq<nat>) returns (saved: Saved, args: seq<nat>)
      requires 0 < numBlocks
      modifies builder`buf, builder`nextValueId, builder`numOps, builder.buf
      ensures saved == Saved(old(builder.buf), old(builder.nextValueId), old(builder.numOps))
      ensures saved.buf.bytes == old(builder.buf.bytes) + BlockHeader(argTypes)
      ensures fresh(builder.buf) && builder.buf.bytes == [] && builder.numOps == 0
      ensures args == Range(old(builder.nextValueId), |argTypes|)
      ensures builder.nextValueId == old(builder.nextValueId) + |argTypes|
    {
      Assoc(builder.buf.bytes, [1], VarintList(argTypes));
      builder.buf.Append(1);
      EncodeVarintList(argTypes, builder.buf);
      saved := Saved(builder.buf, builder.nextValueId, builder.numOps);
      builder.numOps := 0;
      builder.buf := new ByteBuffer();
      args := builder.MakeValueTuple(|argTypes|);
    }

    /** The block's operation count and bytes go to the buffer it began in. */
    method EndBlock(saved: Saved)
      requires 0 < numBlocks && saved.buf != builder.buf
      modifies this, builder`buf, builder`nextValueId, builder`numOps, saved.buf
      ensures saved.buf.bytes == old(saved.buf.bytes) + (Varint(old(builder.numOps)) + old(builder.buf.bytes))
      ensures numBlocks == old(numBlocks) - 1
      ensures Saved(builder.buf, builder.nextValueId, builder.numOps) == saved
    {
      Assoc(saved.buf.bytes, Varint(builder.numOps), builder.buf.bytes);
      EncodeVarint(builder.numOps, saved.buf);
      saved.buf.Extend(builder.buf.bytes);
      numBlocks := numBlocks - 1;
      Restore(saved);
    }

    /** What happens in any case, also when the block's body fails. */
    method Restore(saved: Saved)
      modifies builder`buf, builder`nextValueId, builder`numOps
      ensures Saved(builder.buf, builder.nextValueId, builder.numOps) == saved
    {
      builder.nextValueId := saved.nextValueId;
      builder.numOps := saved.numOps;
      builder.buf := saved.buf;
    }

    method Done() returns (values: seq<nat>)
      requires numBlocks == 0
      modifies builder`nextValueId
      ensures values == Range(old(builder.nextValueId), numResults)
      ensures builder.nextValueId == old(builder.nextValueId) + numResults
    {
      values := builder.MakeValueTuple(numResults);
    }
  }

  // ---------------------------------------------------------------- trees of operations

  /** An operation to emit.  Without an attribute of its own it has that of what surrounds it. */
  datatype Op = Op(opcode: nat, resultTypes: seq<nat>, operands: seq<nat>, attr: Option<nat>,
                   regions: Regions)

  /** Only some operations have nested blocks at all. */
  datatype Regions = Without | With(blocks: seq<Block>)

  datatype Block = Block(argTypes: seq<nat>, ops: seq<Op>)

  /** The same, with the identifiers of all values and the attribute of every operation. */
  datatype Node = Node(opcode: nat, resultTypes: seq<nat>, operands: seq<nat>, attr: nat,
                       results: seq<nat>, regions: NodeRegions)

  datatype NodeRegions = NoBlocks | Blocks(blocks: seq<NodeBlock>)

  datatype NodeBlock = NodeBlock(argTypes: seq<nat>, args: seq<nat>, nodes: seq<Node>)

  function AttrOf(op: Op, cur: nat): nat {
    if op.attr.Some? then op.attr.value else cur
  }

  function Number(op: Op, next: nat, cur: nat): Node
    decreases op
  {
    Node(op.opcode, op.resultTypes, op.operands, AttrOf(op, cur), Range(next, |op.resultTypes|),
         match op.regions
         case Without => NoBlocks
         case With(blocks) => Blocks(NumberBlocks(blocks, next, AttrOf(op, cur))))
  }

  function NumberBlocks(blocks: seq<Block>, next: nat, cur: nat): (nodes: seq<NodeBlock>)
    ensures |nodes| == |blocks|
    decreases blocks
  {
    if blocks == [] then [] else [NumberBlock(blocks[0], next, cur)] + NumberBlocks(blocks[1..], next, cur)
  }

  function NumberBlock(block: Block, next: nat, cur: nat): NodeBlock
    decreases block
  {
    var n := |block.argTypes|;
    NodeBlock(block.argTypes, Range(next, n), NumberOps(block.ops, next + n, cur))
  }

  function NumberOps(ops: seq<Op>, next: nat, cur: nat): (nodes: seq<Node>)
    ensures |nodes| == |ops|
    decreases ops
  {
    if ops == [] then []
    else [Number(ops[0], next, cur)] + NumberOps(ops[1..], next + |ops[0].resultTypes|, cur)
  }

  /** One attribute for each operation, an operation before those nested in it. */
  function Attrs(op: Op, cur: nat): seq<nat>
    decreases op
  {
    [AttrOf(op, cur)] + (match op.regions case Without => [] case With(blocks) => BlocksAttrs(blocks, AttrOf(op, cur)))
  }

  function BlocksAttrs(blocks: seq<Block>, cur: nat): seq<nat>
    decreases blocks
  {
    if blocks == [] then [] else BlockAttrs(blocks[0], cur) + BlocksAttrs(blocks[1..], cur)
  }

  function BlockAttrs(block: Block, cur: nat): seq<nat>
    decreases block
  {
    OpsAttrs(block.ops, cur)
  }

  function OpsAttrs(ops: seq<Op>, cur: nat): seq<nat>
    decreases ops
  {
    if ops == [] then [] else Attrs(ops[0], cur) + OpsAttrs(ops[1..], cur)
  }

  function OpHeader(op: Op): Bytes {
    Varint(op.opcode) + (VarintList(op.resultTypes) + VarintList(op.operands))
  }

  function OpBytes(op: Op): Bytes
    decreases op
  {
    OpHeader(op) + (match op.regions case Without => [] case With(blocks) => Varint(|blocks|) + BlocksBytes(blocks))
  }

  function BlocksBytes(blocks: seq<Block>): Bytes
    decreases blocks
  {
    if blocks == [] then [] else BlockBytes(blocks[0]) + BlocksBytes(blocks[1..])
  }

  function BlockBytes(block: Block): Bytes
    decreases block
  {
    BlockHeader(block.argTypes) + (Varint(|block.ops|) + OpsBytes(block.ops))
  }

  function OpsBytes(ops: seq<Op>): Bytes
    decreases ops
  {
    if ops == [] then [] else OpBytes(ops[0]) + OpsBytes(ops[1..])
  }

  // ---------------------------------------------------------------- emitting a tree

  method EmitHeader(op: Op, buf: ByteBuffer)
    modifies buf
    ensures buf.bytes == old(buf.bytes) + OpHeader(op)
  {
    EncodeVarint(op.opcode, buf);
    EncodeVarintList(op.resultTypes, buf);
    EncodeVarintList(op.operands, buf);
    Assoc(old(buf.bytes) + Varint(op.opcode), VarintList(op.resultTypes), VarintList(op.operands));
    Assoc(old(buf.bytes), Varint(op.opcode), VarintList(op.resultTypes) + VarintList(op.operands));
  }

  /** How far emitting something takes the builder. */
  twostate predicate Emitted(b: CodeBuilder, bytes: Bytes, attrs: seq<nat>, values: nat, ops: nat)
    reads b, b.buf
  {
    && b.buf == old(b.buf) && b.buf.bytes == old(b.buf.bytes) + bytes
    && b.debugAttrPerOp == old(b.debugAttrPerOp) + attrs
    && b.nextValueId == old(b.nextValueId) + values
    && b.numOps == old(b.numOps) + ops
    && b.curDebugAttr == old(b.curDebugAttr)
  }

  method EmitOp(b: CodeBuilder, op: Op) returns (node: Node)
    modifies b, b.buf
    ensures Emitted(b, OpBytes(op), Attrs(op, old(b.curDebugAttr)), |op.resultTypes|, 1)
    ensures node == Number(op, old(b.nextValueId), old(b.curDebugAttr))
    decreases op
  {
    var attr := AttrOf(op, b.curDebugAttr);
    var previous := b.EnterDebugAttr(attr);
    EmitHeader(op, b.buf);
    var n := |op.resultTypes|;
    match op.regions {
      case Without =>
        var results := b.NewOp(if n == 1 then None else Some(n));
        node := Node(op.opcode, op.resultTypes, op.operands, attr, results, NoBlocks);
      case With(blocks) =>
        var nested := b.NewOpWithNestedBlocks(n, |blocks|);
        var nodes := EmitBlocks(b, nested, blocks);
        var results := nested.Done();
        node := Node(op.opcode, op.resultTypes, op.operands, attr, results, Blocks(nodes));
        Assoc(old(b.debugAttrPerOp), [attr], BlocksAttrs(blocks, attr));
        Assoc(old(b.buf.bytes) + OpHeader(op), Varint(|blocks|), BlocksBytes(blocks));
        Assoc(old(b.buf.bytes), OpHeader(op), Varint(|blocks|) + BlocksBytes(blocks));
    }
    b.LeaveDebugAttr(previous);
  }

  method EmitBlocks(b: CodeBuilder, nested: NestedBlockBuilder, blocks: seq<Block>) returns (nodes: seq<NodeBlock>)
    requires nested.builder == b && nested.numBlocks == |blocks|
    modifies b, b.buf, nested
    ensures Emitted(b, BlocksBytes(blocks), BlocksAttrs(blocks, old(b.curDebugAttr)), 0, 0)
    ensures nodes == NumberBlocks(blocks, old(b.nextValueId), old(b.curDebugAttr))
    ensures nested.numBlocks == 0
    decreases blocks
  {
    if blocks == [] {
      nodes := [];
    } else {
      var cur := b.curDebugAttr;
      var first := EmitBlock(b, nested, blocks[0]);
      var others := EmitBlocks(b, nested, blocks[1..]);
      nodes := [first] + others;
      Assoc(old(b.buf.bytes), BlockBytes(blocks[0]), BlocksBytes(blocks[1..]));
      Assoc(old(b.debugAttrPerOp), BlockAttrs(blocks[0], cur), BlocksAttrs(blocks[1..], cur));
    }
  }

  method EmitBlock(b: CodeBuilder, nested: NestedBlockBuilder, block: Block) returns (node: NodeBlock)
    requires nested.builder == b && 0 < nested.numBlocks
    modifies b, b.buf, nested
    ensures Emitted(b, BlockBytes(block), BlockAttrs(block, old(b.curDebugAttr)), 0, 0)
    ensures node == NumberBlock(block, old(b.nextValueId), old(b.curDebugAttr))
    ensures nested.numBlocks == old(nested.numBlocks) - 1
    decreases block
  {
    var saved, args := nested.BeginBlock(block.argTypes);
    var nodes := EmitOps(b, block.ops);
    node := NodeBlock(block.argTypes, args, nodes);
    Assoc(old(b.buf.bytes), BlockHeader(block.argTypes), Varint(|block.ops|) + OpsBytes(block.ops));
    nested.EndBlock(saved);
  }

  method EmitOps(b: CodeBuilder, ops: seq<Op>) returns (nodes: seq<Node>)
    modifies b, b.buf
    ensures b.buf == old(b.buf) && b.buf.bytes == old(b.buf.bytes) + OpsBytes(ops)
    ensures b.debugAttrPerOp == old(b.debugAttrPerOp) + OpsAttrs(ops, b.curDebugAttr)
    ensures b.numOps == old(b.numOps) + |ops| && b.curDebugAttr == old(b.curDebugAttr)
    ensures nodes == NumberOps(ops, old(b.nextValueId), b.curDebugAttr)
    decreases ops
  {
    if ops == [] {
      nodes := [];
    } else {
      var cur := b.curDebugAttr;
      var first := EmitOp(b, ops[0]);
      var others := EmitOps(b, ops[1..]);
      nodes := [first] + others;
      Assoc(old(b.buf.bytes), OpBytes(ops[0]), OpsBytes(ops[1..]));
      Assoc(old(b.debugAttrPerOp), Attrs(ops[0], cur), OpsAttrs(ops[1..], cur));
    }
  }

  // ---------------------------------------------------------------- decoding

  /** What was read, the bytes after it, and the debug attributes not used yet. */
  datatype Read<T> = Read(value: T, rest: Bytes, attrs: seq<nat>)

  datatype OpFields = OpFields(opcode: nat, resultTypes: seq<nat>, operands: seq<nat>)

  function ReadHeader(s: Bytes): (r: Option<(OpFields, Bytes)>)
    ensures r.Some? ==> |r.value.1| < |s|
  {
    match ReadVarint(s)
    case None => None
    case Some((opcode, s1)) =>
      match ReadVarintList(s1)
      case None => None
      case Some((types, s2)) =>
        match ReadVarintList(s2)
        case None => None
        case Some((operands, s3)) => Some((OpFields(opcode, types, operands), s3))
  }

  /** `nests` tells by the operation code which operations have nested blocks. */
  function ReadOp(s: Bytes, attrs: seq<nat>, next: nat, nests: nat -> bool): (r: Option<Read<Node>>)
    ensures r.Some? ==> |r.value.rest| < |s|
    decreases |s|, 0
  {
    var header := ReadHeader(s);
    if header.None? || attrs == [] then None
    else
      var f := header.value.0;
      var regions := ReadRegions(header.value.1, attrs[1..], next, nests, nests(f.opcode));
      if regions.None? then None
      else
        Some(Read(Node(f.opcode, f.resultTypes, f.operands, attrs[0], Range(next, |f.resultTypes|),
                       regions.value.value),
                  regions.value.rest, regions.value.attrs))
  }

  function ReadRegions(s: Bytes, attrs: seq<nat>, next: nat, nests: nat -> bool,
                       present: bool): (r: Option<Read<NodeRegions>>)
    ensures r.Some? ==> |r.value.rest| <= |s|
    decreases |s|, 4
  {
    if !present then Some(Read(NoBlocks, s, attrs))
    else
      var count := ReadVarint(s);
      if count.None? then None
      else
        var blocks := ReadBlocks(count.value.0, count.value.1, attrs, next, nests);
        if blocks.None? then None else Some(Read(Blocks(blocks.value.value), blocks.value.rest, blocks.value.attrs))
  }

  function ReadBlocks(n: nat, s: Bytes, attrs: seq<nat>, next: nat,
                      nests: nat -> bool): (r: Option<Read<seq<NodeBlock>>>)
    ensures r.Some? ==> |r.value.rest| <= |s|
    decreases |s|, 3
  {
    if n == 0 then Some(Read([], s, attrs))
    else
      var first := ReadBlock(s, attrs, next, nests);
      if first.None? then None
      else
        var others := ReadBlocks(n - 1, first.value.rest, first.value.attrs, next, nests);
        if others.None? then None
        else Some(Read([first.value.value] + others.value.value, others.value.rest, others.value.attrs))
  }

  /** A block's argument types and operation count; every region has one block. */
  function ReadBlockHeader(s: Bytes): (r: Option<(seq<nat>, nat, Bytes)>)
    ensures r.Some? ==> |r.value.2| < |s|
  {
    if s == [] || s[0] != 1 then None
    else
      match ReadVarintList(s[1..])
      case None => None
      case Some((argTypes, s1)) =>
        match ReadVarint(s1)
        case None => None
        case Some((n, s2)) => Some((argTypes, n, s2))
  }

  function ReadBlock(s: Bytes, attrs: seq<nat>, next: nat, nests: nat -> bool): (r: Option<Read<NodeBlock>>)
    ensures r.Some? ==> |r.value.rest| < |s|
    decreases |s|, 2
  {
    var header := ReadBlockHeader(s);
    if header.None? then None
    else
      var n := |header.value.0|;
      var nodes := ReadOps(header.value.1, header.value.2, attrs, next + n, nests);
      if nodes.None? then None
      else Some(Read(NodeBlock(header.value.0, Range(next, n), nodes.value.value), nodes.value.rest, nodes.value.attrs))
  }

  function ReadOps(n: nat, s: Bytes, attrs: seq<nat>, next: nat, nests: nat -> bool): (r: Option<Read<seq<Node>>>)
    ensures r.Some? ==> |r.value.rest| <= |s|
    decreases |s|, 1
  {
    if n == 0 then Some(Read([], s, attrs))
    else
      var first := ReadOp(s, attrs, next, nests);
      if first.None? then None
      else
        var others := ReadOps(n - 1, first.value.rest, first.value.attrs, next + |first.value.value.results|, nests);
        if others.None? then None
        else Some(Read([first.value.value] + others.value.value, others.value.rest, others.value.attrs))
  }

  /** Operations have nested blocks exactly when their code says so. */
  predicate Fitting(op: Op, nests: nat -> bool)
    decreases op
  {
    match op.regions
    case Without => !nests(op.opcode)
    case With(blocks) => nests(op.opcode) && BlocksFit(blocks, nests)
  }

  predicate BlocksFit(blocks: seq<Block>, nests: nat -> bool)
    decreases blocks
  {
    blocks == [] || (OpsFit(blocks[0].ops, nests) && BlocksFit(blocks[1..], nests))
  }

  predicate OpsFit(ops: seq<Op>, nests: nat -> bool)
    decreases ops
  {
    ops == [] || (Fitting(ops[0], nests) && OpsFit(ops[1..], nests))
  }

  // ---------------------------------------------------------------- the decoder undoes the builder

  lemma {:induction false} OpDecodes(op: Op, rest: Bytes, more: seq<nat>, next: nat, cur: nat, nests: nat -> bool,
                                     s: Bytes, attrs: seq<nat>)
    requires Fitting(op, nests) && s == OpBytes(op) + rest && attrs == Attrs(op, cur) + more
    ensures ReadOp(s, attrs, next, nests) == Some(Read(Number(op, next, cur), rest, more))
    decreases op, 0
  {
    var attr := AttrOf(op, cur);
    var inner := match op.regions case Without => [] case With(blocks) => BlocksAttrs(blocks, attr);
    var tail := match op.regions case Without => [] case With(blocks) => Varint(|blocks|) + BlocksBytes(blocks);
    HeaderDecodes(op, tail, rest, s);
    Assoc([attr], inner, more);
    Tail(attr, inner + more);
    match op.regions {
      case Without =>
        assert tail + rest == rest && inner + more == more;
      case With(blocks) =>
        Assoc(Varint(|blocks|), BlocksBytes(blocks), rest);
        VarintRoundTrip(|blocks|, BlocksBytes(blocks) + rest);
        BlocksDecode(blocks, rest, more, next, attr, nests, BlocksBytes(blocks) + rest, inner + more);
    }
  }

  /** The fields of an operation come before its blocks. */
  lemma HeaderDecodes(op: Op, tail: Bytes, rest: Bytes, s: Bytes)
    requires s == (OpHeader(op) + tail) + rest
    ensures ReadHeader(s) == Some((OpFields(op.opcode, op.resultTypes, op.operands), tail + rest))
  {
    var a, b, c := Varint(op.opcode), VarintList(op.resultTypes), VarintList(op.operands);
    Assoc(a + (b + c), tail, rest);
    Assoc(a, b + c, tail + rest);
    Assoc(b, c, tail + rest);
    VarintRoundTrip(op.opcode, b + (c + (tail + rest)));
    VarintListRoundTrip(op.resultTypes, c + (tail + rest));
    VarintListRoundTrip(op.operands, tail + rest);
  }

  lemma {:induction false} BlocksDecode(blocks: seq<Block>, rest: Bytes, more: seq<nat>, next: nat, cur: nat,
                                        nests: nat -> bool, s: Bytes, attrs: seq<nat>)
    requires BlocksFit(blocks, nests) && s == BlocksBytes(blocks) + rest && attrs == BlocksAttrs(blocks, cur) + more
    ensures ReadBlocks(|blocks|, s, attrs, next, nests) == Some(Read(NumberBlocks(blocks, next, cur), rest, more))
    decreases blocks, 0
  {
    if blocks == [] {
      assert s == rest && attrs == more;
    } else {
      var s', attrs' := BlocksBytes(blocks[1..]) + rest, BlocksAttrs(blocks[1..], cur) + more;
      Assoc(BlockBytes(blocks[0]), BlocksBytes(blocks[1..]), rest);
      Assoc(BlockAttrs(blocks[0], cur), BlocksAttrs(blocks[1..], cur), more);
      BlockDecodes(blocks[0], s', attrs', next, cur, nests, s, attrs);
      BlocksDecode(blocks[1..], rest, more, next, cur, nests, s', attrs');
    }
  }

  lemma {:induction false} BlockDecodes(block: Block, rest: Bytes, more: seq<nat>, next: nat, cur: nat,
                                        nests: nat -> bool, s: Bytes, attrs: seq<nat>)
    requires OpsFit(block.ops, nests) && s == BlockBytes(block) + rest && attrs == BlockAttrs(block, cur) + more
    ensures ReadBlock(s, attrs, next, nests) == Some(Read(NumberBlock(block, next, cur), rest, more))
    decreases block, 0
  {
    hide OpsBytes, OpsAttrs, OpsFit, NumberOps, ReadOps, ReadBlockHeader, BlockHeader, Varint;
    var s' := OpsBytes(block.ops) + rest;
    var nodes := NumberOps(block.ops, next + |block.argTypes|, cur);
    OpsDecode(block.ops, rest, more, next + |block.argTypes|, cur, nests, s', attrs, nodes);
    BlockHeaderDecodes(block.argTypes, |block.ops|, OpsBytes(block.ops), rest, s, s');
  }

  lemma BlockHeaderDecodes(argTypes: seq<nat>, n: nat, body: Bytes, rest: Bytes, s: Bytes, s': Bytes)
    requires s == (BlockHeader(argTypes) + (Varint(n) + body)) + rest && s' == body + rest
    ensures ReadBlockHeader(s) == Some((argTypes, n, s'))
  {
    var a, b := VarintList(argTypes), Varint(n);
    Assoc([1] + a, b + body, rest);
    Assoc([1], a, (b + body) + rest);
    Tail(1, a + ((b + body) + rest));
    Assoc(b, body, rest);
    VarintListRoundTrip(argTypes, b + s');
    VarintRoundTrip(n, s');
  }

  /** Reading in order and numbering on the way gives back the tree, its values and its attributes. */
  lemma {:induction false} OpsDecode(ops: seq<Op>, rest: Bytes, more: seq<nat>, next: nat, cur: nat,
                                     nests: nat -> bool, s: Bytes, attrs: seq<nat>, nodes: seq<Node>)
    requires OpsFit(ops, nests) && s == OpsBytes(ops) + rest && attrs == OpsAttrs(ops, cur) + more
    requires nodes == NumberOps(ops, next, cur)
    ensures ReadOps(|ops|, s, attrs, next, nests) == Some(Read(nodes, rest, more))
    decreases ops, 0
  {
    if ops == [] {
      assert s == rest && attrs == more;
    } else {
      var s', attrs' := OpsBytes(ops[1..]) + rest, OpsAttrs(ops[1..], cur) + more;
      var first, next' := Number(ops[0], next, cur), next + |ops[0].resultTypes|;
      var others := NumberOps(ops[1..], next', cur);
      OpsSplit(ops, rest, more, next, cur, s, attrs, nodes, s', attrs', first, others);
      OpDecodes(ops[0], s', attrs', next, cur, nests, s, attrs);
      OpsDecode(ops[1..], rest, more, next', cur, nests, s', attrs', others);
      ReadOpsStep(|ops[1..]|, s, attrs, next, next', nests, first, s', attrs', others, nodes, rest, more);
    }
  }

  lemma {:induction false} OpsSplit(ops: seq<Op>, rest: Bytes, more: seq<nat>, next: nat, cur: nat, s: Bytes,
                                    attrs: seq<nat>,
                                    nodes: seq<Node>, s': Bytes, attrs': seq<nat>, first: Node, others: seq<Node>)
    requires ops != [] && s == OpsBytes(ops) + rest && attrs == OpsAttrs(ops, cur) + more
    requires nodes == NumberOps(ops, next, cur)
    requires s' == OpsBytes(ops[1..]) + rest && attrs' == OpsAttrs(ops[1..], cur) + more
    requires first == Number(ops[0], next, cur) && others == NumberOps(ops[1..], next + |ops[0].resultTypes|, cur)
    ensures s == OpBytes(ops[0]) + s' && attrs == Attrs(ops[0], cur) + attrs' && nodes == [first] + others
    ensures |first.results| == |ops[0].resultTypes|
  {
    Assoc(OpBytes(ops[0]), OpsBytes(ops[1..]), rest);
    Assoc(Attrs(ops[0], cur), OpsAttrs(ops[1..], cur), more);
  }

  lemma {:induction false} ReadOpsStep(n: nat, s: Bytes, attrs: seq<nat>, next: nat, next': nat, nests: nat -> bool,
                                       first: Node, s': Bytes, attrs': seq<nat>, others: seq<Node>, nodes: seq<Node>,
                                       rest: Bytes, more: seq<nat>)
    requires ReadOp(s, attrs, next, nests) == Some(Read(first, s', attrs'))
    requires next' == next + |first.results| && nodes == [first] + others
    requires ReadOps(n, s', attrs', next', nests) == Some(Read(others, rest, more))
    ensures ReadOps(n + 1, s, attrs, next, nests) == Some(Read(nodes, rest, more))
  {
  }

  /** Reads operations until nothing is left, using up all attributes. */
  function ReadBody(s: Bytes, attrs: seq<nat>, next: nat, nests: nat -> bool): Option<seq<Node>>
    decreases |s|
  {
    if s == [] then (if attrs == [] then Some([]) else None)
    else
      var first := ReadOp(s, attrs, next, nests);
      if first.None? then None
      else
        var others := ReadBody(first.value.rest, first.value.attrs, next + |first.value.value.results|, nests);
        if others.None? then None else Some([first.value.value] + others.value)
  }

  /** The body of a function, which is not preceded by a count, is read back as well. */
  lemma {:induction false} BodyDecodes(ops: seq<Op>, next: nat, cur: nat, nests: nat -> bool, s: Bytes, attrs: seq<nat>,
                                       nodes: seq<Node>)
    requires OpsFit(ops, nests) && s == OpsBytes(ops) && attrs == OpsAttrs(ops, cur)
    requires nodes == NumberOps(ops, next, cur)
    ensures ReadBody(s, attrs, next, nests) == Some(nodes)
    decreases ops, 0
  {
    hide ReadOp, OpBytes, Fitting;
    if ops != [] {
      var s', attrs' := OpsBytes(ops[1..]), OpsAttrs(ops[1..], cur);
      var first, next' := Number(ops[0], next, cur), next + |ops[0].resultTypes|;
      OpDecodes(ops[0], s', attrs', next, cur, nests, s, attrs);
      BodyDecodes(ops[1..], next', cur, nests, s', attrs', NumberOps(ops[1..], next', cur));
      ReadBodyStep(s, attrs, next, next', nests, first, s', attrs', NumberOps(ops[1..], next', cur));
    }
  }

  lemma {:induction false} ReadBodyStep(s: Bytes, attrs: seq<nat>, next: nat, next': nat, nests: nat -> bool,
                                        first: Node, s': Bytes, attrs': seq<nat>, others: seq<Node>)
    requires ReadOp(s, attrs, next, nests) == Some(Read(first, s', attrs')) && next' == next + |first.results|
    requires ReadBody(s', attrs', next', nests) == Some(others)
    ensures ReadBody(s, attrs, next, nests) == Some([first] + others)
  {
  }

  // ---------------------------------------------------------------- scopes

  /** At every operation, the values that may be named all have different identifiers. */
  predicate ScopesDistinct(nodes: seq<Node>, scope: seq<nat>)
    decreases nodes, 0
  {
    Distinct(scope) &&
    (nodes == [] || (NodeScopesDistinct(nodes[0], scope) && ScopesDistinct(nodes[1..], scope + nodes[0].results)))
  }

  predicate NodeScopesDistinct(node: Node, scope: seq<nat>)
    decreases node, 0
  {
    match node.regions
    case NoBlocks => true
    case Blocks(blocks) => BlockScopesDistinct(blocks, scope)
  }

  predicate BlockScopesDistinct(blocks: seq<NodeBlock>, scope: seq<nat>)
    decreases blocks, 0
  {
    blocks == [] ||
    (ScopesDistinct(blocks[0].nodes, scope + blocks[0].args) && BlockScopesDistinct(blocks[1..], scope))
  }

  lemma {:induction false} RangeSplit(start: nat, a: nat, b: nat)
    ensures Range(start, a) + Range(start + a, b) == Range(start, a + b)
  {
  }

  lemma RangeDistinct(start: nat, n: nat)
    ensures Distinct(Range(start, n))
  {
  }

  /** The values in scope are numbered from zero without gaps, so none of them share a number. */
  lemma {:induction false} OpsScopes(ops: seq<Op>, next: nat, cur: nat)
    ensures ScopesDistinct(NumberOps(ops, next, cur), Range(0, next))
    decreases ops, 0
  {
    RangeDistinct(0, next);
    if ops != [] {
      var n := |ops[0].resultTypes|;
      RangeSplit(0, next, n);
      OpScopes(ops[0], next, cur);
      OpsScopes(ops[1..], next + n, cur);
    }
  }

  lemma {:induction false} OpScopes(op: Op, next: nat, cur: nat)
    ensures NodeScopesDistinct(Number(op, next, cur), Range(0, next))
    decreases op, 0
  {
    if op.regions.With? {
      BlocksScopes(op.regions.blocks, next, AttrOf(op, cur));
    }
  }

  lemma {:induction false} BlocksScopes(blocks: seq<Block>, next: nat, cur: nat)
    ensures BlockScopesDistinct(NumberBlocks(blocks, next, cur), Range(0, next))
    decreases blocks, 0
  {
    if blocks != [] {
      var n := |blocks[0].argTypes|;
      RangeSplit(0, next, n);
      OpsScopes(blocks[0].ops, next + n, cur);
      BlocksScopes(blocks[1..], next, cur);
    }
  }

  // ---------------------------------------------------------------- debug attributes

  function CountAll(ops: seq<Op>): nat
    decreases ops, 0
  {
    if ops == [] then 0 else 1 + CountRegions(ops[0]) + CountAll(ops[1..])
  }

  function CountRegions(op: Op): nat
    decreases op, 0
  {
    if op.regions.Without? then 0 else CountBlocks(op.regions.blocks)
  }

  function CountBlocks(blocks: seq<Block>): nat
    decreases blocks, 0
  {
    if blocks == [] then 0 else CountAll(blocks[0].ops) + CountBlocks(blocks[1..])
  }

  /** There are as many attributes as operations at all depths together. */
  lemma {:induction false} OneAttrPerOp(ops: seq<Op>, cur: nat)
    ensures |OpsAttrs(ops, cur)| == CountAll(ops)
    decreases ops, 0
  {
    if ops != [] {
      if ops[0].regions.With? {
        OneAttrPerBlockOp(ops[0].regions.blocks, AttrOf(ops[0], cur));
      }
      OneAttrPerOp(ops[1..], cur);
    }
  }

  lemma {:induction false} OneAttrPerBlockOp(blocks: seq<Block>, cur: nat)
    ensures |BlocksAttrs(blocks, cur)| == CountBlocks(blocks)
    decreases blocks, 0
  {
    if blocks != [] {
      OneAttrPerOp(blocks[0].ops, cur);
      OneAttrPerBlockOp(blocks[1..], cur);
    }
  }
}
