/**
 The order in which blocks of a matrix product visit the tiles of the result.

 Main results: swizzling maps block numbers one to one onto the tiles, also in a short last
 group, where the number is not taken relative to the group before the remainder; and the
 persistent loops of any number of blocks, in any interleaving of their steps, write every tile
 of the product, each exactly once, without a block ever waiting for another.
 */
module Swizzle {
  import opened Bits

  /** Rounded-up quotient, for the number of tiles along one side. */
  function CDiv(a: nat, b: nat): (q: nat)
    requires 0 < a && 0 < b
    ensures 0 < q
  {
    Quotients(a + b - 1, b);
    (a + b - 1) / b
  }

  /** Numbers of tiles along both sides, and how many rows of tiles form a group. */
  datatype Grid = Grid(rows: nat, columns: nat, group: nat) {
    predicate Valid() {
      0 < rows && 0 < columns && 0 < group
    }

    function InGroup(): (n: nat)
      requires Valid()
      ensures 0 < n
    {
      Positive(group, columns);
      group * columns
    }

    /** How many rows of tiles the group that starts at row `first` has. */
    function GroupRows(first: nat): (n: nat)
      requires Valid() && first < rows
      ensures 0 < n <= group && first + n <= rows
    {
      if rows - first < group then rows - first else group
    }
  }

  /** The first row of the group a block number is in. */
  function FirstOf(g: Grid, bid: nat): (first: nat)
    requires g.Valid() && bid < g.rows * g.columns
    ensures first < g.rows
  {
    GroupStarts(g, bid);
    bid / g.InGroup() * g.group
  }

  function Tile(g: Grid, bid: nat): (nat, nat)
    requires g.Valid() && bid < g.rows * g.columns
  {
    var first := FirstOf(g, bid);
    InsideGroup(bid, first, g.GroupRows(first), g.InGroup())
  }

  /** Inside a group, numbers run down the columns. */
  function InsideGroup(bid: nat, first: nat, size: nat, inGroup: nat): (nat, nat)
    requires 0 < size && 0 < inGroup
  {
    Quotients(bid, size);
    Quotients(bid, inGroup);
    var rest: nat := bid % inGroup;
    Quotients(rest, size);
    (first + bid % size, rest / size)
  }

  /** The block number whose tile is (row, column): the way back. */
  function BlockNumber(g: Grid, row: nat, column: nat): (bid: int)
    requires g.Valid() && row < g.rows
  {
    FirstRow(g, row);
    var first := row / g.group * g.group;
    var start := row / g.group * g.InGroup();
    var size := g.GroupRows(first);
    start + column * size + (row - first - start) % size
  }

  // ---------------------------------------------------------------- arithmetic

  lemma Positive(a: nat, b: nat)
    requires 0 < a && 0 < b
    ensures 0 < a * b
  {
    AtLeastOnce(a, b);
  }

  lemma MulLess(a: int, b: int, n: int)
    requires 0 < n
    ensures a < b <==> a * n < b * n
  {
    if a < b {
      AtLeastOnce(n, b - a);
      assert n * (b - a) == b * n - a * n;
    } else if b < a {
      AtLeastOnce(n, a - b);
      assert n * (a - b) == a * n - b * n;
    }
  }

  /** Multiples of the modulus do not matter. */
  lemma ModShift(x: int, k: int, s: int)
    requires 0 < s
    ensures (x + k * s) % s == x % s
  {
    assert x == s * (x / s) + x % s;
    assert s * (x / s + k) == s * (x / s) + k * s;
    ModUnique(x + k * s, s, x / s + k, x % s);
  }

  /** Taking the remainder first does not matter, either. */
  lemma ModSum(x: int, y: int, s: int)
    requires 0 < s
    ensures (x % s + y) % s == (x + y) % s
  {
    assert x == s * (x / s) + x % s;
    ModShift(x % s + y, x / s, s);
    assert x % s + y + (x / s) * s == x + y;
  }

  lemma ModSmall(x: int, s: int)
    requires 0 <= x < s
    ensures x % s == x
  {
    ModUnique(x, s, 0, x);
  }

  // ---------------------------------------------------------------- groups

  /** The group of a block number starts at a row of tiles that exists. */
  lemma GroupStarts(g: Grid, bid: nat)
    requires g.Valid() && bid < g.rows * g.columns
    ensures 0 <= bid / g.InGroup() * g.group < g.rows
  {
    var k := bid / g.InGroup();
    Quotients(bid, g.InGroup());
    assert k * (g.group * g.columns) == (k * g.group) * g.columns;
    MulLess(k * g.group, g.rows, g.columns);
  }

  lemma FirstRow(g: Grid, row: nat)
    requires g.Valid() && row < g.rows
    ensures 0 <= row / g.group * g.group <= row < row / g.group * g.group + g.group
    ensures row < row / g.group * g.group + g.GroupRows(row / g.group * g.group)
  {
    Quotients(row, g.group);
  }

  /** The number within the group stays below the size of the group. */
  lemma WithinGroup(k: nat, r: nat, first: nat, size: nat, g: Grid)
    requires g.Valid() && first == k * g.group && first < g.rows && size == g.GroupRows(first)
    requires r < g.InGroup() && k * g.InGroup() + r < g.rows * g.columns
    ensures r < size * g.columns
  {
    assert k * (g.group * g.columns) == first * g.columns;
    if size != g.group {
      assert (g.rows - first) * g.columns == g.rows * g.columns - first * g.columns;
    }
  }

  /** The numbers of a group are numbers of blocks. */
  lemma GroupFits(k: nat, r: nat, first: nat, size: nat, g: Grid)
    requires g.Valid() && first == k * g.group && first < g.rows && size == g.GroupRows(first) && r < size * g.columns
    ensures r < g.InGroup() && k * g.InGroup() + r < g.rows * g.columns
  {
    assert k * (g.group * g.columns) == first * g.columns;
    assert (first + size) * g.columns == first * g.columns + size * g.columns;
    NotLess(g.group, size, g.columns);
    NotLess(g.rows, first + size, g.columns);
  }

  lemma NotLess(a: int, b: int, n: int)
    requires 0 < n && b <= a
    ensures b * n <= a * n
  {
    MulLess(a, b, n);
  }

  // ---------------------------------------------------------------- one to one

  /** Tiles of block numbers exist, and the number can be told from the tile. */
  lemma TileThenNumber(g: Grid, bid: nat)
    requires g.Valid() && bid < g.rows * g.columns
    ensures Tile(g, bid).0 < g.rows && Tile(g, bid).1 < g.columns
    ensures BlockNumber(g, Tile(g, bid).0, Tile(g, bid).1) == bid
  {
    GroupStarts(g, bid);
    var q := g.InGroup();
    var k, r := bid / q, bid % q;
    Quotients(bid, q);
    var first := k * g.group;
    var size := g.GroupRows(first);
    WithinGroup(k, r, first, size, g);
    Quotients(r, size);
    var row, column := first + bid % size, r / size;
    MulLess(column, g.columns, size);
    ModUnique(row, g.group, k, bid % size);
    SameRemainder(bid, k * q, r, row - first, size);
  }

  /** The remainder, shifted back by the start of the group. */
  lemma SameRemainder(bid: int, start: int, r: int, d: int, size: int)
    requires 0 < size && bid == start + r && d == bid % size
    ensures (d - start) % size == r % size
  {
    ModSum(bid, -start, size);
  }

  /** Every tile has a block number. */
  lemma NumberThenTile(g: Grid, row: nat, column: nat)
    requires g.Valid() && row < g.rows && column < g.columns
    ensures 0 <= BlockNumber(g, row, column) < g.rows * g.columns
    ensures Tile(g, BlockNumber(g, row, column)) == (row, column)
  {
    FirstRow(g, row);
    var k := row / g.group;
    var first, start := k * g.group, k * g.InGroup();
    var size := g.GroupRows(first);
    var t := (row - first - start) % size;
    var r := column * size + t;
    assert 0 <= k * g.InGroup() by {
      Multiple(k, g.InGroup());
    }
    Multiple(column, size);
    InRow(column, g.columns, t, size);
    GroupFits(k, r, first, size, g);
    ModUnique(start + r, g.InGroup(), k, r);
    ModUnique(r, size, column, t);
    RemainderBack(start, column, row - first, size, t, start + r);
  }

  lemma Multiple(a: nat, b: nat)
    ensures 0 <= a * b
  {
  }

  lemma InRow(a: int, n: int, t: int, s: int)
    requires 0 <= t < s && a < n
    ensures a * s + t < s * n
  {
    MulLess(a, n, s);
    NotLess(n, a + 1, s);
  }

  lemma RemainderBack(start: int, column: int, d: int, size: int, t: int, bid: int)
    requires 0 <= d < size && t == (d - start) % size && bid == start + (column * size + t)
    ensures bid % size == d
  {
    ModShift(start + t, column, size);
    ModSum(d - start, start, size);
    ModSmall(d, size);
  }

  /** Two block numbers never share a tile. */
  lemma TilesDiffer(g: Grid, a: nat, b: nat)
    requires g.Valid() && a < g.rows * g.columns && b < g.rows * g.columns && Tile(g, a) == Tile(g, b)
    ensures a == b
  {
    TileThenNumber(g, a);
    TileThenNumber(g, b);
  }

  // ---------------------------------------------------------------- the program's sizes

  /** The arguments of the program, and the grid they stand for. */
  function GridOf(m: nat, n: nat, tm: nat, tn: nat, group: nat): (g: Grid)
    requires 0 < m && 0 < n && 0 < tm && 0 < tn && 0 < group
    ensures g.Valid()
  {
    Grid(CDiv(m, tm), CDiv(n, tn), group)
  }

  /** The swizzle, in the program's own steps. */
  method Swizzle2D(m: nat, n: nat, tm: nat, tn: nat, group: nat, bid: nat) returns (bidM: nat, bidN: nat)
    requires 0 < m && 0 < n && 0 < tm && 0 < tn && 0 < group
    requires bid < CDiv(m, tm) * CDiv(n, tn)
    ensures (bidM, bidN) == Tile(GridOf(m, n, tm, tn, group), bid)
    ensures bidM < CDiv(m, tm) && bidN < CDiv(n, tn)
    ensures BlockNumber(GridOf(m, n, tm, tn, group), bidM, bidN) == bid
  {
    ghost var g := GridOf(m, n, tm, tn, group);
    TileThenNumber(g, bid);
    GroupStarts(g, bid);
    var numBidM, numBidN := CDiv(m, tm), CDiv(n, tn);
    var numBidInGroup := group * numBidN;
    assert numBidInGroup == g.InGroup();
    var groupId := bid / numBidInGroup;
    var firstBidM := groupId * group;
    var groupSizeM := if numBidM - firstBidM < group then numBidM - firstBidM else group;
    bidM := firstBidM + bid % groupSizeM;
    bidN := bid % numBidInGroup / groupSizeM;
  }

  // ---------------------------------------------------------------- the kernels

  /** Tiles of the operands, and accumulating one product. */
  datatype Operands<!A, !B, !T> = Operands(a: (int, int) -> A, b: (int, int) -> B, mma: (A, B, T) -> T, zero: T,
                                           depth: nat)

  /** The first `k` products of tile (row, column), accumulated. */
  function Accumulated<A, B, T>(p: Operands<A, B, T>, row: nat, column: nat, k: nat): T {
    if k == 0 then p.zero else p.mma(p.a(row, k - 1), p.b(k - 1, column), Accumulated(p, row, column, k - 1))
  }

  method ComputeTile<A, B, T>(p: Operands<A, B, T>, row: nat, column: nat) returns (tile: T)
    ensures tile == Accumulated(p, row, column, p.depth)
  {
    tile := p.zero;
    for k := 0 to p.depth
      invariant tile == Accumulated(p, row, column, k)
    {
      tile := p.mma(p.a(row, k), p.b(k, column), tile);
    }
  }

  /** Does block `block` of `blocks` compute this tile?  Its numbers are `block`, `block + blocks`, ... */
  predicate Owns(g: Grid, block: nat, blocks: nat, row: nat, column: nat)
    requires g.Valid() && 0 < blocks && row < g.rows && column < g.columns
  {
    BlockNumber(g, row, column) % blocks == block
  }

  /** Every tile is computed by one block only. */
  lemma OneOwner(g: Grid, blocks: nat, row: nat, column: nat)
    requires g.Valid() && 0 < blocks && row < g.rows && column < g.columns
    ensures exists block: nat :: block < blocks && Owns(g, block, blocks, row, column)
    ensures forall a: nat, b: nat :: Owns(g, a, blocks, row, column) && Owns(g, b, blocks, row, column) ==> a == b
  {
    NumberThenTile(g, row, column);
    var block := BlockNumber(g, row, column) % blocks;
    assert Owns(g, block, blocks, row, column);
  }

  /** What a block has computed once it has come to number `bid`. */
  predicate Reached(g: Grid, block: nat, blocks: nat, bid: nat, row: nat, column: nat)
    requires g.Valid() && 0 < blocks && row < g.rows && column < g.columns
  {
    Owns(g, block, blocks, row, column) && BlockNumber(g, row, column) < bid
  }

  /** The next stride adds one tile. */
  lemma NextReached(g: Grid, block: nat, blocks: nat, bid: nat, row: nat, column: nat)
    requires g.Valid() && block < blocks && row < g.rows && column < g.columns
    requires bid < g.rows * g.columns && bid % blocks == block
    ensures Reached(g, block, blocks, bid + blocks, row, column)
      <==> Reached(g, block, blocks, bid, row, column) || (row, column) == Tile(g, bid)
  {
    NumberThenTile(g, row, column);
    TileThenNumber(g, bid);
    var n := BlockNumber(g, row, column);
    if n % blocks == block && bid <= n < bid + blocks {
      SameStride(n, bid, blocks);
    }
  }

  lemma SameStride(n: int, bid: int, blocks: int)
    requires 0 < blocks && bid <= n < bid + blocks && n % blocks == bid % blocks
    ensures n == bid
  {
    ModSum(n, -bid, blocks);
    ModSum(bid, -bid, blocks);
    ModSmall(n - bid, blocks);
  }

  predicate Visits(g: Grid, block: nat, blocks: nat, bid: nat, t: (nat, nat))
    requires g.Valid() && 0 < blocks
  {
    t.0 < g.rows && t.1 < g.columns && Reached(g, block, blocks, bid, t.0, t.1)
  }

  /** One persistent block: computes its tiles, each once, and leaves the others alone. */
  method PersistentBlock<A, B, T>(g: Grid, p: Operands<A, B, T>, block: nat, blocks: nat, c: array2<T>)
    returns (ghost visited: seq<(nat, nat)>)
    requires g.Valid() && block < blocks && c.Length0 == g.rows && c.Length1 == g.columns
    modifies c
    ensures forall i, j | 0 <= i < g.rows && 0 <= j < g.columns ::
      c[i, j] == if Owns(g, block, blocks, i, j) then Accumulated(p, i, j, p.depth) else old(c[i, j])
    ensures forall x, y | 0 <= x < y < |visited| :: visited[x] != visited[y]
    ensures forall t :: t in visited <==> t.0 < g.rows && t.1 < g.columns && Owns(g, block, blocks, t.0, t.1)
  {
    visited := [];
    var bid := block;
    FirstReached(g, block, blocks);
    while bid < g.rows * g.columns
      invariant bid % blocks == block
      invariant forall i, j | 0 <= i < g.rows && 0 <= j < g.columns ::
        c[i, j] == if Reached(g, block, blocks, bid, i, j) then Accumulated(p, i, j, p.depth) else old(c[i, j])
      invariant forall x, y | 0 <= x < y < |visited| :: visited[x] != visited[y]
      invariant forall t :: t in visited <==> Visits(g, block, blocks, bid, t)
    {
      TileThenNumber(g, bid);
      var (row, column) := Tile(g, bid);
      assert (row, column) !in visited;
      c[row, column] := ComputeTile(p, row, column);
      visited := visited + [(row, column)];
      forall i: nat, j: nat | i < g.rows && j < g.columns
        ensures Reached(g, block, blocks, bid + blocks, i, j)
          <==> Reached(g, block, blocks, bid, i, j) || (i, j) == Tile(g, bid)
      {
        NextReached(g, block, blocks, bid, i, j);
      }
      ModShift(bid, 1, blocks);
      bid := bid + blocks;
    }
    AllReached(g, block, blocks, bid);
  }

  /** Before the first stride, nothing is reached. */
  lemma FirstReached(g: Grid, block: nat, blocks: nat)
    requires g.Valid() && block < blocks
    ensures block % blocks == block
    ensures forall i: nat, j: nat | i < g.rows && j < g.columns :: !Reached(g, block, blocks, block, i, j)
  {
    ModSmall(block, blocks);
    forall i: nat, j: nat | i < g.rows && j < g.columns
      ensures !Reached(g, block, blocks, block, i, j)
    {
      NumberThenTile(g, i, j);
      if BlockNumber(g, i, j) < block {
        ModSmall(BlockNumber(g, i, j), blocks);
      }
    }
  }

  /** After the last one, everything the block owns is. */
  lemma AllReached(g: Grid, block: nat, blocks: nat, bid: nat)
    requires g.Valid() && block < blocks && g.rows * g.columns <= bid
    ensures forall i: nat, j: nat | i < g.rows && j < g.columns ::
      Reached(g, block, blocks, bid, i, j) <==> Owns(g, block, blocks, i, j)
  {
    forall i: nat, j: nat | i < g.rows && j < g.columns
      ensures Reached(g, block, blocks, bid, i, j) <==> Owns(g, block, blocks, i, j)
    {
      NumberThenTile(g, i, j);
    }
  }

  // ---------------------------------------------------------------- all blocks at once

  /** A block between two steps: the number it has come to, and the products accumulated so far. */
  datatype Worker<T> = Worker(bid: nat, k: nat, accumulator: T)

  /** All blocks, and the tiles that are written. */
  datatype Machine<T> = Machine(workers: seq<Worker<T>>, c: map<(nat, nat), T>)

  /** The next step of block `b`: one more product, or storing the tile and going on to the next one. */
  function Step<A, B, T>(g: Grid, p: Operands<A, B, T>, m: Machine<T>, b: nat): (r: Machine<T>)
    requires g.Valid() && b < |m.workers|
    ensures |r.workers| == |m.workers|
  {
    var w := m.workers[b];
    if w.bid >= g.rows * g.columns then m
    else
      var (row, column) := Tile(g, w.bid);
      if w.k < p.depth then
        m.(workers := m.workers[b :=
             Worker(w.bid, w.k + 1, p.mma(p.a(row, w.k), p.b(w.k, column), w.accumulator))])
      else
        Machine(m.workers[b := Worker(w.bid + |m.workers|, 0, p.zero)], m.c[(row, column) := w.accumulator])
  }

  /** A run: each number says which block takes its next step. */
  function Run<A, B, T>(g: Grid, p: Operands<A, B, T>, m: Machine<T>, schedule: seq<nat>): (r: Machine<T>)
    requires g.Valid() && forall i | 0 <= i < |schedule| :: schedule[i] < |m.workers|
    ensures |r.workers| == |m.workers|
    decreases |schedule|
  {
    if schedule == [] then m else Run(g, p, Step(g, p, m, schedule[0]), schedule[1..])
  }

  predicate Start<A, B, T(==)>(p: Operands<A, B, T>, m: Machine<T>) {
    m.workers != [] && m.c == map[] && forall b | 0 <= b < |m.workers| :: m.workers[b] == Worker(b, 0, p.zero)
  }

  /** A block is at one of its own numbers, and has accumulated the first products of its tile. */
  predicate WorkerRight<A, B, T(==)>(g: Grid, p: Operands<A, B, T>, w: Worker<T>, b: nat, blocks: nat)
    requires g.Valid() && 0 < blocks
  {
    && w.bid % blocks == b && w.k <= p.depth
    && (w.bid < g.rows * g.columns ==> w.accumulator == Accumulated(p, Tile(g, w.bid).0, Tile(g, w.bid).1, w.k))
  }

  /** The tile is written exactly if its block has left its number behind, and then it is right. */
  predicate TileRight<A, B, T(==)>(g: Grid, p: Operands<A, B, T>, m: Machine<T>, i: nat, j: nat)
    requires g.Valid() && m.workers != [] && i < g.rows && j < g.columns
  {
    && ((i, j) in m.c <==>
          BlockNumber(g, i, j) < m.workers[BlockNumber(g, i, j) % |m.workers|].bid)
    && ((i, j) in m.c ==> m.c[(i, j)] == Accumulated(p, i, j, p.depth))
  }

  ghost predicate Right<A, B, T>(g: Grid, p: Operands<A, B, T>, m: Machine<T>)
    requires g.Valid()
  {
    && m.workers != []
    && (forall b | 0 <= b < |m.workers| :: WorkerRight(g, p, m.workers[b], b, |m.workers|))
    && (forall i: nat, j: nat | i < g.rows && j < g.columns :: TileRight(g, p, m, i, j))
    && (forall t | t in m.c :: t.0 < g.rows && t.1 < g.columns)
  }

  lemma StartRight<A, B, T>(g: Grid, p: Operands<A, B, T>, m: Machine<T>)
    requires g.Valid() && Start(p, m)
    ensures Right(g, p, m)
  {
    var n := |m.workers|;
    forall b: nat | b < n ensures WorkerRight(g, p, m.workers[b], b, n) {
      ModSmall(b, n);
    }
    forall i: nat, j: nat | i < g.rows && j < g.columns ensures TileRight(g, p, m, i, j) {
      NumberThenTile(g, i, j);
      var number := BlockNumber(g, i, j);
      AtMost(number, n);
    }
  }

  lemma AtMost(x: nat, n: nat)
    requires 0 < n
    ensures x % n <= x
  {
    if x < n {
      ModSmall(x, n);
    }
  }

  /** A product leaves all tiles as they are. */
  lemma ProductRight<A, B, T>(g: Grid, p: Operands<A, B, T>, m: Machine<T>, b: nat)
    requires g.Valid() && Right(g, p, m) && b < |m.workers|
    requires m.workers[b].bid < g.rows * g.columns && m.workers[b].k < p.depth
    ensures Right(g, p, Step(g, p, m, b)) && Step(g, p, m, b).c == m.c
  {
    hide Tile, BlockNumber;
    var m', n := Step(g, p, m, b), |m.workers|;
    forall a: nat | a < n ensures WorkerRight(g, p, m'.workers[a], a, n) {
      assert WorkerRight(g, p, m.workers[a], a, n);
    }
    forall i: nat, j: nat | i < g.rows && j < g.columns ensures TileRight(g, p, m', i, j) {
      assert TileRight(g, p, m, i, j);
    }
  }

  /** Storing writes one tile that nobody has written. */
  lemma StoreRight<A, B, T>(g: Grid, p: Operands<A, B, T>, m: Machine<T>, b: nat)
    requires g.Valid() && Right(g, p, m) && b < |m.workers|
    requires m.workers[b].bid < g.rows * g.columns && m.workers[b].k == p.depth
    ensures Right(g, p, Step(g, p, m, b))
    ensures var t := Tile(g, m.workers[b].bid);
      t !in m.c && Step(g, p, m, b).c == m.c[t := Accumulated(p, t.0, t.1, p.depth)]
  {
    hide Tile, BlockNumber;
    var m', n, w := Step(g, p, m, b), |m.workers|, m.workers[b];
    var t := Tile(g, w.bid);
    assert WorkerRight(g, p, w, b, n);
    TileThenNumber(g, w.bid);
    assert TileRight(g, p, m, t.0, t.1);
    forall a: nat | a < n ensures WorkerRight(g, p, m'.workers[a], a, n) {
      assert WorkerRight(g, p, m.workers[a], a, n);
      ModShift(w.bid, 1, n);
    }
    forall i: nat, j: nat | i < g.rows && j < g.columns ensures TileRight(g, p, m', i, j) {
      assert TileRight(g, p, m, i, j);
      NextReached(g, b, n, w.bid, i, j);
    }
  }

  /** Every step of every block keeps all tiles right, and changes none that is written. */
  lemma StepRight<A, B, T>(g: Grid, p: Operands<A, B, T>, m: Machine<T>, b: nat)
    requires g.Valid() && Right(g, p, m) && b < |m.workers|
    ensures Right(g, p, Step(g, p, m, b))
    ensures forall t | t in m.c :: t in Step(g, p, m, b).c && Step(g, p, m, b).c[t] == m.c[t]
  {
    hide Tile, BlockNumber;
    assert WorkerRight(g, p, m.workers[b], b, |m.workers|);
    if m.workers[b].bid < g.rows * g.columns {
      if m.workers[b].k < p.depth {
        ProductRight(g, p, m, b);
      } else {
        StoreRight(g, p, m, b);
      }
    }
  }

  lemma {:induction false} RunRight<A, B, T>(g: Grid, p: Operands<A, B, T>, m: Machine<T>, schedule: seq<nat>)
    requires g.Valid() && Right(g, p, m) && forall i | 0 <= i < |schedule| :: schedule[i] < |m.workers|
    ensures Right(g, p, Run(g, p, m, schedule))
    decreases |schedule|
  {
    if schedule != [] {
      StepRight(g, p, m, schedule[0]);
      RunRight(g, p, Step(g, p, m, schedule[0]), schedule[1..]);
    }
  }

  predicate Done<T>(g: Grid, m: Machine<T>) {
    forall b | 0 <= b < |m.workers| :: g.rows * g.columns <= m.workers[b].bid
  }

  /** The tiles are those of the grid, each with all of its products. */
  ghost predicate IsProduct<A, B, T>(g: Grid, p: Operands<A, B, T>, c: map<(nat, nat), T>) {
    && (forall t :: t in c <==> t.0 < g.rows && t.1 < g.columns)
    && (forall t | t in c :: c[t] == Accumulated(p, t.0, t.1, p.depth))
  }

  /** In every interleaving of any number of blocks, once all are done, the whole product is written. */
  lemma PersistentProduct<A, B, T>(g: Grid, p: Operands<A, B, T>, m: Machine<T>, schedule: seq<nat>)
    requires g.Valid() && Start(p, m) && forall i | 0 <= i < |schedule| :: schedule[i] < |m.workers|
    requires Done(g, Run(g, p, m, schedule))
    ensures IsProduct(g, p, Run(g, p, m, schedule).c)
  {
    hide BlockNumber;
    StartRight(g, p, m);
    RunRight(g, p, m, schedule);
    var r := Run(g, p, m, schedule);
    forall t: (nat, nat) | t.0 < g.rows && t.1 < g.columns
      ensures t in r.c && r.c[t] == Accumulated(p, t.0, t.1, p.depth)
    {
      assert TileRight(g, p, r, t.0, t.1);
      NumberThenTile(g, t.0, t.1);
    }
  }

  // ---------------------------------------------------------------- no block waits for another

  /** How many steps a block still has to take, at most. */
  function StepsLeft<T>(w: Worker<T>, total: nat, depth: nat): int {
    if w.bid >= total then 0 else (total - w.bid) * (depth + 1) - w.k
  }

  lemma StepCounts<A, B, T>(g: Grid, p: Operands<A, B, T>, m: Machine<T>, b: nat)
    requires g.Valid() && b < |m.workers| && m.workers[b].k <= p.depth && m.workers[b].bid < g.rows * g.columns
    ensures StepsLeft(Step(g, p, m, b).workers[b], g.rows * g.columns, p.depth)
         <= StepsLeft(m.workers[b], g.rows * g.columns, p.depth) - 1
  {
    hide Tile;
    var w, n, total := m.workers[b], |m.workers|, g.rows * g.columns;
    FewerLeft(w.bid, w.bid + n, total, p.depth);
  }

  lemma FewerLeft(bid: nat, next: nat, total: nat, depth: nat)
    requires bid < next && bid < total
    ensures depth + 1 <= (total - bid) * (depth + 1)
    ensures next < total ==> (total - next) * (depth + 1) + (depth + 1) <= (total - bid) * (depth + 1)
  {
    AtLeastOnce(depth + 1, total - bid);
    if next < total {
      AtLeastOnce(depth + 1, next - bid);
      assert (total - bid) * (depth + 1) == (total - next) * (depth + 1) + (next - bid) * (depth + 1);
    }
  }

  function Turns(schedule: seq<nat>, b: nat): nat {
    if schedule == [] then 0 else (if schedule[0] == b then 1 else 0) + Turns(schedule[1..], b)
  }

  /** A block is done after so many turns of its own, whatever the others do. */
  lemma {:induction false} NoWaiting<A, B, T>(g: Grid, p: Operands<A, B, T>, m: Machine<T>, schedule: seq<nat>, b: nat)
    requires g.Valid() && Right(g, p, m) && forall i | 0 <= i < |schedule| :: schedule[i] < |m.workers|
    requires b < |m.workers| && StepsLeft(m.workers[b], g.rows * g.columns, p.depth) <= Turns(schedule, b)
    ensures g.rows * g.columns <= Run(g, p, m, schedule).workers[b].bid
    decreases |schedule|
  {
    hide Tile, BlockNumber, Accumulated;
    var total, w := g.rows * g.columns, m.workers[b];
    assert WorkerRight(g, p, w, b, |m.workers|);
    if schedule == [] {
      if w.bid < total {
        FewerLeft(w.bid, total, total, p.depth);
      }
    } else {
      var m' := Step(g, p, m, schedule[0]);
      StepRight(g, p, m, schedule[0]);
      if schedule[0] == b && w.bid < total {
        StepCounts(g, p, m, b);
      }
      NoWaiting(g, p, m', schedule[1..], b);
    }
  }

  /** If every block gets its turns, in any order, the whole product is written. */
  lemma FairRunWritesProduct<A, B, T>(g: Grid, p: Operands<A, B, T>, m: Machine<T>, schedule: seq<nat>)
    requires g.Valid() && Start(p, m) && forall i | 0 <= i < |schedule| :: schedule[i] < |m.workers|
    requires forall b | 0 <= b < |m.workers| :: g.rows * g.columns * (p.depth + 1) <= Turns(schedule, b)
    ensures Done(g, Run(g, p, m, schedule)) && IsProduct(g, p, Run(g, p, m, schedule).c)
  {
    hide Tile, BlockNumber, Accumulated, Right, Run, IsProduct;
    StartRight(g, p, m);
    var total := g.rows * g.columns;
    forall b: nat | b < |m.workers| ensures total <= Run(g, p, m, schedule).workers[b].bid {
      EnoughTurns(b, total, p.depth + 1);
      NoWaiting(g, p, m, schedule, b);
    }
    PersistentProduct(g, p, m, schedule);
  }

  lemma EnoughTurns(b: nat, total: nat, steps: nat)
    ensures b < total ==> (total - b) * steps <= total * steps
    ensures 0 <= total * steps
  {
    Multiple(b, steps);
    Multiple(total, steps);
    assert (total - b) * steps == total * steps - b * steps;
  }
}
