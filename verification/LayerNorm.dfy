/**
 The backward kernels of layer normalisation: blocks add their contributions to shared cells
 under a spin lock per group of rows, and a second kernel adds up the groups.

 Blocks run in any interleaving of their atomic steps.  Main results: at most one block of a
 group is between acquiring and releasing the group's lock; no addition is lost, so that when
 all blocks are done every cell is the sum of its group's contributions; some block can always
 move on; and the second kernel computes the sum over all rows, in any commutative monoid.
 */
module LayerNorm {
  import opened Monoid

  // ---------------------------------------------------------------- blocks and their steps

  /** What a block does next within one tile: acquire, read both cells, write both, release. */
  datatype Phase = Acquire | LoadW | LoadB | StoreW | StoreB | Release

  datatype Block<T> = Block(tile: nat, phase: Phase, partialW: T, partialB: T)

  /** The rows' contributions to the cells of each tile, and the size of the launch. */
  datatype Launch<!T> = Launch(m: Monoid<T>, groups: nat, tiles: nat, rows: nat, w: (int, int) -> T, b: (int, int) -> T)

  datatype State<T> = State(locks: seq<int>, dw: seq<seq<T>>, db: seq<seq<T>>, blocks: seq<Block<T>>)

  predicate Sized<T>(cells: seq<seq<T>>, groups: nat, tiles: nat) {
    |cells| == groups && forall g | 0 <= g < groups :: |cells[g]| == tiles
  }

  predicate Shaped<T>(c: Launch<T>, s: State<T>) {
    && 0 < c.groups && |s.locks| == c.groups && |s.blocks| == c.rows
    && Sized(s.dw, c.groups, c.tiles) && Sized(s.db, c.groups, c.tiles)
  }

  /** The group that row `b` belongs to. */
  function Group<T>(c: Launch<T>, b: int): (g: nat)
    requires 0 < c.groups
    ensures g < c.groups
  {
    b % c.groups
  }

  function SetCell<T>(cells: seq<seq<T>>, g: nat, j: nat, x: T): seq<seq<T>>
    requires g < |cells| && j < |cells[g]|
  {
    cells[g := cells[g][j := x]]
  }

  /** The next atomic step of block `b`; a block that finds the lock taken tries again. */
  function Step<T>(c: Launch<T>, s: State<T>, b: nat): State<T>
    requires Shaped(c, s) && b < c.rows
  {
    var k, g := s.blocks[b], Group(c, b);
    if k.tile >= c.tiles then s
    else
      match k.phase
      case Acquire =>
        var seen := s.locks[g];
        var locks := if seen == 0 then s.locks[g := 1] else s.locks;
        if seen == 1 then s
        else s.(locks := locks,
                blocks := s.blocks[b := k.(phase := LoadW, partialW := c.w(b, k.tile), partialB := c.b(b, k.tile))])
      case LoadW => s.(blocks := s.blocks[b := k.(phase := LoadB, partialW := c.m.add(k.partialW, s.dw[g][k.tile]))])
      case LoadB => s.(blocks := s.blocks[b := k.(phase := StoreW, partialB := c.m.add(k.partialB, s.db[g][k.tile]))])
      case StoreW => s.(dw := SetCell(s.dw, g, k.tile, k.partialW), blocks := s.blocks[b := k.(phase := StoreB)])
      case StoreB => s.(db := SetCell(s.db, g, k.tile, k.partialB), blocks := s.blocks[b := k.(phase := Release)])
      case Release => s.(locks := s.locks[g := 0], blocks := s.blocks[b := k.(phase := Acquire, tile := k.tile + 1)])
  }

  /** Locks and cells are zero when the kernel starts. */
  predicate Start<T(==)>(c: Launch<T>, s: State<T>) {
    && Shaped(c, s)
    && (forall g | 0 <= g < c.groups :: s.locks[g] == 0)
    && (forall g, j | 0 <= g < c.groups && 0 <= j < c.tiles :: s.dw[g][j] == c.m.zero && s.db[g][j] == c.m.zero)
    && (forall b | 0 <= b < c.rows :: s.blocks[b].tile == 0 && s.blocks[b].phase == Acquire)
  }

  lemma StepShaped<T>(c: Launch<T>, s: State<T>, b: nat)
    requires Shaped(c, s) && b < c.rows
    ensures Shaped(c, Step(c, s, b))
  {
  }

  /** A run: each number says which block takes its next step. */
  function Run<T>(c: Launch<T>, s: State<T>, schedule: seq<nat>): (r: State<T>)
    requires Shaped(c, s) && forall i | 0 <= i < |schedule| :: schedule[i] < c.rows
    ensures Shaped(c, r)
    decreases |schedule|
  {
    if schedule == [] then s
    else
      StepShaped(c, s, schedule[0]);
      Run(c, Step(c, s, schedule[0]), schedule[1..])
  }

  // ---------------------------------------------------------------- the lock

  predicate Inside<T>(k: Block<T>) {
    k.phase != Acquire
  }

  /** A lock is held by the one block of its group that is inside. */
  predicate LocksRight<T>(c: Launch<T>, s: State<T>)
    requires Shaped(c, s)
  {
    HoldersRight(c, s) && OwnersRight(c, s)
  }

  predicate HasOwner<T>(c: Launch<T>, s: State<T>, g: nat)
    requires Shaped(c, s)
  {
    exists b | 0 <= b < c.rows :: Inside(s.blocks[b]) && Group(c, b) == g
  }

  /** Who is inside holds the lock, alone. */
  predicate HoldersRight<T>(c: Launch<T>, s: State<T>)
    requires Shaped(c, s)
  {
    && (forall b | 0 <= b < c.rows && Inside(s.blocks[b]) :: s.locks[Group(c, b)] == 1)
    && (forall b, b' | 0 <= b < c.rows && 0 <= b' < c.rows && Inside(s.blocks[b]) && Inside(s.blocks[b']) ::
          Group(c, b) == Group(c, b') ==> b == b')
  }

  /** Locks that are held have a holder. */
  predicate OwnersRight<T>(c: Launch<T>, s: State<T>)
    requires Shaped(c, s)
  {
    forall g | 0 <= g < c.groups :: s.locks[g] == 0 || (s.locks[g] == 1 && HasOwner(c, s, g))
  }

  lemma HoldersStep<T>(c: Launch<T>, s: State<T>, b: nat)
    requires Shaped(c, s) && b < c.rows && HoldersRight(c, s) && OwnersRight(c, s)
    ensures Shaped(c, Step(c, s, b)) && HoldersRight(c, Step(c, s, b))
  {
  }

  lemma OwnersStep<T>(c: Launch<T>, s: State<T>, b: nat)
    requires Shaped(c, s) && b < c.rows && HoldersRight(c, s) && OwnersRight(c, s)
    ensures Shaped(c, Step(c, s, b)) && OwnersRight(c, Step(c, s, b))
  {
    var s' := Step(c, s, b);
    forall g | 0 <= g < c.groups
      ensures s'.locks[g] == 0 || (s'.locks[g] == 1 && HasOwner(c, s', g))
    {
      if s'.locks[g] != 0 && !(g == Group(c, b) && Inside(s'.blocks[b])) {
        var o :| 0 <= o < c.rows && Inside(s.blocks[o]) && Group(c, o) == g;
        assert Inside(s'.blocks[o]);
      }
    }
  }

  // ---------------------------------------------------------------- the cells

  /** Has the block's contribution to tile `j` reached its cell? */
  predicate StoredW<T>(k: Block<T>, j: nat) {
    j < k.tile || (j == k.tile && (k.phase == StoreB || k.phase == Release))
  }

  predicate StoredB<T>(k: Block<T>, j: nat) {
    j < k.tile || (j == k.tile && k.phase == Release)
  }

  function ArrivedW<T>(c: Launch<T>, blocks: seq<Block<T>>, g: nat, j: nat): int -> T
    requires 0 < c.groups
  {
    b => if 0 <= b < |blocks| && Group(c, b) == g && StoredW(blocks[b], j) then c.w(b, j) else c.m.zero
  }

  function ArrivedB<T>(c: Launch<T>, blocks: seq<Block<T>>, g: nat, j: nat): int -> T
    requires 0 < c.groups
  {
    b => if 0 <= b < |blocks| && Group(c, b) == g && StoredB(blocks[b], j) then c.b(b, j) else c.m.zero
  }

  /** Every cell is the sum of what has arrived. */
  predicate CellsRight<T(==)>(c: Launch<T>, s: State<T>)
    requires Shaped(c, s)
  {
    forall g, j | 0 <= g < c.groups && 0 <= j < c.tiles ::
      s.dw[g][j] == Sum(c.m, c.rows, ArrivedW(c, s.blocks, g, j))
      && s.db[g][j] == Sum(c.m, c.rows, ArrivedB(c, s.blocks, g, j))
  }

  /** What a block inside holds is still up to date. */
  predicate PartialsRight<T(==)>(c: Launch<T>, s: State<T>)
    requires Shaped(c, s)
  {
    forall b | 0 <= b < c.rows && Inside(s.blocks[b]) :: PartialRight(c, s, b)
  }

  predicate PartialRight<T(==)>(c: Launch<T>, s: State<T>, b: nat)
    requires Shaped(c, s) && b < c.rows
  {
    var k, g := s.blocks[b], Group(c, b);
    && k.tile < c.tiles
    && (k.phase == LoadW ==> k.partialW == c.w(b, k.tile))
    && (k.phase == LoadB || k.phase == StoreW ==> k.partialW == c.m.add(c.w(b, k.tile), s.dw[g][k.tile]))
    && (k.phase == LoadW || k.phase == LoadB ==> k.partialB == c.b(b, k.tile))
    && (k.phase == StoreW || k.phase == StoreB ==> k.partialB == c.m.add(c.b(b, k.tile), s.db[g][k.tile]))
  }

  predicate Right<T(==)>(c: Launch<T>, s: State<T>)
    requires Shaped(c, s)
  {
    LocksRight(c, s) && CellsRight(c, s) && PartialsRight(c, s)
  }

  /** A step of one block in a group leaves what the others hold up to date. */
  lemma PartialsStep<T>(c: Launch<T>, s: State<T>, b: nat)
    requires Shaped(c, s) && b < c.rows && LocksRight(c, s) && PartialsRight(c, s)
    ensures Shaped(c, Step(c, s, b)) && PartialsRight(c, Step(c, s, b))
  {
    var s' := Step(c, s, b);
    forall o | 0 <= o < c.rows && Inside(s'.blocks[o])
      ensures PartialRight(c, s', o)
    {
      if o != b {
        assert PartialRight(c, s, o);
      } else if Inside(s.blocks[b]) {
        assert PartialRight(c, s, b);
      }
    }
  }

  /** What has arrived depends only on who has stored. */
  lemma SameArrivedW<T(!new)>(c: Launch<T>, blocks: seq<Block<T>>, blocks': seq<Block<T>>, g: nat, j: nat, n: nat)
    requires 0 < c.groups && |blocks| == |blocks'|
    requires forall b: nat | b < |blocks| && Group(c, b) == g :: StoredW(blocks[b], j) == StoredW(blocks'[b], j)
    ensures Sum(c.m, n, ArrivedW(c, blocks, g, j)) == Sum(c.m, n, ArrivedW(c, blocks', g, j))
  {
    SumEqual(c.m, n, ArrivedW(c, blocks, g, j), ArrivedW(c, blocks', g, j));
  }

  lemma SameArrivedB<T(!new)>(c: Launch<T>, blocks: seq<Block<T>>, blocks': seq<Block<T>>, g: nat, j: nat, n: nat)
    requires 0 < c.groups && |blocks| == |blocks'|
    requires forall b: nat | b < |blocks| && Group(c, b) == g :: StoredB(blocks[b], j) == StoredB(blocks'[b], j)
    ensures Sum(c.m, n, ArrivedB(c, blocks, g, j)) == Sum(c.m, n, ArrivedB(c, blocks', g, j))
  {
    SumEqual(c.m, n, ArrivedB(c, blocks, g, j), ArrivedB(c, blocks', g, j));
  }

  /** One block storing adds its contribution. */
  lemma OneArrivesW<T(!new)>(c: Launch<T>, blocks: seq<Block<T>>, k: Block<T>, b: nat, g: nat, j: nat)
    requires IsMonoid(c.m) && 0 < c.groups && b < |blocks| && Group(c, b) == g
    requires !StoredW(blocks[b], j) && StoredW(k, j)
    ensures Sum(c.m, |blocks|, ArrivedW(c, blocks[b := k], g, j))
         == c.m.add(c.w(b, j), Sum(c.m, |blocks|, ArrivedW(c, blocks, g, j)))
  {
    SumUpdate(c.m, |blocks|, ArrivedW(c, blocks, g, j), ArrivedW(c, blocks[b := k], g, j), b);
  }

  lemma OneArrivesB<T(!new)>(c: Launch<T>, blocks: seq<Block<T>>, k: Block<T>, b: nat, g: nat, j: nat)
    requires IsMonoid(c.m) && 0 < c.groups && b < |blocks| && Group(c, b) == g
    requires !StoredB(blocks[b], j) && StoredB(k, j)
    ensures Sum(c.m, |blocks|, ArrivedB(c, blocks[b := k], g, j))
         == c.m.add(c.b(b, j), Sum(c.m, |blocks|, ArrivedB(c, blocks, g, j)))
  {
    SumUpdate(c.m, |blocks|, ArrivedB(c, blocks, g, j), ArrivedB(c, blocks[b := k], g, j), b);
  }

  lemma NothingArrived<T(!new)>(c: Launch<T>, blocks: seq<Block<T>>, g: nat, j: nat, n: nat)
    requires IsMonoid(c.m) && 0 < c.groups
    requires forall b: nat | b < |blocks| :: !StoredW(blocks[b], j) && !StoredB(blocks[b], j)
    ensures Sum(c.m, n, ArrivedW(c, blocks, g, j)) == c.m.zero && Sum(c.m, n, ArrivedB(c, blocks, g, j)) == c.m.zero
  {
    SumZero(c.m, n, ArrivedW(c, blocks, g, j));
    SumZero(c.m, n, ArrivedB(c, blocks, g, j));
  }

  /** A step that stores nothing changes neither the cells nor what has arrived. */
  lemma CellsKept<T(!new)>(c: Launch<T>, s: State<T>, b: nat)
    requires Shaped(c, s) && b < c.rows && CellsRight(c, s)
    requires s.blocks[b].phase != StoreW && s.blocks[b].phase != StoreB
    ensures Shaped(c, Step(c, s, b)) && CellsRight(c, Step(c, s, b))
  {
    var s' := Step(c, s, b);
    forall g, j | 0 <= g < c.groups && 0 <= j < c.tiles
      ensures s'.dw[g][j] == Sum(c.m, c.rows, ArrivedW(c, s'.blocks, g, j))
      ensures s'.db[g][j] == Sum(c.m, c.rows, ArrivedB(c, s'.blocks, g, j))
    {
      SameArrivedW(c, s.blocks, s'.blocks, g, j, c.rows);
      SameArrivedB(c, s.blocks, s'.blocks, g, j, c.rows);
    }
  }

  /** Storing adds exactly the block's own contribution to its cell. */
  lemma StoreWArrives<T(!new)>(c: Launch<T>, s: State<T>, b: nat)
    requires IsMonoid(c.m) && Shaped(c, s) && b < c.rows && CellsRight(c, s) && PartialRight(c, s, b)
    requires s.blocks[b].phase == StoreW
    ensures Shaped(c, Step(c, s, b)) && CellsRight(c, Step(c, s, b))
  {
    var s' := Step(c, s, b);
    forall g, j | 0 <= g < c.groups && 0 <= j < c.tiles
      ensures s'.dw[g][j] == Sum(c.m, c.rows, ArrivedW(c, s'.blocks, g, j))
      ensures s'.db[g][j] == Sum(c.m, c.rows, ArrivedB(c, s'.blocks, g, j))
    {
      SameArrivedB(c, s.blocks, s'.blocks, g, j, c.rows);
      if g == Group(c, b) && j == s.blocks[b].tile {
        OneArrivesW(c, s.blocks, s'.blocks[b], b, g, j);
      } else {
        SameArrivedW(c, s.blocks, s'.blocks, g, j, c.rows);
      }
    }
  }

  lemma StoreBArrives<T(!new)>(c: Launch<T>, s: State<T>, b: nat)
    requires IsMonoid(c.m) && Shaped(c, s) && b < c.rows && CellsRight(c, s) && PartialRight(c, s, b)
    requires s.blocks[b].phase == StoreB
    ensures Shaped(c, Step(c, s, b)) && CellsRight(c, Step(c, s, b))
  {
    var s' := Step(c, s, b);
    forall g, j | 0 <= g < c.groups && 0 <= j < c.tiles
      ensures s'.dw[g][j] == Sum(c.m, c.rows, ArrivedW(c, s'.blocks, g, j))
      ensures s'.db[g][j] == Sum(c.m, c.rows, ArrivedB(c, s'.blocks, g, j))
    {
      SameArrivedW(c, s.blocks, s'.blocks, g, j, c.rows);
      if g == Group(c, b) && j == s.blocks[b].tile {
        OneArrivesB(c, s.blocks, s'.blocks[b], b, g, j);
      } else {
        SameArrivedB(c, s.blocks, s'.blocks, g, j, c.rows);
      }
    }
  }

  // ---------------------------------------------------------------- every run

  /** Every step of every block keeps locks, cells and partial sums right. */
  lemma StepRight<T(!new)>(c: Launch<T>, s: State<T>, b: nat)
    requires IsMonoid(c.m) && Shaped(c, s) && b < c.rows && Right(c, s)
    ensures Shaped(c, Step(c, s, b)) && Right(c, Step(c, s, b))
  {
    HoldersStep(c, s, b);
    OwnersStep(c, s, b);
    PartialsStep(c, s, b);
    if s.blocks[b].phase == StoreW {
      StoreWArrives(c, s, b);
    } else if s.blocks[b].phase == StoreB {
      StoreBArrives(c, s, b);
    } else {
      CellsKept(c, s, b);
    }
  }

  lemma StartRight<T(!new)>(c: Launch<T>, s: State<T>)
    requires IsMonoid(c.m) && Start(c, s)
    ensures Right(c, s)
  {
    forall g, j | 0 <= g < c.groups && 0 <= j < c.tiles
      ensures s.dw[g][j] == Sum(c.m, c.rows, ArrivedW(c, s.blocks, g, j))
      ensures s.db[g][j] == Sum(c.m, c.rows, ArrivedB(c, s.blocks, g, j))
    {
      NothingArrived(c, s.blocks, g, j, c.rows);
    }
  }

  lemma {:induction false} RunRight<T(!new)>(c: Launch<T>, s: State<T>, schedule: seq<nat>)
    requires IsMonoid(c.m) && Shaped(c, s) && Right(c, s)
    requires forall i | 0 <= i < |schedule| :: schedule[i] < c.rows
    ensures Right(c, Run(c, s, schedule))
    decreases |schedule|
  {
    if schedule != [] {
      StepRight(c, s, schedule[0]);
      RunRight(c, Step(c, s, schedule[0]), schedule[1..]);
    }
  }

  lemma {:induction false} RunLocks<T>(c: Launch<T>, s: State<T>, schedule: seq<nat>)
    requires Shaped(c, s) && LocksRight(c, s) && forall i | 0 <= i < |schedule| :: schedule[i] < c.rows
    ensures LocksRight(c, Run(c, s, schedule))
    decreases |schedule|
  {
    if schedule != [] {
      HoldersStep(c, s, schedule[0]);
      OwnersStep(c, s, schedule[0]);
      RunLocks(c, Step(c, s, schedule[0]), schedule[1..]);
    }
  }

  /** In every interleaving, two blocks of one group are never inside at the same time, whatever they add. */
  lemma MutualExclusion<T>(c: Launch<T>, s: State<T>, schedule: seq<nat>, a: nat, b: nat)
    requires Start(c, s) && forall i | 0 <= i < |schedule| :: schedule[i] < c.rows
    requires a < c.rows && b < c.rows && a != b && Group(c, a) == Group(c, b)
    ensures !(Inside(Run(c, s, schedule).blocks[a]) && Inside(Run(c, s, schedule).blocks[b]))
  {
    RunLocks(c, s, schedule);
  }

  predicate Done<T>(c: Launch<T>, s: State<T>) {
    forall b | 0 <= b < |s.blocks| :: c.tiles <= s.blocks[b].tile
  }

  /** All rows' contributions to tile `j`. */
  function AtTile<T>(x: (int, int) -> T, j: nat): int -> T {
    b => x(b, j)
  }

  /** The contributions of one group's rows, zero for other rows. */
  function Members<T>(c: Launch<T>, x: int -> T, g: nat): int -> T
    requires 0 < c.groups
  {
    b => if Group(c, b) == g then x(b) else c.m.zero
  }

  /** When all blocks are done, in whatever order, each cell holds the sum of its group: no update is lost. */
  lemma NoLostUpdate<T(!new)>(c: Launch<T>, s: State<T>, schedule: seq<nat>, g: nat, j: nat)
    requires IsMonoid(c.m) && Start(c, s) && forall i | 0 <= i < |schedule| :: schedule[i] < c.rows
    requires Done(c, Run(c, s, schedule)) && g < c.groups && j < c.tiles
    ensures Run(c, s, schedule).dw[g][j] == Sum(c.m, c.rows, Members(c, AtTile(c.w, j), g))
    ensures Run(c, s, schedule).db[g][j] == Sum(c.m, c.rows, Members(c, AtTile(c.b, j), g))
  {
    StartRight(c, s);
    RunRight(c, s, schedule);
    DoneCells(c, Run(c, s, schedule), g, j);
  }

  lemma DoneCells<T(!new)>(c: Launch<T>, r: State<T>, g: nat, j: nat)
    requires Shaped(c, r) && CellsRight(c, r) && Done(c, r) && g < c.groups && j < c.tiles
    ensures r.dw[g][j] == Sum(c.m, c.rows, Members(c, AtTile(c.w, j), g))
    ensures r.db[g][j] == Sum(c.m, c.rows, Members(c, AtTile(c.b, j), g))
  {
    forall b: nat | b < c.rows
      ensures ArrivedW(c, r.blocks, g, j)(b) == Members(c, AtTile(c.w, j), g)(b)
      ensures ArrivedB(c, r.blocks, g, j)(b) == Members(c, AtTile(c.b, j), g)(b)
    {
      assert StoredW(r.blocks[b], j) && StoredB(r.blocks[b], j);
    }
    SumEqual(c.m, c.rows, ArrivedW(c, r.blocks, g, j), Members(c, AtTile(c.w, j), g));
    SumEqual(c.m, c.rows, ArrivedB(c, r.blocks, g, j), Members(c, AtTile(c.b, j), g));
  }

  /** As long as a block is not done, some block's next step changes something. */
  lemma SomeBlockMoves<T(!new)>(c: Launch<T>, s: State<T>)
    requires Shaped(c, s) && Right(c, s) && !Done(c, s)
    ensures exists b | 0 <= b < c.rows :: Step(c, s, b) != s
  {
    var b :| 0 <= b < c.rows && s.blocks[b].tile < c.tiles;
    if s.blocks[b].phase != Acquire || s.locks[Group(c, b)] == 0 {
      assert Step(c, s, b).blocks[b] != s.blocks[b];
    } else {
      var o :| 0 <= o < c.rows && Inside(s.blocks[o]) && Group(c, o) == Group(c, b);
      assert PartialRight(c, s, o);
      assert Step(c, s, o).blocks[o] != s.blocks[o];
    }
  }

  // ---------------------------------------------------------------- progress

  function Rank(p: Phase): nat {
    match p
    case Acquire => 0
    case LoadW => 1
    case LoadB => 2
    case StoreW => 3
    case StoreB => 4
    case Release => 5
  }

  /** How many steps a block still has to take. */
  function StepsLeft<T>(k: Block<T>, tiles: nat): nat {
    if k.tile >= tiles then 0 else 6 * (tiles - k.tile) - Rank(k.phase)
  }

  function AllLeft<T>(blocks: seq<Block<T>>, tiles: nat): nat {
    if blocks == [] then 0 else StepsLeft(blocks[0], tiles) + AllLeft(blocks[1..], tiles)
  }

  lemma {:induction false} LeftUpdate<T>(blocks: seq<Block<T>>, tiles: nat, b: nat, k: Block<T>)
    requires b < |blocks|
    ensures AllLeft(blocks[b := k], tiles) + StepsLeft(blocks[b], tiles) == AllLeft(blocks, tiles) + StepsLeft(k, tiles)
  {
    if b == 0 {
      assert blocks[0 := k][1..] == blocks[1..];
    } else {
      assert blocks[b := k][1..] == blocks[1..][b - 1 := k];
      LeftUpdate(blocks[1..], tiles, b - 1, k);
    }
  }

  /** Every step that changes something brings the end one step nearer. */
  lemma StepCounts<T>(c: Launch<T>, s: State<T>, b: nat)
    requires Shaped(c, s) && b < c.rows && Step(c, s, b) != s
    ensures AllLeft(Step(c, s, b).blocks, c.tiles) == AllLeft(s.blocks, c.tiles) - 1
  {
    LeftUpdate(s.blocks, c.tiles, b, Step(c, s, b).blocks[b]);
    assert Step(c, s, b).blocks == s.blocks[b := Step(c, s, b).blocks[b]];
  }

  /** From every state a run can reach, some continuation finishes all blocks. */
  lemma {:induction false} CanFinish<T(!new)>(c: Launch<T>, s: State<T>) returns (schedule: seq<nat>)
    requires IsMonoid(c.m) && Shaped(c, s) && Right(c, s)
    ensures |schedule| <= AllLeft(s.blocks, c.tiles)
    ensures forall i | 0 <= i < |schedule| :: schedule[i] < c.rows
    ensures Done(c, Run(c, s, schedule))
    decreases AllLeft(s.blocks, c.tiles)
  {
    if Done(c, s) {
      schedule := [];
    } else {
      var b, next := NextMove(c, s);
      var others := CanFinish(c, next);
      schedule := [b] + others;
      RunCons(c, s, b, others, schedule);
    }
  }

  lemma NextMove<T(!new)>(c: Launch<T>, s: State<T>) returns (b: nat, next: State<T>)
    requires IsMonoid(c.m) && Shaped(c, s) && Right(c, s) && !Done(c, s)
    ensures b < c.rows && next == Step(c, s, b) && Shaped(c, next) && Right(c, next)
    ensures AllLeft(next.blocks, c.tiles) == AllLeft(s.blocks, c.tiles) - 1
  {
    SomeBlockMoves(c, s);
    b :| 0 <= b < c.rows && Step(c, s, b) != s;
    next := Step(c, s, b);
    StepCounts(c, s, b);
    StepRight(c, s, b);
  }

  lemma RunCons<T>(c: Launch<T>, s: State<T>, b: nat, others: seq<nat>, schedule: seq<nat>)
    requires Shaped(c, s) && b < c.rows && schedule == [b] + others
    requires forall i | 0 <= i < |others| :: others[i] < c.rows
    ensures Shaped(c, Step(c, s, b)) && forall i | 0 <= i < |schedule| :: schedule[i] < c.rows
    ensures Run(c, s, schedule) == Run(c, Step(c, s, b), others)
  {
    StepShaped(c, s, b);
    assert schedule[1..] == others;
  }

  /** In particular, every run of the kernel can be continued to its end. */
  lemma EveryRunCanFinish<T(!new)>(c: Launch<T>, s: State<T>, schedule: seq<nat>) returns (rest: seq<nat>)
    requires IsMonoid(c.m) && Start(c, s) && forall i | 0 <= i < |schedule| :: schedule[i] < c.rows
    ensures forall i | 0 <= i < |rest| :: rest[i] < c.rows
    ensures Done(c, Run(c, Run(c, s, schedule), rest))
  {
    StartRight(c, s);
    RunRight(c, s, schedule);
    rest := CanFinish(c, Run(c, s, schedule));
  }

  // ---------------------------------------------------------------- the final reduction

  /** The cells of one column, continued by zeros. */
  function Padded<T>(m: Monoid<T>, column: seq<T>): int -> T {
    i => if 0 <= i < |column| then column[i] else m.zero
  }

  function CeilDiv(n: nat, d: nat): (q: nat)
    requires 0 < d
    ensures n <= q * d
  {
    CeilCovers(n, d);
    (n + d - 1) / d
  }

  lemma CeilCovers(n: nat, d: nat)
    requires 0 < d
    ensures n <= ((n + d - 1) / d) * d && 0 <= (n + d - 1) / d
  {
    var q, r := (n + d - 1) / d, (n + d - 1) % d;
    assert n + d - 1 == q * d + r;
  }

  /** Row `r` of the first `tiles` tiles, added up. */
  function TileRow<T>(m: Monoid<T>, f: int -> T, size: nat, tiles: nat, r: int): T {
    Sum(m, tiles, i => f(i * size + r))
  }

  lemma TilesTogether<T(!new)>(m: Monoid<T>, f: int -> T, size: nat, tiles: nat, total: nat)
    requires IsMonoid(m) && total == tiles * size
    ensures Sum(m, size, r => TileRow(m, f, size, tiles, r)) == Sum(m, total, f)
  {
    var entry: (int, int) -> T := (i, r) => f(i * size + r);
    SumPairs(m, tiles, size, total, f);
    forall i ensures Sum(m, size, r => f(i * size + r)) == Sum(m, size, r => entry(i, r)) {
      SumEqual(m, size, r => f(i * size + r), r => entry(i, r));
    }
    SumEqual(m, tiles, i => Sum(m, size, r => f(i * size + r)), i => Sum(m, size, r => entry(i, r)));
    SumSwap(m, tiles, size, entry);
    forall r ensures Sum(m, tiles, i => entry(i, r)) == TileRow(m, f, size, tiles, r) {
      SumEqual(m, tiles, i => entry(i, r), i => f(i * size + r));
    }
    SumEqual(m, size, r => Sum(m, tiles, i => entry(i, r)), r => TileRow(m, f, size, tiles, r));
  }

  /** The second kernel: tiles of rows are added up, then the rows of the tile that results. */
  method FinalReduction<T(!new)>(m: Monoid<T>, column: seq<T>, tileM: nat) returns (total: T)
    requires IsMonoid(m) && 0 < tileM
    ensures total == Sum(m, |column|, Padded(m, column))
  {
    var tiles := CeilDiv(|column|, tileM);
    ghost var f := Padded(m, column);
    var acc := seq(tileM, _ => m.zero);
    for i := 0 to tiles
      invariant |acc| == tileM
      invariant forall r | 0 <= r < tileM :: acc[r] == TileRow(m, f, tileM, i, r)
    {
      acc := seq(tileM, r requires 0 <= r < tileM => m.add(acc[r], Padded(m, column)(i * tileM + r)));
    }
    total := m.zero;
    for r := 0 to tileM
      invariant total == Sum(m, r, k => TileRow(m, f, tileM, tiles, k))
    {
      total := m.add(total, acc[r]);
    }
    TilesTogether(m, f, tileM, tiles, tiles * tileM);
    SumPrefix(m, |column|, tiles * tileM, f);
  }

  // ---------------------------------------------------------------- both kernels together

  function Column<T>(cells: seq<seq<T>>, j: nat): (column: seq<T>)
    requires forall g | 0 <= g < |cells| :: j < |cells[g]|
    ensures |column| == |cells|
  {
    seq(|cells|, g requires 0 <= g < |cells| => cells[g][j])
  }

  /** Summing the groups' sums is summing over all rows. */
  lemma GroupsTogether<T(!new)>(c: Launch<T>, x: int -> T)
    requires IsMonoid(c.m) && 0 < c.groups
    ensures Sum(c.m, c.groups, g => Sum(c.m, c.rows, b => if Group(c, b) == g then x(b) else c.m.zero))
         == Sum(c.m, c.rows, x)
  {
    var entry: (int, int) -> T := (g, b) => if Group(c, b) == g then x(b) else c.m.zero;
    var left: int -> T := g => Sum(c.m, c.rows, b => if Group(c, b) == g then x(b) else c.m.zero);
    var right: int -> T := g => Sum(c.m, c.rows, b => entry(g, b));
    forall g ensures left(g) == right(g) {
      SumEqual(c.m, c.rows, b => if Group(c, b) == g then x(b) else c.m.zero, b => entry(g, b));
    }
    SumEqual(c.m, c.groups, left, right);
    SumSwap(c.m, c.groups, c.rows, entry);
    forall b ensures Sum(c.m, c.groups, g => entry(g, b)) == x(b) {
      SumSingle(c.m, c.groups, Group(c, b), x(b));
      SumEqual(c.m, c.groups, g => entry(g, b), g => if g == Group(c, b) then x(b) else c.m.zero);
    }
    SumEqual(c.m, c.rows, b => Sum(c.m, c.groups, g => entry(g, b)), x);
  }

  /** After any run of the first kernel, the second one yields the sum over all rows. */
  lemma FinalSums<T(!new)>(c: Launch<T>, s: State<T>, schedule: seq<nat>, j: nat)
    requires IsMonoid(c.m) && Start(c, s) && forall i | 0 <= i < |schedule| :: schedule[i] < c.rows
    requires Done(c, Run(c, s, schedule)) && j < c.tiles
    ensures var dw := Column(Run(c, s, schedule).dw, j);
      Sum(c.m, |dw|, Padded(c.m, dw)) == Sum(c.m, c.rows, AtTile(c.w, j))
    ensures var db := Column(Run(c, s, schedule).db, j);
      Sum(c.m, |db|, Padded(c.m, db)) == Sum(c.m, c.rows, AtTile(c.b, j))
  {
    StartRight(c, s);
    RunRight(c, s, schedule);
    FinalCells(c, Run(c, s, schedule), j);
  }

  lemma FinalCells<T(!new)>(c: Launch<T>, r: State<T>, j: nat)
    requires IsMonoid(c.m) && Shaped(c, r) && CellsRight(c, r) && Done(c, r) && j < c.tiles
    ensures Sum(c.m, c.groups, Padded(c.m, Column(r.dw, j))) == Sum(c.m, c.rows, AtTile(c.w, j))
    ensures Sum(c.m, c.groups, Padded(c.m, Column(r.db, j))) == Sum(c.m, c.rows, AtTile(c.b, j))
  {
    forall g: nat | g < c.groups
      ensures r.dw[g][j] == Sum(c.m, c.rows, Members(c, AtTile(c.w, j), g))
      ensures r.db[g][j] == Sum(c.m, c.rows, Members(c, AtTile(c.b, j), g))
    {
      DoneCells(c, r, g, j);
    }
    ColumnTotal(c, r.dw, j, AtTile(c.w, j));
    ColumnTotal(c, r.db, j, AtTile(c.b, j));
  }

  lemma ColumnTotal<T(!new)>(c: Launch<T>, cells: seq<seq<T>>, j: nat, x: int -> T)
    requires IsMonoid(c.m) && 0 < c.groups && Sized(cells, c.groups, c.tiles) && j < c.tiles
    requires forall g: nat | g < c.groups :: cells[g][j] == Sum(c.m, c.rows, Members(c, x, g))
    ensures Sum(c.m, c.groups, Padded(c.m, Column(cells, j))) == Sum(c.m, c.rows, x)
  {
    var sums: int -> T := g => Sum(c.m, c.rows, b => if Group(c, b) == g then x(b) else c.m.zero);
    forall g: nat | g < c.groups ensures Padded(c.m, Column(cells, j))(g) == sums(g) {
      SumEqual(c.m, c.rows, Members(c, x, g), b => if Group(c, b) == g then x(b) else c.m.zero);
    }
    SumEqual(c.m, c.groups, Padded(c.m, Column(cells, j)), sums);
    GroupsTogether(c, x);
  }
}
