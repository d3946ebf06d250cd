/**
 Aligning routed tokens: token replicas are sorted by expert and padded so that every expert
 fills whole tiles.

 Main results: every token replica appears in exactly one slot and all other slots hold the
 sentinel; every replica lies in a block that its expert owns; block owners never decrease;
 and no expert wastes a whole tile.  Rounding up to a power of two is right exactly up to the
 width it shifts over.
 */
module MoE {
  import opened Bits

  // ---------------------------------------------------------------- sorting by expert

  /** The indices below `n` that go to expert `e`, in order. */
  function Positions(ids: seq<int>, e: int, n: nat): seq<nat>
    requires n <= |ids|
  {
    if n == 0 then []
    else Positions(ids, e, n - 1) + (if ids[n - 1] == e then [n - 1] else [])
  }

  /** All indices that go to experts below `e`, by expert. */
  function Sorted(ids: seq<int>, e: nat): seq<nat> {
    if e == 0 then [] else Sorted(ids, e - 1) + Positions(ids, e - 1, |ids|)
  }

  predicate InRange(ids: seq<int>, experts: nat) {
    forall i | 0 <= i < |ids| :: 0 <= ids[i] < experts
  }

  /** Before: a smaller expert, or the same expert and a smaller index. */
  predicate Before(ids: seq<int>, a: nat, b: nat)
    requires a < |ids| && b < |ids|
  {
    ids[a] < ids[b] || (ids[a] == ids[b] && a < b)
  }

  /** A stable sort of the indices by expert. */
  ghost predicate IsStableArgsort(ids: seq<int>, s: seq<nat>) {
    && (forall i | 0 <= i < |s| :: s[i] < |ids|)
    && (forall i, j | 0 <= i < j < |s| :: Before(ids, s[i], s[j]))
    && (forall t: nat | t < |ids| :: t in s)
  }

  lemma {:induction false} PositionsOrdered(ids: seq<int>, e: int, n: nat)
    requires n <= |ids|
    ensures forall i | 0 <= i < |Positions(ids, e, n)| ::
      Positions(ids, e, n)[i] < n && ids[Positions(ids, e, n)[i]] == e
    ensures forall i, j | 0 <= i < j < |Positions(ids, e, n)| :: Positions(ids, e, n)[i] < Positions(ids, e, n)[j]
  {
    if n != 0 {
      PositionsOrdered(ids, e, n - 1);
    }
  }

  lemma {:induction false} SortedBelow(ids: seq<int>, e: nat)
    ensures forall i | 0 <= i < |Sorted(ids, e)| :: Sorted(ids, e)[i] < |ids| && ids[Sorted(ids, e)[i]] < e
  {
    if e != 0 {
      SortedBelow(ids, e - 1);
      PositionsOrdered(ids, e - 1, |ids|);
    }
  }

  lemma {:induction false} SortedOrdered(ids: seq<int>, e: nat)
    ensures forall i | 0 <= i < |Sorted(ids, e)| :: Sorted(ids, e)[i] < |ids|
    ensures forall i, j | 0 <= i < j < |Sorted(ids, e)| :: Before(ids, Sorted(ids, e)[i], Sorted(ids, e)[j])
  {
    SortedBelow(ids, e);
    if e != 0 {
      SortedOrdered(ids, e - 1);
      SortedBelow(ids, e - 1);
      PositionsOrdered(ids, e - 1, |ids|);
      OrderedJoin(ids, Sorted(ids, e - 1), Positions(ids, e - 1, |ids|), e - 1);
    }
  }

  lemma OrderedJoin(ids: seq<int>, a: seq<nat>, b: seq<nat>, e: int)
    requires forall i | 0 <= i < |a| :: a[i] < |ids| && ids[a[i]] < e
    requires forall i | 0 <= i < |b| :: b[i] < |ids| && ids[b[i]] == e
    requires forall i, j | 0 <= i < j < |a| :: Before(ids, a[i], a[j])
    requires forall i, j | 0 <= i < j < |b| :: b[i] < b[j]
    ensures forall i, j | 0 <= i < j < |a + b| :: Before(ids, (a + b)[i], (a + b)[j])
  {
  }

  /** Where a token stands among the positions of its expert. */
  lemma {:induction false} PositionOf(ids: seq<int>, e: int, n: nat, t: nat) returns (k: nat)
    requires t < n <= |ids| && ids[t] == e
    ensures k < |Positions(ids, e, n)| && Positions(ids, e, n)[k] == t
  {
    if t == n - 1 {
      k := |Positions(ids, e, n - 1)|;
    } else {
      k := PositionOf(ids, e, n - 1, t);
    }
  }

  lemma {:induction false} SortedHas(ids: seq<int>, e: nat, t: nat) returns (k: nat)
    requires t < |ids| && 0 <= ids[t] < e
    ensures k < |Sorted(ids, e)| && Sorted(ids, e)[k] == t
  {
    var a, b := Sorted(ids, e - 1), Positions(ids, e - 1, |ids|);
    if ids[t] == e - 1 {
      var i := PositionOf(ids, e - 1, |ids|, t);
      k := |a| + i;
      JoinRight(a, b, i, t);
    } else {
      k := SortedHas(ids, e - 1, t);
      JoinLeft(a, b, k, t);
    }
  }

  lemma JoinRight<T>(a: seq<T>, b: seq<T>, i: nat, x: T)
    requires i < |b| && b[i] == x
    ensures |a| + i < |a + b| && (a + b)[|a| + i] == x
  {
  }

  lemma JoinLeft<T>(a: seq<T>, b: seq<T>, i: nat, x: T)
    requires i < |a| && a[i] == x
    ensures i < |a + b| && (a + b)[i] == x
  {
  }

  lemma SortedComplete(ids: seq<int>, e: nat)
    ensures forall t: nat | t < |ids| && 0 <= ids[t] < e :: t in Sorted(ids, e)
  {
    forall t: nat | t < |ids| && 0 <= ids[t] < e ensures t in Sorted(ids, e) {
      var k := SortedHas(ids, e, t);
    }
  }

  lemma SortedIsStable(ids: seq<int>, experts: nat)
    requires InRange(ids, experts)
    ensures IsStableArgsort(ids, Sorted(ids, experts))
  {
    SortedOrdered(ids, experts);
    SortedComplete(ids, experts);
  }

  /** There is only one stable sort. */
  lemma {:induction false} SortedSame(ids: seq<int>, a: seq<nat>, b: seq<nat>)
    requires forall i | 0 <= i < |a| :: a[i] < |ids|
    requires forall i | 0 <= i < |b| :: b[i] < |ids|
    requires forall i, j | 0 <= i < j < |a| :: Before(ids, a[i], a[j])
    requires forall i, j | 0 <= i < j < |b| :: Before(ids, b[i], b[j])
    requires forall t: nat :: t in a <==> t in b
    ensures a == b
  {
    assert b != [] ==> b[0] in b;
    if a != [] {
      assert a[0] in a && a[0] in b;
      assert b[0] in b && b[0] in a;
      assert a[0] == b[0];
      forall t: nat ensures t in a[1..] <==> t in b[1..] {
        if t in a[1..] {
          assert t in a && t != a[0];
        }
        if t in b[1..] {
          assert t in b && t != b[0];
        }
      }
      SortedSame(ids, a[1..], b[1..]);
      assert a == [a[0]] + a[1..] && b == [b[0]] + b[1..];
    }
  }

  lemma StableIsSorted(ids: seq<int>, experts: nat, s: seq<nat>)
    requires InRange(ids, experts) && IsStableArgsort(ids, s)
    ensures s == Sorted(ids, experts)
  {
    SortedOrdered(ids, experts);
    SortedComplete(ids, experts);
    forall t: nat ensures t in s <==> t in Sorted(ids, experts) {
    }
    SortedSame(ids, s, Sorted(ids, experts));
  }

  // ---------------------------------------------------------------- the aligned layout

  function Count(ids: seq<int>, e: int): nat {
    |Positions(ids, e, |ids|)|
  }

  /** How many tiles hold `count` tokens: as long as some are left, one more. */
  function TilesFor(count: nat, tileM: nat): nat
    requires 0 < tileM
  {
    if count == 0 then 0 else 1 + TilesFor(if count <= tileM then 0 else count - tileM, tileM)
  }

  /** How many slots of the last tile are left over. */
  function LeftOver(count: nat, tileM: nat): (n: nat)
    requires 0 < tileM
    ensures n < tileM
  {
    if count == 0 then 0 else if count <= tileM then tileM - count else LeftOver(count - tileM, tileM)
  }

  lemma {:induction false} TilesHold(count: nat, tileM: nat)
    requires 0 < tileM
    ensures TilesFor(count, tileM) * tileM == count + LeftOver(count, tileM)
  {
    if count != 0 {
      var rest := if count <= tileM then 0 else count - tileM;
      TilesHold(rest, tileM);
      Together(1, TilesFor(rest, tileM), tileM);
    }
  }

  /** The program rounds up by a division. */
  lemma RoundedUp(count: nat, tileM: nat)
    requires 0 < tileM
    ensures (count - 1 + tileM) / tileM == TilesFor(count, tileM)
  {
    TilesHold(count, tileM);
    ModUnique(count - 1 + tileM, tileM, TilesFor(count, tileM), tileM - 1 - LeftOver(count, tileM));
  }

  /** How many tiles expert `e` needs. */
  function Blocks(ids: seq<int>, tileM: nat, e: int): nat
    requires 0 < tileM
  {
    TilesFor(Count(ids, e), tileM)
  }

  /** How many slots of its last tile the expert does not use. */
  function Waste(ids: seq<int>, tileM: nat, e: int): (n: nat)
    requires 0 < tileM
    ensures n < tileM
  {
    LeftOver(Count(ids, e), tileM)
  }

  function TotalBlocks(ids: seq<int>, tileM: nat, e: nat): nat
    requires 0 < tileM
  {
    if e == 0 then 0 else TotalBlocks(ids, tileM, e - 1) + Blocks(ids, tileM, e - 1)
  }

  function Repeat(x: int, n: nat): (s: seq<int>)
    ensures |s| == n && forall i | 0 <= i < n :: s[i] == x
  {
    seq(n, _ => x)
  }

  /** The slots of one expert: its tokens, then the sentinel. */
  function Slots(ids: seq<int>, tileM: nat, e: int): (s: seq<int>)
    requires 0 < tileM
    ensures |s| == Count(ids, e) + Waste(ids, tileM, e)
  {
    Positions(ids, e, |ids|) + Repeat(|ids|, Waste(ids, tileM, e))
  }

  lemma SlotsLength(ids: seq<int>, tileM: nat, e: int)
    requires 0 < tileM
    ensures |Slots(ids, tileM, e)| == Blocks(ids, tileM, e) * tileM
  {
    TilesHold(Count(ids, e), tileM);
  }

  function Layout(ids: seq<int>, tileM: nat, e: nat): seq<int>
    requires 0 < tileM
  {
    if e == 0 then [] else Layout(ids, tileM, e - 1) + Slots(ids, tileM, e - 1)
  }

  function Owners(ids: seq<int>, tileM: nat, e: nat): (o: seq<int>)
    requires 0 < tileM
    ensures |o| == TotalBlocks(ids, tileM, e)
  {
    if e == 0 then [] else Owners(ids, tileM, e - 1) + Repeat(e - 1, Blocks(ids, tileM, e - 1))
  }

  lemma {:induction false} LayoutLength(ids: seq<int>, tileM: nat, e: nat)
    requires 0 < tileM
    ensures |Layout(ids, tileM, e)| == TotalBlocks(ids, tileM, e) * tileM
  {
    if e != 0 {
      LayoutLength(ids, tileM, e - 1);
      SlotsLength(ids, tileM, e - 1);
      Together(TotalBlocks(ids, tileM, e - 1), Blocks(ids, tileM, e - 1), tileM);
    }
  }

  lemma Together(a: int, b: int, n: int)
    ensures (a + b) * n == a * n + b * n
  {
  }

  /** Every token of experts below `e` has a slot. */
  lemma {:induction false} LayoutHas(ids: seq<int>, tileM: nat, e: nat, t: nat) returns (s: nat)
    requires 0 < tileM && t < |ids| && 0 <= ids[t] < e
    ensures s < |Layout(ids, tileM, e)| && Layout(ids, tileM, e)[s] == t
  {
    var a, b := Layout(ids, tileM, e - 1), Slots(ids, tileM, e - 1);
    if ids[t] == e - 1 {
      var k := PositionOf(ids, e - 1, |ids|, t);
      JoinLeft(Positions(ids, e - 1, |ids|), Repeat(|ids|, Waste(ids, tileM, e - 1)), k, t);
      s := |a| + k;
      JoinRight(a, b, k, t);
    } else {
      s := LayoutHas(ids, tileM, e - 1, t);
      JoinLeft(a, b, s, t);
    }
  }

  predicate IsTokenBelow(ids: seq<int>, t: int, e: int) {
    t == |ids| || (0 <= t < |ids| && ids[t] < e)
  }

  /** A slot holds the sentinel or a token of its expert. */
  lemma {:induction false} LayoutRange(ids: seq<int>, tileM: nat, e: nat)
    requires 0 < tileM
    ensures forall s | 0 <= s < |Layout(ids, tileM, e)| :: IsTokenBelow(ids, Layout(ids, tileM, e)[s], e)
  {
    if e != 0 {
      LayoutRange(ids, tileM, e - 1);
      PositionsOrdered(ids, e - 1, |ids|);
      forall s | 0 <= s < |Layout(ids, tileM, e)|
        ensures IsTokenBelow(ids, Layout(ids, tileM, e)[s], e)
      {
        var n := |Layout(ids, tileM, e - 1)|;
        if s < n {
          assert IsTokenBelow(ids, Layout(ids, tileM, e - 1)[s], e - 1);
        } else {
          assert Layout(ids, tileM, e)[s] == Slots(ids, tileM, e - 1)[s - n];
        }
      }
    }
  }

  predicate SentinelOnly(ids: seq<int>, slots: seq<int>) {
    forall s, s' | 0 <= s < s' < |slots| :: slots[s] == slots[s'] ==> slots[s] == |ids|
  }

  /** No two slots share a token. */
  lemma {:induction false} LayoutDistinct(ids: seq<int>, tileM: nat, e: nat)
    requires 0 < tileM
    ensures SentinelOnly(ids, Layout(ids, tileM, e))
  {
    if e != 0 {
      LayoutDistinct(ids, tileM, e - 1);
      LayoutRange(ids, tileM, e - 1);
      PositionsOrdered(ids, e - 1, |ids|);
      DistinctJoin(ids, Layout(ids, tileM, e - 1), Positions(ids, e - 1, |ids|), Waste(ids, tileM, e - 1), e - 1);
    }
  }

  lemma DistinctJoin(ids: seq<int>, before: seq<int>, p: seq<nat>, waste: nat, e: int)
    requires SentinelOnly(ids, before) && forall s | 0 <= s < |before| :: IsTokenBelow(ids, before[s], e)
    requires forall i | 0 <= i < |p| :: p[i] < |ids| && ids[p[i]] == e
    requires forall i, j | 0 <= i < j < |p| :: p[i] < p[j]
    ensures SentinelOnly(ids, before + (p + Repeat(|ids|, waste)))
  {
  }

  /** The owner of the block that a real slot lies in is the token's expert. */
  lemma {:induction false} SlotOwner(ids: seq<int>, tileM: nat, e: nat, s: nat, block: int)
    requires 0 < tileM && s < |Layout(ids, tileM, e)| && block == s / tileM
    ensures 0 <= block < |Owners(ids, tileM, e)|
    ensures 0 <= Owners(ids, tileM, e)[block] < e
    ensures var t := Layout(ids, tileM, e)[s]; 0 <= t < |ids| ==> ids[t] == Owners(ids, tileM, e)[block]
  {
    var before, slots := Layout(ids, tileM, e - 1), Slots(ids, tileM, e - 1);
    if s < |before| {
      SlotOwner(ids, tileM, e - 1, s, block);
      JoinLeft(before, slots, s, before[s]);
    } else {
      LastOwner(ids, tileM, e - 1, s, |before|, block);
      PositionsOrdered(ids, e - 1, |ids|);
      JoinRight(before, slots, s - |before|, slots[s - |before|]);
    }
  }

  lemma LastOwner(ids: seq<int>, tileM: nat, e: nat, s: nat, n: nat, block: int)
    requires 0 < tileM && n == |Layout(ids, tileM, e)| && n <= s < n + |Slots(ids, tileM, e)| && block == s / tileM
    ensures 0 <= block < |Owners(ids, tileM, e + 1)| && Owners(ids, tileM, e + 1)[block] == e
  {
    var a, b := TotalBlocks(ids, tileM, e), Blocks(ids, tileM, e);
    LayoutLength(ids, tileM, e);
    SlotsLength(ids, tileM, e);
    Together(a, b, tileM);
    BlockOf(s, a, b, tileM);
  }

  lemma BlockOf(s: nat, blocks: nat, more: nat, tileM: nat)
    requires 0 < tileM && blocks * tileM <= s < (blocks + more) * tileM
    ensures blocks <= s / tileM < blocks + more
  {
    assert s == (s / tileM) * tileM + s % tileM;
    if s / tileM < blocks {
      assert (s / tileM + 1) * tileM <= blocks * tileM by {
        Ordered(s / tileM + 1, blocks, tileM);
      }
    } else if blocks + more <= s / tileM {
      Ordered(blocks + more, s / tileM, tileM);
    }
  }

  lemma Ordered(a: int, b: int, n: nat)
    requires a <= b
    ensures a * n <= b * n
  {
    assert b * n == a * n + (b - a) * n;
  }

  lemma {:induction false} OwnersOrdered(ids: seq<int>, tileM: nat, e: nat)
    requires 0 < tileM
    ensures forall b | 0 <= b < |Owners(ids, tileM, e)| :: 0 <= Owners(ids, tileM, e)[b] < e
    ensures forall b, b' | 0 <= b <= b' < |Owners(ids, tileM, e)| ::
      Owners(ids, tileM, e)[b] <= Owners(ids, tileM, e)[b']
  {
    hide TotalBlocks, Blocks, Layout;
    if e != 0 {
      OwnersOrdered(ids, tileM, e - 1);
    }
  }

  // ---------------------------------------------------------------- the program

  /** How often each expert was chosen. */
  method BinCount(ids: seq<int>, experts: nat) returns (counts: seq<nat>)
    requires InRange(ids, experts)
    ensures |counts| == experts && forall e | 0 <= e < experts :: counts[e] == Count(ids, e)
  {
    counts := seq(experts, _ => 0);
    for i := 0 to |ids|
      invariant |counts| == experts && forall e | 0 <= e < experts :: counts[e] == |Positions(ids, e, i)|
    {
      counts := counts[ids[i] := counts[ids[i]] + 1];
    }
  }

  /** Assignment to a slice. */
  method AssignSlice(a: array<int>, start: nat, values: seq<int>)
    requires start + |values| <= a.Length
    modifies a
    ensures a[..] == old(a[..start]) + values + old(a[start + |values|..])
  {
    forall k | 0 <= k < |values| {
      a[start + k] := values[k];
    }
  }

  /** Filling the next slots, of which not all need be used. */
  lemma Filled(before: seq<int>, done: seq<int>, values: seq<int>, x: int, slots: nat, free: nat, after: seq<int>)
    requires |values| <= slots <= free && before == done + Repeat(x, free)
    requires after == before[..|done|] + values + before[|done| + |values|..]
    ensures after == (done + (values + Repeat(x, slots - |values|))) + Repeat(x, free - slots)
  {
  }

  lemma {:induction false} BlocksGrow(ids: seq<int>, tileM: nat, e: nat, experts: nat)
    requires 0 < tileM && e <= experts
    ensures TotalBlocks(ids, tileM, e) <= TotalBlocks(ids, tileM, experts)
  {
    if e < experts {
      BlocksGrow(ids, tileM, e, experts - 1);
    }
  }

  lemma {:induction false} SortedPrefix(ids: seq<int>, e: nat, experts: nat)
    requires e <= experts
    ensures Sorted(ids, e) <= Sorted(ids, experts)
  {
    if e < experts {
      SortedPrefix(ids, e, experts - 1);
    }
  }

  /** The tokens of expert `e` are the next ones in sorted order. */
  lemma NextTokens(ids: seq<int>, e: nat, experts: nat, order: seq<nat>)
    requires e < experts && order == Sorted(ids, experts)
    ensures |Sorted(ids, e)| + Count(ids, e) <= |order|
    ensures order[|Sorted(ids, e)|..|Sorted(ids, e)| + Count(ids, e)] == Positions(ids, e, |ids|)
  {
    SortedPrefix(ids, e + 1, experts);
    assert Sorted(ids, e + 1) == order[..|Sorted(ids, e + 1)|];
  }

  lemma {:induction false} LayoutGrows(ids: seq<int>, tileM: nat, e: nat, experts: nat)
    requires 0 < tileM && e <= experts
    ensures |Layout(ids, tileM, e)| <= |Layout(ids, tileM, experts)|
  {
    if e < experts {
      LayoutGrows(ids, tileM, e, experts - 1);
    }
  }

  /** Before expert `e` is placed: there is room for it, and its tokens come next. */
  lemma NextExpert(ids: seq<int>, tileM: nat, e: nat, experts: nat, order: seq<nat>, block: nat, token: nat)
    requires 0 < tileM && e < experts && order == Sorted(ids, experts)
    requires block == TotalBlocks(ids, tileM, e) && token == |Sorted(ids, e)|
    ensures block + Blocks(ids, tileM, e) == TotalBlocks(ids, tileM, e + 1) <= TotalBlocks(ids, tileM, experts)
    ensures |Layout(ids, tileM, e + 1)| <= |Layout(ids, tileM, experts)|
    ensures token + Count(ids, e) == |Sorted(ids, e + 1)| <= |order|
    ensures order[token..token + Count(ids, e)] == Positions(ids, e, |ids|)
  {
    BlocksGrow(ids, tileM, e + 1, experts);
    LayoutGrows(ids, tileM, e + 1, experts);
    NextTokens(ids, e, experts, order);
  }

  /** `order` is what the library's stable argsort returns. */
  method Align(ids: seq<int>, tileM: nat, experts: nat, order: seq<nat>)
    returns (tokens: array<int>, owners: array<int>)
    requires 0 < tileM && InRange(ids, experts) && IsStableArgsort(ids, order)
    ensures fresh(tokens) && fresh(owners)
    ensures tokens[..] == Layout(ids, tileM, experts) && owners[..] == Owners(ids, tileM, experts)
  {
    var counts := BinCount(ids, experts);
    var blockCounts, totalBlocks := CountBlocks(ids, counts, tileM, experts);
    StableIsSorted(ids, experts, order);
    tokens, owners := Allocate(ids, tileM, experts, totalBlocks);
    PlaceAll(ids, tileM, experts, order, counts, blockCounts, tokens, owners);
  }

  /** The slots of the experts below `e` are filled, and no others. */
  predicate IsPlaced(ids: seq<int>, tileM: nat, e: nat, block: nat, tokens: seq<int>, owners: seq<int>)
    requires 0 < tileM
  {
    && block == TotalBlocks(ids, tileM, e) <= |owners| && |Layout(ids, tileM, e)| <= |tokens|
    && tokens == Layout(ids, tileM, e) + Repeat(|ids|, |tokens| - |Layout(ids, tileM, e)|)
    && owners == Owners(ids, tileM, e) + Repeat(0, |owners| - block)
  }

  /** Expert after expert, from the first slot on. */
  method PlaceAll(ids: seq<int>, tileM: nat, experts: nat, order: seq<nat>, counts: seq<nat>, blockCounts: seq<nat>,
                  tokens: array<int>, owners: array<int>)
    requires 0 < tileM && order == Sorted(ids, experts) && |counts| == |blockCounts| == experts && tokens != owners
    requires forall e | 0 <= e < experts :: counts[e] == Count(ids, e) && blockCounts[e] == Blocks(ids, tileM, e)
    requires tokens.Length == |Layout(ids, tileM, experts)| && owners.Length == TotalBlocks(ids, tileM, experts)
    requires tokens[..] == Repeat(|ids|, tokens.Length) && owners[..] == Repeat(0, owners.Length)
    modifies tokens, owners
    ensures tokens[..] == Layout(ids, tileM, experts) && owners[..] == Owners(ids, tileM, experts)
  {
    var block, token := 0, 0;
    for e := 0 to experts
      invariant IsPlaced(ids, tileM, e, block, tokens[..], owners[..]) && token == |Sorted(ids, e)|
    {
      block, token := PlaceNext(ids, tileM, e, experts, block, token, counts[e], blockCounts[e], order, tokens, owners);
    }
  }

  /** The next expert's tokens are the next ones in sorted order. */
  method PlaceNext(ids: seq<int>, tileM: nat, e: nat, ghost experts: nat, block: nat, token: nat, count: nat,
                   blockCount: nat,
                   order: seq<nat>, tokens: array<int>, owners: array<int>)
    returns (nextBlock: nat, nextToken: nat)
    requires 0 < tileM && e < experts && order == Sorted(ids, experts) && tokens != owners
    requires count == Count(ids, e) && blockCount == Blocks(ids, tileM, e) && token == |Sorted(ids, e)|
    requires tokens.Length == |Layout(ids, tileM, experts)| && owners.Length == TotalBlocks(ids, tileM, experts)
    requires IsPlaced(ids, tileM, e, block, tokens[..], owners[..])
    modifies tokens, owners
    ensures IsPlaced(ids, tileM, e + 1, nextBlock, tokens[..], owners[..]) && nextToken == |Sorted(ids, e + 1)|
  {
    NextExpert(ids, tileM, e, experts, order, block, token);
    PlaceExpert(ids, tileM, e, block, blockCount, order[token..token + count], tokens, owners);
    nextBlock, nextToken := block + blockCount, token + count;
  }

  method Allocate(ids: seq<int>, tileM: nat, ghost experts: nat, totalBlocks: nat)
    returns (tokens: array<int>, owners: array<int>)
    requires 0 < tileM && totalBlocks == TotalBlocks(ids, tileM, experts)
    ensures fresh(tokens) && fresh(owners) && tokens != owners
    ensures tokens.Length == |Layout(ids, tileM, experts)| && owners.Length == totalBlocks
    ensures tokens[..] == Repeat(|ids|, tokens.Length) && owners[..] == Repeat(0, owners.Length)
  {
    LayoutLength(ids, tileM, experts);
    tokens := new int[totalBlocks * tileM](_ => |ids|);
    owners := new int[totalBlocks](_ => 0);
  }

  method CountBlocks(ids: seq<int>, counts: seq<nat>, tileM: nat, experts: nat)
    returns (blockCounts: seq<nat>, total: nat)
    requires 0 < tileM && |counts| == experts && forall e | 0 <= e < experts :: counts[e] == Count(ids, e)
    ensures |blockCounts| == experts && forall e | 0 <= e < experts :: blockCounts[e] == Blocks(ids, tileM, e)
    ensures total == TotalBlocks(ids, tileM, experts)
  {
    blockCounts := [];
    total := 0;
    for e := 0 to experts
      invariant |blockCounts| == e && forall k | 0 <= k < e :: blockCounts[k] == Blocks(ids, tileM, k)
      invariant total == TotalBlocks(ids, tileM, e)
    {
      RoundedUp(counts[e], tileM);
      var n := (counts[e] - 1 + tileM) / tileM;
      blockCounts := blockCounts + [n];
      total := total + n;
    }
  }

  /** One expert's blocks and tokens. */
  method PlaceExpert(ids: seq<int>, tileM: nat, e: nat, block: nat, blockCount: nat, mine: seq<nat>,
                     tokens: array<int>, owners: array<int>)
    requires 0 < tileM && blockCount == Blocks(ids, tileM, e) && mine == Positions(ids, e, |ids|) && tokens != owners
    requires block + blockCount <= owners.Length && |Layout(ids, tileM, e + 1)| <= tokens.Length
    requires IsPlaced(ids, tileM, e, block, tokens[..], owners[..])
    modifies tokens, owners
    ensures IsPlaced(ids, tileM, e + 1, block + blockCount, tokens[..], owners[..])
  {
    LayoutLength(ids, tileM, e);
    ghost var before, before', begin := owners[..], tokens[..], |Layout(ids, tileM, e)|;
    AssignSlice(owners, block, Repeat(e, blockCount));
    Filled(before, Owners(ids, tileM, e), Repeat(e, blockCount), 0, blockCount, owners.Length - block, owners[..]);
    assert Repeat(e, blockCount) + Repeat(0, 0) == Repeat(e, blockCount);
    AssignSlice(tokens, block * tileM, mine);
    Filled(before', Layout(ids, tileM, e), mine, |ids|, |Slots(ids, tileM, e)|, tokens.Length - begin, tokens[..]);
  }

  /** What the program returns: tokens once each, in their own expert's blocks, which are in order. */
  lemma AlignedProperly(ids: seq<int>, tileM: nat, experts: nat)
    requires 0 < tileM && InRange(ids, experts)
    ensures var tokens, owners := Layout(ids, tileM, experts), Owners(ids, tileM, experts);
      && |tokens| == |owners| * tileM
      && (forall t: nat | t < |ids| :: t in tokens)
      && (forall s, s' | 0 <= s < s' < |tokens| :: tokens[s] == tokens[s'] ==> tokens[s] == |ids|)
      && (forall s | 0 <= s < |tokens| :: 0 <= tokens[s] <= |ids|)
      && (forall b, b' | 0 <= b <= b' < |owners| :: owners[b] <= owners[b'])
  {
    LayoutLength(ids, tileM, experts);
    LayoutRange(ids, tileM, experts);
    LayoutDistinct(ids, tileM, experts);
    OwnersOrdered(ids, tileM, experts);
    forall t: nat | t < |ids| ensures t in Layout(ids, tileM, experts) {
      var s := LayoutHas(ids, tileM, experts, t);
    }
  }

  /** No expert wastes a whole tile. */
  lemma LittleWaste(ids: seq<int>, tileM: nat, e: int)
    requires 0 < tileM
    ensures 0 <= |Slots(ids, tileM, e)| - Count(ids, e) < tileM
    ensures forall s | 0 <= s < |Slots(ids, tileM, e)| :: Slots(ids, tileM, e)[s] == |ids| <==> Count(ids, e) <= s
  {
    PositionsOrdered(ids, e, |ids|);
  }

  // ---------------------------------------------------------------- the next power of two

  lemma OrBit(x: int, y: int, k: nat)
    ensures Bit(BitOr(x, y), k) <==> Bit(x, k) || Bit(y, k)
  {
    AndBit(BitNot(x), BitNot(y), k);
    NotBit(x, k);
    NotBit(y, k);
    NotBit(BitAnd(BitNot(x), BitNot(y)), k);
  }

  lemma NotBit(x: int, k: nat)
    ensures Bit(BitNot(x), k) <==> !Bit(x, k)
  {
    var p := Pow2(k);
    assert x == p * (x / p) + x % p;
    assert BitNot(x) == p * (-(x / p) - 1) + (p - 1 - x % p);
    ModUnique(BitNot(x), p, -(x / p) - 1, p - 1 - x % p);
  }

  lemma ShrBit(x: int, s: nat, k: nat)
    ensures Bit(Shr(x, s), k) <==> Bit(x, s + k)
  {
    Pow2Add(s, k);
    DivTwice(x, Pow2(s), Pow2(k), Pow2(s + k));
  }

  lemma DivTwice(x: int, a: int, b: int, ab: int)
    requires 0 < a && 0 < b && ab == a * b
    ensures x / ab == (x / a) / b
  {
    var q, r := x / a, x % a;
    var q', r' := q / b, q % b;
    Nested(x, a, b, ab, q, r, q', r', a * r');
    ModUnique(x, ab, q', a * r' + r);
  }

  lemma Nested(x: int, a: int, b: int, ab: int, q: int, r: int, q': int, r': int, ar: int)
    requires ab == a * b && x == a * q + r && q == b * q' + r' && 0 <= r < a && 0 <= r' < b && ar == a * r'
    ensures x == ab * q' + (ar + r) && 0 <= ar + r < ab
  {
    assert a * (b * q' + r') == ab * q' + ar;
    assert a * (b - 1) - ar == a * (b - 1 - r');
    assert 0 <= a * (b - 1 - r') && 0 <= ar;
  }

  /** Every bit, or'ed with the bit `s` places above it. */
  function Smear(x: int, s: nat): int {
    BitOr(x, Shr(x, s))
  }

  function Smeared(x: int): int {
    Smear(Smear(Smear(Smear(Smear(Smear(x, 1), 2), 4), 8), 16), 32)
  }

  function NextPowerOf2(n: int): int {
    Smeared(n - 1) + 1
  }

  /** Is one of the `w` bits from `k` on set? */
  ghost predicate BitIn(x: int, k: nat, w: nat) {
    exists i: nat :: k <= i < k + w && Bit(x, i)
  }

  /** Smearing a window of `w` bits by `w` places makes it twice as wide. */
  lemma SmearWidens(x: int, y: int, w: nat)
    requires forall k: nat :: Bit(y, k) <==> BitIn(x, k, w)
    ensures forall k: nat :: Bit(Smear(y, w), k) <==> BitIn(x, k, w + w)
  {
    forall k: nat ensures Bit(Smear(y, w), k) <==> BitIn(x, k, w + w) {
      OrBit(y, Shr(y, w), k);
      ShrBit(y, w, k);
      WindowsJoin(x, k, w);
    }
  }

  lemma WindowsJoin(x: int, k: nat, w: nat)
    ensures BitIn(x, k, w + w) <==> BitIn(x, k, w) || BitIn(x, w + k, w)
  {
  }

  /** After all shifts, a bit is set if one of the 64 bits from it upwards was. */
  lemma SmearedBits(x: int)
    ensures forall k: nat :: Bit(Smeared(x), k) <==> BitIn(x, k, 64)
  {
    SmearWidens(x, x, 1);
    SmearWidens(x, Smear(x, 1), 2);
    SmearWidens(x, Smear(Smear(x, 1), 2), 4);
    SmearWidens(x, Smear(Smear(Smear(x, 1), 2), 4), 8);
    SmearWidens(x, Smear(Smear(Smear(Smear(x, 1), 2), 4), 8), 16);
    SmearWidens(x, Smear(Smear(Smear(Smear(Smear(x, 1), 2), 4), 8), 16), 32);
  }

  /** Bits determine a number that is not negative. */
  lemma {:induction false} SameBits(x: nat, y: nat)
    requires forall k: nat :: Bit(x, k) <==> Bit(y, k)
    ensures x == y
    decreases x + y
  {
    if x != 0 || y != 0 {
      assert Bit(x, 0) <==> Bit(y, 0);
      assert Pow2(0) == 1;
      forall k: nat ensures Bit(x / 2, k) <==> Bit(y / 2, k) {
        assert Bit(x, k + 1) <==> Bit(y, k + 1);
        HalveDiv(x, Pow2(k));
        HalveDiv(y, Pow2(k));
      }
      SameBits(x / 2, y / 2);
    }
  }

  lemma OnesBits(n: nat, k: nat)
    ensures Bit(Pow2(n) - 1, k) <==> k < n
  {
    if k < n {
      Pow2Add(k, n - k);
      assert Pow2(n - k) == 2 * Pow2(n - k - 1);
      OnesQuotient(Pow2(n), Pow2(k), Pow2(n - k), Pow2(n - k - 1));
    } else {
      Pow2Monotone(n, k);
      ModUnique(Pow2(n) - 1, Pow2(k), 0, Pow2(n) - 1);
    }
  }

  lemma OnesQuotient(n: int, p: int, d: int, h: int)
    requires 0 < p && n == p * d && d == 2 * h
    ensures ((n - 1) / p) % 2 == 1
  {
    assert n - 1 == p * (d - 1) + (p - 1);
    ModUnique(n - 1, p, d - 1, p - 1);
  }

  /** Bits of a number below its bit length, and its topmost one. */
  lemma TopBit(x: nat, k: nat)
    requires 0 < x
    ensures Bit(x, BitLength(x) - 1)
    ensures BitLength(x) <= k ==> !Bit(x, k)
  {
    var n := BitLength(x);
    BitLengthBounds(x);
    assert Pow2(n) == 2 * Pow2(n - 1);
    ModUnique(x, Pow2(n - 1), 1, x - Pow2(n - 1));
    if n <= k {
      Pow2Monotone(n, k);
      ModUnique(x, Pow2(k), 0, x);
    }
  }

  /** No 64 zero bits in a row below the topmost one of `x`. */
  ghost predicate NoLongGap(x: nat) {
    forall k: nat {:trigger BitIn(x, k, 64)} :: k < BitLength(x) ==> BitIn(x, k, 64)
  }

  ghost predicate IsNextPower(n: int, p: int) {
    n <= p && (exists k: nat :: p == Pow2(k)) && forall k: nat :: n <= Pow2(k) ==> p <= Pow2(k)
  }

  lemma SmearedSign(x: int)
    ensures x < 0 <==> Smeared(x) < 0
  {
    SmearSign(x, 1);
    SmearSign(Smear(x, 1), 2);
    SmearSign(Smear(Smear(x, 1), 2), 4);
    SmearSign(Smear(Smear(Smear(x, 1), 2), 4), 8);
    SmearSign(Smear(Smear(Smear(Smear(x, 1), 2), 4), 8), 16);
    SmearSign(Smear(Smear(Smear(Smear(Smear(x, 1), 2), 4), 8), 16), 32);
  }

  lemma SmearSign(x: int, s: nat)
    ensures x < 0 <==> Smear(x, s) < 0
  {
    var y := Shr(x, s);
    QuotientSign(x, Pow2(s));
    if x < 0 {
      AndRange(BitNot(x), BitNot(y));
    } else {
      AndNegative(BitNot(x), BitNot(y));
    }
  }

  lemma QuotientSign(x: int, p: int)
    requires 0 < p
    ensures x < 0 <==> x / p < 0
  {
    var q := x / p;
    assert x == p * q + x % p;
    assert x < 0 && 0 <= q ==> 0 <= p * q;
    assert q < 0 ==> p * q <= -p;
  }

  lemma {:induction false} AndNegative(x: int, y: int)
    requires x < 0 && y < 0
    ensures BitAnd(x, y) < 0
    decreases Magnitude(x) + Magnitude(y)
  {
    if x != -1 && y != -1 {
      AndNegative(x / 2, y / 2);
      assert 0 <= (x % 2) * (y % 2) <= 1;
    }
  }

  /** The next power of two has as many zeros as n - 1 has bits. */
  lemma OnlyNextPower(n: int, p: int)
    requires 1 < n
    ensures IsNextPower(n, p) <==> p == Pow2(BitLength(n - 1))
  {
    var b := BitLength(n - 1);
    BitLengthBounds(n - 1);
    forall k: nat | n <= Pow2(k) ensures Pow2(b) <= Pow2(k) {
      BitLengthFits(n - 1, k);
      Pow2Monotone(b, k);
    }
  }

  /** The `b` lowest bits are set, and no others. */
  ghost predicate IsOnes(y: int, b: nat) {
    forall k: nat :: Bit(y, k) <==> k < b
  }

  lemma OnesAre(y: nat, b: nat)
    ensures IsOnes(y, b) <==> y == Pow2(b) - 1
  {
    var ones: nat := Pow2(b) - 1;
    forall k: nat ensures Bit(ones, k) <==> k < b {
      OnesBits(b, k);
    }
    if IsOnes(y, b) {
      SameBits(y, ones);
    }
  }

  /** All bits below the topmost one are smeared over exactly if there is no long gap. */
  lemma SmearedOnes(x: nat)
    requires 0 < x
    ensures Smeared(x) == Pow2(BitLength(x)) - 1 <==> NoLongGap(x)
  {
    SmearedSign(x);
    OnesAre(Smeared(x), BitLength(x));
    SmearedBits(x);
    forall k: nat | BitLength(x) <= k ensures !BitIn(x, k, 64) {
      NothingAbove(x, k);
    }
  }

  lemma NothingAbove(x: nat, k: nat)
    requires 0 < x && BitLength(x) <= k
    ensures !BitIn(x, k, 64)
  {
    forall i: nat | k <= i ensures !Bit(x, i) {
      TopBit(x, i);
    }
  }

  lemma SmearZero(s: nat)
    ensures Smear(0, s) == 0
  {
    assert BitNot(0) == -1;
  }

  lemma SmearedZero()
    ensures Smeared(0) == 0
  {
    SmearZero(1);
    SmearZero(2);
    SmearZero(4);
    SmearZero(8);
    SmearZero(16);
    SmearZero(32);
  }

  lemma NotBelowOne(n: int, p: int)
    requires n < 1 && p == NextPowerOf2(n)
    ensures !IsNextPower(n, p)
  {
    SmearedSign(n - 1);
  }

  lemma OneIsPower(p: int)
    requires p == NextPowerOf2(1)
    ensures p == 1 && IsNextPower(1, p)
  {
    SmearedZero();
    assert Pow2(0) == 1;
  }

  lemma AboveOne(n: int, x: nat, p: int, b: nat)
    requires 0 < x == n - 1 && b == BitLength(x) && p == Smeared(x) + 1
    ensures IsNextPower(n, p) <==> NoLongGap(x)
  {
    OnlyNextPower(n, p);
    SmearedOnes(x);
  }

  /** The program finds the next power of two exactly of positive numbers n where n - 1 has no long gap. */
  lemma NextPowerExactly(n: int, p: int)
    requires p == NextPowerOf2(n)
    ensures IsNextPower(n, p) <==> 1 <= n && NoLongGap(n - 1)
  {
    hide Smeared, IsNextPower;
    if n < 1 {
      NotBelowOne(n, p);
    } else if n == 1 {
      OneIsPower(p);
      assert NoLongGap(0);
    } else {
      AboveOne(n, n - 1, p, BitLength(n - 1));
    }
  }

  /** The program's own steps. */
  method ComputeNextPowerOf2(n: int) returns (p: int)
    ensures p == NextPowerOf2(n)
    ensures IsNextPower(n, p) <==> 1 <= n && NoLongGap(n - 1)
  {
    var x := n - 1;
    x := BitOr(x, Shr(x, 1));
    x := BitOr(x, Shr(x, 2));
    x := BitOr(x, Shr(x, 4));
    x := BitOr(x, Shr(x, 8));
    x := BitOr(x, Shr(x, 16));
    x := BitOr(x, Shr(x, 32));
    assert x == Smeared(n - 1);
    p := x + 1;
    NextPowerExactly(n, p);
  }

  /** In particular, of all numbers up to 2^64. */
  lemma SixtyFourBitsEnough(n: int)
    requires 1 <= n <= Pow2(64)
    ensures IsNextPower(n, NextPowerOf2(n))
  {
    NextPowerExactly(n, NextPowerOf2(n));
    if 1 < n {
      BitLengthFits(n - 1, 64);
      TopBit(n - 1, 0);
    }
    assert NoLongGap(n - 1);
  }

  /** Zero, and 2^64 + 1, are numbers for which it does not. */
  lemma NotAlwaysNextPower()
    ensures !IsNextPower(0, NextPowerOf2(0)) && !IsNextPower(Pow2(64) + 1, NextPowerOf2(Pow2(64) + 1))
  {
    NextPowerExactly(0, NextPowerOf2(0));
    NextPowerExactly(Pow2(64) + 1, NextPowerOf2(Pow2(64) + 1));
    BitLengthBounds(Pow2(64));
    forall i: nat | i < 64 ensures !Bit(Pow2(64), i) {
      PowerBit(64, i);
    }
    assert !BitIn(Pow2(64), 0, 64);
  }

  lemma PowerBit(n: nat, k: nat)
    requires k < n
    ensures !Bit(Pow2(n), k)
  {
    Pow2Add(k, n - k);
    assert Pow2(n - k) == 2 * Pow2(n - k - 1);
    ModUnique(Pow2(n), Pow2(k), Pow2(n - k), 0);
  }
}
