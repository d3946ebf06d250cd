/**
 Attention with an online softmax over key tiles, for one query row.

 Scores and values are reals, the running maximum may also be minus infinity, and `exp2` is
 any positive function that turns sums into products.  Elements that are loaded from
 outside an array are arbitrary.  Main result: the loop visits only the first tiles and masks
 only from some tile on, and yet yields the softmax-weighted sum over exactly the permitted
 keys; the running maximum is finite once the first tile was visited.
 */
module Attention {
  import opened Bits

  // ---------------------------------------------------------------- numbers

  datatype Ext = NegInf | Fin(value: real)

  function MaxExt(a: Ext, b: Ext): Ext {
    if a.NegInf? then b else if b.NegInf? then a else if a.value < b.value then b else a
  }

  function MaxAll(s: seq<Ext>): Ext {
    if s == [] then NegInf else MaxExt(MaxAll(s[..|s| - 1]), s[|s| - 1])
  }

  function SumAll(s: seq<real>): real {
    if s == [] then 0.0 else SumAll(s[..|s| - 1]) + s[|s| - 1]
  }

  function ScaleExt(a: Ext, k: real): Ext
    requires 0.0 < k
  {
    if a.NegInf? then NegInf else Fin(a.value * k)
  }

  /** exp2 of `a - m`. */
  function Exp(exp2: real -> real, a: Ext, m: real): real {
    if a.NegInf? then 0.0 else exp2(a.value - m)
  }

  predicate On(a: real, b: real) { true }

  ghost predicate IsExp2(exp2: real -> real) {
    forall a, b {:trigger On(a, b)} :: On(a, b) ==> exp2(a + b) == exp2(a) * exp2(b) && 0.0 < exp2(a)
  }

  lemma ExpAdd(exp2: real -> real, a: real, b: real)
    requires IsExp2(exp2)
    ensures exp2(a + b) == exp2(a) * exp2(b) && 0.0 < exp2(a)
  {
    assert On(a, b);
  }

  // ---------------------------------------------------------------- sums over permitted keys

  /** The sum of f over the keys in [lo, hi) that are permitted. */
  ghost function Sum(permitted: int -> bool, f: int -> real, lo: int, hi: int): real
    decreases hi - lo
  {
    if hi <= lo then 0.0
    else Sum(permitted, f, lo, hi - 1) + (if permitted(hi - 1) then f(hi - 1) else 0.0)
  }

  lemma {:induction false} SumSplit(permitted: int -> bool, f: int -> real, lo: int, mid: int, hi: int)
    requires lo <= mid <= hi
    ensures Sum(permitted, f, lo, hi) == Sum(permitted, f, lo, mid) + Sum(permitted, f, mid, hi)
    decreases hi - mid
  {
    if mid < hi {
      SumSplit(permitted, f, lo, mid, hi - 1);
    }
  }

  lemma {:induction false} SumNone(permitted: int -> bool, f: int -> real, lo: int, hi: int)
    requires forall n | lo <= n < hi :: !permitted(n)
    ensures Sum(permitted, f, lo, hi) == 0.0
    decreases hi - lo
  {
    if lo < hi {
      SumNone(permitted, f, lo, hi - 1);
    }
  }

  lemma {:induction false} SumScale(permitted: int -> bool, f: int -> real, g: int -> real, k: real, lo: int, hi: int)
    requires forall n | lo <= n < hi && permitted(n) :: g(n) == f(n) * k
    ensures Sum(permitted, g, lo, hi) == Sum(permitted, f, lo, hi) * k
    decreases hi - lo
  {
    if lo < hi {
      SumScale(permitted, f, g, k, lo, hi - 1);
      if permitted(hi - 1) {
        assert (Sum(permitted, f, lo, hi - 1) + f(hi - 1)) * k == Sum(permitted, f, lo, hi - 1) * k + f(hi - 1) * k;
      }
    }
  }

  lemma {:induction false} SumPositive(permitted: int -> bool, f: int -> real, lo: int, hi: int, n: int)
    requires forall i | lo <= i < hi && permitted(i) :: 0.0 < f(i)
    ensures 0.0 <= Sum(permitted, f, lo, hi)
    ensures lo <= n < hi && permitted(n) ==> 0.0 < Sum(permitted, f, lo, hi)
    decreases hi - lo
  {
    if lo < hi {
      SumPositive(permitted, f, lo, hi - 1, n);
    }
  }

  // ---------------------------------------------------------------- the problem of one row

  /** One query row against all keys; `row` is its number in its tile of queries. */
  datatype Problem = Problem(
    score: int -> real,          // query times key n
    value: (int, int) -> real,   // column d of value n
    qkScale: real, invLog2: real,
    keys: nat, inputPos: nat, bid: nat, row: nat,
    tileM: nat, tileN: nat, tileD: nat, causal: bool, evenK: bool)
  {
    predicate Valid() {
      && 0.0 < qkScale && 0.0 < invLog2
      && 0 < keys && row < tileM && 0 < tileN
      && evenK == (keys % tileN == 0)
    }

    function Scale(): real {
      qkScale * invLog2
    }

    /** The position of the query. */
    function Position(): nat {
      bid * tileM + row + inputPos
    }

    /** The keys that the row attends to. */
    predicate Permitted(n: int) {
      0 <= n < keys && (causal ==> n <= Position())
    }

    function MaskStart(): int {
      if causal then Min((inputPos + bid * tileM) / Positive(tileN), keys / Positive(tileN)) else keys / Positive(tileN)
    }

    function Tiles(): int {
      if causal then CeilDiv(Min(inputPos + (bid + 1) * tileM, keys), Positive(tileN))
        else CeilDiv(keys, Positive(tileN))
    }
  }

  function Positive(n: nat): (p: nat)
    ensures 0 < p && (0 < n ==> p == n)
  {
    if n == 0 then 1 else n
  }

  function Min(a: int, b: int): int {
    if a < b then a else b
  }

  function CeilDiv(a: int, b: nat): int
    requires 0 < b
  {
    (a + b - 1) / b
  }

  /** Key n as the tile that holds it sees it: its score, or minus infinity if it is masked. */
  function Masked(p: Problem, j: int, n: int): Ext {
    if (p.causal || !p.evenK) && j >= p.MaskStart() then
      if (p.evenK || n < p.keys) && (p.causal ==> p.Position() >= n) then Fin(p.score(n)) else NegInf
    else Fin(p.score(n))
  }

  // ---------------------------------------------------------------- which tiles matter

  lemma DivBounds(a: int, b: int)
    requires 0 < b
    ensures a / b * b <= a < a / b * b + b
  {
  }

  lemma Monotone(a: int, b: int, n: int)
    requires a <= b && 0 <= n
    ensures a * n <= b * n
  {
  }

  /** Tiles in front of the mask start hold permitted keys only. */
  lemma BeforeMaskStart(p: Problem, j: int, n: int)
    requires p.Valid() && 0 <= j < p.MaskStart() && j * p.tileN <= n < j * p.tileN + p.tileN
    ensures p.Permitted(n)
  {
    Monotone(j + 1, p.MaskStart(), p.tileN);
    assert (j + 1) * p.tileN == j * p.tileN + p.tileN;
    DivBounds(p.keys, p.tileN);
    Monotone(p.MaskStart(), p.keys / p.tileN, p.tileN);
    Monotone(0, j, p.tileN);
    if p.causal {
      DivBounds(p.inputPos + p.bid * p.tileM, p.tileN);
      Monotone(p.MaskStart(), (p.inputPos + p.bid * p.tileM) / p.tileN, p.tileN);
    }
  }

  /** All permitted keys are in the visited tiles, and with full tiles, only existing keys are. */
  lemma VisitedTiles(p: Problem, n: int)
    requires p.Valid()
    ensures 1 <= p.Tiles()
    ensures p.Permitted(n) ==> n < p.Tiles() * p.tileN
    ensures p.evenK && n < p.Tiles() * p.tileN ==> n < p.keys
  {
    var end := if p.causal then Min(p.inputPos + (p.bid + 1) * p.tileM, p.keys) else p.keys;
    assert (p.bid + 1) * p.tileM == p.bid * p.tileM + p.tileM;
    assert 0 <= p.bid * p.tileM;
    assert 1 <= end <= p.keys && (p.Permitted(n) ==> n < end);
    DivBounds(end + p.tileN - 1, p.tileN);
    assert p.Tiles() == (end + p.tileN - 1) / p.tileN;
    if p.Tiles() <= 0 {
      Monotone(p.Tiles(), 0, p.tileN);
    }
    if p.evenK {
      FullTiles(p.keys, end, p.tileN);
    }
  }

  lemma FullTiles(keys: int, end: int, tileN: int)
    requires 0 < tileN && keys % tileN == 0 && end <= keys
    ensures (end + tileN - 1) / tileN * tileN <= keys
  {
    var q, t := keys / tileN, (end + tileN - 1) / tileN;
    assert keys == q * tileN;
    DivBounds(end + tileN - 1, tileN);
    assert (q + 1) * tileN == q * tileN + tileN;
    if q < t {
      Monotone(q + 1, t, tileN);
    }
  }

  /** In every visited tile, exactly the permitted keys have a score. */
  lemma MaskedIsPermitted(p: Problem, j: int, n: int)
    requires p.Valid() && 0 <= j < p.Tiles() && j * p.tileN <= n < j * p.tileN + p.tileN
    ensures Masked(p, j, n) == if p.Permitted(n) then Fin(p.score(n)) else NegInf
  {
    Monotone(0, j, p.tileN);
    if j < p.MaskStart() {
      BeforeMaskStart(p, j, n);
    } else {
      Monotone(j + 1, p.Tiles(), p.tileN);
      assert (j + 1) * p.tileN == j * p.tileN + p.tileN;
      VisitedTiles(p, n);
    }
  }

  // ---------------------------------------------------------------- one tile

  /** The scaled scores of a tile. */
  function TileScores(p: Problem, j: int): (s: seq<Ext>)
    ensures |s| == p.tileN
  {
    seq(p.tileN, c => Masked(p, j, j * p.tileN + c))
  }

  lemma {:induction false} MaxAllIs(s: seq<Ext>)
    ensures MaxAll(s).NegInf? <==> forall c | 0 <= c < |s| :: s[c].NegInf?
    ensures forall c | 0 <= c < |s| && s[c].Fin? :: MaxAll(s).Fin? && s[c].value <= MaxAll(s).value
    ensures MaxAll(s).Fin? ==> exists c :: 0 <= c < |s| && s[c] == MaxAll(s)
  {
    if s != [] {
      var k := |s| - 1;
      MaxAllIs(s[..k]);
      if MaxAll(s[..k]).Fin? {
        var c :| 0 <= c < k && s[..k][c] == MaxAll(s[..k]);
        assert s[c] == MaxAll(s[..k]);
      }
      if s[k].Fin? {
        assert s[k] == MaxAll(s) || MaxAll(s[..k]) == MaxAll(s);
      }
    }
  }

  lemma {:induction false} TileSum(permitted: int -> bool, f: int -> real, lo: int, s: seq<real>)
    requires forall c | 0 <= c < |s| :: s[c] == if permitted(lo + c) then f(lo + c) else 0.0
    ensures SumAll(s) == Sum(permitted, f, lo, lo + |s|)
  {
    if s != [] {
      TileSum(permitted, f, lo, s[..|s| - 1]);
    }
  }

  /** The exponent of key n. */
  function Exponent(p: Problem, n: int): real {
    p.score(n) * p.Scale()
  }

  function Weight(p: Problem, exp2: real -> real, m: real): int -> real {
    n => exp2(Exponent(p, n) - m)
  }

  function Weighted(p: Problem, exp2: real -> real, m: real, d: int): int -> real {
    n => exp2(Exponent(p, n) - m) * p.value(n, d)
  }

  function PermittedIn(p: Problem): int -> bool {
    n => p.Permitted(n)
  }

  predicate NonePermitted(p: Problem, hi: int) {
    forall n | 0 <= n < hi :: !p.Permitted(n)
  }

  /** `m` is the maximum of the exponents of the permitted keys below `hi`, if there are any. */
  ghost predicate IsMaximum(p: Problem, m: Ext, hi: int) {
    && (m.NegInf? ==> NonePermitted(p, hi))
    && (m.Fin? ==> forall n | 0 <= n < hi && p.Permitted(n) :: Exponent(p, n) <= m.value)
    && (m.Fin? ==> exists n :: 0 <= n < hi && p.Permitted(n) && Exponent(p, n) == m.value)
  }

  lemma ScaleMonotone(a: real, b: real, k: real)
    requires a <= b && 0.0 < k
    ensures a * k <= b * k
  {
  }

  lemma ScoreAt(p: Problem, j: int, lo: int, c: int)
    requires p.Valid() && 0 <= j < p.Tiles() && lo == j * p.tileN && 0 <= c < p.tileN
    ensures TileScores(p, j)[c] == if p.Permitted(lo + c) then Fin(p.score(lo + c)) else NegInf
  {
    MaskedIsPermitted(p, j, lo + c);
  }

  /** The scaled maximum of tile j bounds the exponents of its permitted keys. */
  lemma TileBound(p: Problem, j: int, lo: int, c: int)
    requires p.Valid() && 0 <= j < p.Tiles() && 0.0 < p.Scale() && lo == j * p.tileN && 0 <= c < p.tileN
    requires p.Permitted(lo + c)
    ensures var top := ScaleExt(MaxAll(TileScores(p, j)), p.Scale()); top.Fin? && Exponent(p, lo + c) <= top.value
  {
    ScoreAt(p, j, lo, c);
    MaxAllIs(TileScores(p, j));
    ScaleMonotone(p.score(lo + c), MaxAll(TileScores(p, j)).value, p.Scale());
  }

  /** It is the exponent of one of them. */
  lemma TileAttains(p: Problem, j: int, lo: int) returns (n: int)
    requires p.Valid() && 0 <= j < p.Tiles() && 0.0 < p.Scale() && lo == j * p.tileN && MaxAll(TileScores(p, j)).Fin?
    ensures lo <= n < lo + p.tileN && p.Permitted(n)
    ensures Exponent(p, n) == ScaleExt(MaxAll(TileScores(p, j)), p.Scale()).value
  {
    MaxAllIs(TileScores(p, j));
    var c :| 0 <= c < p.tileN && TileScores(p, j)[c] == MaxAll(TileScores(p, j));
    ScoreAt(p, j, lo, c);
    n := lo + c;
  }

  /** The running maximum after tile j. */
  lemma MaximumStep(p: Problem, j: int, m: Ext, lo: int)
    requires p.Valid() && 0 <= j < p.Tiles() && 0.0 < p.Scale() && lo == j * p.tileN && 0 <= lo && IsMaximum(p, m, lo)
    ensures IsMaximum(p, MaxExt(m, ScaleExt(MaxAll(TileScores(p, j)), p.Scale())), lo + p.tileN)
  {
    var top := ScaleExt(MaxAll(TileScores(p, j)), p.Scale());
    forall n | lo <= n < lo + p.tileN && p.Permitted(n) ensures top.Fin? && Exponent(p, n) <= top.value {
      TileBound(p, j, lo, n - lo);
      assert lo + (n - lo) == n;
    }
    if top.Fin? {
      var n := TileAttains(p, j, lo);
    }
  }

  /** The unnormalised attention weights of a tile. */
  function TileProbs(p: Problem, exp2: real -> real, j: int, m: real): (probs: seq<real>)
    requires 0.0 < p.Scale()
    ensures |probs| == p.tileN
  {
    var qk := TileScores(p, j);
    seq(p.tileN, c requires 0 <= c < p.tileN => Exp(exp2, ScaleExt(qk[c], p.Scale()), m))
  }

  /** The weights of a tile times column d of its values. */
  function TileProducts(p: Problem, j: int, probs: seq<real>, d: int): (s: seq<real>)
    requires |probs| == p.tileN
    ensures |s| == p.tileN
  {
    seq(p.tileN, c requires 0 <= c < p.tileN => probs[c] * p.value(j * p.tileN + c, d))
  }

  lemma ProbAt(p: Problem, exp2: real -> real, j: int, m: real, c: int)
    requires p.Valid() && 0 <= j < p.Tiles() && 0.0 < p.Scale() && 0 <= c < p.tileN
    ensures TileProbs(p, exp2, j, m)[c] ==
      if p.Permitted(j * p.tileN + c) then Weight(p, exp2, m)(j * p.tileN + c) else 0.0
  {
    MaskedIsPermitted(p, j, j * p.tileN + c);
  }

  /** The sum of a tile is the sum over its permitted keys. */
  lemma TileWeights(p: Problem, exp2: real -> real, j: int, m: real, lo: int)
    requires p.Valid() && 0 <= j < p.Tiles() && 0.0 < p.Scale() && lo == j * p.tileN
    ensures SumAll(TileProbs(p, exp2, j, m)) == Sum(PermittedIn(p), Weight(p, exp2, m), lo, lo + p.tileN)
  {
    var probs := TileProbs(p, exp2, j, m);
    forall c | 0 <= c < p.tileN
      ensures probs[c] == if PermittedIn(p)(lo + c) then Weight(p, exp2, m)(lo + c) else 0.0
    {
      ProbAt(p, exp2, j, m, c);
    }
    TileSum(PermittedIn(p), Weight(p, exp2, m), lo, probs);
  }

  lemma TileColumn(p: Problem, exp2: real -> real, j: int, m: real, d: int, lo: int)
    requires p.Valid() && 0 <= j < p.Tiles() && 0.0 < p.Scale() && lo == j * p.tileN
    ensures SumAll(TileProducts(p, j, TileProbs(p, exp2, j, m), d)) ==
      Sum(PermittedIn(p), Weighted(p, exp2, m, d), lo, lo + p.tileN)
  {
    var products := TileProducts(p, j, TileProbs(p, exp2, j, m), d);
    forall c | 0 <= c < p.tileN
      ensures products[c] == if PermittedIn(p)(lo + c) then Weighted(p, exp2, m, d)(lo + c) else 0.0
    {
      ProbAt(p, exp2, j, m, c);
    }
    TileSum(PermittedIn(p), Weighted(p, exp2, m, d), lo, products);
  }

  lemma Shift(exp2: real -> real, x: real, m: real, next: real)
    requires IsExp2(exp2)
    ensures exp2(x - next) == exp2(x - m) * exp2(m - next)
  {
    ExpAdd(exp2, x - m, m - next);
    assert x - m + (m - next) == x - next;
  }

  /** What was accumulated against one maximum, against another one. */
  lemma RescaleWeights(p: Problem, exp2: real -> real, m: real, next: real, hi: int)
    requires IsExp2(exp2)
    ensures Sum(PermittedIn(p), Weight(p, exp2, next), 0, hi) ==
      Sum(PermittedIn(p), Weight(p, exp2, m), 0, hi) * exp2(m - next)
  {
    forall n | 0 <= n < hi && PermittedIn(p)(n)
      ensures Weight(p, exp2, next)(n) == Weight(p, exp2, m)(n) * exp2(m - next)
    {
      Shift(exp2, Exponent(p, n), m, next);
    }
    SumScale(PermittedIn(p), Weight(p, exp2, m), Weight(p, exp2, next), exp2(m - next), 0, hi);
  }

  lemma Reorder(a: real, b: real, c: real)
    ensures a * b * c == a * c * b
  {
  }

  lemma RescaleColumn(p: Problem, exp2: real -> real, m: real, next: real, d: int, hi: int)
    requires IsExp2(exp2)
    ensures Sum(PermittedIn(p), Weighted(p, exp2, next, d), 0, hi) ==
      Sum(PermittedIn(p), Weighted(p, exp2, m, d), 0, hi) * exp2(m - next)
  {
    forall n | 0 <= n < hi && PermittedIn(p)(n)
      ensures Weighted(p, exp2, next, d)(n) == Weighted(p, exp2, m, d)(n) * exp2(m - next)
    {
      Shift(exp2, Exponent(p, n), m, next);
      Reorder(exp2(Exponent(p, n) - m), exp2(m - next), p.value(n, d));
    }
    SumScale(PermittedIn(p), Weighted(p, exp2, m, d), Weighted(p, exp2, next, d), exp2(m - next), 0, hi);
  }

  // ---------------------------------------------------------------- the loop

  /** What the accumulators hold once the keys below `hi` were visited. */
  ghost predicate Accumulated(p: Problem, exp2: real -> real, hi: int, m: Ext, l: real, acc: seq<real>) {
    && |acc| == p.tileD
    && IsMaximum(p, m, hi)
    && (m.NegInf? ==> l == 0.0 && forall d | 0 <= d < p.tileD :: acc[d] == 0.0)
    && (m.Fin? ==>
          && l == Sum(PermittedIn(p), Weight(p, exp2, m.value), 0, hi)
          && forall d | 0 <= d < p.tileD :: acc[d] == Sum(PermittedIn(p), Weighted(p, exp2, m.value, d), 0, hi))
  }

  lemma UpdateWeights(p: Problem, exp2: real -> real, j: int, m: Ext, l: real, next: real, lo: int)
    requires p.Valid() && IsExp2(exp2) && 0 <= j < p.Tiles() && 0.0 < p.Scale() && lo == j * p.tileN && 0 <= lo
    requires m.NegInf? ==> l == 0.0 && NonePermitted(p, lo)
    requires m.Fin? ==> l == Sum(PermittedIn(p), Weight(p, exp2, m.value), 0, lo)
    ensures l * Exp(exp2, m, next) + SumAll(TileProbs(p, exp2, j, next)) ==
      Sum(PermittedIn(p), Weight(p, exp2, next), 0, lo + p.tileN)
  {
    TileWeights(p, exp2, j, next, lo);
    SumSplit(PermittedIn(p), Weight(p, exp2, next), 0, lo, lo + p.tileN);
    if m.Fin? {
      RescaleWeights(p, exp2, m.value, next, lo);
    } else {
      SumNone(PermittedIn(p), Weight(p, exp2, next), 0, lo);
    }
  }

  /** What column d accumulated so far, against the new maximum. */
  lemma CarryColumn(p: Problem, exp2: real -> real, m: Ext, a: real, next: real, d: int, lo: int)
    requires IsExp2(exp2)
    requires m.NegInf? ==> a == 0.0 && NonePermitted(p, lo)
    requires m.Fin? ==> a == Sum(PermittedIn(p), Weighted(p, exp2, m.value, d), 0, lo)
    ensures a * Exp(exp2, m, next) == Sum(PermittedIn(p), Weighted(p, exp2, next, d), 0, lo)
  {
    if m.Fin? {
      RescaleColumn(p, exp2, m.value, next, d, lo);
    } else {
      SumNone(PermittedIn(p), Weighted(p, exp2, next, d), 0, lo);
    }
  }

  lemma UpdateColumn(p: Problem, exp2: real -> real, j: int, next: real, d: int, lo: int)
    requires p.Valid() && 0 <= j < p.Tiles() && 0.0 < p.Scale() && lo == j * p.tileN && 0 <= lo
    ensures Sum(PermittedIn(p), Weighted(p, exp2, next, d), 0, lo)
      + SumAll(TileProducts(p, j, TileProbs(p, exp2, j, next), d)) ==
      Sum(PermittedIn(p), Weighted(p, exp2, next, d), 0, lo + p.tileN)
  {
    TileColumn(p, exp2, j, next, d, lo);
    SumSplit(PermittedIn(p), Weighted(p, exp2, next, d), 0, lo, lo + p.tileN);
  }

  /** One round of the loop: the online-softmax update with tile j. */
  method Update(p: Problem, exp2: real -> real, j: int, m: Ext, l: real, acc: seq<real>, ghost lo: int)
    returns (next: Ext, l': real, acc': seq<real>)
    requires p.Valid() && IsExp2(exp2) && 0 <= j < p.Tiles() && 0.0 < p.Scale() && lo == j * p.tileN && 0 <= lo
    requires Accumulated(p, exp2, lo, m, l, acc)
    ensures next.Fin? && Accumulated(p, exp2, lo + p.tileN, next, l', acc')
  {
    var qk := TileScores(p, j);
    next := MaxExt(m, ScaleExt(MaxAll(qk), p.Scale()));
    MaximumStep(p, j, m, lo);
    FirstKey(p, next, lo + p.tileN);
    l', acc' := Accumulate(p, exp2, j, m, l, acc, next.value, lo);
  }

  /** The sums of one round, given the new maximum. */
  method Accumulate(p: Problem, exp2: real -> real, j: int, m: Ext, l: real, acc: seq<real>, next: real, ghost lo: int)
    returns (l': real, acc': seq<real>)
    requires p.Valid() && IsExp2(exp2) && 0 <= j < p.Tiles() && 0.0 < p.Scale() && lo == j * p.tileN && 0 <= lo
    requires Accumulated(p, exp2, lo, m, l, acc)
    ensures l' == Sum(PermittedIn(p), Weight(p, exp2, next), 0, lo + p.tileN)
    ensures |acc'| == p.tileD
    ensures forall d | 0 <= d < p.tileD :: acc'[d] == Sum(PermittedIn(p), Weighted(p, exp2, next, d), 0, lo + p.tileN)
  {
    hide Sum, PermittedIn, Weighted, TileProbs, IsExp2, SumAll, Weight, Exp;
    var probs := TileProbs(p, exp2, j, next);
    var alpha := Exp(exp2, m, next);
    l' := l * alpha + SumAll(probs);
    UpdateWeights(p, exp2, j, m, l, next, lo);
    acc' := UpdateColumns(p, exp2, j, m, acc, next, probs, alpha, lo);
  }

  /** Every column of the accumulator. */
  method UpdateColumns(p: Problem, exp2: real -> real, j: int, m: Ext, acc: seq<real>, next: real, probs: seq<real>,
                       alpha: real, ghost lo: int)
    returns (acc': seq<real>)
    requires p.Valid() && IsExp2(exp2) && 0 <= j < p.Tiles() && 0.0 < p.Scale() && lo == j * p.tileN && 0 <= lo
    requires |acc| == p.tileD && probs == TileProbs(p, exp2, j, next) && alpha == Exp(exp2, m, next)
    requires m.NegInf? ==> (forall d | 0 <= d < p.tileD :: acc[d] == 0.0) && NonePermitted(p, lo)
    requires m.Fin? ==> forall d | 0 <= d < p.tileD ::
      acc[d] == Sum(PermittedIn(p), Weighted(p, exp2, m.value, d), 0, lo)
    ensures |acc'| == p.tileD
    ensures forall d | 0 <= d < p.tileD :: acc'[d] == Sum(PermittedIn(p), Weighted(p, exp2, next, d), 0, lo + p.tileN)
  {
    acc' := [];
    for d := 0 to p.tileD
      invariant |acc'| == d
      invariant forall e | 0 <= e < d :: acc'[e] == Sum(PermittedIn(p), Weighted(p, exp2, next, e), 0, lo + p.tileN)
    {
      var a := UpdateElement(p, exp2, j, m, acc[d], next, d, probs, alpha, lo);
      acc' := acc' + [a];
    }
  }

  method UpdateElement(p: Problem, exp2: real -> real, j: int, ghost m: Ext, a: real, ghost next: real, d: int,
                       probs: seq<real>, alpha: real, ghost lo: int)
    returns (a': real)
    requires p.Valid() && IsExp2(exp2) && 0 <= j < p.Tiles() && 0.0 < p.Scale() && lo == j * p.tileN && 0 <= lo
    requires probs == TileProbs(p, exp2, j, next) && alpha == Exp(exp2, m, next)
    requires m.NegInf? ==> a == 0.0 && NonePermitted(p, lo)
    requires m.Fin? ==> a == Sum(PermittedIn(p), Weighted(p, exp2, m.value, d), 0, lo)
    ensures a' == Sum(PermittedIn(p), Weighted(p, exp2, next, d), 0, lo + p.tileN)
  {
    hide Sum, PermittedIn, Weighted, TileProbs, IsExp2, NonePermitted, SumAll, TileProducts;
    CarryColumn(p, exp2, m, a, next, d, lo);
    UpdateColumn(p, exp2, j, next, d, lo);
    a' := a * alpha + SumAll(TileProducts(p, j, probs, d));
  }

  /** Key 0 is permitted, and in the first tile. */
  lemma FirstKey(p: Problem, m: Ext, hi: int)
    requires p.Valid() && IsMaximum(p, m, hi) && 0 < hi
    ensures m.Fin?
  {
    assert p.Permitted(0);
  }

  /** Attention for one query row. */
  method FmhaRow(p: Problem, exp2: real -> real) returns (out: seq<real>)
    requires p.Valid() && IsExp2(exp2)
    ensures |out| == p.tileD
    ensures 0.0 < Sum(PermittedIn(p), Weight(p, exp2, 0.0), 0, p.keys)
    ensures forall d | 0 <= d < p.tileD ::
      out[d] == Sum(PermittedIn(p), Weighted(p, exp2, 0.0, d), 0, p.keys) /
        Sum(PermittedIn(p), Weight(p, exp2, 0.0), 0, p.keys)
  {
    var m, l, acc := NegInf, 0.0, seq(p.tileD, d => 0.0);
    var tc := p.Tiles();
    VisitedTiles(p, 0);
    ScalePositive(p.qkScale, p.invLog2);
    ghost var lo := 0;
    for j := 0 to tc
      invariant 0 <= lo == j * p.tileN
      invariant Accumulated(p, exp2, lo, m, l, acc)
      invariant 0 < j ==> m.Fin?
    {
      m, l, acc := Update(p, exp2, j, m, l, acc, lo);
      assert lo + p.tileN == (j + 1) * p.tileN;
      lo := lo + p.tileN;
    }
    Finish(p, exp2, lo, m, l, acc);
    out := seq(p.tileD, d requires 0 <= d < p.tileD => acc[d] / l);
  }

  lemma ScalePositive(a: real, b: real)
    requires 0.0 < a && 0.0 < b
    ensures 0.0 < a * b
  {
  }

  /** The quotient of the accumulators is the softmax-weighted sum, whatever the maximum. */
  lemma Finish(p: Problem, exp2: real -> real, hi: int, m: Ext, l: real, acc: seq<real>)
    requires p.Valid() && IsExp2(exp2) && hi == p.Tiles() * p.tileN && Accumulated(p, exp2, hi, m, l, acc)
    ensures 0.0 < l && 0.0 < Sum(PermittedIn(p), Weight(p, exp2, 0.0), 0, p.keys)
    ensures forall d | 0 <= d < p.tileD ::
      acc[d] / l == Sum(PermittedIn(p), Weighted(p, exp2, 0.0, d), 0, p.keys) /
        Sum(PermittedIn(p), Weight(p, exp2, 0.0), 0, p.keys)
  {
    VisitedTiles(p, 0);
    assert p.Permitted(0);
    Monotone(1, p.Tiles(), p.tileN);
    FirstKey(p, m, hi);
    var den := Sum(PermittedIn(p), Weight(p, exp2, 0.0), 0, p.keys);
    FinishWeights(p, exp2, hi, m.value, l, den);
    forall d | 0 <= d < p.tileD
      ensures acc[d] / l == Sum(PermittedIn(p), Weighted(p, exp2, 0.0, d), 0, p.keys) / den
    {
      FinishColumn(p, exp2, hi, m.value, d, acc[d], den, l);
    }
  }

  lemma FinishWeights(p: Problem, exp2: real -> real, hi: int, m: real, l: real, den: real)
    requires p.Valid() && IsExp2(exp2) && hi == p.Tiles() * p.tileN
    requires l == Sum(PermittedIn(p), Weight(p, exp2, m), 0, hi)
    requires den == Sum(PermittedIn(p), Weight(p, exp2, 0.0), 0, p.keys)
    ensures 0.0 < den && 0.0 < exp2(0.0 - m) && l == den * exp2(0.0 - m) && 0.0 < l
  {
    SameKeys(p, Weight(p, exp2, m), hi);
    RescaleWeights(p, exp2, 0.0, m, p.keys);
    ExpAdd(exp2, 0.0 - m, 0.0);
    var w := Weight(p, exp2, 0.0);
    forall n ensures 0.0 < w(n) {
      ExpAdd(exp2, Exponent(p, n) - 0.0, 0.0);
    }
    assert p.Permitted(0);
    SumPositive(PermittedIn(p), w, 0, p.keys, 0);
    ScalePositive(den, exp2(0.0 - m));
  }

  lemma FinishColumn(p: Problem, exp2: real -> real, hi: int, m: real, d: int, a: real, den: real, l: real)
    requires p.Valid() && IsExp2(exp2) && hi == p.Tiles() * p.tileN
    requires a == Sum(PermittedIn(p), Weighted(p, exp2, m, d), 0, hi)
    requires 0.0 < den && 0.0 < exp2(0.0 - m) && l == den * exp2(0.0 - m) && 0.0 < l
    ensures a / l == Sum(PermittedIn(p), Weighted(p, exp2, 0.0, d), 0, p.keys) / den
  {
    SameKeys(p, Weighted(p, exp2, m, d), hi);
    RescaleColumn(p, exp2, 0.0, m, d, p.keys);
    Cancel(Sum(PermittedIn(p), Weighted(p, exp2, 0.0, d), 0, p.keys), den, exp2(0.0 - m));
  }

  lemma Cancel(a: real, b: real, k: real)
    requires 0.0 < b && 0.0 < k
    ensures 0.0 < b * k && a * k / (b * k) == a / b
  {
    assert a == a / b * b;
    assert a * k == a / b * (b * k);
  }

  /** The visited keys and all keys: the permitted ones are the same. */
  lemma SameKeys(p: Problem, f: int -> real, hi: int)
    requires p.Valid() && hi == p.Tiles() * p.tileN
    ensures Sum(PermittedIn(p), f, 0, hi) == Sum(PermittedIn(p), f, 0, p.keys)
  {
    VisitedTiles(p, 0);
    Monotone(0, p.Tiles(), p.tileN);
    if hi <= p.keys {
      forall n | hi <= n < p.keys ensures !p.Permitted(n) {
        VisitedTiles(p, n);
      }
      SumSplit(PermittedIn(p), f, 0, hi, p.keys);
      SumNone(PermittedIn(p), f, hi, p.keys);
    } else {
      SumSplit(PermittedIn(p), f, 0, p.keys, hi);
      SumNone(PermittedIn(p), f, p.keys, hi);
    }
  }
}
