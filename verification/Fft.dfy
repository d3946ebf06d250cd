/**
 The three-factor FFT kernel on one row.

 A tile is its flat contents, in row-major order, so a reshape changes nothing; the factors
 say which shape a tile has.  Main result: over any commutative ring in which w^N is one, for
 N = F0 F1 F2, the pipeline of contractions, twiddles and permutations yields
 y[k] = sum of x[n] w^(k n) in natural order; and the kernel's arithmetic on real and
 imaginary tiles is that pipeline over the complex numbers of any commutative ring.
 */
module Fft {
  import opened Bits
  import opened Ring

  // ---------------------------------------------------------------- indices

  /** The position of element (i, j, k) in a tile whose last two dimensions are d1 and d2. */
  function Flat(i: nat, j: nat, k: nat, d1: nat, d2: nat): nat {
    (i * d1 + j) * d2 + k
  }

  lemma FlatUp(i: int, j: int, n: nat, d: nat)
    requires 0 <= i < n && 0 <= j < d
    ensures 0 <= i * d + j < n * d
    ensures (i * d + j) / d == i && (i * d + j) % d == j
  {
    ModUnique(i * d + j, d, i, j);
    assert n * d == i * d + (n - i) * d;
    AtLeastOnce(d, n - i);
  }

  lemma FlatIndex(i: nat, j: nat, k: nat, d0: nat, d1: nat, d2: nat)
    requires i < d0 && j < d1 && k < d2
    ensures Flat(i, j, k, d1, d2) < d0 * d1 * d2
    ensures Flat(i, j, k, d1, d2) / d2 == i * d1 + j && Flat(i, j, k, d1, d2) % d2 == k
    ensures (i * d1 + j) / d1 == i && (i * d1 + j) % d1 == j
  {
    FlatUp(i, j, d0, d1);
    FlatUp(i * d1 + j, k, d0 * d1, d2);
  }

  /** The first dimension against the two others at once. */
  lemma FlatRows(i: nat, j: nat, k: nat, d0: nat, d1: nat, d2: nat)
    requires i < d0 && j < d1 && k < d2
    ensures Flat(i, j, k, d1, d2) == i * (d1 * d2) + (j * d2 + k)
    ensures Flat(i, j, k, d1, d2) / (d1 * d2) == i && Flat(i, j, k, d1, d2) % (d1 * d2) == j * d2 + k
  {
    FlatUp(j, k, d1, d2);
    FlatUp(i, j * d2 + k, d0, d1 * d2);
    assert (i * d1 + j) * d2 == i * (d1 * d2) + j * d2;
  }

  function At<T>(r: Ring<T>, s: seq<T>, i: int): T {
    if 0 <= i < |s| then s[i] else r.zero
  }

  // ---------------------------------------------------------------- tile operations

  /** The sum of the products of the elements of `w` and `x` at the given positions. */
  function DotAt<T>(r: Ring<T>, w: seq<T>, x: seq<T>, m: nat, u: int -> int, v: int -> int): T {
    Sum(r, m, Products(r, w, x, u, v))
  }

  function Products<T>(r: Ring<T>, w: seq<T>, x: seq<T>, u: int -> int, v: int -> int): int -> T {
    s => r.mul(At(r, w, u(s)), At(r, x, v(s)))
  }

  /** Row i of `w` times column j of `x`. */
  function Dots<T>(r: Ring<T>, w: seq<T>, x: seq<T>, m: nat, p: nat): (int, int) -> T {
    (i, j) => DotAt(r, w, x, m, s => i * m + s, s => s * p + j)
  }

  /** A tile with n elements in rows of length p. */
  function Build<T>(zero: T, n: nat, p: nat, f: (int, int) -> T): (y: seq<T>)
    ensures |y| == n
  {
    seq(n, t => if p == 0 then zero else f(t / p, t % p))
  }

  /** The product of an m-by-m and an m-by-p tile. */
  function MatMul<T>(r: Ring<T>, w: seq<T>, x: seq<T>, m: nat, p: nat): (y: seq<T>)
    ensures |y| == m * p
  {
    Build(r.zero, m * p, p, Dots(r, w, x, m, p))
  }

  /** The elements of a tile, rearranged. */
  function Gather<T>(r: Ring<T>, x: seq<T>, index: int -> int): (y: seq<T>)
    ensures |y| == |x|
  {
    seq(|x|, t => At(r, x, index(t)))
  }

  /** Every row of length q is multiplied by one element. */
  function ScaleRows<T>(r: Ring<T>, t: seq<T>, x: seq<T>, q: nat): (y: seq<T>)
    requires 0 < q
    ensures |y| == |x|
  {
    seq(|x|, i requires 0 <= i < |x| => r.mul(At(r, t, i / q), x[i]))
  }

  /** Permute (d0, d1, d2) to (d1, d2, d0). */
  function Rotate<T>(r: Ring<T>, x: seq<T>, d0: nat, d1: nat, d2: nat): (y: seq<T>)
    requires 0 < d0 && 0 < d1 && 0 < d2
    ensures |y| == |x|
  {
    Gather(r, x, t => if t < 0 then 0 else Flat(t % d0, t / d0 / d2, t / d0 % d2, d1, d2))
  }

  /** Permute (d0, d1, d2) to (d0, d2, d1). */
  function SwapLast<T>(r: Ring<T>, x: seq<T>, d0: nat, d1: nat, d2: nat): (y: seq<T>)
    requires 0 < d0 && 0 < d1 && 0 < d2
    ensures |y| == |x|
  {
    Gather(r, x, t => if t < 0 then 0 else Flat(t / d1 / d2, t % d1, t / d1 % d2, d1, d2))
  }

  lemma MatMulAt<T>(r: Ring<T>, w: seq<T>, x: seq<T>, m: nat, d1: nat, d2: nat, i: nat, j: nat, k: nat)
    requires i < m && j < d1 && k < d2
    ensures At(r, MatMul(r, w, x, m, d1 * d2), Flat(i, j, k, d1, d2)) ==
      Sum(r, m, s => r.mul(At(r, w, i * m + s), At(r, x, s * (d1 * d2) + (j * d2 + k))))
  {
    FlatRows(i, j, k, m, d1, d2);
    FlatIndex(i, j, k, m, d1, d2);
    assert m * d1 * d2 == m * (d1 * d2);
    DotIs(r, w, x, m, d1 * d2, i, j * d2 + k);
  }

  lemma DotIs<T>(r: Ring<T>, w: seq<T>, x: seq<T>, m: nat, p: nat, i: int, j: int)
    ensures Dots(r, w, x, m, p)(i, j) == Sum(r, m, s => r.mul(At(r, w, i * m + s), At(r, x, s * p + j)))
  {
    var u, v: int -> int := s => i * m + s, s => s * p + j;
    SumEqual(r, m, Products(r, w, x, u, v), s => r.mul(At(r, w, i * m + s), At(r, x, s * p + j)));
  }

  lemma ContractAt<T>(r: Ring<T>, w: seq<T>, x: seq<T>, m: nat, d1: nat, d2: nat, i: nat, j: nat, k: nat)
    requires i < m && j < d1 && k < d2
    ensures At(r, MatMul(r, w, x, m, d1 * d2), Flat(i, j, k, d1, d2)) ==
      Sum(r, m, s => r.mul(At(r, w, i * m + s), At(r, x, if 0 <= s then Flat(s, j, k, d1, d2) else 0)))
  {
    MatMulAt(r, w, x, m, d1, d2, i, j, k);
    var f: int -> T := s => r.mul(At(r, w, i * m + s), At(r, x, s * (d1 * d2) + (j * d2 + k)));
    var g: int -> T := s => r.mul(At(r, w, i * m + s), At(r, x, if 0 <= s then Flat(s, j, k, d1, d2) else 0));
    forall s | 0 <= s < m ensures f(s) == g(s) {
      FlatRows(s, j, k, m, d1, d2);
    }
    SumEqual(r, m, f, g);
  }

  lemma ScaleAt<T>(r: Ring<T>, t: seq<T>, x: seq<T>, i: nat, q: nat)
    requires i < |x| && 0 < q
    ensures At(r, ScaleRows(r, t, x, q), i) == r.mul(At(r, t, i / q), At(r, x, i))
  {
  }

  lemma Reordered(a: nat, b: nat, c: nat)
    ensures b * c * a == a * b * c && a * c * b == a * b * c
  {
    assert b * c * a == (b * a) * c;
    assert a * c * b == (a * b) * c;
  }

  lemma RotateAt<T>(r: Ring<T>, x: seq<T>, d0: nat, d1: nat, d2: nat, i: nat, j: nat, k: nat)
    requires |x| == d0 * d1 * d2 && i < d0 && j < d1 && k < d2
    ensures At(r, Rotate(r, x, d0, d1, d2), Flat(j, k, i, d2, d0)) == At(r, x, Flat(i, j, k, d1, d2))
  {
    FlatIndex(j, k, i, d1, d2, d0);
    Reordered(d0, d1, d2);
  }

  lemma SwapLastAt<T>(r: Ring<T>, x: seq<T>, d0: nat, d1: nat, d2: nat, i: nat, j: nat, k: nat)
    requires |x| == d0 * d1 * d2 && i < d0 && j < d1 && k < d2
    ensures At(r, SwapLast(r, x, d0, d1, d2), Flat(i, k, j, d2, d1)) == At(r, x, Flat(i, j, k, d1, d2))
  {
    FlatIndex(i, k, j, d0, d2, d1);
    Reordered(d0, d1, d2);
  }

  // ---------------------------------------------------------------- the kernel, over a ring

  function Times(a: nat, b: nat): (p: nat)
    ensures p == a * b
  {
    a * b
  }

  function Quotient(a: nat, b: nat): (q: nat)
    requires 0 < b
    ensures q == a / b
  {
    a / b
  }

  function Remainder(a: nat, b: nat): (q: nat)
    requires 0 < b
    ensures q == a % b < b
  {
    a % b
  }

  /** Entry (i, j) is the root of unity of order `factor` to the power i j; `w` has order `n`. */
  function Twiddles<T>(r: Ring<T>, w: T, n: nat, rows: nat, cols: nat, factor: nat): (t: seq<T>)
    requires 0 < cols && 0 < factor
    ensures |t| == rows * cols
  {
    seq(rows * cols, t requires 0 <= t < rows * cols =>
      Pow(r, w, Times(Quotient(n, factor), Times(Quotient(t, cols), Remainder(t, cols)))))
  }

  lemma TwiddleAt<T>(r: Ring<T>, w: T, n: nat, rows: nat, cols: nat, factor: nat, i: nat, j: nat)
    requires i < rows && j < cols && 0 < factor
    ensures At(r, Twiddles(r, w, n, rows, cols, factor), i * cols + j) == Pow(r, w, n / factor * (i * j))
  {
    FlatUp(i, j, rows, cols);
  }

  datatype Factors = Factors(f0: nat, f1: nat, f2: nat) {
    predicate Valid() {
      0 < f0 && 0 < f1 && 0 < f2
    }

    function N(): nat {
      f0 * f1 * f2
    }

    function F01(): nat {
      f0 * f1
    }

    function F12(): nat {
      f1 * f2
    }

    function F20(): nat {
      f2 * f0
    }
  }

  datatype Tables<!T> = Tables(w0: seq<T>, w1: seq<T>, w2: seq<T>, t0: seq<T>, t1: seq<T>)

  function MakeTwiddles<T>(r: Ring<T>, w: T, f: Factors): Tables<T>
    requires f.Valid()
  {
    Tables(
      Twiddles(r, w, f.N(), f.f0, f.f0, f.f0),
      Twiddles(r, w, f.N(), f.f1, f.f1, f.f1),
      Twiddles(r, w, f.N(), f.f2, f.f2, f.f2),
      Twiddles(r, w, f.N(), f.f0, f.f1 * f.f2, f.N()),
      Twiddles(r, w, f.N(), f.f1, f.f2, f.f1 * f.f2))
  }

  function Stage0<T>(r: Ring<T>, x: seq<T>, t: Tables<T>, f: Factors): seq<T>
    requires f.Valid()
  {
    Rotate(r, ScaleRows(r, t.t0, MatMul(r, t.w0, x, f.f0, f.F12()), 1), f.f0, f.f1, f.f2)
  }

  function Stage1<T>(r: Ring<T>, x: seq<T>, t: Tables<T>, f: Factors): seq<T>
    requires f.Valid()
  {
    Rotate(r, ScaleRows(r, t.t1, MatMul(r, t.w1, x, f.f1, f.F20()), f.f0), f.f1, f.f2, f.f0)
  }

  function Stage2<T>(r: Ring<T>, x: seq<T>, t: Tables<T>, f: Factors): seq<T>
    requires f.Valid()
  {
    SwapLast(r, MatMul(r, t.w2, x, f.f2, f.F01()), f.f2, f.f0, f.f1)
  }

  function Pipeline<T>(r: Ring<T>, x: seq<T>, t: Tables<T>, f: Factors): seq<T>
    requires f.Valid()
  {
    Stage2(r, Stage1(r, Stage0(r, x, t, f), t, f), t, f)
  }

  lemma ThreeFactors(a: nat, b: nat, c: nat)
    ensures a * (b * c) == a * b * c
  {
  }

  lemma Stage0At<T>(r: Ring<T>, x: seq<T>, t: Tables<T>, f: Factors, b: nat, c: nat, k0: nat)
    requires f.Valid() && b < f.f1 && c < f.f2 && k0 < f.f0
    ensures At(r, Stage0(r, x, t, f), Flat(b, c, k0, f.f2, f.f0)) ==
      r.mul(At(r, t.t0, Flat(k0, b, c, f.f1, f.f2)),
            Sum(r, f.f0, a => r.mul(At(r, t.w0, k0 * f.f0 + a),
                                    At(r, x, if 0 <= a then Flat(a, b, c, f.f1, f.f2) else 0))))
  {
    var y := MatMul(r, t.w0, x, f.f0, f.F12());
    ThreeFactors(f.f0, f.f1, f.f2);
    ContractAt(r, t.w0, x, f.f0, f.f1, f.f2, k0, b, c);
    FlatIndex(k0, b, c, f.f0, f.f1, f.f2);
    ScaleAt(r, t.t0, y, Flat(k0, b, c, f.f1, f.f2), 1);
    RotateAt(r, ScaleRows(r, t.t0, y, 1), f.f0, f.f1, f.f2, k0, b, c);
  }

  lemma Stage1At<T>(r: Ring<T>, x: seq<T>, t: Tables<T>, f: Factors, c: nat, k0: nat, k1: nat)
    requires f.Valid() && c < f.f2 && k0 < f.f0 && k1 < f.f1
    ensures At(r, Stage1(r, x, t, f), Flat(c, k0, k1, f.f0, f.f1)) ==
      r.mul(At(r, t.t1, k1 * f.f2 + c),
            Sum(r, f.f1, b => r.mul(At(r, t.w1, k1 * f.f1 + b),
                                    At(r, x, if 0 <= b then Flat(b, c, k0, f.f2, f.f0) else 0))))
  {
    var y := MatMul(r, t.w1, x, f.f1, f.F20());
    ThreeFactors(f.f1, f.f2, f.f0);
    ContractAt(r, t.w1, x, f.f1, f.f2, f.f0, k1, c, k0);
    FlatIndex(k1, c, k0, f.f1, f.f2, f.f0);
    ScaleAt(r, t.t1, y, Flat(k1, c, k0, f.f2, f.f0), f.f0);
    RotateAt(r, ScaleRows(r, t.t1, y, f.f0), f.f1, f.f2, f.f0, k1, c, k0);
  }

  lemma Stage2At<T>(r: Ring<T>, x: seq<T>, t: Tables<T>, f: Factors, k2: nat, k1: nat, k0: nat)
    requires f.Valid() && k2 < f.f2 && k1 < f.f1 && k0 < f.f0
    ensures At(r, Stage2(r, x, t, f), Flat(k2, k1, k0, f.f1, f.f0)) ==
      Sum(r, f.f2, c => r.mul(At(r, t.w2, k2 * f.f2 + c), At(r, x, if 0 <= c then Flat(c, k0, k1, f.f0, f.f1) else 0)))
  {
    var y := MatMul(r, t.w2, x, f.f2, f.F01());
    ThreeFactors(f.f2, f.f0, f.f1);
    ContractAt(r, t.w2, x, f.f2, f.f0, f.f1, k2, k0, k1);
    SwapLastAt(r, y, f.f2, f.f0, f.f1, k2, k0, k1);
  }

  // ---------------------------------------------------------------- the algebra

  /** One term of the triple sum, as the kernel multiplies it up. */
  function Term<T>(r: Ring<T>, x: seq<T>, t: Tables<T>, f: Factors, k0: int, k1: int, k2: int, a: int, b: int,
                   c: int): T {
    if !(0 <= k0 && 0 <= a && 0 <= b && 0 <= c) then r.zero
    else
      r.mul(At(r, t.w2, k2 * f.f2 + c), r.mul(At(r, t.t1, k1 * f.f2 + c), r.mul(At(r, t.w1, k1 * f.f1 + b),
        r.mul(At(r, t.t0, Flat(k0, b, c, f.f1, f.f2)),
              r.mul(At(r, t.w0, k0 * f.f0 + a), At(r, x, Flat(a, b, c, f.f1, f.f2)))))))
  }

  /** Two factors in front of a sum move into its terms. */
  lemma ScaleTwice<T(!new)>(r: Ring<T>, n: nat, g: int -> T, p: T, q: T)
    requires IsRing(r)
    ensures r.mul(p, r.mul(q, Sum(r, n, g))) == Sum(r, n, i => r.mul(p, r.mul(q, g(i))))
  {
    SumScale(r, n, g, q);
    var h: int -> T := i => r.mul(q, g(i));
    SumScale(r, n, h, p);
    SumEqual(r, n, i => r.mul(p, h(i)), i => r.mul(p, r.mul(q, g(i))));
  }

  /** The innermost sum moves out, and the outermost one in. */
  function Over0<T>(r: Ring<T>, m: nat, g: (int, int, int) -> T, b: int, c: int): T {
    Sum(r, m, a => g(a, b, c))
  }

  function Over2<T>(r: Ring<T>, p: nat, g: (int, int, int) -> T, a: int, b: int): T {
    Sum(r, p, c => g(a, b, c))
  }

  lemma SwapInner<T(!new)>(r: Ring<T>, m: nat, p: nat, g: (int, int, int) -> T, b: int)
    requires IsRing(r)
    ensures Sum(r, p, c => Over0(r, m, g, b, c)) == Sum(r, m, a => Over2(r, p, g, a, b))
  {
    var f: (int, int) -> T := (c, a) => g(a, b, c);
    SumSwap(r, p, m, f);
    var left, left', right, right': int -> T :=
      c => Over0(r, m, g, b, c), c => Sum(r, m, a => f(c, a)), a => Over2(r, p, g, a, b), a => Sum(r, p, c => f(c, a));
    forall c | 0 <= c < p ensures left(c) == left'(c) {
      SumEqual(r, m, a => g(a, b, c), a => f(c, a));
    }
    forall a | 0 <= a < m ensures right(a) == right'(a) {
      SumEqual(r, p, c => g(a, b, c), c => f(c, a));
    }
    SumEqual(r, p, left, left');
    SumEqual(r, m, right, right');
  }

  lemma TripleSwap<T(!new)>(r: Ring<T>, m: nat, n: nat, p: nat, g: (int, int, int) -> T)
    requires IsRing(r)
    ensures Sum(r, p, c => Sum(r, n, b => Over0(r, m, g, b, c))) == Sum(r, m, a => Sum(r, n, b => Over2(r, p, g, a, b)))
  {
    var x, y: (int, int) -> T := (c, b) => Over0(r, m, g, b, c), (b, a) => Over2(r, p, g, a, b);
    SumSwap(r, p, n, x);
    SumSwap(r, n, m, y);
    var inner, outer: int -> T := b => Sum(r, p, c => x(c, b)), b => Sum(r, m, a => y(b, a));
    forall b | 0 <= b < n ensures inner(b) == outer(b) {
      SwapInner(r, m, p, g, b);
      SumEqual(r, p, c => x(c, b), c => Over0(r, m, g, b, c));
      SumEqual(r, m, a => y(b, a), a => Over2(r, p, g, a, b));
    }
    SumEqual(r, n, inner, outer);
    var left, left', right, right': int -> T :=
      c => Sum(r, n, b => Over0(r, m, g, b, c)), c => Sum(r, n, b => x(c, b)),
      a => Sum(r, n, b => Over2(r, p, g, a, b)), a => Sum(r, n, b => y(b, a));
    forall c | 0 <= c < p ensures left(c) == left'(c) {
      SumEqual(r, n, b => Over0(r, m, g, b, c), b => x(c, b));
    }
    forall a | 0 <= a < m ensures right(a) == right'(a) {
      SumEqual(r, n, b => Over2(r, p, g, a, b), b => y(b, a));
    }
    SumEqual(r, p, left, left');
    SumEqual(r, m, right, right');
  }

  /** Element (a, b, c) of the input goes into every output with one term. */
  lemma InnerSum<T(!new)>(r: Ring<T>, x: seq<T>, t: Tables<T>, f: Factors, k0: nat, k1: nat, k2: nat, b: nat, c: nat)
    requires IsRing(r) && f.Valid() && k0 < f.f0 && b < f.f1 && c < f.f2
    ensures r.mul(At(r, t.w2, k2 * f.f2 + c), r.mul(At(r, t.t1, k1 * f.f2 + c),
              r.mul(At(r, t.w1, k1 * f.f1 + b), At(r, Stage0(r, x, t, f), Flat(b, c, k0, f.f2, f.f0))))) ==
            Sum(r, f.f0, a => Term(r, x, t, f, k0, k1, k2, a, b, c))
  {
    Stage0At(r, x, t, f, b, c, k0);
    var h: int -> T := a => r.mul(At(r, t.w0, k0 * f.f0 + a),
                                  At(r, x, if 0 <= a then Flat(a, b, c, f.f1, f.f2) else 0));
    var w1, t0 := At(r, t.w1, k1 * f.f1 + b), At(r, t.t0, Flat(k0, b, c, f.f1, f.f2));
    var w2, t1 := At(r, t.w2, k2 * f.f2 + c), At(r, t.t1, k1 * f.f2 + c);
    var g: int -> T := a => r.mul(w1, r.mul(t0, h(a)));
    ScaleTwice(r, f.f0, h, w1, t0);
    ScaleTwice(r, f.f0, g, w2, t1);
    SumEqual(r, f.f0, a => r.mul(w2, r.mul(t1, g(a))), a => Term(r, x, t, f, k0, k1, k2, a, b, c));
  }

  lemma MiddleSum<T(!new)>(r: Ring<T>, x: seq<T>, t: Tables<T>, f: Factors, k0: nat, k1: nat, k2: nat, c: nat,
                           g: (int, int, int) -> T)
    requires IsRing(r) && f.Valid() && k0 < f.f0 && k1 < f.f1 && c < f.f2
    requires forall a, b, c :: g(a, b, c) == Term(r, x, t, f, k0, k1, k2, a, b, c)
    ensures r.mul(At(r, t.w2, k2 * f.f2 + c),
                  At(r, Stage1(r, Stage0(r, x, t, f), t, f), Flat(c, k0, k1, f.f0, f.f1))) ==
      Sum(r, f.f1, b => Over0(r, f.f0, g, b, c))
  {
    var y := Stage0(r, x, t, f);
    Stage1At(r, y, t, f, c, k0, k1);
    var h: int -> T := b => r.mul(At(r, t.w1, k1 * f.f1 + b),
                                  At(r, y, if 0 <= b then Flat(b, c, k0, f.f2, f.f0) else 0));
    var w2, t1 := At(r, t.w2, k2 * f.f2 + c), At(r, t.t1, k1 * f.f2 + c);
    ScaleTwice(r, f.f1, h, w2, t1);
    var left, right: int -> T := b => r.mul(w2, r.mul(t1, h(b))), b => Over0(r, f.f0, g, b, c);
    forall b | 0 <= b < f.f1 ensures left(b) == right(b) {
      InnerSum(r, x, t, f, k0, k1, k2, b, c);
      SumEqual(r, f.f0, a => g(a, b, c), a => Term(r, x, t, f, k0, k1, k2, a, b, c));
    }
    SumEqual(r, f.f1, left, right);
  }

  /** Every output element is a triple sum over the input. */
  lemma PipelineAt<T(!new)>(r: Ring<T>, x: seq<T>, t: Tables<T>, f: Factors, k0: nat, k1: nat, k2: nat,
                            g: (int, int, int) -> T)
    requires IsRing(r) && f.Valid() && k0 < f.f0 && k1 < f.f1 && k2 < f.f2
    requires forall a, b, c :: g(a, b, c) == Term(r, x, t, f, k0, k1, k2, a, b, c)
    ensures At(r, Pipeline(r, x, t, f), Flat(k2, k1, k0, f.f1, f.f0)) ==
      Sum(r, f.f2, c => Sum(r, f.f1, b => Over0(r, f.f0, g, b, c)))
  {
    var y := Stage1(r, Stage0(r, x, t, f), t, f);
    Stage2At(r, y, t, f, k2, k1, k0);
    var left, right: int -> T :=
      c => r.mul(At(r, t.w2, k2 * f.f2 + c), At(r, y, if 0 <= c then Flat(c, k0, k1, f.f0, f.f1) else 0)),
      c => Sum(r, f.f1, b => Over0(r, f.f0, g, b, c));
    forall c | 0 <= c < f.f2 ensures left(c) == right(c) {
      MiddleSum(r, x, t, f, k0, k1, k2, c, g);
    }
    SumEqual(r, f.f2, left, right);
  }

  // ---------------------------------------------------------------- the exponents

  lemma Exponent0(f1: int, f2: int, k0: int, a: int, b: int, c: int)
    ensures k0 * ((a * f1 + b) * f2 + c) == f1 * f2 * (k0 * a) + k0 * (b * f2 + c)
  {
    assert (a * f1 + b) * f2 + c == a * (f1 * f2) + (b * f2 + c);
    assert k0 * (a * (f1 * f2)) == f1 * f2 * (k0 * a);
  }

  lemma Exponent1(f0: int, f1: int, f2: int, k1: int, a: int, b: int, c: int)
    ensures f0 * k1 * ((a * f1 + b) * f2 + c) == f0 * (k1 * c) + f0 * f2 * (k1 * b) + f0 * f1 * f2 * (k1 * a)
  {
    Exponent0(f1, f2, k1, a, b, c);
    assert k1 * (b * f2 + c) == f2 * (k1 * b) + k1 * c;
    var p, q, s := f1 * f2 * (k1 * a), f2 * (k1 * b), k1 * c;
    assert f0 * (p + q + s) == f0 * p + f0 * q + f0 * s;
    assert f0 * p == f0 * f1 * f2 * (k1 * a) && f0 * q == f0 * f2 * (k1 * b);
    assert f0 * k1 * ((a * f1 + b) * f2 + c) == f0 * (k1 * ((a * f1 + b) * f2 + c));
  }

  lemma Exponent2(f0: int, f1: int, f2: int, k2: int, a: int, b: int, c: int)
    ensures f0 * f1 * k2 * ((a * f1 + b) * f2 + c) ==
      f0 * f1 * (k2 * c) + f0 * f1 * f2 * (k2 * b) + f0 * f1 * f2 * (f1 * (k2 * a))
  {
    var g := f0 * f1;
    Exponent1(g, f1, f2, k2, a, b, c);
    assert g * f1 * f2 * (k2 * a) == f0 * f1 * f2 * (f1 * (k2 * a)) by {
      assert g * f1 * f2 == g * f2 * f1;
      assert g * f2 * f1 * (k2 * a) == g * f2 * (f1 * (k2 * a));
    }
  }

  /** The twiddle exponents add up to k n, but for a multiple of N. */
  lemma Exponents(f: Factors, k0: nat, k1: nat, k2: nat, a: nat, b: nat, c: nat)
    requires f.Valid()
    ensures var q := k1 * a + f.f1 * (k2 * a) + k2 * b;
      Flat(k2, k1, k0, f.f1, f.f0) * Flat(a, b, c, f.f1, f.f2) ==
        f.f0 * f.f1 * (k2 * c) + f.f0 * (k1 * c) + f.f0 * f.f2 * (k1 * b) + k0 * (b * f.f2 + c) + f.f1 * f.f2 * (k0 * a)
          + f.N() * q
  {
    var n := Flat(a, b, c, f.f1, f.f2);
    Exponent0(f.f1, f.f2, k0, a, b, c);
    Exponent1(f.f0, f.f1, f.f2, k1, a, b, c);
    Exponent2(f.f0, f.f1, f.f2, k2, a, b, c);
    var u, v, w := f.f0 * f.f1 * k2, f.f0 * k1, k0;
    assert Flat(k2, k1, k0, f.f1, f.f0) == u + v + w by {
      assert (k2 * f.f1 + k1) * f.f0 == k2 * f.f1 * f.f0 + k1 * f.f0;
      assert k2 * f.f1 * f.f0 == f.f0 * f.f1 * k2;
    }
    assert (u + v + w) * n == u * n + v * n + w * n;
    var x, y, z := k1 * a, f.f1 * (k2 * a), k2 * b;
    assert f.N() * (x + y + z) == f.N() * x + f.N() * y + f.N() * z;
  }

  lemma Divides(f: Factors)
    requires f.Valid()
    ensures f.N() / f.f0 == f.f1 * f.f2 && f.N() / f.f1 == f.f0 * f.f2 && f.N() / f.f2 == f.f0 * f.f1
    ensures f.N() / (f.f1 * f.f2) == f.f0 && 0 < f.f1 * f.f2 && f.N() / f.N() == 1 && 0 < f.N()
  {
    AtLeastOnce(f.f1, f.f2);
    AtLeastOnce(f.f0, f.f1 * f.f2);
    ThreeFactors(f.f0, f.f1, f.f2);
    ModUnique(f.N(), f.f0, f.f1 * f.f2, 0);
    ModUnique(f.N(), f.f1, f.f0 * f.f2, 0);
    ModUnique(f.N(), f.f2, f.f0 * f.f1, 0);
    ModUnique(f.N(), f.f1 * f.f2, f.f0, 0);
    ModUnique(f.N(), f.N(), 1, 0);
  }

  lemma FoldPowers<T(!new)>(r: Ring<T>, w: T, d: nat, e: nat, z: T)
    requires IsRing(r)
    ensures r.mul(Pow(r, w, d), r.mul(Pow(r, w, e), z)) == r.mul(Pow(r, w, d + e), z)
  {
    Laws(r, Pow(r, w, d), Pow(r, w, e), z);
    PowAdd(r, w, d, e);
  }

  lemma FoldFive<T(!new)>(r: Ring<T>, w: T, e4: nat, e3: nat, e2: nat, e1: nat, e0: nat, z: T)
    requires IsRing(r)
    ensures r.mul(Pow(r, w, e4),
                  r.mul(Pow(r, w, e3), r.mul(Pow(r, w, e2), r.mul(Pow(r, w, e1), r.mul(Pow(r, w, e0), z))))) ==
      r.mul(z, Pow(r, w, e4 + e3 + e2 + e1 + e0))
  {
    FoldPowers(r, w, e1, e0, z);
    FoldPowers(r, w, e2, e1 + e0, z);
    FoldPowers(r, w, e3, e2 + (e1 + e0), z);
    FoldPowers(r, w, e4, e3 + (e2 + (e1 + e0)), z);
    assert e4 + (e3 + (e2 + (e1 + e0))) == e4 + e3 + e2 + e1 + e0;
    Laws(r, z, Pow(r, w, e4 + e3 + e2 + e1 + e0), z);
  }

  /** The exponents of the five table entries in one term. */
  datatype Exponents5 = Exponents5(e4: nat, e3: nat, e2: nat, e1: nat, e0: nat)

  function ExponentsOf(f: Factors, k0: nat, k1: nat, k2: nat, a: nat, b: nat, c: nat): Exponents5 {
    Exponents5(
      Times(Times(f.f0, f.f1), Times(k2, c)),
      Times(f.f0, Times(k1, c)),
      Times(Times(f.f0, f.f2), Times(k1, b)),
      Times(k0, b * f.f2 + c),
      Times(Times(f.f1, f.f2), Times(k0, a)))
  }

  /** What the tables say about the factors of one term. */
  lemma TableEntries<T>(r: Ring<T>, w: T, f: Factors, k0: nat, k1: nat, k2: nat, a: nat, b: nat, c: nat, e: Exponents5)
    requires f.Valid() && k0 < f.f0 && k1 < f.f1 && k2 < f.f2 && a < f.f0 && b < f.f1 && c < f.f2
    requires e == ExponentsOf(f, k0, k1, k2, a, b, c)
    ensures At(r, MakeTwiddles(r, w, f).w2, k2 * f.f2 + c) == Pow(r, w, e.e4)
    ensures At(r, MakeTwiddles(r, w, f).t1, k1 * f.f2 + c) == Pow(r, w, e.e3)
    ensures At(r, MakeTwiddles(r, w, f).w1, k1 * f.f1 + b) == Pow(r, w, e.e2)
    ensures At(r, MakeTwiddles(r, w, f).t0, Flat(k0, b, c, f.f1, f.f2)) == Pow(r, w, e.e1)
    ensures At(r, MakeTwiddles(r, w, f).w0, k0 * f.f0 + a) == Pow(r, w, e.e0)
  {
    Divides(f);
    TwiddleAt(r, w, f.N(), f.f2, f.f2, f.f2, k2, c);
    TwiddleAt(r, w, f.N(), f.f1, f.f2, f.f1 * f.f2, k1, c);
    TwiddleAt(r, w, f.N(), f.f1, f.f1, f.f1, k1, b);
    FlatRows(k0, b, c, f.f0, f.f1, f.f2);
    FlatUp(b, c, f.f1, f.f2);
    TwiddleAt(r, w, f.N(), f.f0, f.f1 * f.f2, f.N(), k0, b * f.f2 + c);
    TwiddleAt(r, w, f.N(), f.f0, f.f0, f.f0, k0, a);
  }

  /** All exponents together are k n, but for a multiple of N. */
  lemma TotalPower<T(!new)>(r: Ring<T>, w: T, f: Factors, k0: nat, k1: nat, k2: nat, a: nat, b: nat, c: nat,
                            e: Exponents5, kn: nat)
    requires IsRing(r) && f.Valid() && Pow(r, w, f.N()) == r.one && e == ExponentsOf(f, k0, k1, k2, a, b, c)
    requires kn == Flat(k2, k1, k0, f.f1, f.f0) * Flat(a, b, c, f.f1, f.f2)
    ensures Pow(r, w, e.e4 + e.e3 + e.e2 + e.e1 + e.e0) == Pow(r, w, kn)
  {
    Exponents(f, k0, k1, k2, a, b, c);
    var q := Times(k1, a) + Times(f.f1, Times(k2, a)) + Times(k2, b);
    PowCycle(r, w, f.N(), e.e4 + e.e3 + e.e2 + e.e1 + e.e0, q, Times(f.N(), q));
  }

  lemma TermIsPower<T(!new)>(r: Ring<T>, x: seq<T>, w: T, f: Factors, k0: nat, k1: nat, k2: nat, a: nat, b: nat, c: nat,
                             kn: nat)
    requires IsRing(r) && f.Valid() && k0 < f.f0 && k1 < f.f1 && k2 < f.f2 && a < f.f0 && b < f.f1 && c < f.f2
    requires Pow(r, w, f.N()) == r.one && kn == Flat(k2, k1, k0, f.f1, f.f0) * Flat(a, b, c, f.f1, f.f2)
    ensures Term(r, x, MakeTwiddles(r, w, f), f, k0, k1, k2, a, b, c) ==
      r.mul(At(r, x, Flat(a, b, c, f.f1, f.f2)), Pow(r, w, kn))
  {
    var e := ExponentsOf(f, k0, k1, k2, a, b, c);
    TableEntries(r, w, f, k0, k1, k2, a, b, c, e);
    FoldFive(r, w, e.e4, e.e3, e.e2, e.e1, e.e0, At(r, x, Flat(a, b, c, f.f1, f.f2)));
    TotalPower(r, w, f, k0, k1, k2, a, b, c, e, kn);
  }

  // ---------------------------------------------------------------- the discrete Fourier transform

  /** One term of the transform. */
  function DftTerm<T>(r: Ring<T>, x: seq<T>, w: T, k: nat, n: int): T {
    if n < 0 then r.zero else r.mul(At(r, x, n), Pow(r, w, k * n))
  }

  /** The discrete Fourier transform, by its definition. */
  function Dft<T>(r: Ring<T>, x: seq<T>, w: T, k: nat): T {
    Sum(r, |x|, n => DftTerm(r, x, w, k, n))
  }

  lemma DftIsTriple<T(!new)>(r: Ring<T>, x: seq<T>, w: T, f: Factors, k: nat, g: (int, int, int) -> T)
    requires IsRing(r) && f.Valid() && |x| == f.N()
    requires forall a, b, c | 0 <= a < f.f0 && 0 <= b < f.f1 && 0 <= c < f.f2 ::
      g(a, b, c) == DftTerm(r, x, w, k, Flat(a, b, c, f.f1, f.f2))
    ensures Dft(r, x, w, k) == Sum(r, f.f0, a => Sum(r, f.f1, b => Over2(r, f.f2, g, a, b)))
  {
    var d: int -> T := n => DftTerm(r, x, w, k, n);
    SumPairs(r, f.f0 * f.f1, f.f2, f.N(), d);
    var row: int -> T := i => Sum(r, f.f2, c => d(i * f.f2 + c));
    SumPairs(r, f.f0, f.f1, f.f0 * f.f1, row);
    var left, right: int -> T := a => Sum(r, f.f1, b => row(a * f.f1 + b)),
      a => Sum(r, f.f1, b => Over2(r, f.f2, g, a, b));
    forall a | 0 <= a < f.f0 ensures left(a) == right(a) {
      var u, v: int -> T := b => row(a * f.f1 + b), b => Over2(r, f.f2, g, a, b);
      forall b | 0 <= b < f.f1 ensures u(b) == v(b) {
        SumEqual(r, f.f2, c => d((a * f.f1 + b) * f.f2 + c), c => g(a, b, c));
      }
      SumEqual(r, f.f1, u, v);
    }
    SumEqual(r, f.f0, left, right);
  }

  /** Output k is a mixed-radix number with the digits k2, k1, k0. */
  lemma Digits(f: Factors, k: nat) returns (k0: nat, k1: nat, k2: nat)
    requires f.Valid() && k < f.N()
    ensures k0 < f.f0 && k1 < f.f1 && k2 < f.f2 && k == Flat(k2, k1, k0, f.f1, f.f0)
  {
    var row := Quotient(k, f.f0);
    k0, k1, k2 := Remainder(k, f.f0), Remainder(row, f.f1), Quotient(row, f.f1);
    DivMod(k, f.f0);
    DivMod(row, f.f1);
    TopDigit(f.f0, f.f1, f.f2, k0, k1, k2);
  }

  lemma DivMod(a: nat, b: nat)
    requires 0 < b
    ensures a == Quotient(a, b) * b + Remainder(a, b)
  {
  }

  lemma TopDigit(f0: nat, f1: nat, f2: nat, k0: nat, k1: nat, k2: nat)
    requires (k2 * f1 + k1) * f0 + k0 < f0 * f1 * f2
    ensures k2 < f2
  {
    var g := f1 * f0;
    assert k2 * f1 * f0 == k2 * g && f0 * f1 * f2 == f2 * g;
    assert (k2 * f1 + k1) * f0 == k2 * f1 * f0 + k1 * f0;
    assert k2 * g == f2 * g + (k2 - f2) * g;
    assert (k2 - f2) * g < 0;
  }

  lemma DigitsDft<T(!new)>(r: Ring<T>, x: seq<T>, w: T, f: Factors, k: nat, k0: nat, k1: nat, k2: nat)
    requires IsRing(r) && f.Valid() && |x| == f.N() && Pow(r, w, f.N()) == r.one
    requires k0 < f.f0 && k1 < f.f1 && k2 < f.f2 && k == Flat(k2, k1, k0, f.f1, f.f0)
    ensures At(r, Pipeline(r, x, MakeTwiddles(r, w, f), f), k) == Dft(r, x, w, k)
  {
    var t := MakeTwiddles(r, w, f);
    var g: (int, int, int) -> T := (a, b, c) => Term(r, x, t, f, k0, k1, k2, a, b, c);
    PipelineAt(r, x, t, f, k0, k1, k2, g);
    TripleSwap(r, f.f0, f.f1, f.f2, g);
    forall a, b, c | 0 <= a < f.f0 && 0 <= b < f.f1 && 0 <= c < f.f2
      ensures g(a, b, c) == DftTerm(r, x, w, k, Flat(a, b, c, f.f1, f.f2))
    {
      TermIsPower(r, x, w, f, k0, k1, k2, a, b, c, Times(k, Flat(a, b, c, f.f1, f.f2)));
    }
    DftIsTriple(r, x, w, f, k, g);
  }

  /** The pipeline computes the discrete Fourier transform, in natural order. */
  lemma PipelineIsDft<T(!new)>(r: Ring<T>, x: seq<T>, w: T, f: Factors, k: nat)
    requires IsRing(r) && f.Valid() && |x| == f.N() && k < f.N() && Pow(r, w, f.N()) == r.one
    ensures At(r, Pipeline(r, x, MakeTwiddles(r, w, f), f), k) == Dft(r, x, w, k)
  {
    var k0, k1, k2 := Digits(f, k);
    DigitsDft(r, x, w, f, k, k0, k1, k2);
  }

  // ---------------------------------------------------------------- the kernel, on real and imaginary tiles

  /** Complex numbers in memory: real and imaginary parts take turns. */
  function Packed<T>(s: seq<Pair<T>>): (p: seq<T>)
    ensures |p| == 2 * |s|
  {
    seq(2 * |s|, i requires 0 <= i < 2 * |s| => if i % 2 == 0 then s[i / 2].re else s[i / 2].im)
  }

  /** Extract one column of a tile with two columns. */
  function Column<T>(p: seq<T>, c: nat): (t: seq<T>)
    requires c < 2 && |p| % 2 == 0
    ensures |t| == |p| / 2
  {
    seq(|p| / 2, i requires 0 <= i < |p| / 2 => p[2 * i + c])
  }

  /** A real and an imaginary tile. */
  datatype Tile<T> = Tile(re: seq<T>, im: seq<T>) {
    predicate Valid() {
      |re| == |im|
    }
  }

  function Split<T>(p: seq<T>): (t: Tile<T>)
    requires |p| % 2 == 0
    ensures t.Valid() && |t.re| == |p| / 2
  {
    Tile(Column(p, 0), Column(p, 1))
  }

  /** Concatenate a real and an imaginary column. */
  function Cat<T>(t: Tile<T>): seq<T>
    requires t.Valid()
  {
    seq(2 * |t.re|, i requires 0 <= i < 2 * |t.re| => if i % 2 == 0 then t.re[i / 2] else t.im[i / 2])
  }

  function Plus<T>(s: Scalars<T>, a: seq<T>, b: seq<T>): seq<T>
    requires |a| == |b|
  {
    seq(|a|, i requires 0 <= i < |a| => s.ring.add(a[i], b[i]))
  }

  function Minus<T>(s: Scalars<T>, a: seq<T>, b: seq<T>): seq<T>
    requires |a| == |b|
  {
    seq(|a|, i requires 0 <= i < |a| => s.Sub(a[i], b[i]))
  }

  function ContractTile<T>(s: Scalars<T>, w: Tile<T>, x: Tile<T>, m: nat, p: nat): Tile<T> {
    var r := s.ring;
    Tile(Minus(s, MatMul(r, w.re, x.re, m, p), MatMul(r, w.im, x.im, m, p)),
         Plus(s, MatMul(r, w.im, x.re, m, p), MatMul(r, w.re, x.im, m, p)))
  }

  function TwiddleTile<T>(s: Scalars<T>, t: Tile<T>, x: Tile<T>, q: nat): Tile<T>
    requires x.Valid() && 0 < q
  {
    var r := s.ring;
    Tile(Minus(s, ScaleRows(r, t.re, x.re, q), ScaleRows(r, t.im, x.im, q)),
         Plus(s, ScaleRows(r, t.im, x.re, q), ScaleRows(r, t.re, x.im, q)))
  }

  function RotateTile<T>(r: Ring<T>, x: Tile<T>, d0: nat, d1: nat, d2: nat): Tile<T>
    requires 0 < d0 && 0 < d1 && 0 < d2
  {
    Tile(Rotate(r, x.re, d0, d1, d2), Rotate(r, x.im, d0, d1, d2))
  }

  function SwapTile<T>(r: Ring<T>, x: Tile<T>, d0: nat, d1: nat, d2: nat): Tile<T>
    requires 0 < d0 && 0 < d1 && 0 < d2
  {
    Tile(SwapLast(r, x.re, d0, d1, d2), SwapLast(r, x.im, d0, d1, d2))
  }

  /** The tables as the host packs them. */
  datatype PackedTables<T> = PackedTables(w0: seq<T>, w1: seq<T>, w2: seq<T>, t0: seq<T>, t1: seq<T>) {
    predicate Valid() {
      |w0| % 2 == |w1| % 2 == |w2| % 2 == |t0| % 2 == |t1| % 2 == 0
    }
  }

  function PackTables<T>(t: Tables<Pair<T>>): (p: PackedTables<T>)
    ensures p.Valid()
  {
    PackedTables(Packed(t.w0), Packed(t.w1), Packed(t.w2), Packed(t.t0), Packed(t.t1))
  }

  /** The kernel on one packed row. */
  function FftKernel<T>(s: Scalars<T>, packed: seq<T>, t: PackedTables<T>, f: Factors): seq<T>
    requires f.Valid() && t.Valid() && |packed| % 2 == 0
  {
    var x := Split(packed);
    var ct0 := ContractTile(s, Split(t.w0), x, f.f0, f.F12());
    var x1 := RotateTile(s.ring, TwiddleTile(s, Split(t.t0), ct0, 1), f.f0, f.f1, f.f2);
    var ct1 := ContractTile(s, Split(t.w1), x1, f.f1, f.F20());
    var x2 := RotateTile(s.ring, TwiddleTile(s, Split(t.t1), ct1, f.f0), f.f1, f.f2, f.f0);
    var ct2 := ContractTile(s, Split(t.w2), x2, f.f2, f.F01());
    Cat(SwapTile(s.ring, ct2, f.f2, f.f0, f.f1))
  }

  /** The complex numbers that a pair of tiles stands for. */
  function Join<T>(t: Tile<T>): (s: seq<Pair<T>>)
    requires t.Valid()
    ensures |s| == |t.re|
  {
    seq(|t.re|, i requires 0 <= i < |t.re| => Pair(t.re[i], t.im[i]))
  }

  lemma SplitPacked<T>(s: seq<Pair<T>>)
    ensures Join(Split(Packed(s))) == s
  {
  }

  lemma CatJoin<T>(t: Tile<T>)
    requires t.Valid()
    ensures Cat(t) == Packed(Join(t))
  {
  }

  lemma {:induction false} SumParts<T(!new)>(s: Scalars<T>, n: nat, f: int -> Pair<T>, p: int -> T, q: int -> T,
                                             u: int -> T, v: int -> T)
    requires AreScalars(s)
    requires forall i | 0 <= i < n :: f(i) == Pair(s.Sub(p(i), q(i)), s.ring.add(u(i), v(i)))
    ensures Sum(Pairs(s), n, f) ==
      Pair(s.Sub(Sum(s.ring, n, p), Sum(s.ring, n, q)), s.ring.add(Sum(s.ring, n, u), Sum(s.ring, n, v)))
  {
    var r := s.ring;
    if n == 0 {
      NegLaws(s, r.zero, r.zero);
      Laws(r, r.zero, r.zero, r.zero);
    } else {
      SumParts(s, n - 1, f, p, q, u, v);
      NegLaws(s, Sum(r, n - 1, q), q(n - 1));
      Exchange(r, Sum(r, n - 1, p), s.neg(Sum(r, n - 1, q)), p(n - 1), s.neg(q(n - 1)));
      Exchange(r, Sum(r, n - 1, u), Sum(r, n - 1, v), u(n - 1), v(n - 1));
    }
  }

  lemma AtParts<T>(s: Scalars<T>, t: Tile<T>, i: int)
    requires t.Valid()
    ensures At(Pairs(s), Join(t), i) == Pair(At(s.ring, t.re, i), At(s.ring, t.im, i))
  {
  }

  lemma ProductAt<T>(s: Scalars<T>, w: Tile<T>, x: Tile<T>, i: int, j: int)
    requires w.Valid() && x.Valid()
    ensures var r := s.ring;
      Pairs(s).mul(At(Pairs(s), Join(w), i), At(Pairs(s), Join(x), j)) ==
        Pair(s.Sub(r.mul(At(r, w.re, i), At(r, x.re, j)), r.mul(At(r, w.im, i), At(r, x.im, j))),
             r.add(r.mul(At(r, w.im, i), At(r, x.re, j)), r.mul(At(r, w.re, i), At(r, x.im, j))))
  {
    AtParts(s, w, i);
    AtParts(s, x, j);
  }

  lemma ProductsAt<T>(s: Scalars<T>, w: Tile<T>, x: Tile<T>, u: int -> int, v: int -> int, i: int)
    requires w.Valid() && x.Valid()
    ensures Products(Pairs(s), Join(w), Join(x), u, v)(i) ==
      Pair(s.Sub(Products(s.ring, w.re, x.re, u, v)(i), Products(s.ring, w.im, x.im, u, v)(i)),
           s.ring.add(Products(s.ring, w.im, x.re, u, v)(i), Products(s.ring, w.re, x.im, u, v)(i)))
  {
    ProductAt(s, w, x, u(i), v(i));
  }

  lemma DotParts<T(!new)>(s: Scalars<T>, w: Tile<T>, x: Tile<T>, m: nat, u: int -> int, v: int -> int)
    requires AreScalars(s) && w.Valid() && x.Valid()
    ensures DotAt(Pairs(s), Join(w), Join(x), m, u, v) ==
      Pair(s.Sub(DotAt(s.ring, w.re, x.re, m, u, v), DotAt(s.ring, w.im, x.im, m, u, v)),
           s.ring.add(DotAt(s.ring, w.im, x.re, m, u, v), DotAt(s.ring, w.re, x.im, m, u, v)))
  {
    forall i | 0 <= i < m
      ensures Products(Pairs(s), Join(w), Join(x), u, v)(i) ==
        Pair(s.Sub(Products(s.ring, w.re, x.re, u, v)(i), Products(s.ring, w.im, x.im, u, v)(i)),
             s.ring.add(Products(s.ring, w.im, x.re, u, v)(i), Products(s.ring, w.re, x.im, u, v)(i)))
    {
      ProductsAt(s, w, x, u, v, i);
    }
    SumParts(s, m, Products(Pairs(s), Join(w), Join(x), u, v), Products(s.ring, w.re, x.re, u, v),
             Products(s.ring, w.im, x.im, u, v),
             Products(s.ring, w.im, x.re, u, v), Products(s.ring, w.re, x.im, u, v));
  }

  lemma BuildJoin<T>(s: Scalars<T>, n: nat, p: nat, f: (int, int) -> Pair<T>, a: (int, int) -> T, b: (int, int) -> T,
                     c: (int, int) -> T, d: (int, int) -> T)
    requires forall i, j :: f(i, j) == Pair(s.Sub(a(i, j), b(i, j)), s.ring.add(c(i, j), d(i, j)))
    requires s.Sub(s.ring.zero, s.ring.zero) == s.ring.add(s.ring.zero, s.ring.zero) == s.ring.zero
    ensures var z := s.ring.zero;
      Join(Tile(Minus(s, Build(z, n, p, a), Build(z, n, p, b)), Plus(s, Build(z, n, p, c), Build(z, n, p, d)))) ==
        Build(Pairs(s).zero, n, p, f)
  {
  }

  lemma ContractJoin<T(!new)>(s: Scalars<T>, w: Tile<T>, x: Tile<T>, m: nat, p: nat)
    requires AreScalars(s) && w.Valid() && x.Valid()
    ensures Join(ContractTile(s, w, x, m, p)) == MatMul(Pairs(s), Join(w), Join(x), m, p)
  {
    var r := s.ring;
    NegLaws(s, r.zero, r.zero);
    Laws(r, r.zero, r.zero, r.zero);
    var f, a, b, c, d := Dots(Pairs(s), Join(w), Join(x), m, p), Dots(r, w.re, x.re, m, p), Dots(r, w.im, x.im, m, p),
      Dots(r, w.im, x.re, m, p), Dots(r, w.re, x.im, m, p);
    forall i, j ensures f(i, j) == Pair(s.Sub(a(i, j), b(i, j)), r.add(c(i, j), d(i, j))) {
      DotParts(s, w, x, m, t => i * m + t, t => t * p + j);
    }
    BuildJoin(s, m * p, p, f, a, b, c, d);
  }

  lemma TwiddleJoin<T>(s: Scalars<T>, t: Tile<T>, x: Tile<T>, q: nat)
    requires t.Valid() && x.Valid() && 0 < q
    ensures Join(TwiddleTile(s, t, x, q)) == ScaleRows(Pairs(s), Join(t), Join(x), q)
  {
    forall i | 0 <= i < |x.re|
      ensures Join(TwiddleTile(s, t, x, q))[i] == ScaleRows(Pairs(s), Join(t), Join(x), q)[i]
    {
      AtParts(s, t, i / q);
    }
  }

  lemma GatherJoin<T>(s: Scalars<T>, x: Tile<T>, index: int -> int)
    requires x.Valid()
    ensures Join(Tile(Gather(s.ring, x.re, index), Gather(s.ring, x.im, index))) == Gather(Pairs(s), Join(x), index)
  {
    forall t | 0 <= t < |x.re|
      ensures Join(Tile(Gather(s.ring, x.re, index), Gather(s.ring, x.im, index)))[t] ==
        Gather(Pairs(s), Join(x), index)[t]
    {
      AtParts(s, x, index(t));
    }
  }

  lemma RotateJoin<T>(s: Scalars<T>, x: Tile<T>, d0: nat, d1: nat, d2: nat)
    requires x.Valid() && 0 < d0 && 0 < d1 && 0 < d2
    ensures Join(RotateTile(s.ring, x, d0, d1, d2)) == Rotate(Pairs(s), Join(x), d0, d1, d2)
  {
    GatherJoin(s, x, t => if t < 0 then 0 else Flat(t % d0, t / d0 / d2, t / d0 % d2, d1, d2));
  }

  lemma SwapJoin<T>(s: Scalars<T>, x: Tile<T>, d0: nat, d1: nat, d2: nat)
    requires x.Valid() && 0 < d0 && 0 < d1 && 0 < d2
    ensures Join(SwapTile(s.ring, x, d0, d1, d2)) == SwapLast(Pairs(s), Join(x), d0, d1, d2)
  {
    GatherJoin(s, x, t => if t < 0 then 0 else Flat(t / d1 / d2, t % d1, t / d1 % d2, d1, d2));
  }

  lemma Stage0Join<T(!new)>(s: Scalars<T>, w: Tile<T>, t: Tile<T>, x: Tile<T>, tables: Tables<Pair<T>>, f: Factors)
    requires AreScalars(s) && f.Valid() && w.Valid() && t.Valid() && x.Valid() && Join(w) == tables.w0
    requires Join(t) == tables.t0
    ensures var y := RotateTile(s.ring, TwiddleTile(s, t, ContractTile(s, w, x, f.f0, f.F12()), 1), f.f0, f.f1, f.f2);
      y.Valid() && Join(y) == Stage0(Pairs(s), Join(x), tables, f)
  {
    var ct := ContractTile(s, w, x, f.f0, f.F12());
    ContractJoin(s, w, x, f.f0, f.F12());
    TwiddleJoin(s, t, ct, 1);
    RotateJoin(s, TwiddleTile(s, t, ct, 1), f.f0, f.f1, f.f2);
  }

  lemma Stage1Join<T(!new)>(s: Scalars<T>, w: Tile<T>, t: Tile<T>, x: Tile<T>, tables: Tables<Pair<T>>, f: Factors)
    requires AreScalars(s) && f.Valid() && w.Valid() && t.Valid() && x.Valid() && Join(w) == tables.w1
    requires Join(t) == tables.t1
    ensures var y := RotateTile(s.ring, TwiddleTile(s, t, ContractTile(s, w, x, f.f1, f.F20()), f.f0), f.f1, f.f2,
                                f.f0);
      y.Valid() && Join(y) == Stage1(Pairs(s), Join(x), tables, f)
  {
    var ct := ContractTile(s, w, x, f.f1, f.F20());
    ContractJoin(s, w, x, f.f1, f.F20());
    TwiddleJoin(s, t, ct, f.f0);
    RotateJoin(s, TwiddleTile(s, t, ct, f.f0), f.f1, f.f2, f.f0);
  }

  lemma Stage2Join<T(!new)>(s: Scalars<T>, w: Tile<T>, x: Tile<T>, tables: Tables<Pair<T>>, f: Factors)
    requires AreScalars(s) && f.Valid() && w.Valid() && x.Valid() && Join(w) == tables.w2
    ensures var y := SwapTile(s.ring, ContractTile(s, w, x, f.f2, f.F01()), f.f2, f.f0, f.f1);
      y.Valid() && Join(y) == Stage2(Pairs(s), Join(x), tables, f)
  {
    ContractJoin(s, w, x, f.f2, f.F01());
    SwapJoin(s, ContractTile(s, w, x, f.f2, f.F01()), f.f2, f.f0, f.f1);
  }

  /** The kernel on packed pairs is the pipeline over the complex numbers. */
  lemma KernelIsPipeline<T(!new)>(s: Scalars<T>, x: seq<Pair<T>>, t: Tables<Pair<T>>, f: Factors)
    requires AreScalars(s) && f.Valid()
    ensures FftKernel(s, Packed(x), PackTables(t), f) == Packed(Pipeline(Pairs(s), x, t, f))
  {
    var p := PackTables(t);
    SplitPacked(x);
    SplitPacked(t.w0);
    SplitPacked(t.w1);
    SplitPacked(t.w2);
    SplitPacked(t.t0);
    SplitPacked(t.t1);
    var x0 := Split(Packed(x));
    Stage0Join(s, Split(p.w0), Split(p.t0), x0, t, f);
    var x1 := RotateTile(s.ring, TwiddleTile(s, Split(p.t0), ContractTile(s, Split(p.w0), x0, f.f0, f.F12()), 1), f.f0,
                         f.f1, f.f2);
    Stage1Join(s, Split(p.w1), Split(p.t1), x1, t, f);
    var x2 := RotateTile(s.ring, TwiddleTile(s, Split(p.t1), ContractTile(s, Split(p.w1), x1, f.f1, f.F20()), f.f0),
                         f.f1, f.f2, f.f0);
    Stage2Join(s, Split(p.w2), x2, t, f);
    CatJoin(SwapTile(s.ring, ContractTile(s, Split(p.w2), x2, f.f2, f.F01()), f.f2, f.f0, f.f1));
  }

  /** For every row: the kernel outputs the discrete Fourier transform of its input, packed, in natural order. */
  lemma KernelIsDft<T(!new)>(s: Scalars<T>, x: seq<Pair<T>>, w: Pair<T>, f: Factors)
    requires AreScalars(s) && f.Valid() && |x| == f.N() && Pow(Pairs(s), w, f.N()) == Pairs(s).one
    ensures FftKernel(s, Packed(x), PackTables(MakeTwiddles(Pairs(s), w, f)), f) ==
      Packed(seq(|x|, k requires 0 <= k < |x| => Dft(Pairs(s), x, w, k)))
  {
    PairsAreRing(s);
    var t := MakeTwiddles(Pairs(s), w, f);
    KernelIsPipeline(s, x, t, f);
    var y := Pipeline(Pairs(s), x, t, f);
    ThreeFactors(f.f2, f.f0, f.f1);
    assert |y| == f.f2 * (f.f0 * f.f1) == f.N();
    forall k | 0 <= k < |x| ensures y[k] == Dft(Pairs(s), x, w, k) {
      PipelineIsDft(Pairs(s), x, w, f, k);
    }
    assert y == seq(|x|, k requires 0 <= k < |x| => Dft(Pairs(s), x, w, k));
  }
}
