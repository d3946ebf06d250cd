/** Commutative rings, with finite sums and powers, and complex numbers over a commutative ring. */
module Ring {
  import Monoid

  datatype Ring<!T> = Ring(zero: T, one: T, add: (T, T) -> T, mul: (T, T) -> T)

  // The laws are instantiated only where a proof names the elements.
  predicate On<T>(a: T, b: T, c: T) { true }

  /** The laws of a commutative ring that sums of products need. */
  ghost predicate LawsOn<T>(r: Ring<T>, a: T, b: T, c: T) {
    && r.add(a, b) == r.add(b, a)
    && r.add(r.add(a, b), c) == r.add(a, r.add(b, c))
    && r.add(a, r.zero) == a
    && r.mul(a, b) == r.mul(b, a)
    && r.mul(r.mul(a, b), c) == r.mul(a, r.mul(b, c))
    && r.mul(a, r.one) == a
    && r.mul(a, r.zero) == r.zero
    && r.mul(a, r.add(b, c)) == r.add(r.mul(a, b), r.mul(a, c))
  }

  ghost predicate IsRing<T(!new)>(r: Ring<T>) {
    forall a, b, c {:trigger On(a, b, c)} :: On(a, b, c) ==> LawsOn(r, a, b, c)
  }

  lemma Laws<T(!new)>(r: Ring<T>, a: T, b: T, c: T)
    requires IsRing(r)
    ensures r.add(a, b) == r.add(b, a)
    ensures r.add(r.add(a, b), c) == r.add(a, r.add(b, c))
    ensures r.add(a, r.zero) == a
    ensures r.mul(a, b) == r.mul(b, a)
    ensures r.mul(r.mul(a, b), c) == r.mul(a, r.mul(b, c))
    ensures r.mul(a, r.one) == a
    ensures r.mul(a, r.zero) == r.zero
    ensures r.mul(a, r.add(b, c)) == r.add(r.mul(a, b), r.mul(a, c))
  {
    assert On(a, b, c);
  }

  // ---------------------------------------------------------------- sums

  /** A ring's addition. */
  function Addition<T>(r: Ring<T>): Monoid.Monoid<T> {
    Monoid.Monoid(r.zero, r.add)
  }

  lemma AdditionIsMonoid<T(!new)>(r: Ring<T>)
    requires IsRing(r)
    ensures Monoid.IsMonoid(Addition(r))
  {
    forall a, b, c | Monoid.On(a, b, c) ensures Monoid.LawsOn(Addition(r), a, b, c) {
      Laws(r, a, b, c);
    }
  }

  function Sum<T>(r: Ring<T>, n: nat, f: int -> T): T {
    Monoid.Sum(Addition(r), n, f)
  }

  lemma SumEqual<T>(r: Ring<T>, n: nat, f: int -> T, g: int -> T)
    requires forall i | 0 <= i < n :: f(i) == g(i)
    ensures Sum(r, n, f) == Sum(r, n, g)
  {
    Monoid.SumEqual(Addition(r), n, f, g);
  }

  lemma {:induction false} SumScale<T(!new)>(r: Ring<T>, n: nat, f: int -> T, c: T)
    requires IsRing(r)
    ensures r.mul(c, Sum(r, n, f)) == Sum(r, n, i => r.mul(c, f(i)))
  {
    if n == 0 {
      Laws(r, c, c, c);
    } else {
      SumScale(r, n - 1, f, c);
      Laws(r, c, Sum(r, n - 1, f), f(n - 1));
    }
  }

  lemma Exchange<T(!new)>(r: Ring<T>, a: T, b: T, c: T, d: T)
    requires IsRing(r)
    ensures r.add(r.add(a, b), r.add(c, d)) == r.add(r.add(a, c), r.add(b, d))
  {
    AdditionIsMonoid(r);
    Monoid.Exchange(Addition(r), a, b, c, d);
  }

  /** The order of two sums can be exchanged. */
  lemma SumSwap<T(!new)>(r: Ring<T>, m: nat, n: nat, f: (int, int) -> T)
    requires IsRing(r)
    ensures Sum(r, m, i => Sum(r, n, j => f(i, j))) == Sum(r, n, j => Sum(r, m, i => f(i, j)))
  {
    AdditionIsMonoid(r);
    Monoid.SumSwap(Addition(r), m, n, f);
    SumEqual(r, m, i => Sum(r, n, j => f(i, j)), i => Monoid.Sum(Addition(r), n, j => f(i, j)));
    SumEqual(r, n, j => Sum(r, m, i => f(i, j)), j => Monoid.Sum(Addition(r), m, i => f(i, j)));
  }

  /** A sum over pairs, in row-major order. */
  lemma SumPairs<T(!new)>(r: Ring<T>, m: nat, n: nat, total: nat, f: int -> T)
    requires IsRing(r) && total == m * n
    ensures Sum(r, total, f) == Sum(r, m, i => Sum(r, n, j => f(i * n + j)))
  {
    AdditionIsMonoid(r);
    Monoid.SumPairs(Addition(r), m, n, total, f);
    SumEqual(r, m, i => Sum(r, n, j => f(i * n + j)), i => Monoid.Sum(Addition(r), n, j => f(i * n + j)));
  }

  // ---------------------------------------------------------------- powers

  function Pow<T>(r: Ring<T>, w: T, e: nat): T {
    if e == 0 then r.one else r.mul(w, Pow(r, w, e - 1))
  }

  lemma {:induction false} PowAdd<T(!new)>(r: Ring<T>, w: T, a: nat, b: nat)
    requires IsRing(r)
    ensures Pow(r, w, a + b) == r.mul(Pow(r, w, a), Pow(r, w, b))
  {
    if a == 0 {
      Laws(r, Pow(r, w, b), r.one, r.one);
    } else {
      PowAdd(r, w, a - 1, b);
      Laws(r, w, Pow(r, w, a - 1), Pow(r, w, b));
    }
  }

  lemma {:induction false} PowMultiple<T(!new)>(r: Ring<T>, w: T, n: nat, q: nat, more: nat)
    requires IsRing(r) && Pow(r, w, n) == r.one && more == n * q
    ensures Pow(r, w, more) == r.one
  {
    if q != 0 {
      Monoid.Rows(q, n);
      PowMultiple(r, w, n, q - 1, more - n);
      PowAdd(r, w, more - n, n);
      Laws(r, r.one, r.one, r.one);
    }
  }

  /** Exponents count modulo the order of a root of unity. */
  lemma PowCycle<T(!new)>(r: Ring<T>, w: T, n: nat, e: nat, q: nat, more: nat)
    requires IsRing(r) && Pow(r, w, n) == r.one && more == n * q
    ensures Pow(r, w, e + more) == Pow(r, w, e)
  {
    PowMultiple(r, w, n, q, more);
    PowAdd(r, w, e, more);
    Laws(r, Pow(r, w, e), r.one, r.one);
  }

  // ---------------------------------------------------------------- complex numbers

  /** A commutative ring with negation. */
  datatype Scalars<!T> = Scalars(ring: Ring<T>, neg: T -> T) {
    function Sub(a: T, b: T): T {
      ring.add(a, neg(b))
    }
  }

  ghost predicate NegLawsOn<T>(s: Scalars<T>, a: T, b: T) {
    && s.ring.add(a, s.neg(a)) == s.ring.zero
    && s.neg(s.ring.add(a, b)) == s.ring.add(s.neg(a), s.neg(b))
    && s.ring.mul(a, s.neg(b)) == s.neg(s.ring.mul(a, b))
    && s.neg(s.ring.zero) == s.ring.zero
  }

  ghost predicate AreScalars<T(!new)>(s: Scalars<T>) {
    IsRing(s.ring) && forall a, b {:trigger On(a, b, b)} :: On(a, b, b) ==> NegLawsOn(s, a, b)
  }

  lemma NegLaws<T(!new)>(s: Scalars<T>, a: T, b: T)
    requires AreScalars(s)
    ensures NegLawsOn(s, a, b)
  {
    assert On(a, b, b);
  }

  /** A complex number. */
  datatype Pair<T> = Pair(re: T, im: T)

  /** Complex arithmetic. */
  function Pairs<T>(s: Scalars<T>): Ring<Pair<T>> {
    Ring(
      Pair(s.ring.zero, s.ring.zero),
      Pair(s.ring.one, s.ring.zero),
      (a: Pair<T>, b: Pair<T>) => Pair(s.ring.add(a.re, b.re), s.ring.add(a.im, b.im)),
      (a: Pair<T>, b: Pair<T>) => Pair(s.Sub(s.ring.mul(a.re, b.re), s.ring.mul(a.im, b.im)),
                                       s.ring.add(s.ring.mul(a.im, b.re), s.ring.mul(a.re, b.im))))
  }

  lemma Shuffle<T(!new)>(r: Ring<T>, p: T, q: T, u: T, v: T)
    requires IsRing(r)
    ensures r.add(r.add(p, q), r.add(u, v)) == r.add(r.add(p, v), r.add(q, u))
  {
    Laws(r, u, v, v);
    Exchange(r, p, q, v, u);
  }

  /** (x + y) z, with the products the other way around. */
  lemma Spread<T(!new)>(r: Ring<T>, x: T, y: T, z: T)
    requires IsRing(r)
    ensures r.mul(r.add(x, y), z) == r.add(r.mul(x, z), r.mul(y, z))
  {
    Laws(r, z, x, y);
    Laws(r, z, r.add(x, y), z);
    Laws(r, z, y, z);
  }

  lemma NegLeft<T(!new)>(s: Scalars<T>, a: T, b: T)
    requires AreScalars(s)
    ensures s.ring.mul(s.neg(a), b) == s.neg(s.ring.mul(a, b))
  {
    NegLaws(s, b, a);
    Laws(s.ring, b, s.neg(a), a);
    Laws(s.ring, b, a, a);
  }

  /** The real part of a triple product, both ways. */
  lemma RealAssoc<T(!new)>(s: Scalars<T>, a: T, b: T, c: T, d: T, e: T, f: T)
    requires AreScalars(s)
    ensures var r := s.ring;
      s.Sub(r.mul(s.Sub(r.mul(a, c), r.mul(b, d)), e), r.mul(r.add(r.mul(b, c), r.mul(a, d)), f)) ==
      s.Sub(r.mul(a, s.Sub(r.mul(c, e), r.mul(d, f))), r.mul(b, r.add(r.mul(d, e), r.mul(c, f))))
  {
    var r := s.ring;
    Spread(r, r.mul(a, c), s.neg(r.mul(b, d)), e);
    Spread(r, r.mul(b, c), r.mul(a, d), f);
    NegLeft(s, r.mul(b, d), e);
    Laws(r, a, c, e);
    Laws(r, b, d, e);
    Laws(r, b, c, f);
    Laws(r, a, d, f);
    Laws(r, a, r.mul(c, e), s.neg(r.mul(d, f)));
    Laws(r, b, r.mul(d, e), r.mul(c, f));
    NegLaws(s, a, r.mul(d, f));
    var p, q, u, v := r.mul(a, r.mul(c, e)), r.mul(b, r.mul(d, e)), r.mul(b, r.mul(c, f)), r.mul(a, r.mul(d, f));
    NegLaws(s, u, v);
    NegLaws(s, q, u);
    Shuffle(r, p, s.neg(q), s.neg(u), s.neg(v));
  }

  /** The imaginary part of a triple product, both ways. */
  lemma ImagAssoc<T(!new)>(s: Scalars<T>, a: T, b: T, c: T, d: T, e: T, f: T)
    requires AreScalars(s)
    ensures var r := s.ring;
      r.add(r.mul(r.add(r.mul(b, c), r.mul(a, d)), e), r.mul(s.Sub(r.mul(a, c), r.mul(b, d)), f)) ==
      r.add(r.mul(b, s.Sub(r.mul(c, e), r.mul(d, f))), r.mul(a, r.add(r.mul(d, e), r.mul(c, f))))
  {
    var r := s.ring;
    Spread(r, r.mul(b, c), r.mul(a, d), e);
    Spread(r, r.mul(a, c), s.neg(r.mul(b, d)), f);
    NegLeft(s, r.mul(b, d), f);
    Laws(r, b, c, e);
    Laws(r, a, d, e);
    Laws(r, a, c, f);
    Laws(r, b, d, f);
    Laws(r, b, r.mul(c, e), s.neg(r.mul(d, f)));
    Laws(r, a, r.mul(d, e), r.mul(c, f));
    NegLaws(s, b, r.mul(d, f));
    Shuffle(r, r.mul(b, r.mul(c, e)), r.mul(a, r.mul(d, e)), r.mul(a, r.mul(c, f)), s.neg(r.mul(b, r.mul(d, f))));
  }

  lemma PairCommutes<T(!new)>(s: Scalars<T>, x: Pair<T>, y: Pair<T>)
    requires AreScalars(s)
    ensures Pairs(s).mul(x, y) == Pairs(s).mul(y, x)
  {
    Laws(s.ring, x.re, y.re, x.re);
    Laws(s.ring, x.im, y.im, x.im);
    Laws(s.ring, x.im, y.re, x.im);
    Laws(s.ring, x.re, y.im, x.re);
    Laws(s.ring, s.ring.mul(x.im, y.re), s.ring.mul(x.re, y.im), x.re);
  }

  lemma PairUnits<T(!new)>(s: Scalars<T>, x: Pair<T>)
    requires AreScalars(s)
    ensures Pairs(s).mul(x, Pairs(s).one) == x && Pairs(s).mul(x, Pairs(s).zero) == Pairs(s).zero
    ensures Pairs(s).add(x, Pairs(s).zero) == x
  {
    var r := s.ring;
    Laws(r, x.re, x.re, x.re);
    Laws(r, x.im, x.im, x.im);
    NegLaws(s, r.zero, r.zero);
    Laws(r, r.zero, r.zero, r.zero);
    Laws(r, r.zero, x.im, r.zero);
  }

  lemma PairSpreads<T(!new)>(s: Scalars<T>, x: Pair<T>, y: Pair<T>, z: Pair<T>)
    requires AreScalars(s)
    ensures Pairs(s).mul(x, Pairs(s).add(y, z)) == Pairs(s).add(Pairs(s).mul(x, y), Pairs(s).mul(x, z))
  {
    var r := s.ring;
    Laws(r, x.re, y.re, z.re);
    Laws(r, x.im, y.im, z.im);
    Laws(r, x.im, y.re, z.re);
    Laws(r, x.re, y.im, z.im);
    NegLaws(s, r.mul(x.im, y.im), r.mul(x.im, z.im));
    Exchange(r, r.mul(x.re, y.re), r.mul(x.re, z.re), s.neg(r.mul(x.im, y.im)), s.neg(r.mul(x.im, z.im)));
    Exchange(r, r.mul(x.im, y.re), r.mul(x.im, z.re), r.mul(x.re, y.im), r.mul(x.re, z.im));
  }

  lemma PairLaws<T(!new)>(s: Scalars<T>, x: Pair<T>, y: Pair<T>, z: Pair<T>)
    requires AreScalars(s)
    ensures LawsOn(Pairs(s), x, y, z)
  {
    RealAssoc(s, x.re, x.im, y.re, y.im, z.re, z.im);
    ImagAssoc(s, x.re, x.im, y.re, y.im, z.re, z.im);
    PairCommutes(s, x, y);
    PairUnits(s, x);
    PairSpreads(s, x, y, z);
    Laws(s.ring, x.re, y.re, z.re);
    Laws(s.ring, x.im, y.im, z.im);
  }

  /** The complex numbers over a commutative ring are a commutative ring. */
  lemma PairsAreRing<T(!new)>(s: Scalars<T>)
    requires AreScalars(s)
    ensures IsRing(Pairs(s))
  {
    forall x, y, z | On(x, y, z) ensures LawsOn(Pairs(s), x, y, z) {
      PairLaws(s, x, y, z);
    }
  }

  // ---------------------------------------------------------------- reals

  const REALS: Scalars<real> := Scalars(Ring(0.0, 1.0, (a: real, b: real) => a + b, (a: real, b: real) => a * b),
                                        (a: real) => -a)

  lemma RealsAreScalars()
    ensures AreScalars(REALS)
  {
    forall a, b, c | On(a, b, c) ensures LawsOn(REALS.ring, a, b, c) {
    }
    forall a, b | On(a, b, b) ensures NegLawsOn(REALS, a, b) {
    }
  }
}
