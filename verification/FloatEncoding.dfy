/**
 Encoding numbers in small floating-point formats, and decoding them.

 Numbers are exact: a finite double is an integer times a power of two.  Main results: the
 encoder rounds to the nearest representable number, ties to even (section 4.3.1 of IEEE
 754-2019), for any format with at least one bit of precision, also where subnormal numbers
 end and where rounding carries into the exponent; and encoding what was decoded gives back
 every bit pattern that is not a NaN, and exactly the NaNs that are quiet or have payload 1.
 */
module FloatEncoding {
  import opened Bits
  import opened Wrappers

  // ---------------------------------------------------------------- powers of two

  function P2(k: int): (p: real)
    ensures 0.0 < p
    decreases if k < 0 then -k else k
  {
    if k == 0 then 1.0 else if k > 0 then 2.0 * P2(k - 1) else P2(k + 1) / 2.0
  }

  lemma P2Next(k: int)
    ensures P2(k + 1) == 2.0 * P2(k)
  {
  }

  lemma TwiceRight(a: real, b: real, b2: real, ab: real, ab2: real)
    requires b2 == 2.0 * b && ab2 == 2.0 * ab && ab == a * b
    ensures ab2 == a * b2
  {
  }

  lemma {:induction false} AddNat(a: int, b: nat, pa: real, pb: real, pab: real)
    requires pa == P2(a) && pb == P2(b) && pab == P2(a + b)
    ensures pab == pa * pb
  {
    if b != 0 {
      var pb1, pab1 := P2(b - 1), P2(a + b - 1);
      AddNat(a, b - 1, pa, pb1, pab1);
      P2Next(a + b - 1);
      TwiceRight(pa, pb1, pb, pab1, pab);
    }
  }

  lemma Cancel(a: real, b: real, c: real, d: real)
    requires a == c * d && 1.0 == b * d
    ensures c == a * b
  {
    assert (c * d) * b == c * (d * b);
  }

  lemma AddInt(a: int, b: int, pa: real, pb: real, pab: real)
    requires pa == P2(a) && pb == P2(b) && pab == P2(a + b)
    ensures pab == pa * pb
  {
    if b >= 0 {
      AddNat(a, b, pa, pb, pab);
    } else {
      var pn := P2(-b);
      AddNat(a + b, -b, pab, pn, pa);
      AddNat(b, -b, pb, pn, 1.0);
      Cancel(pa, pb, pab, pn);
    }
  }

  lemma {:induction false} P2Nat(k: nat)
    ensures P2(k) == Pow2(k) as real
  {
    if k != 0 {
      P2Nat(k - 1);
    }
  }

  // ---------------------------------------------------------------- formats

  datatype NonFinite = IEEE | NanOnlyAllOnes | FiniteOnly

  datatype Spec = Spec(bitwidth: nat, emin: int, emax: int, expBits: nat, precision: nat,
                       nonFinite: NonFinite, haveSign: bool, haveZeroAndSubnormals: bool)
  {
    /** Sign, exponent and precision bits fill the width, and the exponents fill the exponent bits. */
    predicate Regular() {
      && haveSign && haveZeroAndSubnormals && 0 < precision <= 52 && 0 < expBits <= 11
      && bitwidth == 1 + expBits + precision
      && emin <= emax && emax - emin + 2 + (if nonFinite.IEEE? then 1 else 0) == Pow2(expBits)
      && 0 < emin - precision + 1023 && emax <= 1023
    }

    /** All exponents and precision bits stay below the sign bit. */
    predicate Fits() {
      && 0 < precision <= 52 && expBits <= 11 && 0 < bitwidth && emin <= emax
      && Limit() <= Pow2(bitwidth - 1)
    }

    /** The first magnitude pattern whose exponent is above `emax`. */
    function Limit(): int {
      (emax - emin + 2) * Pow2(precision)
    }
  }

  const F16: Spec := Spec(16, -14, 15, 5, 10, IEEE, true, true)
  const BF16: Spec := Spec(16, -126, 127, 8, 7, IEEE, true, true)
  const F32: Spec := Spec(32, -126, 127, 8, 23, IEEE, true, true)
  const TF32: Spec := Spec(19, -126, 127, 8, 10, IEEE, true, true)
  const F8E4M3FN: Spec := Spec(8, -6, 8, 4, 3, NanOnlyAllOnes, true, true)
  const F8E5M2: Spec := Spec(8, -14, 15, 5, 2, IEEE, true, true)
  const F4E2M1FN: Spec := Spec(4, 0, 2, 2, 1, FiniteOnly, true, true)
  const F8E8M0FNU: Spec := Spec(8, -127, 127, 8, 0, NanOnlyAllOnes, false, false)

  lemma ListedAreRegular()
    ensures F16.Regular() && BF16.Regular() && F32.Regular() && TF32.Regular()
    ensures F8E4M3FN.Regular() && F8E5M2.Regular() && F4E2M1FN.Regular()
  {
    SmallPowers();
    assert Pow2(2) == 4 by { assert Pow2(1) == 2; }
  }

  // ---------------------------------------------------------------- what patterns mean

  /** The integer significand of magnitude pattern `b`: subnormal numbers have no leading one. */
  function Significand(s: Spec, b: nat): nat {
    var m := b % Pow2(s.precision);
    if b / Pow2(s.precision) == 0 then m else Pow2(s.precision) + m
  }

  /** The exponent of its last bit. */
  function Quantum(s: Spec, b: nat): int {
    var e := b / Pow2(s.precision);
    (if e == 0 then 0 else e - 1) + s.emin - s.precision
  }

  function Times(n: int, u: real): real {
    n as real * u
  }

  /** The number that magnitude pattern `b` stands for, as if exponents were unbounded. */
  function Value(s: Spec, b: nat): real {
    Times(Significand(s, b), P2(Quantum(s, b)))
  }

  /** Significand and quantum of the pattern with exponent field `e` and fraction field `m`. */
  lemma FieldsAt(s: Spec, b: nat, p: int, e: nat, m: nat)
    requires p == Pow2(s.precision) && m < p && b == e * p + m
    ensures Significand(s, b) == (if e == 0 then m else p + m)
    ensures Quantum(s, b) == (if e == 0 then 0 else e - 1) + s.emin - s.precision
  {
    Split(e, p, m);
  }

  /** How the fields of the next pattern differ. */
  lemma NextFields(s: Spec, b: nat)
    ensures var n, q, p := Significand(s, b), Quantum(s, b), Pow2(s.precision);
      || (Significand(s, b + 1) == n + 1 && Quantum(s, b + 1) == q)
      || (n == p + p - 1 && Significand(s, b + 1) == p && Quantum(s, b + 1) == q + 1)
  {
    var p := Pow2(s.precision);
    var e, m := b / p, b % p;
    Quotients(b, p);
    NextOf(s, b, p, e, m);
  }

  lemma NextOf(s: Spec, b: nat, p: int, e: nat, m: nat)
    requires p == Pow2(s.precision) && m < p && b == e * p + m
    ensures var n, q := Significand(s, b), Quantum(s, b);
      || (Significand(s, b + 1) == n + 1 && Quantum(s, b + 1) == q)
      || (n == p + p - 1 && Significand(s, b + 1) == p && Quantum(s, b + 1) == q + 1)
  {
    FieldsAt(s, b, p, e, m);
    if m + 1 < p {
      FieldsAt(s, b + 1, p, e, m + 1);
    } else {
      OneMore(e, p);
      FieldsAt(s, b + 1, p, e + 1, 0);
    }
  }

  /** The next pattern is one unit in the last place more. */
  lemma NextValue(s: Spec, b: nat)
    ensures Value(s, b + 1) == Value(s, b) + P2(Quantum(s, b))
  {
    NextFields(s, b);
    var n, q := Significand(s, b), Quantum(s, b);
    if Quantum(s, b + 1) == q {
      Distribute(n, P2(q));
    } else {
      P2Next(q);
      Double(Pow2(s.precision), P2(q), P2(q + 1));
    }
  }

  lemma Distribute(n: int, u: real)
    ensures Times(n + 1, u) == Times(n, u) + u
  {
  }

  lemma Double(n: nat, u: real, u2: real)
    requires 0 < n && u2 == 2.0 * u
    ensures Times(n, u2) == Times(n + n - 1, u) + u
  {
  }

  lemma {:induction false} Increasing(s: Spec, a: nat, b: nat)
    requires a < b
    ensures Value(s, a) < Value(s, b)
    decreases b
  {
    NextValue(s, b - 1);
    if a < b - 1 {
      Increasing(s, a, b - 1);
    }
  }

  function Abs(x: real): real {
    if x < 0.0 then -x else x
  }

  /** `b` is nearest to `v` of all patterns; where another one is as near, `b` is even. */
  ghost predicate IsNearestEven(s: Spec, v: real, b: nat) {
    IsNearestOf(Values(s), v, b)
  }

  function Values(s: Spec): nat -> real {
    (c: nat) => Value(s, c)
  }

  ghost predicate IsNearestOf(value: nat -> real, v: real, b: nat) {
    forall c: nat :: Abs(v - value(b)) <= Abs(v - value(c)) &&
      (c != b && Abs(v - value(b)) == Abs(v - value(c)) ==> b % 2 == 0)
  }

  // ---------------------------------------------------------------- rounding

  function RoundHalfEven(x: real): int {
    var f := x.Floor;
    var d := x - f as real;
    if d < 0.5 then f else if d > 0.5 then f + 1 else if f % 2 == 0 then f else f + 1
  }

  lemma FloorShift(x: real, n: int)
    ensures (x - n as real).Floor == x.Floor - n
  {
  }

  /** Rounding does not mind an even number being taken off first. */
  lemma RoundShift(x: real, n: int)
    requires n % 2 == 0
    ensures RoundHalfEven(x - n as real) == RoundHalfEven(x) - n
  {
    FloorShift(x, n);
  }

  /** Whatever is not between `lo` and `hi` is no nearer to a number between them. */
  lemma NoNearer(v: real, lo: real, hi: real, best: real, other: real)
    requires lo <= v < hi && (best == lo || best == hi)
    requires Abs(v - best) <= v - lo && Abs(v - best) <= hi - v
    requires other < lo || hi < other
    ensures Abs(v - best) < Abs(v - other)
  {
  }

  /** Rounding x up or down goes to the nearer side, and to the even side from the middle. */
  lemma RoundCore(v: real, x: real, u: real, f: int, below: real, above: real, delta: int)
    requires 0.0 < u && v == x * u && f == x.Floor && delta == RoundHalfEven(x) - f
    requires below == Times(f, u) && above == Times(f + 1, u)
    ensures below <= v < above && (delta == 0 || delta == 1)
    ensures delta == 0 ==> v - below <= above - v && (v - below == above - v ==> f % 2 == 0)
    ensures delta == 1 ==> above - v <= v - below && (v - below == above - v ==> f % 2 != 0)
  {
    var d := x - f as real;
    assert (f + 1) as real == f as real + 1.0;
    Sides(x, f as real, (f + 1) as real, d, u, v, below, above);
  }

  lemma Sides(x: real, f: real, f1: real, d: real, u: real, v: real, below: real, above: real)
    requires 0.0 < u && v == x * u && d == x - f && f1 == f + 1.0 && 0.0 <= d < 1.0
    requires below == f * u && above == f1 * u
    ensures below <= v < above
    ensures d < 0.5 ==> v - below < above - v
    ensures d > 0.5 ==> above - v < v - below
    ensures d == 0.5 ==> above - v == v - below
  {
    Scale(x, f, d, u, v, below);
    Scale(f1, x, 1.0 - d, u, above, v);
    Compare(d, 1.0 - d, u, v - below, above - v);
  }

  lemma Scale(a: real, b: real, d: real, u: real, au: real, bu: real)
    requires d == a - b && au == a * u && bu == b * u
    ensures d * u == au - bu
  {
  }

  lemma Compare(a: real, b: real, u: real, au: real, bu: real)
    requires 0.0 < u && 0.0 <= a && 0.0 < b && au == a * u && bu == b * u
    ensures a < b ==> au < bu
    ensures b < a ==> bu < au
    ensures a == b ==> au == bu
    ensures 0.0 <= au && 0.0 < bu
  {
    Scale(b, a, b - a, u, bu, au);
    Sign(b - a, u);
    Sign(a, u);
    Sign(b, u);
  }

  lemma Sign(a: real, u: real)
    requires 0.0 < u
    ensures 0.0 < a ==> 0.0 < a * u
    ensures a == 0.0 ==> a * u == 0.0
    ensures a < 0.0 ==> a * u < 0.0
  {
  }

  /** Rounding x between two neighbouring patterns picks the nearest one. */
  lemma NearestOfTwo(value: nat -> real, v: real, x: real, u: real, lo: nat, f: int, b: nat)
    requires 0.0 < u && v == x * u && f == x.Floor && lo % 2 == f % 2
    requires value(lo) == Times(f, u) && value(lo + 1) == Times(f + 1, u)
    requires b == lo + (RoundHalfEven(x) - f)
    requires forall c: nat | c < lo :: value(c) < value(lo)
    requires forall c: nat | lo + 1 < c :: value(lo + 1) < value(c)
    ensures IsNearestOf(value, v, b)
  {
    RoundCore(v, x, u, f, value(lo), value(lo + 1), b - lo);
    PickNearest(value, v, lo, b);
  }

  lemma PickNearest(value: nat -> real, v: real, lo: nat, b: nat)
    requires value(lo) <= v < value(lo + 1) && (b == lo || b == lo + 1)
    requires b == lo ==> v - value(lo) <= value(lo + 1) - v && (v - value(lo) == value(lo + 1) - v ==> lo % 2 == 0)
    requires b == lo + 1 ==> value(lo + 1) - v <= v - value(lo) && (v - value(lo) == value(lo + 1) - v ==> lo % 2 != 0)
    requires forall c: nat | c < lo :: value(c) < value(lo)
    requires forall c: nat | lo + 1 < c :: value(lo + 1) < value(c)
    ensures IsNearestOf(value, v, b)
  {
    forall c: nat
      ensures Abs(v - value(b)) <= Abs(v - value(c))
      ensures c != b && Abs(v - value(b)) == Abs(v - value(c)) ==> b % 2 == 0
    {
      if c < lo || lo + 1 < c {
        NoNearer(v, value(lo), value(lo + 1), value(b), value(c));
      }
    }
  }

  // ---------------------------------------------------------------- encoding

  /** A double: `significand` times two to the `exponent`, or something that is not finite. */
  datatype Number =
    | Finite(negative: bool, significand: nat, exponent: int)
    | Infinite(negative: bool)
    | NotANumber(negative: bool, payload: nat)
  {
    predicate Proper() {
      NotANumber? ==> 0 < payload < Pow2(52)
    }

    function Size(): real
      requires Finite?
    {
      Times(significand, P2(exponent))
    }
  }

  datatype Error = NegativeInUnsigned | NanInFiniteOnly

  function SignBit(negative: bool): nat {
    if negative then 1 else 0
  }

  /** The 64 bits of an infinity or a NaN. */
  function NonFiniteBits(v: Number): nat
    requires !v.Finite? && v.Proper()
  {
    SignBit(v.negative) * Pow2(63) + 0x7ff * Pow2(52) + (if v.Infinite? then 0 else v.payload)
  }

  function ConvertNonFinite(v: Number, s: Spec): Result<int, Error>
    requires !v.Finite? && v.Proper() && 0 < s.bitwidth && s.expBits <= 11 && s.precision <= 52
  {
    match s.nonFinite
    case NanOnlyAllOnes =>
      Ok(BitOr(Shl(SignBit(v.negative), s.bitwidth - 1), Shl(1, s.bitwidth - 1) - 1))
    case FiniteOnly =>
      if v.NotANumber? then Err(NanInFiniteOnly)
      else Ok(BitOr(Shl(SignBit(v.negative), s.bitwidth - 1), Shl(1, s.bitwidth - 1) - 1))
    case IEEE =>
      var bits := NonFiniteBits(v);
      var hi := Shl(Shr(bits, 63 - s.expBits), s.precision);
      Ok(BitOr(hi, PrecisionBits(v, bits, s.precision)))
  }

  /** Truncating the payload of a signalling NaN might leave an infinity: one bit replaces it. */
  function PrecisionBits(v: Number, bits: int, p: nat): int
    requires p <= 52
  {
    if v.NotANumber? && BitAnd(bits, Shl(1, 51)) == 0 then 1
    else BitAnd(Shr(bits, 52 - p), Shl(1, p) - 1)
  }

  function ConvertFloat(v: Number, s: Spec): Result<int, Error>
    requires v.Proper() && 0 < s.bitwidth && s.expBits <= 11 && 0 < s.precision <= 52
  {
    if v.Finite? && v.significand == 0 then Ok(Shl(SignBit(v.negative), s.bitwidth - 1))
    else if !v.Finite? then ConvertNonFinite(v, s)
    else
      var e := Exponent(v);
      if e > s.emax then ConvertNonFinite(Infinite(v.negative), s)
      else
        var field := if e < s.emin then 0 else e - s.emin + 1;
        var rounded := RoundHalfEven(ScaledFraction(v, s));
        if rounded == Pow2(s.precision) then
          if field + 1 > s.emax - s.emin + 1 then ConvertNonFinite(Infinite(v.negative), s)
          else Ok(Assembled(v.negative, s, field + 1, 0))
        else Ok(Assembled(v.negative, s, field, rounded))
  }

  /** The exponent of the leading bit. */
  function Exponent(v: Number): int
    requires v.Finite?
  {
    v.exponent + BitLength(v.significand) - 1
  }

  /** The significand scaled to lie in [1, 2). */
  function Mantissa(v: Number): real
    requires v.Finite?
  {
    Times(v.significand, P2(1 - BitLength(v.significand)))
  }

  /** What of the number the precision bits stand for: less the leading one, except when subnormal. */
  function Fraction(v: Number, s: Spec): real
    requires v.Finite?
  {
    if Exponent(v) < s.emin then Mantissa(v) * P2(Exponent(v) - s.emin) else Mantissa(v) - 1.0
  }

  function ScaledFraction(v: Number, s: Spec): real
    requires v.Finite?
  {
    Fraction(v, s) * P2(s.precision)
  }

  function Assembled(negative: bool, s: Spec, e: int, m: int): int
    requires 0 < s.bitwidth
  {
    BitOr(BitOr(Shl(SignBit(negative), s.bitwidth - 1), Shl(e, s.precision)), m)
  }

  lemma OrHighLow(high: int, k: nat, low: int)
    requires 0 <= low < Pow2(k)
    ensures BitOr(Shl(high, k), low) == Shl(high, k) + low
  {
    AndCommutes(BitNot(low), BitNot(Shl(high, k)));
    OrDisjoint(low, high, k);
  }

  lemma AssembledIsSum(negative: bool, s: Spec, e: int, m: int)
    requires 0 < s.bitwidth && 0 <= e && 0 <= m < Pow2(s.precision)
    requires e * Pow2(s.precision) + m < Pow2(s.bitwidth - 1)
    ensures Assembled(negative, s, e, m)
         == SignBit(negative) * Pow2(s.bitwidth - 1) + e * Pow2(s.precision) + m
  {
    var p, n, g := s.precision, s.bitwidth - 1, SignBit(negative);
    assert 0 <= Shl(e, p) by {
      Nonnegative(e, Pow2(p));
    }
    OrHighLow(g, n, Shl(e, p));
    if p <= n {
      Pow2Add(n - p, p);
      Regroup(g, Pow2(n - p), Pow2(p), Pow2(n), e);
      OrHighLow(g * Pow2(n - p) + e, p, m);
    } else {
      Pow2Monotone(n, p);
      FieldZero(e, Pow2(p));
      OrHighLow(g, n, m);
    }
  }

  lemma Nonnegative(a: int, b: int)
    requires 0 <= a && 0 <= b
    ensures 0 <= a * b
  {
  }

  lemma FieldZero(e: int, p: int)
    requires 0 <= e && 0 < p && e * p < p
    ensures e == 0
  {
    if 1 <= e {
      AtLeastOnce(p, e);
    }
  }

  lemma Regroup(g: int, a: int, p: int, n: int, e: int)
    requires n == a * p
    ensures (g * a + e) * p == g * n + e * p
  {
  }

  // ---------------------------------------------------------------- encoding rounds to nearest

  lemma MulMonotone(a: real, b: real, u: real, au: real, bu: real)
    requires 0.0 < u && au == a * u && bu == b * u
    ensures (a <= b <==> au <= bu) && (a < b <==> au < bu)
  {
    Scale(b, a, b - a, u, bu, au);
    Sign(b - a, u);
  }

  lemma {:induction false} P2Monotone(a: int, b: int)
    requires a <= b
    ensures P2(a) <= P2(b)
    decreases b - a
  {
    if a < b {
      P2Monotone(a, b - 1);
      P2Next(b - 1);
    }
  }

  /** Comparing with a power of two survives scaling by another one. */
  lemma Scaled(m: int, n: nat, k: int, u: real, pnk: real)
    requires u == P2(k) && pnk == P2(n + k)
    ensures (Pow2(n) <= m <==> pnk <= Times(m, u)) && (m < Pow2(n) <==> Times(m, u) < pnk)
  {
    P2Nat(n);
    var pn := P2(n);
    AddInt(n, k, pn, u, pnk);
    MulMonotone(pn, m as real, u, pnk, Times(m, u));
  }

  /** A number with `n` significant bits whose last bit counts for 2^k. */
  lemma Binade(m: nat, k: int, n: nat, u: real)
    requires 0 < m && n == BitLength(m) && u == P2(k)
    ensures P2(n - 1 + k) <= Times(m, u) < P2(n + k)
  {
    BitLengthBounds(m);
    Scaled(m, n - 1, k, u, P2(n - 1 + k));
    Scaled(m, n, k, u, P2(n + k));
  }

  lemma FloorBounds(w: real, lo: nat, hi: nat)
    requires lo as real <= w < hi as real
    ensures lo <= w.Floor < hi
  {
  }

  /** The fields of the pattern that stands for `f` units of exponent `e`. */
  lemma PatternOf(s: Spec, e: int, f: int, lo: int)
    requires 0 < s.precision && s.emin <= e && 0 <= f < 2 * Pow2(s.precision)
    requires s.emin < e ==> Pow2(s.precision) <= f
    requires lo == (e - s.emin) * Pow2(s.precision) + f
    ensures 0 <= lo && Significand(s, lo) == f && Quantum(s, lo) == e - s.precision && lo % 2 == f % 2
  {
    var p := Pow2(s.precision);
    Nonnegative(e - s.emin, p);
    if p <= f {
      OneMore(e - s.emin, p);
      FieldsAt(s, lo, p, e - s.emin + 1, f - p);
    } else {
      FieldsAt(s, lo, p, 0, f);
    }
    EvenMultiple(e - s.emin, Pow2(s.precision - 1), f);
  }

  lemma OneMore(e: int, p: int)
    ensures (e + 1) * p == e * p + p
  {
  }

  lemma EvenMultiple(e: int, h: int, f: int)
    ensures (e * (2 * h) + f) % 2 == f % 2
  {
    assert e * (2 * h) == 2 * (e * h);
  }

  /** Rounding in units of the last place of a binade picks the nearest pattern. */
  lemma RoundedIsNearest(s: Spec, e: int, w: real, u: real, x: real, b: int)
    requires 0 < s.precision && s.emin <= e && 0.0 <= w < (2 * Pow2(s.precision)) as real
    requires s.emin < e ==> Pow2(s.precision) as real <= w
    requires u == P2(e - s.precision) && x == w * u
    requires b == (e - s.emin) * Pow2(s.precision) + RoundHalfEven(w)
    ensures 0 <= b && IsNearestEven(s, x, b)
  {
    var f := w.Floor;
    FloorBounds(w, if s.emin < e then Pow2(s.precision) else 0, 2 * Pow2(s.precision));
    var lo := b - RoundHalfEven(w) + f;
    PatternOf(s, e, f, lo);
    ValueAt(s, lo, f, u);
    IncreasingAround(s, lo);
    NearestOfTwo(Values(s), x, w, u, lo, f, b);
  }

  lemma ValueAt(s: Spec, lo: nat, f: nat, u: real)
    requires Significand(s, lo) == f && P2(Quantum(s, lo)) == u
    ensures Values(s)(lo) == Times(f, u) && Values(s)(lo + 1) == Times(f + 1, u)
  {
    NextValue(s, lo);
    Distribute(f, u);
  }

  lemma IncreasingAround(s: Spec, lo: nat)
    ensures forall c: nat | c < lo :: Values(s)(c) < Values(s)(lo)
    ensures forall c: nat | lo + 1 < c :: Values(s)(lo + 1) < Values(s)(c)
  {
    forall c: nat | c < lo ensures Values(s)(c) < Values(s)(lo) {
      Increasing(s, c, lo);
    }
    forall c: nat | lo + 1 < c ensures Values(s)(lo + 1) < Values(s)(c) {
      Increasing(s, lo + 1, c);
    }
  }

  /** There is only one nearest pattern, ties being even. */
  lemma NearestIsUnique(s: Spec, v: real, a: nat, b: nat)
    requires IsNearestEven(s, v, a) && IsNearestEven(s, v, b)
    ensures a == b
  {
    if a < b {
      OneNearest(s, v, a, b);
    } else if b < a {
      OneNearest(s, v, b, a);
    }
  }

  lemma MiddleIsNearer(v: real, x: real, y: real, z: real)
    requires x < y < z && Abs(v - x) == Abs(v - z)
    ensures Abs(v - y) < Abs(v - x)
  {
  }

  lemma OneNearest(s: Spec, v: real, a: nat, b: nat)
    requires a < b && IsNearestEven(s, v, a)
    ensures !IsNearestEven(s, v, b)
  {
    var value := Values(s);
    assert Abs(v - value(a)) <= Abs(v - value(b));
    if a + 1 < b && Abs(v - value(a)) == Abs(v - value(b)) {
      Increasing(s, a, a + 1);
      Increasing(s, a + 1, b);
      MiddleIsNearer(v, value(a), value(a + 1), value(b));
      assert false;
    }
  }

  /** Below `emin` the spacing of the numbers no longer shrinks. */
  function SpacingExponent(v: Number, s: Spec): int
    requires v.Finite?
  {
    if Exponent(v) < s.emin then s.emin else Exponent(v)
  }

  /** The number in units of the last place it is rounded to. */
  function Units(v: Number, s: Spec): real
    requires v.Finite?
  {
    Times(v.significand, P2(v.exponent - SpacingExponent(v, s) + s.precision))
  }

  /** What the encoder rounds to, as if exponents were unbounded. */
  function NearestPattern(v: Number, s: Spec): int
    requires v.Finite?
  {
    (SpacingExponent(v, s) - s.emin) * Pow2(s.precision) + RoundHalfEven(Units(v, s))
  }

  lemma NearestPatternIsNearest(v: Number, s: Spec)
    requires v.Finite? && 0 < v.significand && 0 < s.precision
    ensures 0 <= NearestPattern(v, s) && IsNearestEven(s, v.Size(), NearestPattern(v, s))
  {
    var top, w, x := SpacingExponent(v, s), Units(v, s), v.Size();
    var u := P2(top - s.precision);
    UnitsInRange(v, s);
    PlaceProduct(v.significand, v.exponent, top - s.precision, P2(v.exponent - top + s.precision), u, P2(v.exponent), w,
                 x);
    RoundedIsNearest(s, top, w, u, x, NearestPattern(v, s));
  }

  lemma PlaceProduct(n: int, a: int, j: int, b: real, c: real, bc: real, w: real, x: real)
    requires b == P2(a - j) && c == P2(j) && bc == P2(a) && w == Times(n, b) && x == Times(n, bc)
    ensures w * c == x
  {
    AddInt(a - j, j, b, c, bc);
    Reassociate(n, b, c, bc, w, x);
  }

  lemma UnitsInRange(v: Number, s: Spec)
    requires v.Finite? && 0 < v.significand
    ensures 0.0 <= Units(v, s) < (2 * Pow2(s.precision)) as real
    ensures if Exponent(v) < s.emin then Units(v, s) < Pow2(s.precision) as real
            else Pow2(s.precision) as real <= Units(v, s)
  {
    var n, k, p := BitLength(v.significand), v.exponent - SpacingExponent(v, s) + s.precision, s.precision;
    Binade(v.significand, k, n, P2(k));
    P2Monotone(n + k, if Exponent(v) < s.emin then p else p + 1);
    P2Nat(p);
    P2Nat(p + 1);
  }

  lemma Reassociate(n: int, b: real, c: real, bc: real, w: real, x: real)
    requires bc == b * c && w == Times(n, b) && x == Times(n, bc)
    ensures w * c == x
  {
  }

  /** The encoder's fraction is the number in units of the last place, less the leading one. */
  lemma FractionInUnits(v: Number, s: Spec)
    requires v.Finite? && 0 < s.precision
    ensures RoundHalfEven(ScaledFraction(v, s))
         == RoundHalfEven(Units(v, s)) - (if Exponent(v) < s.emin then 0 else Pow2(s.precision))
  {
    if Exponent(v) < s.emin {
      LowFraction(v, s, 1 - BitLength(v.significand), Exponent(v) - s.emin);
      LowUnits(v, s);
    } else {
      HighUnits(v, s, 1 - BitLength(v.significand), Units(v, s), ScaledFraction(v, s));
    }
  }

  lemma LowUnits(v: Number, s: Spec)
    requires v.Finite? && Exponent(v) < s.emin
    requires Fraction(v, s) == Times(v.significand, P2(v.exponent - s.emin))
    ensures ScaledFraction(v, s) == Units(v, s)
  {
    ScaledUp(v.significand, v.exponent - s.emin, s.precision, P2(s.precision),
             Fraction(v, s), ScaledFraction(v, s), Units(v, s));
  }

  lemma HighUnits(v: Number, s: Spec, a: int, w: real, fu: real)
    requires v.Finite? && s.emin <= Exponent(v) && 0 < s.precision && a == 1 - BitLength(v.significand)
    requires w == Units(v, s) && fu == ScaledFraction(v, s)
    ensures RoundHalfEven(fu) == RoundHalfEven(w) - Pow2(s.precision)
  {
    hide Times, RoundHalfEven, Pow2, P2, BitLength;
    HighUnitsAre(v, s, a);
    ScaledOnce(v.significand, a, s.precision, Mantissa(v), P2(s.precision), w, Fraction(v, s), fu);
  }

  lemma HighUnitsAre(v: Number, s: Spec, a: int)
    requires v.Finite? && s.emin <= Exponent(v) && a == 1 - BitLength(v.significand)
    ensures Units(v, s) == Times(v.significand, P2(a + s.precision)) && Fraction(v, s) == Mantissa(v) - 1.0
  {
  }

  lemma LowFraction(v: Number, s: Spec, a: int, d: int)
    requires v.Finite? && a == 1 - BitLength(v.significand) && d == Exponent(v) - s.emin < 0
    ensures Fraction(v, s) == Times(v.significand, P2(a + d))
  {
    hide Times, P2, Pow2, BitLength;
    PlaceProduct(v.significand, a + d, d, P2(a), P2(d), P2(a + d), Mantissa(v), Times(v.significand, P2(a + d)));
  }

  lemma ScaledUp(n: int, a: int, p: nat, u: real, f: real, fu: real, w: real)
    requires f == Times(n, P2(a)) && u == P2(p) && fu == f * u && w == Times(n, P2(a + p))
    ensures fu == w
  {
    PlaceProduct(n, a + p, p, P2(a), u, P2(a + p), f, w);
  }

  lemma ScaledOnce(n: int, a: int, p: nat, m: real, u: real, w: real, f: real, fu: real)
    requires 0 < p && m == Times(n, P2(a)) && u == P2(p) && w == Times(n, P2(a + p))
    requires f == m - 1.0 && fu == f * u
    ensures RoundHalfEven(fu) == RoundHalfEven(w) - Pow2(p)
  {
    PlaceProduct(n, a + p, p, P2(a), u, P2(a + p), m, w);
    LessOne(m, u, w, fu);
    P2Nat(p);
    RoundShift(w, Pow2(p));
  }

  lemma LessOne(m: real, u: real, mu: real, r: real)
    requires mu == m * u && r == (m - 1.0) * u
    ensures r == mu - u
  {
  }

  lemma RoundBounds(x: real, lo: int, hi: int)
    requires lo as real <= x < hi as real
    ensures lo <= RoundHalfEven(x) <= hi
  {
  }

  /** The encoder finds the nearest pattern, unless its exponent is too large: that overflows. */
  lemma EncodesNearest(v: Number, s: Spec)
    requires v.Finite? && 0 < v.significand && s.Fits()
    ensures 0 <= NearestPattern(v, s) && IsNearestEven(s, v.Size(), NearestPattern(v, s))
    ensures ConvertFloat(v, s) ==
      if NearestPattern(v, s) < s.Limit()
      then Ok(SignBit(v.negative) * Pow2(s.bitwidth - 1) + NearestPattern(v, s))
      else ConvertNonFinite(Infinite(v.negative), s)
  {
    hide Times, P2, Pow2, BitLength;
    NearestPatternIsNearest(v, s);
    UnitsInRange(v, s);
    FractionInUnits(v, s);
    var p, e := Pow2(s.precision), Exponent(v);
    var r := RoundHalfEven(ScaledFraction(v, s));
    if e < s.emin {
      RoundBounds(Units(v, s), 0, p);
      EncodesFields(v, s, p, 0, r, NearestPattern(v, s));
    } else {
      RoundBounds(Units(v, s), p, 2 * p);
      OneMore(e - s.emin, p);
      EncodesFields(v, s, p, e - s.emin + 1, r, NearestPattern(v, s));
    }
  }

  /** The encoder puts the exponent field and the rounded fraction together. */
  lemma EncodesFields(v: Number, s: Spec, p: int, field: int, r: int, b: int)
    requires v.Finite? && 0 < v.significand && s.Fits() && p == Pow2(s.precision)
    requires field == if Exponent(v) < s.emin then 0 else Exponent(v) - s.emin + 1
    requires r == RoundHalfEven(ScaledFraction(v, s)) && 0 <= r <= p && b == field * p + r
    ensures ConvertFloat(v, s) ==
      if b < s.Limit() then Ok(SignBit(v.negative) * Pow2(s.bitwidth - 1) + b)
      else ConvertNonFinite(Infinite(v.negative), s)
  {
    FieldsOrder(s, p, field, r, b);
    if b < s.Limit() {
      if r < p {
        AssembledIsSum(v.negative, s, field, r);
      } else {
        AssembledIsSum(v.negative, s, field + 1, 0);
      }
    }
  }

  /** A pattern is below the limit exactly if its exponent field is small enough. */
  lemma FieldsOrder(s: Spec, p: int, field: int, r: int, b: int)
    requires p == Pow2(s.precision) && 0 <= r <= p && b == field * p + r
    ensures b < s.Limit() <==> field + (if r == p then 1 else 0) <= s.emax - s.emin + 1
    ensures r == p ==> b == (field + 1) * p
  {
    var top := s.emax - s.emin + 2;
    OneMore(field, p);
    if r < p {
      LessFields(field, top, p, r);
    } else {
      LessFields(field + 1, top, p, 0);
    }
  }

  lemma LessFields(a: int, b: int, p: int, r: int)
    requires 0 <= r < p
    ensures a * p + r < b * p <==> a < b
  {
    if a < b {
      Nonnegative(b - a - 1, p);
      assert b * p == a * p + p + (b - a - 1) * p;
    } else {
      Nonnegative(a - b, p);
      assert a * p == b * p + (a - b) * p;
    }
  }

  // ---------------------------------------------------------------- overflow

  /** The pattern every too large number gets: infinity, NaN or the largest number. */
  function Top(s: Spec): int
    requires 0 < s.bitwidth
  {
    if s.nonFinite.IEEE? then s.Limit() else Pow2(s.bitwidth - 1) - 1
  }

  lemma {:induction false} AndPower(x: int, k: nat)
    ensures BitAnd(x, Pow2(k)) == if Bit(x, k) then Pow2(k) else 0
    decreases k
  {
    AndStep(x, Pow2(k));
    if k == 0 {
      assert Pow2(0) / 2 == 0;
    } else {
      AndPower(x / 2, k - 1);
      HalveDiv(x, Pow2(k - 1));
    }
  }

  /** Quotient and remainder of two fields laid side by side. */
  lemma Split(q: int, p: int, r: int)
    requires 0 < p && 0 <= r < p
    ensures (q * p + r) / p == q && (q * p + r) % p == r
  {
    ModUnique(q * p + r, p, q, r);
  }

  /** Dropping low bits of the lower field leaves the upper field whole. */
  lemma ShiftFields(k: int, r: int, pa: int, pb: int, pab: int)
    requires 0 < pa && 0 < pb && pab == pa * pb && 0 <= r < pab
    ensures (k * pab + r) / pb == k * pa + r / pb && 0 <= r / pb < pa
  {
    var q, t := r / pb, r % pb;
    Regroup(k, pa, pb, pab, q);
    Split(k * pa + q, pb, t);
    LessFields(q, pa, pb, t);
    Quotients(r, pb);
  }

  lemma {:induction false} DoubleFields()
    ensures Pow2(11) == 2048 && Pow2(63) == 2048 * Pow2(52)
  {
    SmallPowers();
    assert Pow2(2) == 4 && Pow2(3) == 8 by {
      assert Pow2(2) == 2 * Pow2(1);
      assert Pow2(3) == 2 * Pow2(2);
    }
    Pow2Add(8, 3);
    Pow2Add(11, 52);
  }

  /** What the encoder keeps of a payload: at least one bit. */
  function KeptPayload(v: Number, precision: nat): int
    requires !v.Finite? && precision <= 52
  {
    if v.Infinite? then 0 else if v.payload < Pow2(51) then 1 else v.payload / Pow2(52 - precision)
  }

  function Fraction64(v: Number): int
    requires !v.Finite?
  {
    if v.Infinite? then 0 else v.payload
  }

  lemma KeptRange(v: Number, p: nat)
    requires !v.Finite? && v.Proper() && 0 < p <= 52
    ensures 0 <= KeptPayload(v, p) < Pow2(p) && (KeptPayload(v, p) == 0 <==> v.Infinite?)
  {
    Pow2Add(p, 52 - p);
    Pow2Add(p - 1, 52 - p);
    var r, h, d := Fraction64(v), Pow2(p - 1), Pow2(52 - p);
    ShiftFields(0, r, Pow2(p), d, Pow2(52));
    if Pow2(51) <= r {
      AtLeastQuotient(r, h, d);
    }
  }

  lemma AtLeastQuotient(r: int, h: int, d: int)
    requires 0 < d && 0 < h && h * d <= r
    ensures h <= r / d
  {
    if r / d < h {
      LessFields(r / d, h, d, r % d);
      Quotients(r, d);
    }
  }

  /** The quiet bit is the top bit of the payload. */
  lemma QuietBit(k: int, r: int)
    requires 0 <= r < Pow2(52)
    ensures BitAnd(k * Pow2(52) + r, Shl(1, 51)) == 0 <==> r < Pow2(51)
  {
    AndPower(k * Pow2(52) + r, 51);
    MiddleBit(k * Pow2(52) + r, k, r, Pow2(51), Pow2(52));
  }

  lemma MiddleBit(x: int, k: int, r: int, h: int, w: int)
    requires 0 < h && w == 2 * h && 0 <= r < w && x == k * w + r
    ensures (x / h) % 2 == 1 <==> h <= r
  {
    ShiftFields(k, r, 2, h, w);
    if r < h {
      Split(0, h, r);
    } else {
      Split(1, h, r - h);
    }
  }

  /** Below the exponent come the leading bits of the payload. */
  lemma LeadingPayload(k: int, r: int, p: nat)
    requires 0 <= r < Pow2(52) && p <= 52
    ensures BitAnd(Shr(k * Pow2(52) + r, 52 - p), Shl(1, p) - 1) == r / Pow2(52 - p)
  {
    hide Pow2, BitAnd;
    var x := Shr(k * Pow2(52) + r, 52 - p);
    LowMask(x, p);
    Pow2Add(p, 52 - p);
    ShiftFields(k, r, Pow2(p), Pow2(52 - p), Pow2(52));
    Split(k, Pow2(p), r / Pow2(52 - p));
  }

  lemma PrecisionBitsAre(v: Number, k: int, bits: int, p: nat)
    requires !v.Finite? && v.Proper() && 0 < p <= 52 && bits == k * Pow2(52) + Fraction64(v)
    ensures PrecisionBits(v, bits, p) == KeptPayload(v, p)
  {
    QuietBit(k, Fraction64(v));
    LeadingPayload(k, Fraction64(v), p);
    Split(0, Pow2(52 - p), 0);
  }

  /** The sign and the leading bits of a number whose leading bits below the sign are all ones. */
  lemma LeadingOnes(x: int, g: int, r: int, n: nat, w: nat)
    requires n <= w && Pow2(w) - Pow2(w - n) <= r < Pow2(w) && x == g * Pow2(w) + r
    ensures Shr(x, w - n) == g * Pow2(n) + (Pow2(n) - 1)
  {
    Pow2Add(n, w - n);
    Truncated(g, Pow2(n), Pow2(w - n), Pow2(w), r);
  }

  /** A number within the last `b` below 2^63 loses everything but ones. */
  lemma Truncated(g: int, a: int, b: int, ab: int, r: int)
    requires 0 < b && ab == a * b && ab - b <= r < ab
    ensures (g * ab + r) / b == g * a + (a - 1)
  {
    Regroup(g, a, b, ab, a - 1);
    OneMore(a - 1, b);
    Split(g * a + (a - 1), b, r - (ab - b));
  }

  lemma NonFiniteBitsAre(v: Number, g: int)
    requires !v.Finite? && v.Proper() && g == SignBit(v.negative)
    ensures NonFiniteBits(v) == (g * 2048 + 0x7ff) * Pow2(52) + Fraction64(v)
  {
    DoubleFields();
    SumOfFields(g, Pow2(52), Pow2(63), Fraction64(v));
  }

  lemma SumOfFields(g: int, q: int, h: int, r: int)
    requires h == 2048 * q
    ensures g * h + 0x7ff * q + r == (g * 2048 + 0x7ff) * q + r == g * h + (h - q + r)
  {
    Regroup(g, 2048, q, h, 0x7ff);
  }

  /** All exponent bits of a double that is not finite are set. */
  lemma ExponentBits(v: Number, g: int, n: nat, bits: int)
    requires !v.Finite? && v.Proper() && g == SignBit(v.negative) && n <= 11 && bits == NonFiniteBits(v)
    ensures Shr(bits, 63 - n) == g * Pow2(n) + (Pow2(n) - 1)
  {
    hide Pow2;
    DoubleFields();
    var q, h, r := Pow2(52), Pow2(63), Fraction64(v);
    SumOfFields(g, q, h, r);
    Pow2Monotone(52, 63 - n);
    LeadingOnes(bits, g, h - q + r, n, 63);
  }

  lemma OnesBelow(g: int, a: int, p: int, n: int)
    requires n == a * p
    ensures (g * a + (a - 1)) * p == g * n + (n - p)
  {
    Regroup(g, a, p, n, a - 1);
    OneMore(a - 1, p);
  }

  /** The IEEE case in arithmetic: all exponent bits, then what is kept of the payload. */
  lemma NonFiniteFields(v: Number, s: Spec, g: int, a: int, p: int, n: int)
    requires !v.Finite? && v.Proper() && s.nonFinite.IEEE? && 0 < s.precision <= 52 && s.expBits <= 11 && 0 < s.bitwidth
    requires g == SignBit(v.negative) && a == Pow2(s.expBits) && p == Pow2(s.precision) && n == a * p
    ensures ConvertNonFinite(v, s).Ok?
    ensures ConvertNonFinite(v, s).value == g * n + (n - p + KeptPayload(v, s.precision))
  {
    hide Pow2, NonFiniteBits, PrecisionBits, KeptPayload, Shr;
    ExponentBits(v, g, s.expBits, NonFiniteBits(v));
    NonFiniteBitsAre(v, g);
    PrecisionBitsAre(v, g * 2048 + 0x7ff, NonFiniteBits(v), s.precision);
    KeptRange(v, s.precision);
    OrHighLow(g * a + (a - 1), s.precision, KeptPayload(v, s.precision));
    OnesBelow(g, a, p, n);
  }

  /** Every regular format fits, and all ones is the last pattern its exponents can have. */
  lemma RegularFits(s: Spec)
    requires s.Regular()
    ensures s.Fits() && Pow2(s.bitwidth - 1) == Pow2(s.expBits) * Pow2(s.precision)
    ensures Pow2(s.precision) <= Pow2(s.bitwidth - 1)
    ensures s.Limit() == Pow2(s.bitwidth - 1) - (if s.nonFinite.IEEE? then Pow2(s.precision) else 0)
  {
    Pow2Add(s.expBits, s.precision);
    Pow2Monotone(s.precision, s.bitwidth - 1);
    OneMore(Pow2(s.expBits) - 1, Pow2(s.precision));
  }

  /** Infinities encode as the sign and the top pattern. */
  lemma InfinityEncodes(negative: bool, s: Spec)
    requires s.Regular()
    ensures ConvertNonFinite(Infinite(negative), s) == Ok(SignBit(negative) * Pow2(s.bitwidth - 1) + Top(s))
  {
    hide Pow2, BitOr;
    RegularFits(s);
    var g, n := SignBit(negative), s.bitwidth - 1;
    if s.nonFinite.IEEE? {
      NonFiniteFields(Infinite(negative), s, g, Pow2(s.expBits), Pow2(s.precision), Pow2(n));
    } else {
      OrHighLow(g, n, Pow2(n) - 1);
    }
  }

  /** The encoder rounds to nearest, ties to even, and clamps at the top pattern. */
  lemma Saturates(v: Number, s: Spec)
    requires v.Finite? && 0 < v.significand && s.Regular()
    ensures ConvertFloat(v, s) == Ok(SignBit(v.negative) * Pow2(s.bitwidth - 1)
      + (if NearestPattern(v, s) < Top(s) then NearestPattern(v, s) else Top(s)))
  {
    hide Pow2, BitOr, Times, RoundHalfEven;
    RegularFits(s);
    EncodesNearest(v, s);
    InfinityEncodes(v.negative, s);
  }

  // ---------------------------------------------------------------- decoding

  /** The low `k` bits, masked as the program does. */
  function LowBits(x: int, k: nat): (r: int)
    ensures 0 <= r < Pow2(k) && r == x % Pow2(k)
  {
    LowMask(x, k);
    BitAnd(x, BitNot(Shl(-1, k)))
  }

  function SubnormalShift(m: int, p: nat): nat
    requires 0 < m < Pow2(p)
  {
    BitLengthFits(m, p);
    p - BitLength(m) + 1
  }

  function Joined(sign: int, e: int, m: int, p: nat): int
    requires p <= 52
  {
    BitOr(sign, BitOr(Shl(e, 52), Shl(m, 52 - p)))
  }

  /** All exponent bits set, and a fraction that does not stand for a number. */
  predicate AreSpecial(e: int, m: int, s: Spec) {
    e == BitNot(Shl(-1, s.expBits))
    && (s.nonFinite.IEEE? || (s.nonFinite.NanOnlyAllOnes? && m == BitNot(Shl(-1, s.precision))))
  }

  /** Exponent and fraction of the double for given exponent and fraction. */
  function Converted(e: int, m: int, s: Spec): (int, int)
    requires 0 <= m < Pow2(s.precision)
  {
    if AreSpecial(e, m, s) then (0x7ff, m)
    else if e == 0 && s.haveZeroAndSubnormals then
      if m != 0 then
        var shift := SubnormalShift(m, s.precision);
        (s.emin + 1023 - shift, LowBits(Shl(m, shift), s.precision))
      else (0, 0)
    else (e - (if s.haveZeroAndSubnormals then 1 else 0) + s.emin + 1023, m)
  }

  /** The 64 bits of the double that pattern `bits` stands for. */
  function FloatFromBits(bits: int, s: Spec): int
    requires s.precision <= 52 && 0 < s.bitwidth
  {
    var m := LowBits(bits, s.precision);
    var e := LowBits(Shr(bits, s.precision), s.expBits);
    FloatFromFields(if s.haveSign then Shr(bits, s.bitwidth - 1) else 0, e, m, s)
  }

  function FloatFromFields(g: int, e: int, m: int, s: Spec): int
    requires s.precision <= 52 && 0 <= m < Pow2(s.precision)
  {
    var sign := Shl(g, 63);
    var double := Converted(e, m, s);
    Joined(if AreSpecial(e, m, s) && s.precision == 0 then BitOr(sign, Shl(1, 51)) else sign,
           double.0, double.1, s.precision)
  }

  /** What the fields of a double mean (section 3.4 of IEEE 754-2019). */
  function DoubleOf(negative: bool, exponent: nat, fraction: nat): Number {
    if exponent == 2047 then
      if fraction == 0 then Infinite(negative) else NotANumber(negative, fraction)
    else if exponent == 0 then Finite(negative, fraction, -1074)
    else Finite(negative, Pow2(52) + fraction, exponent - 1075)
  }

  function DoubleFromBits(b: nat): Number {
    DoubleOf((b / Pow2(63)) % 2 == 1, (b / Pow2(52)) % 2048, b % Pow2(52))
  }

  lemma JoinedIsSum(g: int, e: int, m: int, p: nat, f: int)
    requires 0 <= g < 2 && 0 <= e < 2048 && p <= 52 && f == Shl(m, 52 - p) && 0 <= f < Pow2(52)
    ensures Joined(Shl(g, 63), e, m, p) == g * Pow2(63) + (e * Pow2(52) + f)
  {
    OrHighLow(e, 52, f);
    DoubleFields();
    LessFields(e, 2048, Pow2(52), f);
    Nonnegative(e, Pow2(52));
    OrHighLow(g, 63, e * Pow2(52) + f);
  }

  lemma FractionFits(m: int, p: nat)
    requires p <= 52 && 0 <= m < Pow2(p)
    ensures 0 <= Shl(m, 52 - p) < Pow2(52)
  {
    Pow2Add(p, 52 - p);
    LessFields(m, Pow2(p), Pow2(52 - p), 0);
    Nonnegative(m, Pow2(52 - p));
  }

  /** The fields that were joined come apart again. */
  lemma JoinedFields(g: int, e: int, m: int, p: nat, joined: int)
    requires 0 <= g < 2 && 0 <= e < 2048 && p <= 52 && 0 <= m < Pow2(p)
    requires joined == Joined(Shl(g, 63), e, m, p)
    ensures 0 <= joined && 0 <= Shl(m, 52 - p)
    ensures DoubleFromBits(joined) == DoubleOf(g == 1, e, Shl(m, 52 - p))
  {
    FractionFits(m, p);
    JoinedIsSum(g, e, m, p, Shl(m, 52 - p));
    DoubleFields();
    SplitDouble(g, e, Shl(m, 52 - p), Pow2(52), Pow2(63), joined);
  }

  lemma SplitDouble(g: int, e: int, f: int, q: int, h: int, x: int)
    requires 0 <= g < 2 && 0 <= e < 2048 && 0 <= f < q && h == 2048 * q && x == g * h + (e * q + f)
    ensures 0 <= x && (x / h) % 2 == g && (x / q) % 2048 == e && x % q == f
  {
    LessFields(e, 2048, q, f);
    Nonnegative(e, q);
    Nonnegative(g, h);
    Split(g, h, e * q + f);
    Regroup(g, 2048, q, h, e);
    Split(g * 2048 + e, q, f);
    Split(g, 2048, e);
  }

  // ---------------------------------------------------------------- decoding is the meaning

  function MagnitudeOf(bits: int, s: Spec): (b: int)
    requires 0 < s.bitwidth
    ensures 0 <= b < Pow2(s.bitwidth - 1)
  {
    bits % Pow2(s.bitwidth - 1)
  }

  /** The first magnitude pattern that is an infinity or a NaN, if there is one. */
  function FirstSpecial(s: Spec): int
    requires 0 < s.bitwidth
  {
    match s.nonFinite
    case IEEE => s.Limit()
    case NanOnlyAllOnes => Pow2(s.bitwidth - 1) - 1
    case FiniteOnly => Pow2(s.bitwidth - 1)
  }

  predicate IsPattern(bits: int, s: Spec)
    requires 0 < s.bitwidth
  {
    0 <= bits < 2 * Pow2(s.bitwidth - 1)
  }

  predicate IsNegative(bits: int, s: Spec)
    requires 0 < s.bitwidth
  {
    Pow2(s.bitwidth - 1) <= bits
  }

  lemma SplitPattern(bits: int, g: int, b: int, a: int, p: int, n: int)
    requires 0 < a && 0 < p && n == a * p && 0 <= b < n && bits == g * n + b
    ensures bits / n == g && (bits / p) % a == b / p && bits % p == b % p && 0 <= b / p < a
  {
    Split(g, n, b);
    ShiftFields(g, b, a, p, n);
    Split(g, a, b / p);
    Quotients(b, p);
    Regroup(g, a, p, n, b / p);
    Split(g * a + b / p, p, b % p);
  }

  /** The fields the decoder extracts are those of the magnitude, and the sign. */
  lemma PatternFields(bits: int, s: Spec, b: int, g: int)
    requires s.Regular() && IsPattern(bits, s) && b == MagnitudeOf(bits, s)
    requires g == SignBit(IsNegative(bits, s))
    ensures bits == g * Pow2(s.bitwidth - 1) + b && Shr(bits, s.bitwidth - 1) == g
    ensures LowBits(bits, s.precision) == b % Pow2(s.precision)
    ensures LowBits(Shr(bits, s.precision), s.expBits) == b / Pow2(s.precision) < Pow2(s.expBits)
  {
    RegularFits(s);
    var n := Pow2(s.bitwidth - 1);
    if g == 0 {
      Split(0, n, bits);
    } else {
      Split(1, n, bits - n);
    }
    SplitPattern(bits, g, b, Pow2(s.expBits), Pow2(s.precision), n);
  }

  /** Low zero bits of the significand may move into the exponent. */
  lemma ShiftedSize(n: int, j: nat, a: int, nq: int, u: real, uq: real)
    requires nq == n * Pow2(j) && u == P2(a) && uq == P2(a + j)
    ensures Times(nq, u) == Times(n, uq)
  {
    P2Nat(j);
    AddInt(j, a, P2(j), u, uq);
    ProductOfReals(n, Pow2(j), nq, u, uq);
  }

  lemma ProductOfReals(n: int, q: int, nq: int, u: real, uq: real)
    requires nq == n * q && uq == q as real * u
    ensures Times(nq, u) == Times(n, uq)
  {
    assert nq as real == n as real * q as real;
    assert (n as real * q as real) * u == n as real * (q as real * u);
  }

  /** A leading one and a fraction, both shifted up to 52 bits. */
  lemma LeadingOneSize(p: nat, m: nat, a: int, k: int, sig: nat)
    requires p <= 52 && sig == Pow2(52) + Shl(m, 52 - p) && k == a + (52 - p)
    ensures Times(sig, P2(a)) == Times(Pow2(p) + m, P2(k))
  {
    Pow2Add(p, 52 - p);
    Distributed(Pow2(p), m, Pow2(52 - p));
    ShiftedSize(Pow2(p) + m, 52 - p, a, sig, P2(a), P2(k));
  }

  /** The decoder's exponent and fraction for a pattern with a leading one. */
  lemma DecodesNormal(s: Spec, e: int, m: int, negative: bool)
    requires s.Regular() && 0 < e <= s.emax - s.emin + 1 && 0 <= m < Pow2(s.precision)
    ensures 0 <= Shl(m, 52 - s.precision) && 0 < e - 1 + s.emin + 1023 < 2047
    ensures DoubleOf(negative, e - 1 + s.emin + 1023, Shl(m, 52 - s.precision)).Finite?
    ensures DoubleOf(negative, e - 1 + s.emin + 1023, Shl(m, 52 - s.precision)).Size()
         == Times(Pow2(s.precision) + m, P2(e - 1 + s.emin - s.precision))
  {
    FractionFits(m, s.precision);
    LeadingOneSize(s.precision, m, e - 1 + s.emin + 1023 - 1075, e - 1 + s.emin - s.precision,
                   Pow2(52) + Shl(m, 52 - s.precision));
  }

  lemma Distributed(a: int, b: int, c: int)
    ensures (a + b) * c == a * c + b * c
  {
  }

  /** A subnormal significand, shifted up to its leading one. */
  lemma Normalised(m: int, p: nat, shift: nat)
    requires 0 < m < Pow2(p) && shift == SubnormalShift(m, p)
    ensures 0 < shift <= p && Pow2(p) <= Shl(m, shift) < 2 * Pow2(p)
    ensures LowBits(Shl(m, shift), p) == Shl(m, shift) - Pow2(p)
  {
    var n := BitLength(m);
    BitLengthBounds(m);
    BitLengthFits(m, p);
    Pow2Add(n - 1, shift);
    Pow2Add(n, shift);
    LessFields(m, Pow2(n), Pow2(shift), 0);
    LessFields(Pow2(n - 1), m + 1, Pow2(shift), 0);
    Nonnegative(m - Pow2(n - 1), Pow2(shift));
    Distributed(m - Pow2(n - 1), Pow2(n - 1), Pow2(shift));
    Split(1, Pow2(p), Shl(m, shift) - Pow2(p));
  }

  /** The decoder's exponent and fraction for a subnormal pattern. */
  lemma DecodesSubnormal(s: Spec, m: int, shift: nat, f: int, negative: bool)
    requires s.Regular() && 0 < m < Pow2(s.precision) && shift == SubnormalShift(m, s.precision)
    requires f == LowBits(Shl(m, shift), s.precision)
    ensures 0 <= Shl(f, 52 - s.precision) && 0 < s.emin + 1023 - shift < 2047
    ensures DoubleOf(negative, s.emin + 1023 - shift, Shl(f, 52 - s.precision)).Finite?
    ensures DoubleOf(negative, s.emin + 1023 - shift, Shl(f, 52 - s.precision)).Size()
         == Times(m, P2(s.emin - s.precision))
  {
    hide P2, Times;
    Normalised(m, s.precision, shift);
    FractionFits(f, s.precision);
    SubnormalSize(s.precision, m, shift, f, s.emin + 1023 - shift - 1075, s.emin - s.precision - shift,
                  s.emin - s.precision, Pow2(52) + Shl(f, 52 - s.precision), Shl(m, shift));
  }

  lemma SubnormalSize(p: nat, m: nat, shift: nat, f: nat, a: int, j: int, k: int, sig: nat, x: int)
    requires p <= 52 && x == Shl(m, shift) && Pow2(p) + f == x && sig == Pow2(52) + Shl(f, 52 - p)
    requires j == a + (52 - p) && k == j + shift
    ensures Times(sig, P2(a)) == Times(m, P2(k))
  {
    hide Pow2, Times, P2;
    LeadingOneSize(p, f, a, j, sig);
    ShiftedUp(m, shift, j, x, k);
  }

  lemma ShiftedUp(m: nat, shift: nat, j: int, x: int, k: int)
    requires x == Shl(m, shift) && k == j + shift
    ensures Times(x, P2(j)) == Times(m, P2(k))
  {
    ShiftedSize(m, shift, j, x, P2(j), P2(k));
  }

  /** The number a pattern decodes to. */
  function Decode(bits: int, s: Spec): Number
    requires s.Regular() && IsPattern(bits, s)
  {
    var b := FloatFromBits(bits, s);
    if 0 <= b then DoubleFromBits(b) else Infinite(false)
  }

  /** What the decoder joins is what the fields of the double mean. */
  lemma DecodesFields(bits: int, s: Spec, b: int, g: int, e: int, m: int, e': int, f: int)
    requires s.Regular() && IsPattern(bits, s) && b == MagnitudeOf(bits, s) && g == SignBit(IsNegative(bits, s))
    requires e == b / Pow2(s.precision) && m == b % Pow2(s.precision) && 0 <= m < Pow2(s.precision)
    requires (e', f) == Converted(e, m, s) && 0 <= e' < 2048 && 0 <= f < Pow2(s.precision)
    ensures 0 <= FloatFromBits(bits, s) && 0 <= Shl(f, 52 - s.precision)
    ensures Decode(bits, s) == DoubleOf(g == 1, e', Shl(f, 52 - s.precision))
  {
    PatternFields(bits, s, b, g);
    JoinsFields(bits, s, g, e, m, e', f);
  }

  lemma JoinsFields(bits: int, s: Spec, g: int, e: int, m: int, e': int, f: int)
    requires s.Regular() && IsPattern(bits, s) && 0 <= g < 2 && 0 <= m < Pow2(s.precision)
    requires Shr(bits, s.bitwidth - 1) == g && LowBits(bits, s.precision) == m
    requires LowBits(Shr(bits, s.precision), s.expBits) == e
    requires (e', f) == Converted(e, m, s) && 0 <= e' < 2048 && 0 <= f < Pow2(s.precision)
    ensures 0 <= FloatFromBits(bits, s) && 0 <= Shl(f, 52 - s.precision)
    ensures Decode(bits, s) == DoubleOf(g == 1, e', Shl(f, 52 - s.precision))
  {
    var joined := FloatFromBits(bits, s);
    FieldsAreJoined(bits, s, g, e, m, e', f, joined);
    JoinedFields(g, e', f, s.precision, joined);
  }

  lemma FieldsAreJoined(bits: int, s: Spec, g: int, e: int, m: int, e': int, f: int, joined: int)
    requires s.Regular() && 0 <= m < Pow2(s.precision)
    requires Shr(bits, s.bitwidth - 1) == g && LowBits(bits, s.precision) == m
    requires LowBits(Shr(bits, s.precision), s.expBits) == e
    requires (e', f) == Converted(e, m, s) && joined == FloatFromBits(bits, s)
    ensures joined == Joined(Shl(g, 63), e', f, s.precision)
  {
    hide Shl, Shr, LowBits, BitOr;
    assert joined == FloatFromFields(g, e, m, s);
  }

  /** Exponent and fraction of an ordinary pattern become a double of the same value. */
  lemma ConvertsValue(s: Spec, e: int, m: int, negative: bool, e': int, f: int)
    requires s.Regular() && 0 <= e <= s.emax - s.emin + 1 && 0 <= m < Pow2(s.precision) && !AreSpecial(e, m, s)
    requires (e', f) == Converted(e, m, s)
    ensures 0 <= e' < 2047 && 0 <= f < Pow2(s.precision) && 0 <= Shl(f, 52 - s.precision)
    ensures DoubleOf(negative, e', Shl(f, 52 - s.precision)).Finite?
    ensures DoubleOf(negative, e', Shl(f, 52 - s.precision)).Size()
         == Times(if e == 0 then m else Pow2(s.precision) + m, P2((if e == 0 then 0 else e - 1) + s.emin - s.precision))
  {
    if e != 0 {
      DecodesNormal(s, e, m, negative);
    } else if m != 0 {
      DecodesSubnormal(s, m, SubnormalShift(m, s.precision), f, negative);
    } else {
      Zero(P2(-1074));
      Zero(P2(s.emin - s.precision));
    }
  }

  lemma ValueOfFields(s: Spec, b: nat, e: int, m: int)
    requires e == b / Pow2(s.precision) && m == b % Pow2(s.precision)
    ensures Value(s, b)
         == Times(if e == 0 then m else Pow2(s.precision) + m, P2((if e == 0 then 0 else e - 1) + s.emin - s.precision))
  {
  }

  lemma DecodesMagnitude(bits: int, s: Spec, b: nat, e: int, m: int, g: int)
    requires s.Regular() && IsPattern(bits, s) && b == MagnitudeOf(bits, s) && g == SignBit(IsNegative(bits, s))
    requires b < FirstSpecial(s) && e == b / Pow2(s.precision) && m == b % Pow2(s.precision)
    ensures 0 <= FloatFromBits(bits, s)
    ensures Decode(bits, s).Finite? && Decode(bits, s).negative == (g == 1)
    ensures Decode(bits, s).Size() == Value(s, b)
  {
    OrdinaryFields(s, b, e, m);
    var (e', f) := Converted(e, m, s);
    ConvertsValue(s, e, m, g == 1, e', f);
    DecodesFields(bits, s, b, g, e, m, e', f);
    ValueOfFields(s, b, e, m);
  }

  /** Every pattern that is not special decodes to the number it stands for. */
  lemma DecodesValue(bits: int, s: Spec, b: nat)
    requires s.Regular() && IsPattern(bits, s) && b == MagnitudeOf(bits, s) < FirstSpecial(s)
    ensures 0 <= FloatFromBits(bits, s)
    ensures Decode(bits, s).Finite? && Decode(bits, s).negative == IsNegative(bits, s)
    ensures Decode(bits, s).Size() == Value(s, b)
  {
    DecodesMagnitude(bits, s, b, b / Pow2(s.precision), b % Pow2(s.precision), SignBit(IsNegative(bits, s)));
  }

  lemma Zero(u: real)
    ensures Times(0, u) == 0.0
  {
  }

  /** Below the special patterns, the decoder's test for them fails. */
  lemma OrdinaryFields(s: Spec, b: int, e: int, m: int)
    requires s.Regular() && 0 <= b < FirstSpecial(s) && e == b / Pow2(s.precision) && m == b % Pow2(s.precision)
    ensures 0 <= e <= s.emax - s.emin + 1 && 0 <= m < Pow2(s.precision) && !AreSpecial(e, m, s)
  {
    RegularFits(s);
    var p, a := Pow2(s.precision), Pow2(s.expBits);
    Quotients(b, p);
    LessFields(e, a, p, m);
    OneMore(a - 1, p);
    if s.nonFinite.IEEE? {
      LessFields(e, a - 1, p, m);
    }
  }

  /** The nearest pattern of a number that has a pattern is that one. */
  lemma ValueIsNearest(s: Spec, b: nat)
    ensures IsNearestEven(s, Value(s, b), b)
  {
    forall c: nat | c != b
      ensures Value(s, c) != Value(s, b)
    {
      if c < b {
        Increasing(s, c, b);
      } else {
        Increasing(s, b, c);
      }
    }
  }

  predicate IsNanPattern(bits: int, s: Spec)
    requires 0 < s.bitwidth
  {
    match s.nonFinite
    case IEEE => MagnitudeOf(bits, s) > s.Limit()
    case NanOnlyAllOnes => MagnitudeOf(bits, s) == Pow2(s.bitwidth - 1) - 1
    case FiniteOnly => false
  }

  /** Encoding what was decoded gives back every pattern that is not a NaN. */
  lemma RoundTrip(bits: int, s: Spec)
    requires s.Regular() && IsPattern(bits, s) && !IsNanPattern(bits, s)
    ensures Decode(bits, s).Proper() && ConvertFloat(Decode(bits, s), s) == Ok(bits)
  {
    var b, g := MagnitudeOf(bits, s), SignBit(IsNegative(bits, s));
    PatternFields(bits, s, b, g);
    RoundTripOf(bits, s, b, g, Decode(bits, s));
  }

  lemma RoundTripOf(bits: int, s: Spec, b: nat, g: int, v: Number)
    requires s.Regular() && IsPattern(bits, s) && b == MagnitudeOf(bits, s) && g == SignBit(IsNegative(bits, s))
    requires v == Decode(bits, s) && bits == g * Pow2(s.bitwidth - 1) + b && !IsNanPattern(bits, s)
    ensures v.Proper() && ConvertFloat(v, s) == Ok(bits)
  {
    if b < FirstSpecial(s) {
      OrdinaryRoundTrip(bits, s, b, g, v);
    } else {
      SpecialRoundTrip(bits, s, b, g, v);
    }
  }

  lemma OrdinaryRoundTrip(bits: int, s: Spec, b: nat, g: int, v: Number)
    requires s.Regular() && IsPattern(bits, s) && b == MagnitudeOf(bits, s) && g == SignBit(IsNegative(bits, s))
    requires v == Decode(bits, s) && bits == g * Pow2(s.bitwidth - 1) + b && b < FirstSpecial(s)
    ensures v.Proper() && ConvertFloat(v, s) == Ok(bits)
  {
    DecodesValue(bits, s, b);
    FiniteRoundTrip(s, b, v, g, bits);
  }

  lemma SpecialRoundTrip(bits: int, s: Spec, b: nat, g: int, v: Number)
    requires s.Regular() && IsPattern(bits, s) && b == MagnitudeOf(bits, s) && g == SignBit(IsNegative(bits, s))
    requires v == Decode(bits, s) && bits == g * Pow2(s.bitwidth - 1) + b && !IsNanPattern(bits, s)
    requires FirstSpecial(s) <= b
    ensures v.Proper() && ConvertFloat(v, s) == Ok(bits)
  {
    hide Pow2, Top;
    DecodesSpecial(bits, s, b);
    assert v == Infinite(g == 1);
    InfinityEncodes(g == 1, s);
    LastIsTop(bits, s, b);
    ConvertsInfinity(v, s, ConvertNonFinite(v, s));
  }

  lemma LastIsTop(bits: int, s: Spec, b: nat)
    requires s.Regular() && IsPattern(bits, s) && b == MagnitudeOf(bits, s)
    requires FirstSpecial(s) <= b && !IsNanPattern(bits, s)
    ensures b == Top(s)
  {
  }

  lemma ConvertsInfinity(v: Number, s: Spec, r: Result<int, Error>)
    requires v.Infinite? && s.Regular() && r == ConvertNonFinite(v, s)
    ensures ConvertFloat(v, s) == r
  {
  }

  lemma FiniteRoundTrip(s: Spec, b: nat, v: Number, g: int, bits: int)
    requires s.Regular() && b < FirstSpecial(s) && v.Finite? && v.Size() == Value(s, b)
    requires g == SignBit(v.negative) && bits == g * Pow2(s.bitwidth - 1) + b
    ensures ConvertFloat(v, s) == Ok(bits)
  {
    hide P2, Abs, RoundHalfEven;
    RegularFits(s);
    if v.significand == 0 {
      Zero(P2(v.exponent));
      Zero(P2(Quantum(s, 0)));
      if 0 < b {
        Increasing(s, 0, b);
      }
    } else {
      EncodesNearest(v, s);
      ValueIsNearest(s, b);
      NearestIsUnique(s, v.Size(), b, NearestPattern(v, s));
    }
  }

  /** Special patterns decode to infinities and NaNs of the same sign. */
  lemma DecodesSpecial(bits: int, s: Spec, b: nat)
    requires s.Regular() && IsPattern(bits, s) && FirstSpecial(s) <= b == MagnitudeOf(bits, s)
    ensures 0 <= FloatFromBits(bits, s)
    ensures Decode(bits, s).Proper() && !Decode(bits, s).Finite? && Decode(bits, s).negative == IsNegative(bits, s)
    ensures Decode(bits, s).NotANumber? <==> IsNanPattern(bits, s)
  {
    DecodesSpecialFields(bits, s, b, b / Pow2(s.precision), b % Pow2(s.precision), SignBit(IsNegative(bits, s)));
  }

  lemma DecodesSpecialFields(bits: int, s: Spec, b: nat, e: int, m: int, g: int)
    requires s.Regular() && IsPattern(bits, s) && FirstSpecial(s) <= b == MagnitudeOf(bits, s)
    requires e == b / Pow2(s.precision) && m == b % Pow2(s.precision) && g == SignBit(IsNegative(bits, s))
    ensures 0 <= FloatFromBits(bits, s)
    ensures Decode(bits, s).Proper() && !Decode(bits, s).Finite? && Decode(bits, s).negative == (g == 1)
    ensures Decode(bits, s).NotANumber? <==> IsNanPattern(bits, s)
  {
    SpecialFields(s, b, e, m);
    DecodesFields(bits, s, b, g, e, m, 0x7ff, m);
    FractionFits(m, s.precision);
    if 0 < m {
      AtLeastOnce(Pow2(52 - s.precision), m);
    }
  }

  lemma SpecialFields(s: Spec, b: int, e: int, m: int)
    requires s.Regular() && FirstSpecial(s) <= b < Pow2(s.bitwidth - 1)
    requires e == b / Pow2(s.precision) && m == b % Pow2(s.precision)
    ensures AreSpecial(e, m, s) && 0 <= m < Pow2(s.precision)
    ensures s.nonFinite.IEEE? ==> m == b - s.Limit()
    ensures s.nonFinite.NanOnlyAllOnes? ==> m == Pow2(s.precision) - 1 && 0 < m
  {
    RegularFits(s);
    var p, a := Pow2(s.precision), Pow2(s.expBits);
    OneMore(a - 1, p);
    Split(a - 1, p, b - (a - 1) * p);
  }

  /** An infinity is one again after encoding and decoding exactly in the formats that have one. */
  lemma InfinityKeptExactly(negative: bool, s: Spec)
    requires s.Regular()
    ensures ConvertFloat(Infinite(negative), s).Ok? && IsPattern(ConvertFloat(Infinite(negative), s).value, s)
    ensures Decode(ConvertFloat(Infinite(negative), s).value, s) == Infinite(negative) <==> s.nonFinite.IEEE?
  {
    hide Pow2, Decode, ConvertNonFinite;
    InfinityEncodes(negative, s);
    var g, n, b := SignBit(negative), Pow2(s.bitwidth - 1), Top(s);
    var bits := g * n + b;
    RegularFits(s);
    TopFields(negative, s, bits);
    if s.nonFinite.FiniteOnly? {
      DecodesValue(bits, s, b);
    } else {
      DecodesSpecial(bits, s, b);
    }
  }

  lemma TopFields(negative: bool, s: Spec, bits: int)
    requires s.Regular() && bits == SignBit(negative) * Pow2(s.bitwidth - 1) + Top(s)
    ensures IsPattern(bits, s) && MagnitudeOf(bits, s) == Top(s) && IsNegative(bits, s) == negative
    ensures FirstSpecial(s) <= Top(s) <==> !s.nonFinite.FiniteOnly?
    ensures IsNanPattern(bits, s) <==> s.nonFinite.NanOnlyAllOnes?
  {
    hide Pow2;
    RegularFits(s);
    Split(SignBit(negative), Pow2(s.bitwidth - 1), Top(s));
  }

  /** An infinity that becomes a NaN. */
  lemma InfinityLost()
    ensures F8E4M3FN.Regular() && ConvertFloat(Infinite(false), F8E4M3FN) == Ok(0x7F)
    ensures IsPattern(0x7F, F8E4M3FN) && IsNanPattern(0x7F, F8E4M3FN)
  {
    hide Pow2, ConvertNonFinite;
    ListedAreRegular();
    SevenBits();
    InfinityEncodes(false, F8E4M3FN);
    TopFields(false, F8E4M3FN, 0x7F);
  }

  lemma SevenBits()
    ensures Pow2(7) == 0x80
  {
    SmallPowers();
    assert Pow2(8) == 2 * Pow2(7);
  }

  predicate IsNanResult(r: Result<int, Error>, negative: bool, s: Spec)
    requires 0 < s.bitwidth
  {
    r.Ok? && IsPattern(r.value, s) && IsNanPattern(r.value, s) && IsNegative(r.value, s) == negative
  }

  /** A NaN stays a NaN of the same sign, in every format that has one. */
  lemma NanStaysNan(bits: int, s: Spec)
    requires s.Regular() && IsPattern(bits, s) && IsNanPattern(bits, s)
    ensures Decode(bits, s).NotANumber? && Decode(bits, s).Proper()
    ensures IsNanResult(ConvertFloat(Decode(bits, s), s), IsNegative(bits, s), s)
  {
    RegularFits(s);
    DecodesSpecial(bits, s, MagnitudeOf(bits, s));
    NanEncodes(Decode(bits, s), s);
  }

  /** Every NaN, quiet or signalling, encodes to a NaN, unless the format has none: that is an error. */
  lemma NanEncodes(v: Number, s: Spec)
    requires s.Regular() && v.NotANumber? && v.Proper()
    ensures if s.nonFinite.FiniteOnly? then ConvertFloat(v, s) == Err(NanInFiniteOnly)
            else IsNanResult(ConvertFloat(v, s), v.negative, s)
  {
    hide KeptPayload, BitOr;
    RegularFits(s);
    var g, n, p := SignBit(v.negative), Pow2(s.bitwidth - 1), s.precision;
    if s.nonFinite.IEEE? {
      NonFiniteFields(v, s, g, Pow2(s.expBits), Pow2(p), n);
      KeptRange(v, p);
      NanIsNan(s, g, n, n - Pow2(p) + KeptPayload(v, p), v.negative, ConvertFloat(v, s));
    } else if s.nonFinite.NanOnlyAllOnes? {
      OrHighLow(g, s.bitwidth - 1, n - 1);
      NanIsNan(s, g, n, n - 1, v.negative, ConvertFloat(v, s));
    }
  }

  /** The payload of a decoded NaN: the fraction, in the leading bits. */
  lemma DecodesNan(bits: int, s: Spec, b: nat, m: nat)
    requires s.Regular() && IsPattern(bits, s) && IsNanPattern(bits, s) && s.nonFinite.IEEE?
    requires b == MagnitudeOf(bits, s) && m == b - s.Limit()
    ensures 0 < m < Pow2(s.precision)
    ensures Decode(bits, s) == NotANumber(IsNegative(bits, s), Shl(m, 52 - s.precision))
  {
    hide Pow2, Decode, FloatFromBits, Shl;
    RegularFits(s);
    var e, f, g := b / Pow2(s.precision), b % Pow2(s.precision), SignBit(IsNegative(bits, s));
    SpecialFields(s, b, e, f);
    DecodesFields(bits, s, b, g, e, f, 0x7ff, f);
    SomeFraction(f, 52 - s.precision);
  }

  lemma SomeFraction(m: int, k: nat)
    requires 0 < m
    ensures 0 < Shl(m, k)
  {
    AtLeastOnce(Pow2(k), m);
  }

  /** The leading bits of such a payload are the fraction again, and the quiet bit is its first. */
  lemma PayloadFields(m: nat, p: nat, w: int)
    requires 0 < p <= 52 && w == Pow2(52 - p)
    ensures m * w / w == m && (m * w < Pow2(51) <==> m < Pow2(p - 1))
  {
    Pow2Add(p - 1, 52 - p);
    Split(m, w, 0);
    LessFields(m, Pow2(p - 1), w, 0);
  }

  /** A payload is kept whole if its first bit is set, or its last one only. */
  lemma KeptFraction(v: Number, m: nat, p: nat)
    requires v.NotANumber? && 0 < p <= 52 && v.payload == Shl(m, 52 - p)
    ensures KeptPayload(v, p) == if Pow2(p - 1) <= m then m else 1
  {
    PayloadFields(m, p, Pow2(52 - p));
  }

  /** Quiet NaNs keep their payload; of signalling ones, all payloads become 1. */
  lemma NanBack(bits: int, s: Spec, m: nat)
    requires s.Regular() && IsPattern(bits, s) && IsNanPattern(bits, s) && s.nonFinite.IEEE?
    requires m == MagnitudeOf(bits, s) - s.Limit()
    ensures Decode(bits, s).Proper()
    ensures ConvertFloat(Decode(bits, s), s) == Ok(if Pow2(s.precision - 1) <= m then bits else bits - m + 1)
  {
    hide Decode, FloatFromBits;
    var b, g, v := MagnitudeOf(bits, s), SignBit(IsNegative(bits, s)), Decode(bits, s);
    PatternFields(bits, s, b, g);
    DecodesSpecial(bits, s, b);
    DecodesNan(bits, s, b, m);
    NanEncodesTo(v, s, g, m, b, bits);
  }

  lemma NanEncodesTo(v: Number, s: Spec, g: int, m: nat, b: int, bits: int)
    requires s.Regular() && s.nonFinite.IEEE? && v.NotANumber? && v.Proper() && v.payload == Shl(m, 52 - s.precision)
    requires g == SignBit(v.negative) && b == s.Limit() + m && bits == g * Pow2(s.bitwidth - 1) + b
    ensures ConvertFloat(v, s) == Ok(if Pow2(s.precision - 1) <= m then bits else bits - m + 1)
  {
    hide Pow2, Shl, ConvertNonFinite, KeptPayload;
    RegularFits(s);
    KeptFraction(v, m, s.precision);
    NonFiniteFields(v, s, g, Pow2(s.expBits), Pow2(s.precision), Pow2(s.bitwidth - 1));
  }

  /**
   Exactly which NaN patterns come back: in an IEEE format, those with the quiet bit and the
   one with payload 1; where all ones is the only NaN, both.
   */
  lemma NanRoundTripExactly(bits: int, s: Spec)
    requires s.Regular() && IsPattern(bits, s) && IsNanPattern(bits, s)
    ensures ConvertFloat(Decode(bits, s), s) == Ok(bits) <==>
      s.nonFinite.IEEE? ==>
        MagnitudeOf(bits, s) == s.Limit() + 1 || s.Limit() + Pow2(s.precision - 1) <= MagnitudeOf(bits, s)
  {
    if s.nonFinite.IEEE? {
      NanBack(bits, s, MagnitudeOf(bits, s) - s.Limit());
    } else {
      NanStaysNan(bits, s);
      SameMagnitude(bits, ConvertFloat(Decode(bits, s), s).value, s);
    }
  }

  lemma SameMagnitude(x: int, y: int, s: Spec)
    requires 0 < s.bitwidth && IsPattern(x, s) && IsPattern(y, s) && IsNegative(x, s) == IsNegative(y, s)
    requires MagnitudeOf(x, s) == MagnitudeOf(y, s)
    ensures x == y
  {
    var n := Pow2(s.bitwidth - 1);
    if IsNegative(x, s) {
      Split(1, n, x - n);
      Split(1, n, y - n);
    } else {
      Split(0, n, x);
      Split(0, n, y);
    }
  }

  /** A signalling NaN of a half-precision number that comes back as another one. */
  lemma PayloadLost()
    ensures F16.Regular() && IsPattern(0x7C02, F16) && IsNanPattern(0x7C02, F16)
    ensures ConvertFloat(Decode(0x7C02, F16), F16) == Ok(0x7C01)
  {
    SmallPowers();
    assert Pow2(15) == 0x8000 by { assert Pow2(16) == 2 * Pow2(15); }
    Pow2Add(1, 1);
    Pow2Add(8, 1);
    Pow2Add(8, 2);
    ListedAreRegular();
    NanBack(0x7C02, F16, 2);
  }

  lemma NanIsNan(s: Spec, g: int, n: int, b: int, negative: bool, r: Result<int, Error>)
    requires s.Regular() && g == SignBit(negative) && n == Pow2(s.bitwidth - 1) && 0 <= b < n
    requires match s.nonFinite
      case IEEE => b > n - Pow2(s.precision)
      case NanOnlyAllOnes => b == n - 1
      case FiniteOnly => false
    requires r.Ok? && r.value == g * n + b
    ensures IsNanResult(r, negative, s)
  {
    RegularFits(s);
    Split(g, n, b);
  }

  // ---------------------------------------------------------------- exponents only

  /** A format of powers of two: all bits are exponent bits, the last pattern is NaN. */
  predicate IsExponential(s: Spec) {
    && !s.haveSign && !s.haveZeroAndSubnormals && s.precision == 0 && s.nonFinite.NanOnlyAllOnes?
    && 0 < s.bitwidth == s.expBits <= 11 && s.emax - s.emin + 1 == Pow2(s.bitwidth) - 1
    && 0 < s.emin + 1023 && s.emax <= 1023
  }

  lemma ListedIsExponential()
    ensures IsExponential(F8E8M0FNU)
  {
    SmallPowers();
  }

  function ConvertExponential(v: Number, bitwidth: nat, emin: int, emax: int): Result<int, Error> {
    var nan := Shl(1, bitwidth) - 1;
    if v.negative then Err(NegativeInUnsigned)
    else if v.Finite? && v.significand == 0 then Ok(0)
    else if !v.Finite? then Ok(nan)
    else if Exponent(v) > emax then Ok(nan)
    else if Exponent(v) < emin then Ok(0)
    else if Mantissa(v) - 1.0 >= 0.5 then
      if Exponent(v) - emin + 1 > emax - emin then Ok(nan) else Ok(Exponent(v) - emin + 1)
    else Ok(Exponent(v) - emin)
  }

  function PowerAt(emin: int, b: nat): real {
    P2(emin + b)
  }

  /** Of the powers of two from 2^emin on, 2^(emin + b) is nearest to `v`; the middle rounds up. */
  ghost predicate IsNearestPower(emin: int, v: real, b: nat) {
    forall c: nat :: Abs(v - PowerAt(emin, b)) <= Abs(v - PowerAt(emin, c)) &&
      (c != b && Abs(v - PowerAt(emin, b)) == Abs(v - PowerAt(emin, c)) ==> c < b)
  }

  lemma {:induction false} P2Increasing(a: int, b: int)
    requires a < b
    ensures P2(a) < P2(b)
  {
    P2Monotone(a, b - 1);
    P2Next(b - 1);
  }

  lemma LowestIsNearest(emin: int, v: real)
    requires v < P2(emin)
    ensures IsNearestPower(emin, v, 0)
  {
    forall c: nat | c != 0 ensures PowerAt(emin, 0) < PowerAt(emin, c) {
      P2Increasing(emin, emin + c);
    }
  }

  lemma PickPower(emin: int, v: real, lo: nat, b: nat)
    requires PowerAt(emin, lo) <= v < PowerAt(emin, lo + 1)
    requires b == if v - PowerAt(emin, lo) < PowerAt(emin, lo + 1) - v then lo else lo + 1
    ensures IsNearestPower(emin, v, b)
  {
    var x, y := PowerAt(emin, lo), PowerAt(emin, lo + 1);
    forall c: nat
      ensures Abs(v - PowerAt(emin, b)) <= Abs(v - PowerAt(emin, c))
      ensures c != b && Abs(v - PowerAt(emin, b)) == Abs(v - PowerAt(emin, c)) ==> c < b
    {
      if c < lo {
        P2Increasing(emin + c, emin + lo);
      } else if lo + 1 < c {
        P2Increasing(emin + lo + 1, emin + c);
      }
      if c < lo || lo + 1 < c {
        NoNearer(v, x, y, PowerAt(emin, b), PowerAt(emin, c));
      }
    }
  }

  /** The leading one of a number is where its exponent says. */
  lemma MantissaInRange(v: Number)
    requires v.Finite? && 0 < v.significand
    ensures 1.0 <= Mantissa(v) < 2.0
  {
    var n: int := BitLength(v.significand);
    var k: int := 1 - n;
    Binade(v.significand, k, n, P2(k));
  }

  lemma MantissaSize(v: Number, k: int, u: real, m: real, x: real)
    requires v.Finite? && k == 1 - BitLength(v.significand) && u == P2(Exponent(v))
    requires m == Mantissa(v) && x == v.Size()
    ensures x == m * u
  {
    PlaceProduct(v.significand, v.exponent, Exponent(v), P2(k), u, P2(v.exponent), m, x);
  }

  /** At least halfway up the binade is at least as near to its end. */
  lemma Halfway(m: real, u: real, u2: real, v: real)
    requires 0.0 < u && u2 == 2.0 * u && v == m * u && 1.0 <= m < 2.0
    ensures u <= v < u2 && (m - 1.0 >= 0.5 <==> v - u >= u2 - v)
  {
    MulMonotone(1.0, m, u, u, v);
    MulMonotone(m, 2.0, u, v, u2);
    MulMonotone(m, 1.5, u, v, 1.5 * u);
  }

  lemma BetweenPowers(v: Number, e: int, u: real, u2: real, m: real, x: real)
    requires v.Finite? && 0 < v.significand && e == Exponent(v) && u == P2(e) && u2 == P2(e + 1)
    requires m == Mantissa(v) && x == v.Size()
    ensures u <= x < u2 && (m - 1.0 >= 0.5 <==> x - u >= u2 - x)
  {
    MantissaInRange(v);
    var k: int := 1 - BitLength(v.significand);
    MantissaSize(v, k, u, m, x);
    P2Next(e);
    Halfway(m, u, u2, x);
  }

  /** The exponent-only encoder picks the nearest power of two; what is too large becomes NaN. */
  lemma ExponentialNearest(v: Number, s: Spec) returns (b: nat)
    requires v.Finite? && !v.negative && IsExponential(s)
    ensures IsNearestPower(s.emin, v.Size(), b)
    ensures ConvertExponential(v, s.bitwidth, s.emin, s.emax)
         == Ok(if b < Pow2(s.bitwidth) - 1 then b else Pow2(s.bitwidth) - 1)
  {
    if v.significand == 0 {
      b := 0;
      Zero(P2(v.exponent));
      LowestIsNearest(s.emin, v.Size());
    } else {
      var e := Exponent(v);
      BetweenPowers(v, e, P2(e), P2(e + 1), Mantissa(v), v.Size());
      if e < s.emin {
        b := 0;
        P2Monotone(e + 1, s.emin);
        LowestIsNearest(s.emin, v.Size());
      } else {
        b := if Mantissa(v) - 1.0 >= 0.5 then e - s.emin + 1 else e - s.emin;
        PickPower(s.emin, v.Size(), e - s.emin, b);
      }
    }
  }

  /** Exponent-only patterns survive decoding and encoding, including the one that is NaN. */
  lemma ExponentialRoundTrip(bits: int, s: Spec)
    requires IsExponential(s) && 0 <= bits < Pow2(s.bitwidth)
    ensures 0 <= FloatFromBits(bits, s)
    ensures var v := DoubleFromBits(FloatFromBits(bits, s));
      && ConvertExponential(v, s.bitwidth, s.emin, s.emax) == Ok(bits)
      && (if bits == Pow2(s.bitwidth) - 1 then v.NotANumber?
          else v.Finite? && v.Size() == P2(s.emin + bits))
  {
    var joined := FloatFromBits(bits, s);
    ExponentialDecodes(bits, s, joined);
    if bits == Pow2(s.bitwidth) - 1 {
      ExponentialNan(joined);
      NanIsLast(DoubleFromBits(joined), bits, s,
                ConvertExponential(DoubleFromBits(joined), s.bitwidth, s.emin, s.emax));
    } else {
      LeadingOne(bits + s.emin + 1023, s.emin + bits);
      PowerEncodes(bits + s.emin + 1023, s.emin + bits, bits, s, DoubleFromBits(joined),
                   ConvertExponential(DoubleFromBits(joined), s.bitwidth, s.emin, s.emax));
    }
  }

  lemma NanIsLast(v: Number, bits: int, s: Spec, r: Result<int, Error>)
    requires v.NotANumber? && !v.negative && bits == Pow2(s.bitwidth) - 1
    requires r == ConvertExponential(v, s.bitwidth, s.emin, s.emax)
    ensures r == Ok(bits)
  {
  }

  const FRACTION_BITS: nat := 52

  lemma PowerEncodes(exponent: int, e: int, b: int, s: Spec, v: Number, r: Result<int, Error>)
    requires 0 < exponent < 2047 && e == exponent - 1023 && s.emin <= e <= s.emax && b == e - s.emin
    requires v == DoubleOf(false, exponent, 0) && r == ConvertExponential(v, s.bitwidth, s.emin, s.emax)
    ensures r == Ok(b)
  {
    PowerFields(v, exponent, FRACTION_BITS);
    ExactPower(v, e, b, s);
  }

  lemma PowerFields(v: Number, exponent: int, k: nat)
    requires 0 < exponent < 2047 && k == FRACTION_BITS && v == DoubleOf(false, exponent, 0)
    ensures v == Finite(false, Pow2(k), exponent - 1075) && Exponent(v) == exponent - 1023 && Mantissa(v) == 1.0
  {
    var a: int := 0 - k;
    BitLengthOfPower(k);
    ShiftedSize(1, k, a, Pow2(k), P2(a), 1.0);
  }

  lemma ExactPower(v: Number, e: int, b: int, s: Spec)
    requires v.Finite? && 0 < v.significand && !v.negative && Exponent(v) == e && Mantissa(v) == 1.0
    requires s.emin <= e <= s.emax && b == e - s.emin
    ensures ConvertExponential(v, s.bitwidth, s.emin, s.emax) == Ok(b)
  {
  }

  lemma ExponentialDecodes(bits: int, s: Spec, joined: int)
    requires IsExponential(s) && 0 <= bits < Pow2(s.bitwidth) && joined == FloatFromBits(bits, s)
    ensures bits == Pow2(s.bitwidth) - 1 ==> joined == Joined(BitOr(Shl(0, 63), Shl(1, 51)), 0x7ff, 0, 0)
    ensures bits != Pow2(s.bitwidth) - 1 ==>
      0 <= joined && DoubleFromBits(joined) == DoubleOf(false, bits + s.emin + 1023, 0)
  {
    Split(0, Pow2(s.bitwidth), bits);
    if bits != Pow2(s.bitwidth) - 1 {
      JoinedFields(0, bits + s.emin + 1023, 0, 0, joined);
    }
  }

  /** A power of two as a double. */
  lemma LeadingOne(exponent: int, e: int)
    requires 0 < exponent < 2047 && e == exponent - 1023
    ensures DoubleOf(false, exponent, 0).Finite? && DoubleOf(false, exponent, 0).Size() == P2(e)
  {
    ShiftedSize(1, 52, exponent - 1075, Pow2(52), P2(exponent - 1075), P2(e));
  }

  lemma {:induction false} BitLengthOfPower(k: nat)
    ensures BitLength(Pow2(k)) == k + 1
  {
    if k != 0 {
      BitLengthOfPower(k - 1);
    }
  }

  lemma ExponentialNan(joined: int)
    requires joined == Joined(BitOr(Shl(0, 63), Shl(1, 51)), 0x7ff, 0, 0)
    ensures 0 <= joined && DoubleFromBits(joined) == NotANumber(false, Pow2(51))
  {
    hide BitAnd, BitNot;
    var quiet := Pow2(51);
    OrDisjoint(0, 1, 51);
    OrHighLow(0x7ff, 52, 0);
    OrDisjoint(quiet, 0x7ff, 52);
    DoubleFields();
    SplitDouble(0, 0x7ff, quiet, Pow2(52), Pow2(63), joined);
  }
}
