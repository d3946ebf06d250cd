/**
 Bitwise operations on unbounded two's-complement integers, for the places where the
 program masks instead of dividing.
 */
module Bits {
  function Pow2(k: nat): (p: int)
    ensures 0 < p
  {
    if k == 0 then 1 else 2 * Pow2(k - 1)
  }

  function Magnitude(x: int): nat {
    if x < 0 then -x else x
  }

  /** Two's-complement "and", bit by bit from the lowest. */
  function BitAnd(x: int, y: int): int
    decreases Magnitude(x) + Magnitude(y)
  {
    if x == 0 || y == 0 then 0
    else if x == -1 then y
    else if y == -1 then x
    else 2 * BitAnd(x / 2, y / 2) + (x % 2) * (y % 2)
  }

  /** One's complement. */
  function BitNot(x: int): int {
    -x - 1
  }

  lemma {:induction false} Pow2Add(a: nat, b: nat)
    ensures Pow2(a + b) == Pow2(a) * Pow2(b)
  {
    if a != 0 {
      Pow2Add(a - 1, b);
    }
  }

  lemma {:induction false} Pow2Monotone(a: nat, b: nat)
    requires a <= b
    ensures Pow2(a) <= Pow2(b)
  {
    Pow2Add(a, b - a);
    assert Pow2(a) * 1 <= Pow2(a) * Pow2(b - a);
  }

  /** Halving a number halves its quotient and keeps the low bit of its remainder. */
  lemma HalveMod(x: int, p: int)
    requires 0 < p
    ensures x % (2 * p) == 2 * ((x / 2) % p) + x % 2
  {
    var q, r := (x / 2) / p, (x / 2) % p;
    assert x == 2 * (q * p + r) + x % 2;
    assert x == (2 * p) * q + (2 * r + x % 2) by {
      assert 2 * (q * p) == (2 * p) * q;
    }
    ModUnique(x, 2 * p, q, 2 * r + x % 2);
  }

  lemma AtLeastOnce(m: int, d: int)
    requires 0 <= m && 1 <= d
    ensures m <= m * d
  {
  }

  /** The only multiple of `m` strictly between -m and m is zero. */
  lemma SmallMultiple(m: int, d: int)
    requires 0 < m && -m < m * d < m
    ensures d == 0
  {
    if 1 <= d {
      AtLeastOnce(m, d);
    } else if d <= -1 {
      AtLeastOnce(m, -d);
    }
  }

  lemma ModUnique(x: int, m: int, q: int, r: int)
    requires 0 < m && 0 <= r < m && x == m * q + r
    ensures x / m == q && x % m == r
  {
    var q', r' := x / m, x % m;
    assert x == m * q' + r' && 0 <= r' < m;
    assert m * (q - q') == r' - r by {
      assert m * (q - q') == m * q - m * q';
    }
    SmallMultiple(m, q - q');
  }

  lemma Quotients(a: int, b: int)
    requires 0 <= a && 0 < b
    ensures a == (a / b) * b + a % b && 0 <= a / b && 0 <= a % b < b && (b <= a ==> 0 < a / b)
  {
  }

  lemma MultipleOfMultiple(a: int, b: int, c: int)
    requires 0 < b && 0 < c && a % b == 0 && b % c == 0
    ensures a % c == 0
  {
    assert a == b * (a / b) && b == c * (b / c);
    assert a == c * ((b / c) * (a / b));
    ModUnique(a, c, (b / c) * (a / b), 0);
  }

  /** Masking with 2^k - 1 is the remainder modulo 2^k. */
  lemma {:induction false} LowMask(x: int, k: nat)
    ensures BitAnd(x, Pow2(k) - 1) == x % Pow2(k)
    decreases k
  {
    if k == 0 {
    } else if x == 0 {
    } else if x == -1 {
      ModUnique(-1, Pow2(k), -1, Pow2(k) - 1);
    } else {
      var p := Pow2(k - 1);
      HalveMod(x, p);
      LowMask(x / 2, k - 1);
      assert (2 * p - 1) / 2 == p - 1 && (2 * p - 1) % 2 == 1;
    }
  }

  /** Masking with the complement of 2^k - 1 rounds down to a multiple of 2^k. */
  lemma {:induction false} HighMask(x: int, k: nat)
    ensures BitAnd(x, BitNot(Pow2(k) - 1)) == x - x % Pow2(k)
    decreases k
  {
    var y: int := BitNot(Pow2(k) - 1);
    assert y == -Pow2(k);
    if k == 0 {
    } else if x == 0 {
    } else if x == -1 {
      ModUnique(-1, Pow2(k), -1, Pow2(k) - 1);
    } else {
      var p: int := Pow2(k - 1);
      HalveMod(x, p);
      HighMask(x / 2, k - 1);
      assert y / 2 == -p && y % 2 == 0;
    }
  }

  /** `r` is the least multiple of `m` that is not below `x`. */
  ghost predicate IsRoundUp(x: int, m: int, r: int)
    requires 0 < m
  {
    r % m == 0 && x <= r < x + m
  }

  lemma RoundUpLeast(x: int, m: int, r: int, other: int)
    requires 0 < m && IsRoundUp(x, m, r) && x <= other && other % m == 0
    ensures r <= other
  {
    if other < r {
      var d := r / m - other / m;
      assert m * d == r - other by {
        assert r == m * (r / m) && other == m * (other / m);
      }
      SmallMultiple(m, d);
    }
  }

  lemma FloorMultiple(y: int, p: int)
    requires 0 < p
    ensures (y - y % p) % p == 0 && y - p < y - y % p <= y
  {
    ModUnique(y - y % p, p, y / p, 0);
  }

  /** Adding the mask, then clearing its bits, rounds up to a multiple of 2^k. */
  lemma RoundUpByMask(x: int, k: nat)
    ensures IsRoundUp(x, Pow2(k), BitAnd(x + (Pow2(k) - 1), BitNot(Pow2(k) - 1)))
  {
    var p := Pow2(k);
    var y := x + (p - 1);
    HighMask(y, k);
    var r := y - y % p;
    FloorMultiple(y, p);
    assert IsRoundUp(x, p, r);
  }

  // ---------------------------------------------------------------- single bits

  predicate Bit(x: int, k: nat) {
    (x / Pow2(k)) % 2 == 1
  }

  function BitOr(x: int, y: int): int {
    BitNot(BitAnd(BitNot(x), BitNot(y)))
  }

  function Shl(x: int, k: nat): int {
    x * Pow2(k)
  }

  function Shr(x: int, k: nat): int {
    x / Pow2(k)
  }

  /** The recursive equation of "and" holds in its base cases, too. */
  lemma AndStep(x: int, y: int)
    ensures BitAnd(x, y) == 2 * BitAnd(x / 2, y / 2) + (x % 2) * (y % 2)
  {
  }

  lemma OrStep(x: int, y: int)
    ensures BitOr(x, y) == 2 * BitOr(x / 2, y / 2) + (if x % 2 == 1 || y % 2 == 1 then 1 else 0)
  {
    AndStep(BitNot(x), BitNot(y));
    assert BitNot(x) / 2 == BitNot(x / 2) && BitNot(y) / 2 == BitNot(y / 2);
    assert BitNot(x) % 2 == 1 - x % 2 && BitNot(y) % 2 == 1 - y % 2;
  }

  lemma HalveDiv(x: int, p: int)
    requires 0 < p
    ensures x / (2 * p) == (x / 2) / p
  {
    var q, r := (x / 2) / p, (x / 2) % p;
    assert x == (2 * p) * q + (2 * r + x % 2) by {
      assert 2 * (q * p) == (2 * p) * q;
    }
    ModUnique(x, 2 * p, q, 2 * r + x % 2);
  }

  /** "And" works bit by bit. */
  lemma {:induction false} AndBit(x: int, y: int, k: nat)
    ensures Bit(BitAnd(x, y), k) <==> Bit(x, k) && Bit(y, k)
    decreases k
  {
    AndStep(x, y);
    if k == 0 {
      assert (x % 2) * (y % 2) == if x % 2 == 1 && y % 2 == 1 then 1 else 0;
    } else {
      AndBit(x / 2, y / 2, k - 1);
      HalveDiv(BitAnd(x, y), Pow2(k - 1));
      HalveDiv(x, Pow2(k - 1));
      HalveDiv(y, Pow2(k - 1));
      assert BitAnd(x, y) / 2 == BitAnd(x / 2, y / 2) by {
        assert 0 <= (x % 2) * (y % 2) < 2;
      }
    }
  }

  /** "Or" of numbers without a common bit position is their sum. */
  lemma {:induction false} OrDisjoint(low: int, high: int, k: nat)
    requires 0 <= low < Pow2(k)
    ensures BitOr(low, Shl(high, k)) == low + Shl(high, k)
  {
    var y := Shl(high, k);
    if k == 0 {
      assert BitNot(0) == -1;
      assert BitAnd(-1, BitNot(y)) == BitNot(y);
    } else {
      assert y == 2 * Shl(high, k - 1);
      OrStep(low, y);
      OrDisjoint(low / 2, high, k - 1);
    }
  }

  lemma SmallPowers()
    ensures Pow2(1) == 2 && Pow2(4) == 16 && Pow2(5) == 32 && Pow2(8) == 0x100 && Pow2(16) == 0x1_0000
  {
    assert Pow2(0) == 1;
    assert Pow2(1) == 2 * Pow2(0);
    Pow2Add(1, 1);
    Pow2Add(2, 2);
    Pow2Add(4, 1);
    Pow2Add(4, 4);
    Pow2Add(8, 8);
  }

  lemma Powers()
    ensures Pow2(31) == 0x8000_0000 && Pow2(32) == 0x1_0000_0000
    ensures Pow2(63) == 0x8000_0000_0000_0000 && Pow2(64) == 0x1_0000_0000_0000_0000
  {
    SmallPowers();
    Pow2Add(16, 16);
    Pow2Add(31, 1);
    Pow2Add(32, 32);
    Pow2Add(63, 1);
  }

  /** The number of bits needed to write `m`. */
  function BitLength(m: nat): nat {
    if m == 0 then 0 else 1 + BitLength(m / 2)
  }

  lemma {:induction false} BitLengthBounds(m: nat)
    requires 0 < m
    ensures 0 < BitLength(m) && Pow2(BitLength(m) - 1) <= m < Pow2(BitLength(m))
  {
    if m / 2 != 0 {
      BitLengthBounds(m / 2);
    }
  }

  lemma {:induction false} BitLengthFits(m: nat, p: nat)
    requires m < Pow2(p)
    ensures BitLength(m) <= p
  {
    if m != 0 {
      BitLengthBounds(m);
      if p < BitLength(m) {
        Pow2Monotone(p, BitLength(m) - 1);
      }
    }
  }

  // ---------------------------------------------------------------- 64-bit words

  const TWO64: int := 0x1_0000_0000_0000_0000

  function ToUint64(x: int): (u: int)
    ensures 0 <= u < TWO64
  {
    x % TWO64
  }

  function ToInt64(u: int): int
    requires 0 <= u < TWO64
  {
    if u < TWO64 / 2 then u else u - TWO64
  }

  predicate IsInt64(x: int) {
    -TWO64 / 2 <= x < TWO64 / 2
  }

  lemma Int64RoundTrip(u: int)
    requires 0 <= u < TWO64
    ensures IsInt64(ToInt64(u)) && ToUint64(ToInt64(u)) == u
  {
    if u >= TWO64 / 2 {
      ModUnique(u - TWO64, TWO64, -1, u);
    } else {
      ModUnique(u, TWO64, 0, u);
    }
  }

  /** All ones is neutral for "and" on 64-bit words. */
  lemma AllOnes(u: int)
    requires 0 <= u < TWO64
    ensures BitAnd(ToUint64(-1), u) == u
  {
    Powers();
    ModUnique(-1, TWO64, -1, TWO64 - 1);
    LowMask(u, 64);
    AndCommutes(TWO64 - 1, u);
    ModUnique(u, TWO64, 0, u);
  }

  lemma {:induction false} AndCommutes(x: int, y: int)
    ensures BitAnd(x, y) == BitAnd(y, x)
    decreases Magnitude(x) + Magnitude(y)
  {
    if x != 0 && y != 0 && x != -1 && y != -1 {
      AndCommutes(x / 2, y / 2);
    }
  }

  lemma {:induction false} AndRange(x: int, y: int)
    requires 0 <= x && 0 <= y
    ensures 0 <= BitAnd(x, y) <= x
  {
    if x != 0 && y != 0 {
      AndRange(x / 2, y / 2);
      AndStep(x, y);
      assert (x % 2) * (y % 2) <= x % 2;
    }
  }
}
