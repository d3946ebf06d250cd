/** Commutative monoids and finite sums in them. */
module Monoid {
  datatype Monoid<!T> = Monoid(zero: T, add: (T, T) -> T)

  // The laws are instantiated only where a proof names the elements.
  predicate On<T>(a: T, b: T, c: T) { true }

  ghost predicate LawsOn<T>(m: Monoid<T>, a: T, b: T, c: T) {
    && m.add(a, b) == m.add(b, a)
    && m.add(m.add(a, b), c) == m.add(a, m.add(b, c))
    && m.add(a, m.zero) == a
  }

  ghost predicate IsMonoid<T(!new)>(m: Monoid<T>) {
    forall a, b, c {:trigger On(a, b, c)} :: On(a, b, c) ==> LawsOn(m, a, b, c)
  }

  lemma Laws<T(!new)>(m: Monoid<T>, a: T, b: T, c: T)
    requires IsMonoid(m)
    ensures m.add(a, b) == m.add(b, a)
    ensures m.add(m.add(a, b), c) == m.add(a, m.add(b, c))
    ensures m.add(a, m.zero) == a
  {
    assert On(a, b, c);
  }

  /** The sum of f(0), ..., f(n - 1). */
  function Sum<T>(m: Monoid<T>, n: nat, f: int -> T): T {
    if n == 0 then m.zero else m.add(Sum(m, n - 1, f), f(n - 1))
  }

  lemma {:induction false} SumEqual<T>(m: Monoid<T>, n: nat, f: int -> T, g: int -> T)
    requires forall i | 0 <= i < n :: f(i) == g(i)
    ensures Sum(m, n, f) == Sum(m, n, g)
  {
    if n != 0 {
      SumEqual(m, n - 1, f, g);
    }
  }

  lemma Exchange<T(!new)>(m: Monoid<T>, a: T, b: T, c: T, d: T)
    requires IsMonoid(m)
    ensures m.add(m.add(a, b), m.add(c, d)) == m.add(m.add(a, c), m.add(b, d))
  {
    Laws(m, a, b, m.add(c, d));
    Laws(m, b, c, d);
    Laws(m, c, b, d);
    Laws(m, a, c, m.add(b, d));
  }

  lemma {:induction false} SumAdd<T(!new)>(m: Monoid<T>, n: nat, f: int -> T, g: int -> T)
    requires IsMonoid(m)
    ensures m.add(Sum(m, n, f), Sum(m, n, g)) == Sum(m, n, i => m.add(f(i), g(i)))
  {
    if n == 0 {
      Laws(m, m.zero, m.zero, m.zero);
    } else {
      SumAdd(m, n - 1, f, g);
      Exchange(m, Sum(m, n - 1, f), f(n - 1), Sum(m, n - 1, g), g(n - 1));
    }
  }

  /** Zeros add up to zero. */
  lemma {:induction false} SumZero<T(!new)>(m: Monoid<T>, n: nat, f: int -> T)
    requires IsMonoid(m) && forall i | 0 <= i < n :: f(i) == m.zero
    ensures Sum(m, n, f) == m.zero
  {
    if n != 0 {
      SumZero(m, n - 1, f);
      Laws(m, m.zero, m.zero, m.zero);
    }
  }

  /** The order of two sums can be exchanged. */
  lemma {:induction false} SumSwap<T(!new)>(m: Monoid<T>, rows: nat, n: nat, f: (int, int) -> T)
    requires IsMonoid(m)
    ensures Sum(m, rows, i => Sum(m, n, j => f(i, j))) == Sum(m, n, j => Sum(m, rows, i => f(i, j)))
  {
    if rows == 0 {
      SumZero(m, n, j => Sum(m, rows, i => f(i, j)));
    } else {
      SumSwap(m, rows - 1, n, f);
      var rest, last: int -> T := j => Sum(m, rows - 1, i => f(i, j)), j => f(rows - 1, j);
      SumAdd(m, n, rest, last);
      SumEqual(m, n, j => m.add(rest(j), last(j)), j => Sum(m, rows, i => f(i, j)));
    }
  }

  lemma {:induction false} SumSplit<T(!new)>(m: Monoid<T>, k: nat, n: nat, f: int -> T)
    requires IsMonoid(m)
    ensures Sum(m, k + n, f) == m.add(Sum(m, k, f), Sum(m, n, j => f(k + j)))
  {
    if n == 0 {
      Laws(m, Sum(m, k, f), m.zero, m.zero);
    } else {
      SumSplit(m, k, n - 1, f);
      Laws(m, Sum(m, k, f), Sum(m, n - 1, j => f(k + j)), f(k + n - 1));
    }
  }

  lemma Rows(k: nat, n: nat)
    requires 0 < k
    ensures k * n == (k - 1) * n + n
  {
  }

  /** A sum over pairs, in row-major order. */
  lemma {:induction false} SumPairs<T(!new)>(m: Monoid<T>, k: nat, n: nat, total: nat, f: int -> T)
    requires IsMonoid(m) && total == k * n
    ensures Sum(m, total, f) == Sum(m, k, i => Sum(m, n, j => f(i * n + j)))
  {
    if k != 0 {
      Rows(k, n);
      var rows: int -> T := i => Sum(m, n, j => f(i * n + j));
      SumPairs(m, k - 1, n, total - n, f);
      SumSplit(m, total - n, n, f);
      SumEqual(m, n, j => f(total - n + j), j => f((k - 1) * n + j));
      assert rows(k - 1) == Sum(m, n, j => f(total - n + j));
    }
  }

  /** One more contribution, wherever it stands in the order, adds to the sum. */
  lemma {:induction false} SumUpdate<T(!new)>(m: Monoid<T>, n: nat, f: int -> T, g: int -> T, k: nat)
    requires IsMonoid(m) && k < n && f(k) == m.zero
    requires forall i | 0 <= i < n && i != k :: f(i) == g(i)
    ensures Sum(m, n, g) == m.add(g(k), Sum(m, n, f))
  {
    if k == n - 1 {
      SumEqual(m, n - 1, f, g);
      Laws(m, Sum(m, n - 1, f), g(k), g(k));
    } else {
      SumUpdate(m, n - 1, f, g, k);
      Laws(m, g(k), Sum(m, n - 1, f), f(n - 1));
    }
  }

  /** Zeros at the end add nothing. */
  lemma {:induction false} SumPrefix<T(!new)>(m: Monoid<T>, n: nat, more: nat, f: int -> T)
    requires IsMonoid(m) && n <= more && forall i | n <= i < more :: f(i) == m.zero
    ensures Sum(m, more, f) == Sum(m, n, f)
  {
    if n < more {
      SumPrefix(m, n, more - 1, f);
      Laws(m, Sum(m, n, f), m.zero, m.zero);
    }
  }

  /** A sum with at most one term that is not zero. */
  lemma {:induction false} SumSingle<T(!new)>(m: Monoid<T>, n: nat, k: nat, x: T)
    requires IsMonoid(m) && k < n
    ensures Sum(m, n, i => if i == k then x else m.zero) == x
  {
    var f, g: int -> T := i => m.zero, i => if i == k then x else m.zero;
    SumZero(m, n, f);
    SumUpdate(m, n, f, g, k);
    Laws(m, x, m.zero, m.zero);
  }
}
