/** Finite sums of real-valued index functions. */
module Sums {

  function Sum(n: nat, f: int -> real): real {
    if n == 0 then 0.0 else Sum(n - 1, f) + f(n - 1)
  }

  lemma LastTerm(n: nat, f: int -> real)
    requires n > 0
    ensures Sum(n, f) == Sum(n - 1, f) + f(n - 1)
  {
  }

  lemma {:induction false} Congruent(n: nat, f: int -> real, g: int -> real)
    requires forall i :: 0 <= i < n ==> f(i) == g(i)
    ensures Sum(n, f) == Sum(n, g)
  {
    if n > 0 {
      Congruent(n - 1, f, g);
    }
  }

  lemma {:induction false} Additive(n: nat, f: int -> real, g: int -> real, h: int -> real)
    requires forall i :: 0 <= i < n ==> h(i) == f(i) + g(i)
    ensures Sum(n, h) == Sum(n, f) + Sum(n, g)
  {
    if n > 0 {
      Additive(n - 1, f, g, h);
    }
  }

  lemma {:induction false} Scaled(n: nat, f: int -> real, h: int -> real, w: real)
    requires forall i :: 0 <= i < n ==> h(i) == w * f(i)
    ensures Sum(n, h) == w * Sum(n, f)
  {
    if n > 0 {
      Scaled(n - 1, f, h, w);
      ScaledStep(w, Sum(n - 1, f), f(n - 1));
    }
  }

  lemma ScaledStep(w: real, before: real, step: real)
    ensures w * (before + step) == w * before + w * step
  {
  }

  lemma Linear(n: nat, f: int -> real, g: int -> real, h: int -> real, w: real)
    requires forall i :: 0 <= i < n ==> h(i) == w * f(i) + g(i)
    ensures Sum(n, h) == w * Sum(n, f) + Sum(n, g)
  {
    var scaled := (i: int) => w * f(i);
    Scaled(n, f, scaled, w);
    Additive(n, scaled, g, h);
  }

  lemma {:induction false} Zeros(n: nat, f: int -> real)
    requires forall i :: 0 <= i < n ==> f(i) == 0.0
    ensures Sum(n, f) == 0.0
  {
    if n > 0 {
      Zeros(n - 1, f);
    }
  }

  /** At most one term, the one at `k`, is nonzero. */
  lemma {:induction false} Single(n: nat, f: int -> real, k: int)
    requires forall i :: 0 <= i < n && i != k ==> f(i) == 0.0
    ensures Sum(n, f) == if 0 <= k < n then f(k) else 0.0
  {
    if n > 0 {
      Single(n - 1, f, k);
    }
  }

  lemma ZeroTimes(y: real)
    ensures y * 0.0 == 0.0 && 0.0 * y == 0.0
  {
  }

  /** Terms that are the steps of `g` sum to its growth. */
  lemma {:induction false} Telescope(n: nat, f: int -> real, g: int -> real)
    requires forall i :: 0 <= i < n ==> g(i + 1) == g(i) + f(i)
    ensures Sum(n, f) == g(n) - g(0)
  {
    if n > 0 {
      Telescope(n - 1, f, g);
      assert g(n - 1 + 1) == g(n - 1) + f(n - 1);
    }
  }

  function Row(f: (int, int) -> real, i: int): int -> real { j => f(i, j) }

  function Column(f: (int, int) -> real, j: int): int -> real { i => f(i, j) }

  function RowSums(f: (int, int) -> real, n: nat): int -> real { i => Sum(n, Row(f, i)) }

  function ColumnSums(f: (int, int) -> real, m: nat): int -> real { j => Sum(m, Column(f, j)) }

  /** A double sum by rows is the same sum by columns. */
  lemma {:induction false} Exchange(m: nat, n: nat, f: (int, int) -> real)
    ensures Sum(m, RowSums(f, n)) == Sum(n, ColumnSums(f, m))
  {
    if m == 0 {
      Zeros(n, ColumnSums(f, 0));
    } else {
      Exchange(m - 1, n, f);
      Additive(n, ColumnSums(f, m - 1), Row(f, m - 1), ColumnSums(f, m));
    }
  }
}
