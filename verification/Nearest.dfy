/**
  Rounding to a finite increasing grid, ties to the even index: what it means for a code to be
  the rounded one, that there is only one such code, and one step of searching for it.
*/
module Nearest {

  function Abs(x: real): real { if x < 0.0 then -x else x }

  /** `chosen` is at least as close to `v` as `alternative`, and on a tie between different codes it is even. */
  predicate Closest(v: real, code: nat, chosen: real, other: nat, alternative: real) {
    && Abs(chosen - v) <= Abs(alternative - v)
    && (other != code && Abs(chosen - v) == Abs(alternative - v) ==> code % 2 == 0)
  }

  ghost predicate Increasing(grid: nat -> real, n: nat) {
    forall a: nat, b: nat | a < b < n :: grid(a) < grid(b)
  }

  /** No code below `n` is closer to `v` than `code`, and ties go to even codes. */
  ghost predicate IsNearest(grid: nat -> real, n: nat, v: real, code: nat) {
    code < n && forall k: nat | k < n :: Closest(v, code, grid(code), k, grid(k))
  }

  /** A point strictly between two others is closer to `v` than the farther of them. */
  lemma BetweenIsCloser(v: real, low: real, middle: real, high: real)
    requires low < middle < high && Abs(low - v) == Abs(high - v)
    ensures Abs(middle - v) < Abs(low - v)
  {
  }

  /** Two different codes of one parity at equal distance are beaten by a code between them. */
  lemma TiedAreNeighbours(grid: nat -> real, n: nat, v: real, a: nat, b: nat)
    requires Increasing(grid, n) && a < b < n && a % 2 == b % 2
    requires Abs(grid(a) - v) == Abs(grid(b) - v)
    ensures a + 1 < b && Abs(grid(a + 1) - v) < Abs(grid(a) - v)
  {
    BetweenIsCloser(v, grid(a), grid(a + 1), grid(b));
  }

  lemma NearestUnique(grid: nat -> real, n: nat, v: real, a: nat, b: nat)
    requires Increasing(grid, n) && IsNearest(grid, n, v, a) && IsNearest(grid, n, v, b)
    ensures a == b
  {
    assert Closest(v, a, grid(a), b, grid(b)) && Closest(v, b, grid(b), a, grid(a));
    if a < b {
      TiedAreNeighbours(grid, n, v, a, b);
    } else if b < a {
      TiedAreNeighbours(grid, n, v, b, a);
    }
  }

  /** Whether a search that has kept `best` moves to the next code. */
  predicate Improves(v: real, best: nat, kept: real, code: nat, candidate: real) {
    || Abs(candidate - v) < Abs(kept - v)
    || (Abs(candidate - v) == Abs(kept - v) && code % 2 == 0 && best % 2 != 0)
  }

  lemma SearchStep(grid: nat -> real, n: nat, v: real, best: nat)
    requires Increasing(grid, n + 1) && IsNearest(grid, n, v, best)
    ensures IsNearest(grid, n + 1, v, if Improves(v, best, grid(best), n, grid(n)) then n else best)
  {
    if Improves(v, best, grid(best), n, grid(n)) {
      forall k: nat | k < n + 1 ensures Closest(v, n, grid(n), k, grid(k)) {
        assert k < n ==> Closest(v, best, grid(best), k, grid(k));
      }
    } else if Abs(grid(n) - v) == Abs(grid(best) - v) && best % 2 == n % 2 {
      TiedAreNeighbours(grid, n + 1, v, best, n);
    }
  }

  /** Rounding never reverses an order. */
  lemma NearestMonotone(grid: nat -> real, n: nat, v: real, w: real, a: nat, b: nat)
    requires Increasing(grid, n) && IsNearest(grid, n, v, a) && IsNearest(grid, n, w, b) && v <= w
    ensures a <= b
  {
    assert Closest(v, a, grid(a), b, grid(b)) && Closest(w, b, grid(b), a, grid(a));
    if v == w {
      NearestUnique(grid, n, v, a, b);
    }
  }

  /** A value on the grid rounds to its own code. */
  lemma NearestOfMember(grid: nat -> real, n: nat, code: nat, a: nat)
    requires Increasing(grid, n) && code < n && IsNearest(grid, n, grid(code), a)
    ensures a == code
  {
    assert Closest(grid(code), a, grid(a), code, grid(code));
    assert a < code ==> grid(a) < grid(code);
    assert code < a ==> grid(code) < grid(a);
  }

  /** Values beyond the top of the grid round to the top. */
  lemma NearestAbove(grid: nat -> real, n: nat, v: real, a: nat)
    requires n > 0 && Increasing(grid, n) && grid(n - 1) <= v && IsNearest(grid, n, v, a)
    ensures a == n - 1
  {
    var top: nat := n - 1;
    assert a < top ==> grid(a) < grid(top);
    assert Closest(v, a, grid(a), top, grid(top));
  }
}
