/** The only facts about the exponential that the attention and sampling proofs use. */
module Exponentials {

  /** Names a pair of arguments at which the laws below are instantiated. */
  predicate Pair(a: real, b: real) { true }

  /** `exp` is positive, monotone and turns sums into products. */
  ghost predicate IsExponential(exp: real -> real) {
    && (forall a :: exp(a) > 0.0)
    && (forall a, b {:trigger Pair(a, b)} :: Pair(a, b) ==> exp(a + b) == exp(a) * exp(b))
    && (forall a, b {:trigger Pair(a, b)} :: Pair(a, b) && a <= b ==> exp(a) <= exp(b))
  }

  lemma Product(exp: real -> real, a: real, b: real)
    requires IsExponential(exp)
    ensures exp(a + b) == exp(a) * exp(b)
  {
    assert Pair(a, b);
  }

  lemma Zero(exp: real -> real)
    requires IsExponential(exp)
    ensures exp(0.0) == 1.0
  {
    Unit(exp, 0.0);
  }

  lemma Unit(exp: real -> real, zero: real)
    requires IsExponential(exp) && zero + zero == zero
    ensures exp(zero) == 1.0
  {
    Product(exp, zero, zero);
    var one := exp(zero);
    assert one == exp(zero + zero) == one * one;
    Cancel(one, one);
  }

  lemma Cancel(a: real, b: real)
    requires b > 0.0 && a * b == b
    ensures a == 1.0
  {
    var excess := a - 1.0;
    assert excess * b == 0.0;
    assert excess > 0.0 ==> excess * b > 0.0;
    assert excess < 0.0 ==> excess * b < 0.0;
  }

  lemma Monotone(exp: real -> real, a: real, b: real)
    requires IsExponential(exp) && a <= b
    ensures exp(a) <= exp(b)
  {
    assert Pair(a, b);
  }

  /** Shifting the reference point from `m` to `n` multiplies a weight by `exp(m - n)`. */
  lemma Shift(exp: real -> real, score: real, m: real, n: real)
    requires IsExponential(exp)
    ensures exp(score - n) == exp(score - m) * exp(m - n)
  {
    Product(exp, score - m, m - n);
    assert (score - m) + (m - n) == score - n;
  }
}
