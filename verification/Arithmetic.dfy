/** Quotient and product facts that the index computations share. */
module Arithmetic {

  lemma QuotientBelow(a: nat, d: nat, n: nat)
    requires d > 0 && a < n * d
    ensures a / d < n
  {
    var quotient := a / d;
    assert a == d * quotient + a % d;
    assert quotient >= n ==> d * quotient >= d * n;
  }

  lemma QuotientOf(q: int, d: int, r: int)
    requires 0 <= r < d
    ensures (q * d + r) / d == q && (q * d + r) % d == r
  {
    var a := q * d + r;
    SameDivision(q, r, a / d, a % d, d);
  }

  lemma SameDivision(q: int, r: int, p: int, s: int, d: int)
    requires 0 <= r < d && 0 <= s < d && q * d + r == p * d + s
    ensures q == p && r == s
  {
    Distribute(q, 1, d);
    Distribute(p, 1, d);
    if q < p {
      MulMono(q + 1, p, d);
    } else if p < q {
      MulMono(p + 1, q, d);
    }
  }

  lemma MulMono(a: int, b: int, c: int)
    requires a <= b && c >= 0
    ensures a * c <= b * c
  {
  }

  lemma IndexBelow(q: nat, r: nat, n: nat, d: nat)
    requires q < n && r < d
    ensures q * d + r < n * d
  {
    MulMono(q + 1, n, d);
    assert (q + 1) * d == q * d + d;
  }

  lemma Distribute(a: int, b: int, c: int)
    ensures (a + b) * c == a * c + b * c
  {
  }

  /** A lane index splits into its block and its offset. */
  lemma Split(p: nat, d: nat)
    requires d > 0
    ensures p == p / d * d + p % d && p % d < d
  {
  }

  lemma QuotientWithin(p: nat, d: nat, low: nat, high: nat)
    requires d > 0 && low * d <= p < high * d
    ensures low <= p / d < high
  {
    QuotientBelow(p, d, high);
    Split(p, d);
    Distribute(p / d, 1, d);
    if p / d < low {
      MulMono(p / d + 1, low, d);
    }
  }

  function CeilDiv(a: nat, d: nat): nat
    requires d > 0
  {
    (a + d - 1) / d
  }

  lemma CeilDivBounds(a: nat, d: nat)
    requires d > 0
    ensures a <= CeilDiv(a, d) * d <= a + (d - 1)
    ensures a == 0 ==> CeilDiv(a, d) == 0
  {
    Split(a + d - 1, d);
  }

  lemma CeilingBelow(length: nat, d: nat, n: int)
    requires d > 0 && n * d >= length
    ensures CeilDiv(length, d) <= n
  {
    var c := CeilDiv(length, d);
    Split(length + d - 1, d);
    if c > n {
      MulMono(n + 1, c, d);
      Distribute(n, 1, d);
    }
  }

  lemma CeilDivAbove(length: nat, d: nat, i: nat)
    requires d > 0
    ensures i < CeilDiv(length, d) <==> i * d < length
  {
    CeilDivBounds(length, d);
    if i * d >= length {
      CeilingBelow(length, d, i);
    } else if CeilDiv(length, d) <= i {
      MulMono(CeilDiv(length, d), i, d);
    }
  }

  /** A StableHLO gather start index outside the operand is clamped into it. */
  function ClampIndex(index: int, extent: nat): (r: nat)
    requires extent > 0
    ensures r < extent
    ensures 0 <= index < extent ==> r == index
  {
    if index < 0 then 0 else if index >= extent then extent - 1 else index
  }

  /** Integer division in graphs and kernels rounds toward zero; the remainder takes the dividend's sign. */
  function TruncatedQuotient(a: int, d: int): int
    requires d > 0
  {
    if a >= 0 then a / d else -((-a) / d)
  }

  function TruncatedRemainder(a: int, d: int): int
    requires d > 0
  {
    a - TruncatedQuotient(a, d) * d
  }

  /** `i * share`, one addition at a time. */
  function Times(i: nat, share: nat): nat {
    if i == 0 then 0 else Times(i - 1, share) + share
  }

  lemma {:induction false} TimesIsProduct(i: nat, share: nat)
    ensures Times(i, share) == i * share
  {
    if i > 0 {
      TimesIsProduct(i - 1, share);
      Distribute(i, -1, share);
    }
  }
}
