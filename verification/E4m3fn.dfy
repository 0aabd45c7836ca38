/**
  The block-scale format: sign-free E4M3FN codes 0x00 to 0x7E, encoded from a real by
  rounding in one of two branches and decoded exactly.
*/
module E4m3fn {

  import opened Nearest
  import opened Wrappers

  const MAX_CODE: nat := 0x7E
  const MAX_VALUE: real := 448.0

  function Pow2(e: int): (p: real)
    ensures p > 0.0
    decreases if e < 0 then -e else e
  {
    if e == 0 then 1.0 else if e > 0 then 2.0 * Pow2(e - 1) else Pow2(e + 1) / 2.0
  }

  /** `x * 2^e`. */
  function Scaled(x: real, e: int): real
    decreases if e < 0 then -e else e
  {
    if e == 0 then x else if e > 0 then 2.0 * Scaled(x, e - 1) else Scaled(x, e + 1) / 2.0
  }

  lemma {:induction false} ScaledIsProduct(x: real, e: int)
    ensures Scaled(x, e) == x * Pow2(e)
    decreases if e < 0 then -e else e
  {
    if e > 0 {
      ScaledIsProduct(x, e - 1);
      Twice(x, Pow2(e - 1));
    } else if e < 0 {
      ScaledIsProduct(x, e + 1);
      Twice(x, Pow2(e + 1) / 2.0);
    }
  }

  lemma Twice(x: real, p: real)
    ensures 2.0 * (x * p) == x * (2.0 * p)
  {
  }

  /** Dividing by `2^e` and scaling back. */
  lemma {:induction false} ScaledBack(x: real, e: int)
    ensures x == Scaled(Scaled(x, -e), e)
  {
    ScaledIsProduct(Scaled(x, -e), e);
    ScaledIsProduct(x, -e);
    PowerInverse(e);
    var p, q := Pow2(-e), Pow2(e);
    assert (x * p) * q == x * (p * q);
  }

  lemma {:induction false} PowerInverse(e: int)
    ensures Pow2(-e) * Pow2(e) == 1.0
    decreases if e < 0 then -e else e
  {
    if e > 0 {
      PowerInverse(e - 1);
      HalfTimesDouble(Pow2(-(e - 1)), Pow2(e - 1));
    } else if e < 0 {
      PowerInverse(e + 1);
      HalfTimesDouble(Pow2(e + 1), Pow2(-(e + 1)));
    }
  }

  lemma HalfTimesDouble(a: real, b: real)
    ensures (a / 2.0) * (2.0 * b) == a * b && (2.0 * b) * (a / 2.0) == a * b
  {
  }

  /** Rounds to the nearest integer, halves to the even one. */
  function RoundEven(x: real): int {
    var low := x.Floor;
    var rest := x - low as real;
    if rest < 0.5 || (rest == 0.5 && low % 2 == 0) then low else low + 1
  }

  function ClampReal(x: real, low: real, high: real): real {
    if x < low then low else if x > high then high else x
  }

  function ClampInt(x: int, low: int, high: int): int {
    if x < low then low else if x > high then high else x
  }

  /** `floor(log2(v))` clamped to the exponent range, found by descending through the binades. */
  function Binade(v: real, e: int): (r: int)
    requires -6 <= e <= 8
    requires e < 8 ==> v < Pow2(e + 1)
    ensures -6 <= r <= e
    ensures r < 8 ==> v < Pow2(r + 1)
    ensures r > -6 ==> v >= Pow2(r)
    decreases e + 6
  {
    if e == -6 || v >= Pow2(e) then e else Binade(v, e - 1)
  }

  /** The code of a value below the smallest normal one. */
  function SubnormalCode(v: real): int {
    ClampInt(RoundEven(v * 512.0), 0, 8)
  }

  /** Assembles exponent and rounded significand; a significand of sixteen carries into the exponent. */
  function Assemble(exponent: int, rounded: int): int {
    var carry := rounded == 16;
    var finalExponent := if carry then exponent + 1 else exponent;
    var significand := if carry then 8 else rounded;
    (finalExponent + 7) * 8 + (significand - 8)
  }

  function NormalCode(v: real): int {
    var exponent := Binade(if v == 0.0 then 1.0 else v, 8);
    Assemble(exponent, RoundEven(Scaled(v, -(exponent - 3))))
  }

  function Encode(value: real): (code: nat)
    ensures code <= MAX_CODE
  {
    var v := ClampReal(value, 0.0, MAX_VALUE);
    ClampInt(if v < Pow2(-6) then SubnormalCode(v) else NormalCode(v), 0, MAX_CODE)
  }

  function Decode(bits: nat): real {
    DecodeParts(bits / 8, bits % 8)
  }

  function DecodeParts(exponent: nat, fraction: nat): real {
    if exponent == 0 then Scaled(fraction as real, -9)
    else Scaled(1.0 + fraction as real / 8.0, exponent - 7)
  }

  // ----- the grid -----

  /** `k` steps from zero. */
  function Steps(k: nat, step: real): real {
    if k == 0 then 0.0 else Steps(k - 1, step) + step
  }

  lemma {:induction false} StepsIsProduct(k: nat, step: real)
    ensures Steps(k, step) == k as real * step
  {
    if k > 0 {
      StepsIsProduct(k - 1, step);
      assert (k - 1) as real * step + step == k as real * step;
    }
  }

  lemma Doubling(e: int)
    ensures Pow2(e + 1) == 2.0 * Pow2(e)
  {
  }

  lemma EightSteps(e: int)
    ensures Pow2(e) == 8.0 * Pow2(e - 3)
  {
    Doubling(e - 1);
    Doubling(e - 2);
    Doubling(e - 3);
  }

  lemma DecodeNormal(code: nat, exponent: nat, fraction: nat)
    requires exponent > 0 && fraction < 8 && code == exponent * 8 + fraction
    ensures Decode(code) == Steps(8 + fraction, Pow2(exponent - 10))
  {
    assert code / 8 == exponent && code % 8 == fraction;
    PartsNormal(exponent, fraction);
  }

  lemma PartsNormal(exponent: nat, fraction: nat)
    requires exponent > 0
    ensures DecodeParts(exponent, fraction) == Steps(8 + fraction, Pow2(exponent - 10))
  {
    EightSteps(exponent - 7);
    ScaledIsProduct(1.0 + fraction as real / 8.0, exponent - 7);
    NormalProduct(fraction as real, Pow2(exponent - 7), Pow2(exponent - 10));
    StepsIsProduct(8 + fraction, Pow2(exponent - 10));
  }

  lemma NormalProduct(fraction: real, power: real, step: real)
    requires power == 8.0 * step
    ensures (1.0 + fraction / 8.0) * power == (8.0 + fraction) * step
  {
  }

  lemma GridNormal(code: nat, e: int, k: int)
    requires -6 <= e <= 8 && 8 <= k < 16 && code == (e + 6) * 8 + k
    ensures Decode(code) == Steps(k, Pow2(e - 3))
  {
    DecodeNormal(code, e + 7, k - 8);
  }

  /** The top of a binade is the bottom of the next one. */
  lemma GridTop(code: nat, e: int)
    requires -6 <= e <= 8 && code == (e + 6) * 8 + 16
    ensures Decode(code) == Steps(16, Pow2(e - 3))
  {
    DecodeNormal(code, e + 8, 0);
    Doubling(e - 3);
    WiderSteps(Pow2(e - 3));
  }

  lemma WiderSteps(step: real)
    ensures Steps(8, 2.0 * step) == Steps(16, step)
  {
    StepsIsProduct(8, 2.0 * step);
    StepsIsProduct(16, step);
  }

  lemma GridSubnormal(code: nat)
    requires code < 8
    ensures Decode(code) == Steps(code, Pow2(-9))
  {
    StepsIsProduct(code, Pow2(-9));
    ScaledIsProduct(code as real, -9);
  }

  /**
    In binade `e` a code is its significand counted in steps of `2^(e-3)`; the subnormals continue the lowest binade.
  */
  lemma GridValue(code: nat, e: int, k: int)
    requires -6 <= e <= 8 && (if e == -6 then 0 else 8) <= k <= 16 && code == (e + 6) * 8 + k
    ensures Decode(code) == Steps(k, Pow2(e - 3))
  {
    if k < 8 {
      GridSubnormal(code);
    } else if k < 16 {
      GridNormal(code, e, k);
    } else {
      GridTop(code, e);
    }
  }

  lemma DecodeIncreases(a: nat, b: nat)
    requires a < b <= 128
    ensures Decode(a) < Decode(b)
    decreases b - a
  {
    Adjacent(a);
    if a + 1 < b {
      DecodeIncreases(a + 1, b);
    }
  }

  lemma Adjacent(a: nat)
    requires a < 128
    ensures Decode(a) < Decode(a + 1)
  {
    var e: int := if a < 8 then -6 else a / 8 - 7;
    var k := a - (e + 6) * 8;
    GridValue(a, e, k);
    GridValue(a + 1, e, k + 1);
  }

  // ----- rounding -----

  lemma RoundEvenNearest(x: real, k: int)
    ensures Abs(RoundEven(x) as real - x) <= Abs(k as real - x)
    ensures k != RoundEven(x) && Abs(k as real - x) == Abs(RoundEven(x) as real - x) ==> RoundEven(x) % 2 == 0
  {
  }

  lemma RoundEvenRange(x: real, low: int, high: int)
    requires low as real <= x <= high as real
    ensures low <= RoundEven(x) <= high
  {
  }

  lemma AbsScale(a: real, x: real, v: real, q: real, step: real)
    requires step > 0.0 && a == x * step && v == q * step
    ensures Abs(a - v) == Abs(x - q) * step
  {
    var rest := x - q;
    assert rest * step == a - v;
    assert rest < 0.0 ==> rest * step < 0.0;
    assert rest >= 0.0 ==> rest * step >= 0.0;
  }

  // ----- what encoding computes -----

  /** The binade, quotient and significand encoding picks for a value in range, and the code they name. */
  ghost predicate InBinade(v: real, q: real, e: int, r: nat, code: nat) {
    && -6 <= e <= 8 && v == Scaled(q, e - 3) && r == RoundEven(q)
    && (if e == -6 then 0 else 8) <= r <= 16 && code == (e + 6) * 8 + r
    && (e > -6 ==> q >= 8.0) && q <= 16.0
  }

  lemma SubnormalOnGrid(v: real) returns (q: real, r: nat)
    requires 0.0 <= v < Pow2(-6)
    ensures InBinade(v, q, -6, r, r) && r <= 8 && Encode(v) == r
  {
    PowersInUse();
    q := Scaled(v, 9);
    ScaledBack(v, -9);
    SubnormalQuotient(v);
    RoundEvenRange(q, 0, 8);
    r := RoundEven(q);
  }

  lemma NormalOnGrid(v: real) returns (q: real, e: int, r: nat, code: nat)
    requires Pow2(-6) <= v <= MAX_VALUE
    ensures InBinade(v, q, e, r, code) && code <= MAX_CODE && NormalCode(v) == code
  {
    q, e := NormalQuotient(v);
    PowersInUse();
    RoundEvenRange(q, 8, if e == 8 then 14 else 16);
    r := RoundEven(q);
    code := (e + 6) * 8 + r;
    NormalIsAssembled(v, e, q);
  }

  lemma NormalQuotient(v: real) returns (q: real, e: int)
    requires Pow2(-6) <= v <= MAX_VALUE
    ensures e == Binade(v, 8) && -6 <= e <= 8 && q == Scaled(v, -(e - 3)) && v == Scaled(q, e - 3)
    ensures 8.0 <= q <= 16.0 && (e == 8 ==> q <= 14.0)
  {
    e := Binade(v, 8);
    NormalRange(v, e);
    q := QuotientInRange(v, e);
  }

  lemma QuotientInRange(v: real, e: int) returns (q: real)
    requires 8.0 * Pow2(e - 3) <= v <= 16.0 * Pow2(e - 3) && (e == 8 ==> v <= 14.0 * Pow2(e - 3))
    ensures q == Scaled(v, -(e - 3)) && v == Scaled(q, e - 3)
    ensures 8.0 <= q <= 16.0 && (e == 8 ==> q <= 14.0)
  {
    q := Scaled(v, -(e - 3));
    ScaledBack(v, e - 3);
    ScaledIsProduct(q, e - 3);
    BinadeRange(v, q, e, Pow2(e - 3));
  }

  lemma NormalIsAssembled(v: real, e: int, q: real)
    requires v > 0.0 && e == Binade(v, 8) && q == Scaled(v, -(e - 3))
    ensures NormalCode(v) == Assemble(e, RoundEven(q))
  {
  }

  lemma NormalRange(v: real, e: int)
    requires Pow2(-6) <= v <= MAX_VALUE && e == Binade(v, 8)
    ensures 8.0 * Pow2(e - 3) <= v <= 16.0 * Pow2(e - 3)
    ensures e == 8 ==> v <= 14.0 * Pow2(e - 3)
  {
    PowersInUse();
    EightSteps(e);
    Doubling(e);
  }

  lemma EncodeOnGrid(v: real) returns (q: real, e: int, r: nat, code: nat)
    requires 0.0 <= v <= MAX_VALUE
    ensures InBinade(v, q, e, r, code) && code <= MAX_CODE && Encode(v) == code
  {
    if v < Pow2(-6) {
      q, r := SubnormalOnGrid(v);
      e, code := -6, r;
    } else {
      q, e, r, code := NormalOnGrid(v);
    }
  }

  lemma PowersInUse()
    ensures Pow2(9) == 512.0 && Pow2(8) == 256.0 && Pow2(5) == 32.0 && Pow2(-6) == 1.0 / 64.0 && Pow2(-9) == 1.0 / 512.0
  {
    assert Pow2(3) == 8.0 && Pow2(-3) == 0.125;
    EightSteps(9);
    EightSteps(8);
    assert Pow2(6) == 64.0 && Pow2(5) == 32.0;
    EightSteps(-3);
    EightSteps(-6);
  }

  lemma SubnormalQuotient(v: real)
    ensures Scaled(v, 9) == v * 512.0
  {
    ScaledIsProduct(v, 9);
    PowersInUse();
  }

  lemma BinadeRange(v: real, q: real, e: int, step: real)
    requires step > 0.0 && v == q * step && v >= 8.0 * step
    requires v <= 16.0 * step && (e == 8 ==> v <= 14.0 * step)
    ensures 8.0 <= q <= 16.0 && (e == 8 ==> q <= 14.0)
  {
    Bound(q, 16.0, v, step);
    Bound(q, 14.0, v, step);
    Bound(q, 8.0, v, step);
  }

  lemma Bound(x: real, y: real, v: real, step: real)
    requires step > 0.0 && v == x * step
    ensures v <= y * step ==> x <= y
    ensures v >= y * step ==> x >= y
  {
    assert x < y ==> x * step < y * step;
    assert y < x ==> y * step < x * step;
  }

  // ----- the promises -----

  /** No legal code is closer to `v` than the encoded one, and a tie goes to the even code. */
  predicate NearestEven(v: real, code: nat, other: nat) {
    Closest(v, code, Decode(code), other, Decode(other))
  }

  lemma OnGrid(v: real, q: real, e: int, r: nat, k: nat, code: nat, chosen: real, other: nat, alternative: real)
    requires -6 <= e <= 8 && v == Scaled(q, e - 3) && r == RoundEven(q)
    requires code == (e + 6) * 8 + r && other == (e + 6) * 8 + k
    requires chosen == Steps(r, Pow2(e - 3)) && alternative == Steps(k, Pow2(e - 3))
    ensures Closest(v, code, chosen, other, alternative)
  {
    NearestInBinade(v, q, e - 3, r, k, chosen, alternative);
    BinadeParity(e, r, code);
  }

  lemma NearestInBinade(v: real, q: real, e: int, r: nat, k: nat, chosen: real, alternative: real)
    requires v == Scaled(q, e) && r == RoundEven(q)
    requires chosen == Steps(r, Pow2(e)) && alternative == Steps(k, Pow2(e))
    ensures Abs(chosen - v) <= Abs(alternative - v)
    ensures k != r && Abs(chosen - v) == Abs(alternative - v) ==> r % 2 == 0
  {
    ScaledIsProduct(q, e);
    NearestMultiple(chosen, alternative, v, q, Pow2(e), r, k);
  }

  lemma BinadeParity(e: int, r: nat, code: nat)
    requires code == (e + 6) * 8 + r
    ensures code % 2 == r % 2
  {
    var half := (e + 6) * 4;
    assert code == 2 * half + r;
  }

  /** Rounding the quotient picks the nearest multiple of the step. */
  lemma NearestMultiple(chosen: real, other: real, v: real, q: real, step: real, r: nat, k: nat)
    requires step > 0.0 && v == q * step && r == RoundEven(q)
    requires chosen == Steps(r, step) && other == Steps(k, step)
    ensures Abs(chosen - v) <= Abs(other - v)
    ensures k != r && Abs(chosen - v) == Abs(other - v) ==> r % 2 == 0
  {
    StepDistance(chosen, r, v, q, step);
    StepDistance(other, k, v, q, step);
    RoundingOrder(q, r, k, step, Abs(chosen - v), Abs(other - v));
  }

  lemma StepDistance(a: real, k: nat, v: real, q: real, step: real)
    requires step > 0.0 && v == q * step && a == Steps(k, step)
    ensures Abs(a - v) == Abs(k as real - q) * step
  {
    StepsIsProduct(k, step);
    AbsScale(a, k as real, v, q, step);
  }

  lemma RoundingOrder(q: real, r: int, k: int, step: real, near: real, far: real)
    requires step > 0.0 && r == RoundEven(q)
    requires near == Abs(r as real - q) * step && far == Abs(k as real - q) * step
    ensures near <= far && (k != r && near == far ==> r % 2 == 0)
  {
    RoundEvenNearest(q, k);
    ScaleOrder(Abs(r as real - q), Abs(k as real - q), step);
  }

  lemma ScaleOrder(x: real, y: real, step: real)
    requires step > 0.0
    ensures x <= y ==> x * step <= y * step
    ensures x * step == y * step ==> x == y
  {
    assert x < y ==> x * step < y * step;
    assert y < x ==> y * step < x * step;
  }

  /** Codes outside the binade lie beyond one of its ends. */
  lemma OffGrid(
      v: real, q: real, e: int, r: nat, code: nat, chosen: real, edge: nat, edgeCode: nat, end: real, other: nat,
      alternative: real)
    requires -6 <= e <= 8 && v == Scaled(q, e - 3) && r == RoundEven(q)
    requires code == (e + 6) * 8 + r && edgeCode == (e + 6) * 8 + edge
    requires chosen == Steps(r, Pow2(e - 3)) && end == Steps(edge, Pow2(e - 3))
    requires (edge == 16 && q <= 16.0 && end < alternative) || (edge == 8 && q >= 8.0 && alternative < end)
    ensures Closest(v, code, chosen, other, alternative)
  {
    OnGrid(v, q, e, r, edge, code, chosen, edgeCode, end);
    EdgeValue(v, q, e, end, edge);
    Farther(v, chosen, end, alternative);
  }

  lemma EdgeValue(v: real, q: real, e: int, end: real, edge: nat)
    requires v == Scaled(q, e - 3) && end == Steps(edge, Pow2(e - 3))
    ensures q <= edge as real ==> v <= end
    ensures q >= edge as real ==> v >= end
  {
    ScaledIsProduct(q, e - 3);
    StepsIsProduct(edge, Pow2(e - 3));
    ScaleOrder(q, edge as real, Pow2(e - 3));
    ScaleOrder(edge as real, q, Pow2(e - 3));
  }

  /** A value beyond an end of the binade is strictly farther than that end. */
  lemma Farther(v: real, chosen: real, edge: real, other: real)
    requires Abs(chosen - v) <= Abs(edge - v)
    requires v <= edge < other || other < edge <= v
    ensures Abs(chosen - v) < Abs(other - v)
  {
  }

  /** Encoding yields a legal code and rounds to nearest, ties to even, over the whole range. */
  lemma EncodeNearest(v: real, other: nat)
    requires 0.0 <= v <= MAX_VALUE && other <= MAX_CODE
    ensures NearestEven(v, Encode(v), other)
  {
    var q, e, r, code := EncodeOnGrid(v);
    NearestOnBinade(v, q, e, r, code, other);
  }

  lemma NearestOnBinade(v: real, q: real, e: int, r: nat, code: nat, other: nat)
    requires InBinade(v, q, e, r, code) && other <= MAX_CODE
    ensures NearestEven(v, code, other)
  {
    var k := other - (e + 6) * 8;
    if (if e == -6 then 0 else 8) <= k <= 16 {
      NearestInside(v, q, e, r, code, k, other);
    } else {
      NearestOutside(v, q, e, r, code, if k > 16 then 16 else 8, other);
    }
  }

  lemma NearestInside(v: real, q: real, e: int, r: nat, code: nat, k: nat, other: nat)
    requires InBinade(v, q, e, r, code) && (if e == -6 then 0 else 8) <= k <= 16 && other == (e + 6) * 8 + k
    ensures NearestEven(v, code, other)
  {
    GridValue(code, e, r);
    GridValue(other, e, k);
    OnGrid(v, q, e, r, k, code, Decode(code), other, Decode(other));
  }

  lemma NearestOutside(v: real, q: real, e: int, r: nat, code: nat, edge: nat, other: nat)
    requires InBinade(v, q, e, r, code) && other <= MAX_CODE
    requires (edge == 16 && other > (e + 6) * 8 + 16) || (edge == 8 && e > -6 && other < (e + 6) * 8 + 8)
    ensures NearestEven(v, code, other)
  {
    var edgeCode: nat := (e + 6) * 8 + edge;
    GridValue(code, e, r);
    GridValue(edgeCode, e, edge);
    if edge == 16 {
      DecodeIncreases(edgeCode, other);
    } else {
      DecodeIncreases(other, edgeCode);
    }
    OffGrid(v, q, e, r, code, Decode(code), edge, edgeCode, Decode(edgeCode), other, Decode(other));
  }

  /** The decoder as a grid of the legal codes. */
  function Grid(): nat -> real { (code: nat) => Decode(code) }

  const CODES: nat := 127

  lemma GridIncreases()
    ensures Increasing(Grid(), CODES)
  {
    forall a: nat, b: nat | a < b < CODES ensures Grid()(a) < Grid()(b) {
      DecodeIncreases(a, b);
    }
  }

  /** Encoding yields the legal code nearest to the clamped value. */
  lemma EncodeIsNearest(v: real)
    requires 0.0 <= v <= MAX_VALUE
    ensures IsNearest(Grid(), CODES, v, Encode(v))
  {
    EncodeNearest(v, 0);
    forall k: nat | k < CODES ensures Closest(v, Encode(v), Grid()(Encode(v)), k, Grid()(k)) {
      EncodeNearest(v, k);
    }
  }

  lemma DecodeRange(code: nat)
    requires code <= MAX_CODE
    ensures 0.0 <= Decode(code) <= MAX_VALUE
  {
    DecodeEnds();
    if code > 0 {
      DecodeIncreases(0, code);
    }
    if code < MAX_CODE {
      DecodeIncreases(code, MAX_CODE);
    }
  }

  lemma DecodeEnds()
    ensures Decode(0) == 0.0 && Decode(MAX_CODE) == MAX_VALUE
  {
    GridSubnormal(0);
    PowersInUse();
    GridValue(MAX_CODE, 8, 14);
    StepsIsProduct(14, Pow2(5));
  }

  /** Every legal code survives a decode and an encode. */
  lemma RoundTrip(code: nat)
    requires code <= MAX_CODE
    ensures Encode(Decode(code)) == code
  {
    DecodeRange(code);
    GridIncreases();
    EncodeIsNearest(Decode(code));
    NearestOfMember(Grid(), CODES, code, Encode(Decode(code)));
  }

  lemma EncodeMonotone(v: real, w: real)
    requires v <= w
    ensures Encode(v) <= Encode(w)
  {
    var low, high := ClampReal(v, 0.0, MAX_VALUE), ClampReal(w, 0.0, MAX_VALUE);
    EncodeIsNearest(low);
    EncodeIsNearest(high);
    GridIncreases();
    NearestMonotone(Grid(), CODES, low, high, Encode(low), Encode(high));
  }

  /** Values past the largest scale saturate, which is also the nearest code. */
  lemma EncodeSaturates(v: real, a: nat)
    requires v >= MAX_VALUE && IsNearest(Grid(), CODES, v, a)
    ensures Encode(v) == a
  {
    GridIncreases();
    DecodeEnds();
    NearestAbove(Grid(), CODES, v, a);
    EncodeIsNearest(MAX_VALUE);
    NearestAbove(Grid(), CODES, MAX_VALUE, Encode(MAX_VALUE));
  }

  /** How far a scale in range moves: half a subnormal step, or a sixteenth of the result. */
  lemma EncodeError(v: real)
    requires 0.0 <= v <= MAX_VALUE
    ensures SmallError(v, Decode(Encode(v)))
  {
    var q, e, r, code := EncodeOnGrid(v);
    ErrorInBinade(v, q, e, r, code);
  }

  predicate SmallError(v: real, s: real) {
    Abs(s - v) <= 1.0 / 1024.0 || 16.0 * Abs(s - v) <= s
  }

  lemma ErrorInBinade(v: real, q: real, e: int, r: nat, code: nat)
    requires InBinade(v, q, e, r, code)
    ensures SmallError(v, Decode(code))
  {
    GridValue(code, e, r);
    LowestStep();
    ErrorOnScaled(v, q, e, r, Decode(code));
  }

  lemma ErrorOnScaled(v: real, q: real, e: int, r: nat, s: real)
    requires v == Scaled(q, e - 3) && r == RoundEven(q) && s == Steps(r, Pow2(e - 3))
    requires q >= 8.0 || Pow2(e - 3) == 1.0 / 512.0
    ensures SmallError(v, s)
  {
    ScaledIsProduct(q, e - 3);
    ErrorOnStep(v, q, r, Pow2(e - 3), s);
  }

  lemma LowestStep()
    ensures Pow2(-9) == 1.0 / 512.0
  {
    PowersInUse();
  }

  lemma ErrorOnStep(v: real, q: real, r: nat, step: real, s: real)
    requires step > 0.0 && v == q * step && r == RoundEven(q) && s == Steps(r, step)
    requires q >= 8.0 || step == 1.0 / 512.0
    ensures SmallError(v, s)
  {
    StepDistance(s, r, v, q, step);
    StepsIsProduct(r, step);
    HalfStep(q, r, step, Abs(s - v), s);
  }

  lemma HalfStep(q: real, r: nat, step: real, distance: real, s: real)
    requires step > 0.0 && r == RoundEven(q) && distance == Abs(r as real - q) * step && s == r as real * step
    ensures 2.0 * distance <= step && (r >= 8 ==> 16.0 * distance <= s)
  {
    RoundEvenHalf(q);
    ScaleOrder(Abs(r as real - q), 0.5, step);
    ScaleOrder(8.0, r as real, step);
  }

  lemma RoundEvenHalf(q: real)
    ensures Abs(RoundEven(q) as real - q) <= 0.5
  {
  }

  // ----- the search encoder -----

  /**
    The other encoder of the same format: try every legal code in ascending order and keep the
    closest, an even code replacing an odd one on a tie; negative values are refused.
  */
  method SearchEncode(value: real) returns (bits: Option<nat>)
    ensures bits == if value < 0.0 then None else Some(Encode(value))
  {
    if value < 0.0 {
      return None;
    }
    GridIncreases();
    var best := 0;
    var bestDistance := None;
    for code := 0 to CODES
      invariant code == 0 ==> bestDistance == None
      invariant code > 0 ==>
        best < CODES && bestDistance == Some(Abs(Decode(best) - value)) && IsNearest(Grid(), code, value, best)
    {
      var distance := Abs(Decode(code) - value);
      if code > 0 {
        SearchStep(Grid(), code, value, best);
      }
      if bestDistance == None || distance < bestDistance.value
        || (distance == bestDistance.value && code % 2 == 0 && best % 2 != 0) {
        best := code;
        bestDistance := Some(distance);
      }
    }
    SearchIsEncode(value, best);
    return Some(best);
  }

  lemma SearchIsEncode(v: real, a: nat)
    requires v >= 0.0 && IsNearest(Grid(), CODES, v, a)
    ensures Encode(v) == a
  {
    if v <= MAX_VALUE {
      GridIncreases();
      EncodeIsNearest(v);
      NearestUnique(Grid(), CODES, v, Encode(v), a);
    } else {
      EncodeSaturates(v, a);
    }
  }
}
