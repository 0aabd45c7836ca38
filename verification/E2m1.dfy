/**
  The four-bit element format: a sign bit over eight magnitudes. Two encoders are modelled,
  thresholds with a tie repair and a search over the magnitudes, and the one decoder.
*/
module E2m1 {
  import opened Wrappers
  import opened Nearest

  function Magnitude(k: nat): real {
    if k == 0 then 0.0 else if k == 1 then 0.5 else if k == 2 then 1.0 else if k == 3 then 1.5
    else if k == 4 then 2.0 else if k == 5 then 3.0 else if k == 6 then 4.0 else 6.0
  }

  const MAGNITUDES: nat := 8
  const LARGEST: real := 6.0

  /** `code as u8` for a magnitude code. */
  function Bits(k: nat): bv8 {
    if k == 0 then 0 else if k == 1 then 1 else if k == 2 then 2 else if k == 3 then 3
    else if k == 4 then 4 else if k == 5 then 5 else if k == 6 then 6 else 7
  }

  function FromBits(bits: bv8): nat {
    if bits == 0 then 0 else if bits == 1 then 1 else if bits == 2 then 2 else if bits == 3 then 3
    else if bits == 4 then 4 else if bits == 5 then 5 else if bits == 6 then 6 else 7
  }

  /** A sign bit over a magnitude code. */
  function Signed(negative: bool, k: nat): bv8 {
    (if negative then 8 else 0) | Bits(k)
  }

  /** The decoder on the low four bits. */
  function Value(code: bv8): real {
    var magnitude := Magnitude(FromBits(code & 7));
    if code & 8 == 0 then magnitude else -magnitude
  }

  lemma ValueOfSigned(negative: bool, k: nat)
    requires k < MAGNITUDES
    ensures Value(Signed(negative, k)) == if negative then -Magnitude(k) else Magnitude(k)
    ensures Signed(negative, k) & 7 == Bits(k) && Signed(negative, k) & 0xF0 == 0
  {
    SignedBits(negative, k);
  }

  lemma SignedBits(negative: bool, k: nat)
    requires k < MAGNITUDES
    ensures Signed(negative, k) & 7 == Bits(k) && Signed(negative, k) & 0xF0 == 0
    ensures Signed(negative, k) & 8 == if negative then 8 else 0
    ensures FromBits(Bits(k)) == k
  {
    var b := Bits(k);
    assert b & 7 == b && b & 0xF0 == 0 && b & 8 == 0;
    assert (8 | b) & 7 == b && (8 | b) & 0xF0 == 0 && (8 | b) & 8 == 8;
    assert (0 | b) == b;
  }

  // ----- thresholds -----

  function Threshold(i: nat): real {
    if i == 0 then 0.25 else if i == 1 then 0.75 else if i == 2 then 1.25 else if i == 3 then 1.75
    else if i == 4 then 2.5 else if i == 5 then 3.5 else 5.0
  }

  /** How many of the first `n` thresholds lie strictly below `magnitude`. */
  function Bucketize(magnitude: real, n: nat): nat {
    if n == 0 then 0 else Bucketize(magnitude, n - 1) + if Threshold(n - 1) < magnitude then 1 else 0
  }

  /** At boundary `i` the lower code was chosen; move to the upper one. */
  function RepairTie(code: nat, magnitude: real, i: nat): nat {
    if magnitude == Threshold(i) && code == i then code + 1 else code
  }

  function ThresholdCode(magnitude: real): nat {
    RepairTie(RepairTie(RepairTie(Bucketize(magnitude, 7), magnitude, 1), magnitude, 3), magnitude, 5)
  }

  function Grid(): nat -> real { (k: nat) => Magnitude(k) }

  lemma GridIncreases(n: nat)
    requires n <= MAGNITUDES
    ensures Increasing(Grid(), n)
  {
  }

  lemma BucketizeValue(m: real)
    ensures Bucketize(m, 7) ==
      if m <= 0.25 then 0 else if m <= 0.75 then 1 else if m <= 1.25 then 2 else if m <= 1.75 then 3
      else if m <= 2.5 then 4 else if m <= 3.5 then 5 else if m <= 5.0 then 6 else 7
  {
    assert Bucketize(m, 1) == if m <= 0.25 then 0 else 1;
    assert Bucketize(m, 2) == Bucketize(m, 1) + if m <= 0.75 then 0 else 1;
    assert Bucketize(m, 3) == Bucketize(m, 2) + if m <= 1.25 then 0 else 1;
    assert Bucketize(m, 4) == Bucketize(m, 3) + if m <= 1.75 then 0 else 1;
    assert Bucketize(m, 5) == Bucketize(m, 4) + if m <= 2.5 then 0 else 1;
    assert Bucketize(m, 6) == Bucketize(m, 5) + if m <= 3.5 then 0 else 1;
  }

  /** Thresholds and the repair of odd ties round to nearest, ties to the even code. */
  lemma ThresholdsAreNearest(m: real)
    requires m >= 0.0
    ensures IsNearest(Grid(), MAGNITUDES, m, ThresholdCode(m))
  {
    BucketizeValue(m);
    forall k: nat | k < MAGNITUDES ensures Closest(m, ThresholdCode(m), Magnitude(ThresholdCode(m)), k, Magnitude(k)) {
    }
  }

  /** The code of a normalised element. */
  function Code(value: real): bv8 {
    Signed(value < 0.0, ThresholdCode(Abs(value)))
  }

  /** Rounding loses at most one below the largest magnitude, and saturates above it. */
  lemma CodeError(value: real)
    ensures Abs(Value(Code(value)) - value) <= if Abs(value) <= LARGEST then 1.0 else Abs(value) - LARGEST
  {
    var m := Abs(value);
    BucketizeValue(m);
    ValueOfSigned(value < 0.0, ThresholdCode(m));
  }

  // ----- search -----

  /** The other encoder: try every magnitude, keep the closest, prefer an even code on a tie. */
  method SearchCode(value: real) returns (code: bv8)
    ensures code == Code(value)
  {
    var magnitude := Abs(value);
    GridIncreases(MAGNITUDES);
    var best := 0;
    var bestDistance := None;
    for k := 0 to MAGNITUDES
      invariant k == 0 ==> bestDistance == None
      invariant k > 0 ==> best < k && bestDistance == Some(Abs(Magnitude(best) - magnitude))
      invariant k > 0 ==> IsNearest(Grid(), k, magnitude, best)
    {
      var distance := Abs(Magnitude(k) - magnitude);
      if k > 0 {
        SearchStep(Grid(), k, magnitude, best);
      }
      if bestDistance == None || distance < bestDistance.value
        || (distance == bestDistance.value && k % 2 == 0 && best % 2 != 0) {
        best, bestDistance := k, Some(distance);
      }
    }
    ThresholdsAreNearest(magnitude);
    NearestUnique(Grid(), MAGNITUDES, magnitude, best, ThresholdCode(magnitude));
    code := Signed(value < 0.0, best);
  }
}
