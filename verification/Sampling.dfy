/**
  Drawing one token per row: the top candidates of a total order, filtered by top-k, cumulative
  mass and relative probability, perturbed by noise and maximised; and the batched form that
  shares the filters and threads one random state per row.
*/
module Sampling {
  import opened Exponentials
  import opened Ordering
  import Softmax

  datatype Controls = Controls(topK: int, temperature: real, topP: real, minP: real)

  function Between(x: real, low: real, high: real): real {
    if x < low then low else if x > high then high else x
  }

  /** Controls moved into their safe domains. */
  function Clamped(c: Controls, maximumTopK: nat, epsilon: real): Controls {
    Controls(
      if c.topK < 1 then 1 else if c.topK > maximumTopK then maximumTopK else c.topK,
      if c.temperature < epsilon then epsilon else c.temperature,
      Between(c.topP, epsilon, 1.0),
      Between(c.minP, 0.0, 1.0))
  }

  /** Controls as they come out of clamping. */
  predicate Safe(c: Controls, n: nat) {
    1 <= c.topK <= n && c.temperature > 0.0 && 0.0 < c.topP <= 1.0 && 0.0 <= c.minP <= 1.0
  }

  /** The safe domains, for a given bound on top-k and smallest temperature and top-p. */
  predicate InDomain(c: Controls, maximumTopK: nat, epsilon: real) {
    && 1 <= c.topK <= maximumTopK && epsilon <= c.temperature
    && epsilon <= c.topP <= 1.0 && 0.0 <= c.minP <= 1.0
  }

  function Distance(x: real, y: real): real { if x < y then y - x else x - y }

  /** `moved` is at least as close to `c` as `other`, control by control. */
  predicate NoFurther(c: Controls, moved: Controls, other: Controls) {
    && Distance(c.topK as real, moved.topK as real) <= Distance(c.topK as real, other.topK as real)
    && Distance(c.temperature, moved.temperature) <= Distance(c.temperature, other.temperature)
    && Distance(c.topP, moved.topP) <= Distance(c.topP, other.topP)
    && Distance(c.minP, moved.minP) <= Distance(c.minP, other.minP)
  }

  /** Clamping goes to the nearest controls of the domain, and leaves those of the domain alone. */
  lemma ClampedIsNearest(c: Controls, maximumTopK: nat, epsilon: real, other: Controls)
    requires maximumTopK > 0 && 0.0 < epsilon <= 1.0 && InDomain(other, maximumTopK, epsilon)
    ensures InDomain(Clamped(c, maximumTopK, epsilon), maximumTopK, epsilon)
    ensures NoFurther(c, Clamped(c, maximumTopK, epsilon), other)
    ensures InDomain(c, maximumTopK, epsilon) ==> Clamped(c, maximumTopK, epsilon) == c
  {
  }

  lemma ClampedIsSafe(c: Controls, maximumTopK: nat, epsilon: real)
    requires maximumTopK > 0 && 0.0 < epsilon <= 1.0
    ensures Safe(Clamped(c, maximumTopK, epsilon), maximumTopK)
  {
  }

  // ----- filtering -----

  function Cooled(x: Number, temperature: real): Number
    requires temperature > 0.0
  {
    if x.Finite? then Finite(x.value / temperature) else x
  }

  function Filtered(values: seq<Number>, c: Controls): (r: seq<Number>)
    requires c.temperature > 0.0
    ensures |r| == |values|
  {
    seq(|values|, i requires 0 <= i < |values| =>
      Cooled(if i >= c.topK then MinusInfinity else values[i], c.temperature))
  }

  /** A logit as a softmax key: only finite ones weigh anything. */
  function KeyOf(x: Number): Softmax.Key {
    Softmax.Key(if x.Finite? then x.value else 0.0, x.Finite?, [])
  }

  function Keys(xs: seq<Number>): (keys: seq<Softmax.Key>)
    ensures |keys| == |xs|
  {
    if xs == [] then [] else Keys(xs[..|xs| - 1]) + [KeyOf(xs[|xs| - 1])]
  }

  function Weight(exp: real -> real, x: Number, m: real): real {
    Softmax.Weight(exp, KeyOf(x), m)
  }

  function Mass(exp: real -> real, xs: seq<Number>, m: real): real {
    Softmax.Mass(exp, Keys(xs), m)
  }

  lemma MassStep(exp: real -> real, xs: seq<Number>, m: real)
    requires |xs| > 0
    ensures Mass(exp, xs, m) == Mass(exp, xs[..|xs| - 1], m) + Weight(exp, xs[|xs| - 1], m)
  {
    assert Keys(xs)[..|xs| - 1] == Keys(xs[..|xs| - 1]);
  }

  function Largest(xs: seq<Number>): Number {
    if xs == [] then MinusInfinity
    else if Greater(xs[|xs| - 1], Largest(xs[..|xs| - 1])) then xs[|xs| - 1] else Largest(xs[..|xs| - 1])
  }

  /** Softmax of one entry; a row without finite entries gets zeros. */
  function Probability(exp: real -> real, xs: seq<Number>, x: Number): real {
    var m := Largest(xs);
    if m.Finite? && Mass(exp, xs, m.value) != 0.0 then Share(Weight(exp, x, m.value), Mass(exp, xs, m.value)) else 0.0
  }

  function Share(part: real, total: real): real
    requires total != 0.0
  {
    part / total
  }

  /** The running sum of the first `n` probabilities. */
  function Cumulative(exp: real -> real, xs: seq<Number>, n: nat): real
    requires n <= |xs|
  {
    if n == 0 then 0.0 else Cumulative(exp, xs, n - 1) + Probability(exp, xs, xs[n - 1])
  }

  /** The filter as it is computed; the first candidate always passes. */
  predicate Accepted(exp: real -> real, xs: seq<Number>, c: Controls, i: nat)
    requires i < |xs|
  {
    var p := Probability(exp, xs, xs[i]);
    var before := Cumulative(exp, xs, i + 1) - p;
    (before < c.topP && p >= Floor(Probability(exp, xs, xs[0]), c.minP)) || i == 0
  }

  /** The probability below which a candidate is dropped. */
  function Floor(best: real, minP: real): real { best * minP }

  // ----- what the filter means -----

  /** Candidates in descending order whose first is finite: those of a row with a finite maximum. */
  ghost predicate Descending(xs: seq<Number>) {
    && |xs| > 0 && xs[0].Finite?
    && (forall i | 0 <= i < |xs| :: xs[i].Finite? || xs[i].MinusInfinity?)
    && (forall i, j | 0 <= i < j < |xs| :: !Greater(xs[j], xs[i]))
  }

  lemma FilteredDescending(values: seq<Number>, c: Controls)
    requires Descending(values) && Safe(c, |values|)
    ensures Descending(Filtered(values, c))
  {
    var xs := Filtered(values, c);
    forall i, j | 0 <= i < j < |xs| ensures !Greater(xs[j], xs[i]) {
      assert !Greater(values[j], values[i]);
      CooledKeepsOrder(values[i], values[j], c.temperature);
    }
    forall i | 0 <= i < |xs| ensures xs[i].Finite? || xs[i].MinusInfinity? {
      assert values[i].Finite? || values[i].MinusInfinity?;
    }
  }

  lemma CooledKeepsOrder(a: Number, b: Number, temperature: real)
    requires temperature > 0.0 && !Greater(b, a) && !a.NaN? && !b.NaN?
    ensures !Greater(Cooled(b, temperature), Cooled(a, temperature))
  {
    if a.Finite? && b.Finite? {
      QuotientOrder(b.value, a.value, temperature);
    }
  }

  lemma QuotientOrder(x: real, y: real, t: real)
    requires t > 0.0 && x <= y
    ensures x / t <= y / t
  {
    var p, q := x / t, y / t;
    assert p * t == x && q * t == y;
    assert p > q ==> p * t > q * t;
  }

  lemma {:induction false} LargestIsFirst(xs: seq<Number>)
    requires Descending(xs)
    ensures Largest(xs) == xs[0]
  {
    var front := xs[..|xs| - 1];
    if front != [] {
      assert Descending(front);
      LargestIsFirst(front);
    } else {
      assert Largest(front) == MinusInfinity;
    }
  }

  lemma WeightOrder(exp: real -> real, a: Number, b: Number, m: real)
    requires IsExponential(exp) && !a.PlusInfinity? && !a.NaN? && !b.PlusInfinity? && !b.NaN? && !Greater(b, a)
    ensures 0.0 <= Weight(exp, b, m) <= Weight(exp, a, m)
    ensures Weight(exp, b, m) > 0.0 <==> b.Finite?
  {
    if a.Finite? && b.Finite? {
      Monotone(exp, b.value - m, a.value - m);
    }
  }

  lemma {:induction false} MassPositive(exp: real -> real, xs: seq<Number>, m: real)
    requires IsExponential(exp) && |xs| > 0 && xs[0].Finite?
    ensures Mass(exp, xs, m) > 0.0
  {
    MassStep(exp, xs, m);
    if |xs| > 1 {
      MassPositive(exp, xs[..|xs| - 1], m);
    } else {
      assert Mass(exp, xs[..0], m) == 0.0;
    }
  }

  /** What is left of the pipeline once the maximum is known. */
  lemma ProbabilityIsShare(exp: real -> real, xs: seq<Number>, x: Number)
    requires IsExponential(exp) && Descending(xs)
    ensures Mass(exp, xs, xs[0].value) > 0.0
    ensures Probability(exp, xs, x) == Share(Weight(exp, x, xs[0].value), Mass(exp, xs, xs[0].value))
  {
    LargestIsFirst(xs);
    MassPositive(exp, xs, xs[0].value);
  }

  lemma {:induction false} CumulativeIsShare(exp: real -> real, xs: seq<Number>, n: nat)
    requires IsExponential(exp) && Descending(xs) && n <= |xs|
    ensures Mass(exp, xs, xs[0].value) > 0.0
    ensures Cumulative(exp, xs, n) == Share(Mass(exp, xs[..n], xs[0].value), Mass(exp, xs, xs[0].value))
  {
    ProbabilityIsShare(exp, xs, xs[0]);
    if n > 0 {
      CumulativeIsShare(exp, xs, n - 1);
      ProbabilityIsShare(exp, xs, xs[n - 1]);
      assert xs[..n][..n - 1] == xs[..n - 1];
      MassStep(exp, xs[..n], xs[0].value);
      SharesAdd(Mass(exp, xs[..n - 1], xs[0].value), Weight(exp, xs[n - 1], xs[0].value), Mass(exp, xs, xs[0].value));
    }
  }

  lemma SharesAdd(a: real, b: real, total: real)
    requires total > 0.0
    ensures Share(a, total) + Share(b, total) == Share(a + b, total)
  {
  }

  lemma ShareOrder(a: real, b: real, total: real)
    requires total > 0.0 && a <= b
    ensures Share(a, total) <= Share(b, total)
  {
    QuotientOrder(a, b, total);
  }

  lemma WholeAndNothing(total: real)
    requires total > 0.0
    ensures Share(total, total) == 1.0 && Share(0.0, total) == 0.0
  {
  }

  /** Later candidates are no more likely, and have no less mass before them. */
  lemma LaterIsLess(exp: real -> real, xs: seq<Number>, i: nat, j: nat)
    requires IsExponential(exp) && Descending(xs) && i <= j < |xs|
    ensures 0.0 <= Probability(exp, xs, xs[j]) <= Probability(exp, xs, xs[i])
    ensures Cumulative(exp, xs, i) <= Cumulative(exp, xs, j)
    decreases j - i
  {
    var m, total := xs[0].value, Mass(exp, xs, xs[0].value);
    ProbabilityIsShare(exp, xs, xs[i]);
    ProbabilityIsShare(exp, xs, xs[j]);
    WeightOrder(exp, xs[i], xs[j], m);
    ShareOrder(Weight(exp, xs[j], m), Weight(exp, xs[i], m), total);
    ShareOrder(0.0, Weight(exp, xs[j], m), total);
    WholeAndNothing(total);
    if i < j {
      LaterIsLess(exp, xs, i, j - 1);
    }
  }

  /** Past the last finite candidate the whole mass is already spent. */
  lemma MassSpent(exp: real -> real, xs: seq<Number>, i: nat)
    requires IsExponential(exp) && Descending(xs) && i < |xs| && xs[i].MinusInfinity?
    ensures Cumulative(exp, xs, i) == 1.0 && Probability(exp, xs, xs[i]) == 0.0
  {
    var m := xs[0].value;
    forall j | i <= j < |xs| ensures xs[j].MinusInfinity? {
      assert i < j ==> !Greater(xs[j], xs[i]);
    }
    TailWeighsNothing(exp, xs, m, i);
    CumulativeIsShare(exp, xs, i);
    ProbabilityIsShare(exp, xs, xs[i]);
    WholeAndNothing(Mass(exp, xs, m));
  }

  lemma {:induction false} TailWeighsNothing(exp: real -> real, xs: seq<Number>, m: real, i: nat)
    requires i <= |xs| && forall j | i <= j < |xs| :: xs[j].MinusInfinity?
    ensures Mass(exp, xs, m) == Mass(exp, xs[..i], m)
  {
    if i < |xs| {
      MassStep(exp, xs, m);
      TailWeighsNothing(exp, xs[..|xs| - 1], m, i);
      assert xs[..|xs| - 1][..i] == xs[..i];
    } else {
      assert xs[..i] == xs;
    }
  }

  /** The mass strictly before a candidate, as the filter subtracts it. */
  lemma Before(exp: real -> real, xs: seq<Number>, c: Controls, i: nat)
    requires i < |xs|
    ensures Accepted(exp, xs, c, i) <==>
      i == 0 || (Cumulative(exp, xs, i) < c.topP
        && Probability(exp, xs, xs[i]) >= Floor(Probability(exp, xs, xs[0]), c.minP))
  {
  }

  /**
    The accepted candidates are a nonempty prefix, all finite and inside top-k: candidate `i` is
    accepted exactly when it precedes the returned length.
  */
  lemma AcceptedIsPrefix(exp: real -> real, values: seq<Number>, c: Controls) returns (length: nat)
    requires IsExponential(exp) && Descending(values) && Safe(c, |values|)
    ensures 1 <= length <= c.topK
    ensures forall i: nat | i < |values| :: Accepted(exp, Filtered(values, c), c, i) <==> i < length
    ensures forall i: nat | i < length :: values[i].Finite?
    ensures forall i: nat | 0 < i < length :: Cumulative(exp, Filtered(values, c), i) < c.topP
  {
    var xs := Filtered(values, c);
    FilteredDescending(values, c);
    length := 1;
    while length < |xs| && Accepted(exp, xs, c, length)
      invariant 1 <= length <= |xs| && forall i: nat | i < length :: Accepted(exp, xs, c, i)
    {
      length := length + 1;
    }
    forall i: nat | i < |xs| ensures Accepted(exp, xs, c, i) <==> i < length {
      if length <= i {
        StaysRejected(exp, xs, c, length, i);
      }
    }
    forall i: nat | i < length ensures values[i].Finite? && i < c.topK {
      AcceptedIsFinite(exp, xs, c, i);
    }
    AcceptedIsFinite(exp, xs, c, length - 1);
    assert xs[length - 1] == Cooled(if length - 1 >= c.topK then MinusInfinity else values[length - 1], c.temperature);
    forall i: nat | 0 < i < length ensures Cumulative(exp, xs, i) < c.topP {
      Before(exp, xs, c, i);
    }
  }

  lemma StaysRejected(exp: real -> real, xs: seq<Number>, c: Controls, i: nat, j: nat)
    requires IsExponential(exp) && Descending(xs) && 0 < i <= j < |xs| && !Accepted(exp, xs, c, i)
    ensures !Accepted(exp, xs, c, j)
  {
    Before(exp, xs, c, i);
    Before(exp, xs, c, j);
    LaterIsLess(exp, xs, i, j);
  }

  lemma AcceptedIsFinite(exp: real -> real, xs: seq<Number>, c: Controls, i: nat)
    requires IsExponential(exp) && Descending(xs) && c.topP <= 1.0 && i < |xs| && Accepted(exp, xs, c, i)
    ensures xs[i].Finite?
  {
    if xs[i].MinusInfinity? {
      Before(exp, xs, c, i);
      MassSpent(exp, xs, i);
    }
  }

  // ----- the filter in plain terms -----

  /** What candidate `i` weighs before normalising: nothing past the top-k. */
  function Tempered(exp: real -> real, values: seq<Number>, c: Controls, i: nat): real
    requires c.temperature > 0.0 && i < |values|
  {
    if i < c.topK && values[i].Finite? then exp(values[i].value / c.temperature) else 0.0
  }

  function Spent(exp: real -> real, values: seq<Number>, c: Controls, n: nat): real
    requires c.temperature > 0.0 && n <= |values|
  {
    if n == 0 then 0.0 else Spent(exp, values, c, n - 1) + Tempered(exp, values, c, n - 1)
  }

  /** A candidate better than `i` exists, the better ones hold less than top-p of the whole, and it weighs enough. */
  predicate Retained(exp: real -> real, values: seq<Number>, c: Controls, i: nat)
    requires c.temperature > 0.0 && i < |values|
  {
    || i == 0
    || (Spent(exp, values, c, i) < Scaled(Spent(exp, values, c, |values|), c.topP)
        && Tempered(exp, values, c, i) >= Scaled(Tempered(exp, values, c, 0), c.minP))
  }

  lemma WeightIsTempered(exp: real -> real, values: seq<Number>, c: Controls, i: nat, m: real)
    requires IsExponential(exp) && c.temperature > 0.0 && i < |values|
    ensures Tempered(exp, values, c, i) == Scaled(Weight(exp, Filtered(values, c)[i], m), exp(m))
  {
    if i < c.topK && values[i].Finite? {
      var score := values[i].value / c.temperature;
      Product(exp, score - m, m);
      assert score - m + m == score;
    }
  }

  function Scaled(x: real, factor: real): real { x * factor }

  lemma {:induction false} MassIsSpent(exp: real -> real, values: seq<Number>, c: Controls, n: nat, m: real)
    requires IsExponential(exp) && c.temperature > 0.0 && n <= |values|
    ensures Spent(exp, values, c, n) == Scaled(Mass(exp, Filtered(values, c)[..n], m), exp(m))
  {
    var xs := Filtered(values, c);
    if n > 0 {
      assert xs[..n][..n - 1] == xs[..n - 1];
      MassStep(exp, xs[..n], m);
      MassIsSpent(exp, values, c, n - 1, m);
      WeightIsTempered(exp, values, c, n - 1, m);
      ScaledSum(Mass(exp, xs[..n - 1], m), Weight(exp, xs[n - 1], m), exp(m));
    }
  }

  lemma ScaledSum(a: real, b: real, factor: real)
    ensures Scaled(a + b, factor) == Scaled(a, factor) + Scaled(b, factor)
  {
  }

  /** A share of the whole lies below a bound exactly if the part lies below that much of the whole, at any scale. */
  lemma ShareBelow(part: real, total: real, bound: real, factor: real)
    requires total > 0.0 && factor > 0.0
    ensures Share(part, total) < bound <==> Scaled(part, factor) < Scaled(Scaled(total, factor), bound)
  {
    var share := Share(part, total);
    assert share * total == part;
    Ordered(share, bound, total);
    Ordered(part, bound * total, factor);
    assert total * factor * bound == bound * total * factor;
  }

  lemma Ordered(a: real, b: real, factor: real)
    requires factor > 0.0
    ensures a < b <==> a * factor < b * factor
  {
  }

  /** A share is at least a multiple of another exactly if the parts are. */
  lemma ShareAbove(part: real, best: real, total: real, multiple: real, factor: real)
    requires total > 0.0 && factor > 0.0
    ensures Share(part, total) >= Floor(Share(best, total), multiple)
            <==> Scaled(part, factor) >= Scaled(Scaled(best, factor), multiple)
  {
    ShareBelow(part, total, Floor(Share(best, total), multiple), factor);
    BestRestored(best, total, multiple, factor);
  }

  lemma BestRestored(best: real, total: real, multiple: real, factor: real)
    requires total > 0.0
    ensures Scaled(Scaled(total, factor), Floor(Share(best, total), multiple)) == Scaled(Scaled(best, factor), multiple)
  {
    var share := Share(best, total);
    assert share * total == best;
    assert total * factor * (share * multiple) == share * total * factor * multiple;
  }

  lemma SpentBelow(exp: real -> real, values: seq<Number>, c: Controls, i: nat)
    requires IsExponential(exp) && Descending(values) && Safe(c, |values|) && i < |values|
    ensures Cumulative(exp, Filtered(values, c), i) < c.topP
            <==> Spent(exp, values, c, i) < Scaled(Spent(exp, values, c, |values|), c.topP)
  {
    var xs := Filtered(values, c);
    FilteredDescending(values, c);
    var m := xs[0].value;
    assert xs[..|xs|] == xs;
    CumulativeIsShare(exp, xs, i);
    MassIsSpent(exp, values, c, i, m);
    MassIsSpent(exp, values, c, |values|, m);
    ShareBelow(Mass(exp, xs[..i], m), Mass(exp, xs, m), c.topP, exp(m));
  }

  lemma WeighsEnough(exp: real -> real, values: seq<Number>, c: Controls, i: nat)
    requires IsExponential(exp) && Descending(values) && Safe(c, |values|) && i < |values|
    ensures var xs := Filtered(values, c);
      Probability(exp, xs, xs[i]) >= Floor(Probability(exp, xs, xs[0]), c.minP)
      <==> Tempered(exp, values, c, i) >= Scaled(Tempered(exp, values, c, 0), c.minP)
  {
    var xs := Filtered(values, c);
    FilteredDescending(values, c);
    var m := xs[0].value;
    ProbabilityIsShare(exp, xs, xs[i]);
    ProbabilityIsShare(exp, xs, xs[0]);
    WeightIsTempered(exp, values, c, i, m);
    WeightIsTempered(exp, values, c, 0, m);
    ShareAbove(Weight(exp, xs[i], m), Weight(exp, xs[0], m), Mass(exp, xs, m), c.minP, exp(m));
  }

  /** The filter keeps exactly those candidates. */
  lemma AcceptedExactly(exp: real -> real, values: seq<Number>, c: Controls, i: nat)
    requires IsExponential(exp) && Descending(values) && Safe(c, |values|) && i < |values|
    ensures Accepted(exp, Filtered(values, c), c, i) <==> Retained(exp, values, c, i)
  {
    Before(exp, Filtered(values, c), c, i);
    SpentBelow(exp, values, c, i);
    WeighsEnough(exp, values, c, i);
  }

  // ----- drawing -----

  /** A candidate the filter drops becomes minus infinity. */
  function Masked(x: Number, keep: bool): Number { if keep then x else MinusInfinity }

  function Kept(exp: real -> real, xs: seq<Number>, c: Controls): (r: seq<Number>)
    ensures |r| == |xs|
  {
    seq(|xs|, i requires 0 <= i < |xs| => Masked(xs[i], Accepted(exp, xs, c, i)))
  }

  function Noised(xs: seq<Number>, noise: seq<real>): (r: seq<Number>)
    requires |noise| == |xs|
    ensures |r| == |xs|
  {
    seq(|xs|, i requires 0 <= i < |xs| => Perturbed(xs[i], noise[i]))
  }

  function Scored(exp: real -> real, xs: seq<Number>, c: Controls, noise: seq<real>): (r: seq<Number>)
    requires |noise| == |xs|
    ensures |r| == |xs|
  {
    Noised(Kept(exp, xs, c), noise)
  }

  function Perturbed(x: Number, noise: real): Number {
    if x.Finite? then Finite(x.value + noise) else x
  }

  /** Candidates of a row in descending order, cut to the static bound. */
  function Candidates(logits: seq<Number>, k: nat): (r: seq<Entry>)
    requires k <= |logits|
    ensures |r| == k
  {
    SortedRow(logits);
    Sort(Enumerated(logits), true)[..k]
  }

  function Values(entries: seq<Entry>): (r: seq<Number>)
    ensures |r| == |entries|
  {
    seq(|entries|, i requires 0 <= i < |entries| => entries[i].value)
  }

  /** Which candidate is drawn. */
  function Drawn(exp: real -> real, values: seq<Number>, c: Controls, noise: seq<real>): int
    requires c.temperature > 0.0 && |noise| == |values|
  {
    ArgMax(Scored(exp, Filtered(values, c), c, noise)).index
  }

  /** The token of one row under clamped controls. */
  function Token(exp: real -> real, logits: seq<Number>, c: Controls, k: nat, noise: seq<real>): int
    requires 0 < k <= |logits| && c.temperature > 0.0 && |noise| == k
  {
    var entries := Candidates(logits, k);
    var drawn := Drawn(exp, Values(entries), c, noise);
    ArgMaxIsFirst(Scored(exp, Filtered(Values(entries), c), c, noise));
    entries[drawn].index
  }

  /** A row whose largest logit is finite. */
  ghost predicate FiniteMaximum(logits: seq<Number>) {
    && (exists i :: 0 <= i < |logits| && logits[i].Finite?)
    && (forall i | 0 <= i < |logits| :: logits[i].Finite? || logits[i].MinusInfinity?)
  }

  lemma CandidatesDescend(logits: seq<Number>, k: nat)
    requires FiniteMaximum(logits) && 0 < k <= |logits|
    ensures Descending(Values(Candidates(logits, k)))
  {
    var entries := Candidates(logits, k);
    SortedRow(logits);
    TopIsArgMax(logits);
    ArgMaxIsFirst(logits);
    var values := Values(entries);
    forall i, j | 0 <= i < j < k ensures !Greater(values[j], values[i]) {
      assert Precedes(Sort(Enumerated(logits), true)[i], Sort(Enumerated(logits), true)[j], true);
    }
  }

  /**
    The drawn candidate is accepted, and among all accepted ones it has the largest sum of cooled
    logit and noise, ties to the better candidate.
  */
  lemma DrawIsAccepted(exp: real -> real, values: seq<Number>, c: Controls, noise: seq<real>) returns (length: nat)
    requires IsExponential(exp) && Descending(values) && Safe(c, |values|) && |noise| == |values|
    ensures 1 <= length <= c.topK && 0 <= Drawn(exp, values, c, noise) < length
    ensures forall i: nat | i < |values| :: Accepted(exp, Filtered(values, c), c, i) <==> i < length
    ensures forall i: nat | i < length :: values[i].Finite?
    ensures
      var d := Drawn(exp, values, c, noise);
      forall i: nat | i < length && i != d ::
        values[i].value / c.temperature + noise[i] <= values[d].value / c.temperature + noise[d]
        && (values[i].value / c.temperature + noise[i] == values[d].value / c.temperature + noise[d] ==> d < i)
  {
    length := AcceptedIsPrefix(exp, values, c);
    var xs := Filtered(values, c);
    var scored := Scored(exp, xs, c, noise);
    ArgMaxIsFirst(scored);
    var d := ArgMax(scored).index;
    assert scored[0].Finite?;
    assert d != 0 ==> Precedes(ArgMax(scored), Entry(scored[0], 0), true);
    assert scored[d].Finite?;
    forall i: nat | i < length && i != d
      ensures scored[i] == Finite(values[i].value / c.temperature + noise[i])
      ensures Precedes(ArgMax(scored), Entry(scored[i], i), true)
    {
    }
  }

  /** The draw is an admitted candidate with the largest cooled logit plus noise, ties to the better candidate. */
  lemma DrawExactly(exp: real -> real, values: seq<Number>, c: Controls, noise: seq<real>, i: nat)
    requires IsExponential(exp) && Descending(values) && Safe(c, |values|) && |noise| == |values|
    requires i < |values| && Retained(exp, values, c, i)
    ensures
      var d := Drawn(exp, values, c, noise);
      && 0 <= d < |values| && Retained(exp, values, c, d) && values[d].Finite? && values[i].Finite?
      && values[i].value / c.temperature + noise[i] <= values[d].value / c.temperature + noise[d]
      && (values[i].value / c.temperature + noise[i] == values[d].value / c.temperature + noise[d] ==> d <= i)
  {
    AcceptedExactly(exp, values, c, i);
    var length := DrawIsAccepted(exp, values, c, noise);
    var d := Drawn(exp, values, c, noise);
    AcceptedExactly(exp, values, c, d);
  }

  /** The token is a position of the row, its logit is finite, and it is one of the `topK` best. */
  lemma TokenIsCandidate(
      exp: real -> real, logits: seq<Number>, c: Controls, k: nat, noise: seq<real>) returns (rank: nat)
    requires IsExponential(exp) && FiniteMaximum(logits) && 0 < k <= |logits| && Safe(c, k) && |noise| == k
    ensures var token := Token(exp, logits, c, k, noise); 0 <= token < |logits| && logits[token].Finite?
    ensures rank < c.topK && Candidates(logits, k)[rank].index == Token(exp, logits, c, k, noise)
  {
    var values := Values(Candidates(logits, k));
    CandidatesDescend(logits, k);
    var length := DrawIsAccepted(exp, values, c, noise);
    SortedRow(logits);
    rank := Drawn(exp, values, c, noise);
  }

  /** Candidate `d` is retained, and no retained one scores more, or as much at a better rank. */
  ghost predicate Wins(exp: real -> real, values: seq<Number>, c: Controls, noise: seq<real>, d: nat)
    requires c.temperature > 0.0 && |noise| == |values| && d < |values|
  {
    && Retained(exp, values, c, d) && values[d].Finite?
    && forall i: nat | i < |values| && Retained(exp, values, c, i) ::
         values[i].Finite? && Outscores(values[d].value / c.temperature + noise[d], d,
           values[i].value / c.temperature + noise[i], i)
  }

  predicate Outscores(score: real, d: nat, other: real, i: nat) { other < score || (other == score && d <= i) }

  /** The token is the vocabulary position of the winning candidate. */
  ghost predicate TokenWins(exp: real -> real, logits: seq<Number>, c: Controls, k: nat, noise: seq<real>, token: int)
    requires k <= |logits| && c.temperature > 0.0 && |noise| == k
  {
    exists d: nat :: d < k && Candidates(logits, k)[d].index == token
      && Wins(exp, Values(Candidates(logits, k)), c, noise, d)
  }

  /** What a row draws, with the filter in plain terms. */
  lemma TokenExactly(exp: real -> real, logits: seq<Number>, c: Controls, k: nat, noise: seq<real>)
    requires IsExponential(exp) && FiniteMaximum(logits) && 0 < k <= |logits| && Safe(c, k) && |noise| == k
    ensures TokenWins(exp, logits, c, k, noise, Token(exp, logits, c, k, noise))
  {
    var values := Values(Candidates(logits, k));
    CandidatesDescend(logits, k);
    DrawExactly(exp, values, c, noise, 0);
    var d := Drawn(exp, values, c, noise);
    forall i: nat | i < |values| && Retained(exp, values, c, i)
      ensures values[i].Finite? && Outscores(values[d].value / c.temperature + noise[d], d,
        values[i].value / c.temperature + noise[i], i)
    {
      DrawExactly(exp, values, c, noise, i);
    }
    assert Wins(exp, values, c, noise, d);
  }

  /** A top-k of one or less draws the greedy token whatever the noise. */
  lemma TopOneIsGreedy(exp: real -> real, logits: seq<Number>, c: Controls, k: nat, noise: seq<real>)
    requires IsExponential(exp) && FiniteMaximum(logits) && 0 < k <= |logits| && Safe(c, k) && c.topK == 1
    requires |noise| == k
    ensures Token(exp, logits, c, k, noise) == ArgMax(logits).index
  {
    var rank := TokenIsCandidate(exp, logits, c, k, noise);
    FirstIsGreedy(logits, k);
  }

  lemma FirstIsGreedy(logits: seq<Number>, k: nat)
    requires 0 < k <= |logits|
    ensures Candidates(logits, k)[0].index == ArgMax(logits).index
  {
    TopIsArgMax(logits);
  }

  // ----- batches -----

  /** What the generator does to a state, and the noise it yields for a row of candidates. */
  datatype Generator<!S> = Generator(advance: S -> S, noise: S -> seq<real>)

  /** One row alone: its next state and token. */
  function SampleRow<S>(
      exp: real -> real, gen: Generator<S>, logits: seq<Number>, state: S, c: Controls, k: nat, epsilon: real): (S, int)
    requires 0 < k <= |logits| && epsilon > 0.0 && |gen.noise(state)| == k
  {
    (gen.advance(state), Token(exp, logits, Clamped(c, k, epsilon), k, gen.noise(state)))
  }

  /** An inactive row keeps its state and yields the sentinel. */
  function MaskedRow<S>(
      exp: real -> real, gen: Generator<S>, logits: seq<Number>, state: S, c: Controls, active: bool, k: nat,
      epsilon: real): (S, int)
    requires 0 < k <= |logits| && epsilon > 0.0 && |gen.noise(state)| == k
  {
    if active then SampleRow(exp, gen, logits, state, c, k, epsilon) else (state, -1)
  }

  /** A token that is one of the `topK` best of its row and has a finite logit. */
  ghost predicate TopCandidate(logits: seq<Number>, k: nat, topK: int, token: int)
    requires k <= |logits|
  {
    && 0 <= token < |logits| && logits[token].Finite?
    && exists rank: nat :: rank < topK && rank < k && Candidates(logits, k)[rank].index == token
  }

  /** What a row with these controls may draw: a candidate its top-k admits, and the winner among the retained. */
  ghost predicate DrawnUnder(
      exp: real -> real, logits: seq<Number>, c: Controls, k: nat, noise: seq<real>, token: int)
  {
    && k <= |logits| && c.temperature > 0.0 && |noise| == k
    && TopCandidate(logits, k, c.topK, token) && TokenWins(exp, logits, c, k, noise, token)
  }

  /** Whatever the caller's controls are, a sampled row draws one of the candidates its clamped top-k admits. */
  lemma RowIsCandidate<S>(
      exp: real -> real, gen: Generator<S>, logits: seq<Number>, state: S, c: Controls, k: nat, epsilon: real)
    requires IsExponential(exp) && FiniteMaximum(logits) && 0 < k <= |logits| && 0.0 < epsilon <= 1.0
    requires |gen.noise(state)| == k
    ensures DrawnUnder(exp, logits, Clamped(c, k, epsilon), k, gen.noise(state),
                       SampleRow(exp, gen, logits, state, c, k, epsilon).1)
  {
    ClampedIsSafe(c, k, epsilon);
    var rank := TokenIsCandidate(exp, logits, Clamped(c, k, epsilon), k, gen.noise(state));
    TokenExactly(exp, logits, Clamped(c, k, epsilon), k, gen.noise(state));
  }

  /** Controls within their domains are used as they are. */
  lemma RowUsesItsControls<S>(
      exp: real -> real, gen: Generator<S>, logits: seq<Number>, state: S, c: Controls, k: nat, epsilon: real)
    requires IsExponential(exp) && FiniteMaximum(logits) && 0 < k <= |logits| && 0.0 < epsilon <= 1.0
    requires |gen.noise(state)| == k && InDomain(c, k, epsilon)
    ensures SampleRow(exp, gen, logits, state, c, k, epsilon)
            == (gen.advance(state), Token(exp, logits, c, k, gen.noise(state)))
    ensures DrawnUnder(exp, logits, c, k, gen.noise(state), Token(exp, logits, c, k, gen.noise(state)))
  {
    ClampedIsNearest(c, k, epsilon, c);
    RowIsCandidate(exp, gen, logits, state, c, k, epsilon);
  }

  type Grid<T> = seq<seq<T>>

  ghost predicate Rectangular<T>(grid: Grid<T>, rows: nat, columns: nat) {
    |grid| == rows && forall r | 0 <= r < rows :: |grid[r]| == columns
  }

  /** The sum of the first `n` entries of a row. */
  function PrefixSum(row: seq<real>, n: nat): real
    requires n <= |row|
  {
    if n == 0 then 0.0 else PrefixSum(row, n - 1) + row[n - 1]
  }

  /** Top-k and temperature over the whole batch, controls broadcast along the rows. */
  method CoolBatch(values: Grid<Number>, controls: seq<Controls>, k: nat) returns (filtered: Grid<Number>)
    requires |controls| == |values| && Rectangular(values, |values|, k)
    requires forall r | 0 <= r < |controls| :: controls[r].temperature > 0.0
    ensures |filtered| == |values|
    ensures forall r | 0 <= r < |values| :: filtered[r] == Filtered(values[r], controls[r])
  {
    var rows := |values|;
    var bounded := seq(rows, r requires 0 <= r < rows => seq(k, i requires 0 <= i < k =>
      if i >= controls[r].topK then MinusInfinity else values[r][i]));
    filtered := seq(rows, r requires 0 <= r < rows => seq(k, i requires 0 <= i < k =>
      Cooled(bounded[r][i], controls[r].temperature)));
    forall r | 0 <= r < rows ensures filtered[r] == Filtered(values[r], controls[r]) {
    }
  }

  /** The softmax of every row, and its running sum along the row. */
  method AccumulateBatch(exp: real -> real, filtered: Grid<Number>, k: nat)
    returns (probabilities: Grid<real>, cumulative: Grid<real>)
    requires Rectangular(filtered, |filtered|, k)
    ensures Rectangular(probabilities, |filtered|, k) && Rectangular(cumulative, |filtered|, k)
    ensures forall r, i | 0 <= r < |filtered| && 0 <= i < k ::
      probabilities[r][i] == Probability(exp, filtered[r], filtered[r][i])
    ensures forall r, i | 0 <= r < |filtered| && 0 <= i < k ::
      cumulative[r][i] == PrefixSum(probabilities[r], i + 1)
  {
    probabilities := seq(|filtered|, r requires 0 <= r < |filtered| => seq(k, i requires 0 <= i < k =>
      Probability(exp, filtered[r], filtered[r][i])));
    var source := probabilities;
    cumulative := seq(|source|, r requires 0 <= r < |source| => seq(k, i requires 0 <= i < k =>
      PrefixSum(source[r], i + 1)));
  }

  /** The mass filters over the whole batch, one grid operation after the other. */
  method FilterBatch(exp: real -> real, filtered: Grid<Number>, controls: seq<Controls>, k: nat)
    returns (kept: Grid<Number>)
    requires k > 0 && |controls| == |filtered| && Rectangular(filtered, |filtered|, k)
    ensures |kept| == |filtered|
    ensures forall r | 0 <= r < |filtered| :: kept[r] == Kept(exp, filtered[r], controls[r])
  {
    var probabilities, cumulative := AccumulateBatch(exp, filtered, k);
    kept := seq(|filtered|, r requires 0 <= r < |filtered| => seq(k, i requires 0 <= i < k =>
      Masked(filtered[r][i], Admitted(
        cumulative[r][i], probabilities[r][i], Floor(probabilities[r][0], controls[r].minP), controls[r].topP, i))));
    forall r | 0 <= r < |filtered| ensures kept[r] == Kept(exp, filtered[r], controls[r]) {
      RowIsKept(exp, filtered[r], controls[r], probabilities[r], kept[r]);
    }
  }

  /** The admission test on the numbers it reads: the mass up to and including a candidate, and its own. */
  predicate Admitted(cumulative: real, probability: real, threshold: real, topP: real, i: int) {
    (cumulative - probability < topP && probability >= threshold) || i == 0
  }

  lemma RowIsKept(
      exp: real -> real, xs: seq<Number>, c: Controls, probabilities: seq<real>, kept: seq<Number>)
    requires |xs| == |probabilities| == |kept| > 0
    requires forall i | 0 <= i < |xs| :: probabilities[i] == Probability(exp, xs, xs[i])
    requires forall i | 0 <= i < |xs| :: kept[i] == Masked(xs[i],
      Admitted(PrefixSum(probabilities, i + 1), probabilities[i], Floor(probabilities[0], c.minP), c.topP, i))
    ensures kept == Kept(exp, xs, c)
  {
    forall i | 0 <= i < |xs| ensures kept[i] == Kept(exp, xs, c)[i] {
      WindowIsCumulative(exp, xs, probabilities, i + 1);
    }
  }

  lemma {:induction false} WindowIsCumulative(exp: real -> real, xs: seq<Number>, probabilities: seq<real>, n: nat)
    requires n <= |xs| == |probabilities|
    requires forall i | 0 <= i < |xs| :: probabilities[i] == Probability(exp, xs, xs[i])
    ensures PrefixSum(probabilities, n) == Cumulative(exp, xs, n)
  {
    if n > 0 {
      WindowIsCumulative(exp, xs, probabilities, n - 1);
    }
  }

  /**
    The batch: sorted and filtered as grids, then one random state per row. Every active row is what sampling that
    row alone gives, and with a finite largest logit one of its own admitted candidates.
  */
  method SampleBatch<S>(
      exp: real -> real, gen: Generator<S>, logits: Grid<Number>, states: seq<S>, controls: seq<Controls>,
      active: seq<bool>, k: nat, epsilon: real) returns (next: seq<S>, tokens: seq<int>)
    requires k > 0 && epsilon > 0.0 && |states| == |controls| == |active| == |logits|
    requires forall r | 0 <= r < |logits| :: k <= |logits[r]| && |gen.noise(states[r])| == k
    ensures |next| == |tokens| == |logits|
    ensures forall r | 0 <= r < |logits| ::
      (next[r], tokens[r]) == MaskedRow(exp, gen, logits[r], states[r], controls[r], active[r], k, epsilon)
    ensures IsExponential(exp) && epsilon <= 1.0 ==>
      forall r | 0 <= r < |logits| && active[r] && FiniteMaximum(logits[r]) ::
        DrawnUnder(exp, logits[r], Clamped(controls[r], k, epsilon), k, gen.noise(states[r]), tokens[r])
  {
    var rows := |logits|;
    var entries := seq(rows, r requires 0 <= r < rows => Candidates(logits[r], k));
    var values := seq(rows, r requires 0 <= r < rows => Values(entries[r]));
    var clamped := seq(rows, r requires 0 <= r < rows => Clamped(controls[r], k, epsilon));
    var filtered := CoolBatch(values, clamped, k);
    var kept := FilterBatch(exp, filtered, clamped, k);
    next, tokens := [], [];
    for row := 0 to rows
      invariant |next| == |tokens| == row
      invariant forall r | 0 <= r < row ::
        (next[r], tokens[r]) == MaskedRow(exp, gen, logits[r], states[r], controls[r], active[r], k, epsilon)
    {
      assert kept[row] == Kept(exp, Filtered(values[row], clamped[row]), clamped[row]);
      var state, token := DrawRow(gen, entries[row], kept[row], states[row], active[row]);
      next, tokens := next + [state], tokens + [token];
    }
    if IsExponential(exp) && epsilon <= 1.0 {
      forall r | 0 <= r < rows && active[r] && FiniteMaximum(logits[r])
        ensures DrawnUnder(exp, logits[r], Clamped(controls[r], k, epsilon), k, gen.noise(states[r]), tokens[r])
      {
        RowIsCandidate(exp, gen, logits[r], states[r], controls[r], k, epsilon);
      }
    }
  }

  method DrawRow<S>(gen: Generator<S>, entries: seq<Entry>, kept: seq<Number>, state: S, active: bool)
    returns (next: S, token: int)
    requires |kept| == |entries| > 0 && |gen.noise(state)| == |entries|
    ensures next == if active then gen.advance(state) else state
    ensures 0 <= ArgMax(Noised(kept, gen.noise(state))).index < |entries|
    ensures token == if active then entries[ArgMax(Noised(kept, gen.noise(state))).index].index else -1
  {
    var scored := Noised(kept, gen.noise(state));
    ArgMaxIsFirst(scored);
    var drawn := ArgMax(scored).index;
    next := if active then gen.advance(state) else state;
    token := if active then entries[drawn].index else -1;
  }
}
