/**
  Softmax attention of one query row over a list of keys: the two-pass form that
  dense attention computes, and the algebra that lets any other reference point
  replace the maximum.
*/
module Softmax {
  import opened Wrappers
  import opened Exponentials

  /** One key as a query row sees it: its scaled score, whether the mask admits it, its value row. */
  datatype Key = Key(score: real, visible: bool, value: seq<real>)

  /** The score written at masked positions and the identity of every maximum reduction. */
  const MASKED_SCORE: real := -340282346638528860000000000000000000000.0

  function Max(a: real, b: real): real { if a < b then b else a }

  ghost predicate Shaped(keys: seq<Key>, headDim: nat) {
    forall i :: 0 <= i < |keys| ==> |keys[i].value| == headDim
  }

  function MaskedScore(key: Key): real {
    if key.visible then key.score else MASKED_SCORE
  }

  function MaxScore(keys: seq<Key>): real {
    if keys == [] then MASKED_SCORE
    else Max(MaxScore(keys[..|keys| - 1]), MaskedScore(keys[|keys| - 1]))
  }

  function Weight(exp: real -> real, key: Key, m: real): real {
    if key.visible then exp(MaskedScore(key) - m) else 0.0
  }

  /** The softmax normaliser of `keys` relative to `m`. */
  function Mass(exp: real -> real, keys: seq<Key>, m: real): real {
    if keys == [] then 0.0
    else Mass(exp, keys[..|keys| - 1], m) + Weight(exp, keys[|keys| - 1], m)
  }

  /** Component `d` of the weighted value sum relative to `m`. */
  function Moment(exp: real -> real, keys: seq<Key>, m: real, headDim: nat, d: nat): real
    requires Shaped(keys, headDim) && d < headDim
  {
    if keys == [] then 0.0
    else Moment(exp, keys[..|keys| - 1], m, headDim, d)
         + Weight(exp, keys[|keys| - 1], m) * keys[|keys| - 1].value[d]
  }

  /** A learned sink adds its own mass and no value. */
  function SinkMass(exp: real -> real, sink: Option<real>, m: real): real {
    match sink
    case None => 0.0
    case Some(s) => exp(s - m)
  }

  function Normalizer(exp: real -> real, keys: seq<Key>, sink: Option<real>, m: real): real {
    Mass(exp, keys, m) + SinkMass(exp, sink, m)
  }

  /** Masked softmax with reference point `m`; a row that sees nothing yields zero. */
  function SoftmaxAt(exp: real -> real, keys: seq<Key>, sink: Option<real>, m: real, headDim: nat, d: nat): real
    requires Shaped(keys, headDim) && d < headDim
  {
    var total := Normalizer(exp, keys, sink, m);
    if total > 0.0 then Moment(exp, keys, m, headDim, d) / total else 0.0
  }

  // ----- the two-pass form -----

  /** Normalises every weight before the value contraction, as the dense graph does. */
  function NormalizedMoment(exp: real -> real, keys: seq<Key>, m: real, denominator: real, headDim: nat, d: nat): real
    requires Shaped(keys, headDim) && d < headDim
  {
    if keys == [] then 0.0
    else NormalizedMoment(exp, keys[..|keys| - 1], m, denominator, headDim, d)
         + (if denominator > 0.0 then Weight(exp, keys[|keys| - 1], m) / denominator else 0.0)
           * keys[|keys| - 1].value[d]
  }

  function DenseMaximum(keys: seq<Key>, sink: Option<real>): real {
    match sink
    case None => MaxScore(keys)
    case Some(s) => Max(MaxScore(keys), s)
  }

  /** Dense attention of one row: maximum, shifted weights, sink, division, contraction. */
  function TwoPass(exp: real -> real, keys: seq<Key>, sink: Option<real>, headDim: nat): (r: seq<real>)
    requires Shaped(keys, headDim)
    ensures |r| == headDim
  {
    var maximum := DenseMaximum(keys, sink);
    var denominator := Normalizer(exp, keys, sink, maximum);
    seq(headDim, d requires 0 <= d < headDim =>
      NormalizedMoment(exp, keys, maximum, denominator, headDim, d))
  }

  // ----- algebra -----

  lemma {:induction false} MassNonnegative(exp: real -> real, keys: seq<Key>, m: real)
    requires IsExponential(exp)
    ensures Mass(exp, keys, m) >= 0.0
    ensures (exists i :: 0 <= i < |keys| && keys[i].visible) ==> Mass(exp, keys, m) > 0.0
  {
    if keys != [] {
      var init := keys[..|keys| - 1];
      MassNonnegative(exp, init, m);
      if i :| 0 <= i < |keys| && keys[i].visible {
        assert i < |init| ==> init[i] == keys[i];
      }
    }
  }

  /** Changing the reference point scales the normaliser by one factor. */
  lemma {:induction false} MassShift(exp: real -> real, keys: seq<Key>, m: real, n: real)
    requires IsExponential(exp)
    ensures Mass(exp, keys, n) == Mass(exp, keys, m) * exp(m - n)
  {
    if keys != [] {
      MassShift(exp, keys[..|keys| - 1], m, n);
      Shift(exp, keys[|keys| - 1].score, m, n);
    }
  }

  lemma {:induction false} MomentShift(exp: real -> real, keys: seq<Key>, m: real, n: real, headDim: nat, d: nat)
    requires IsExponential(exp) && Shaped(keys, headDim) && d < headDim
    ensures Moment(exp, keys, n, headDim, d) == Moment(exp, keys, m, headDim, d) * exp(m - n)
  {
    if keys != [] {
      var last := keys[|keys| - 1];
      var head := Moment(exp, keys[..|keys| - 1], m, headDim, d);
      MomentShift(exp, keys[..|keys| - 1], m, n, headDim, d);
      Shift(exp, last.score, m, n);
      ShiftedTerm(head, Weight(exp, last, m), Weight(exp, last, n), exp(m - n), last.value[d]);
    }
  }

  lemma ShiftedTerm(head: real, w: real, shifted: real, factor: real, v: real)
    requires shifted == w * factor
    ensures head * factor + shifted * v == (head + w * v) * factor
  {
    assert (w * factor) * v == (w * v) * factor;
  }

  lemma NormalizerShift(exp: real -> real, keys: seq<Key>, sink: Option<real>, m: real, n: real)
    requires IsExponential(exp)
    ensures Normalizer(exp, keys, sink, n) == Normalizer(exp, keys, sink, m) * exp(m - n)
  {
    MassShift(exp, keys, m, n);
    if sink.Some? {
      Shift(exp, sink.value, m, n);
    }
  }

  /** Softmax does not depend on the reference point. */
  lemma SoftmaxShiftInvariant(
      exp: real -> real, keys: seq<Key>, sink: Option<real>, m: real, n: real, headDim: nat, d: nat)
    requires IsExponential(exp) && Shaped(keys, headDim) && d < headDim
    ensures SoftmaxAt(exp, keys, sink, m, headDim, d) == SoftmaxAt(exp, keys, sink, n, headDim, d)
  {
    NormalizerShift(exp, keys, sink, m, n);
    MomentShift(exp, keys, m, n, headDim, d);
    var total, moment, factor := Normalizer(exp, keys, sink, m), Moment(exp, keys, m, headDim, d), exp(m - n);
    RatioScale(moment, total, factor);
    assert Normalizer(exp, keys, sink, n) == total * factor;
    assert Moment(exp, keys, n, headDim, d) == moment * factor;
  }

  lemma RatioScale(a: real, b: real, factor: real)
    requires factor > 0.0
    ensures b > 0.0 <==> b * factor > 0.0
    ensures b > 0.0 ==> (a * factor) / (b * factor) == a / b
  {
    if b > 0.0 {
      var q := a / b;
      assert a == q * b;
      assert a * factor == q * (b * factor);
    }
  }

  /** The two-pass form is the softmax at any reference point. */
  lemma TwoPassIsSoftmax(exp: real -> real, keys: seq<Key>, sink: Option<real>, m: real, headDim: nat, d: nat)
    requires IsExponential(exp) && Shaped(keys, headDim) && d < headDim
    ensures TwoPass(exp, keys, sink, headDim)[d] == SoftmaxAt(exp, keys, sink, m, headDim, d)
  {
    var maximum := DenseMaximum(keys, sink);
    NormalizedMomentIsRatio(exp, keys, maximum, Normalizer(exp, keys, sink, maximum), headDim, d);
    SoftmaxShiftInvariant(exp, keys, sink, maximum, m, headDim, d);
  }

  lemma {:induction false} NormalizedMomentIsRatio(
      exp: real -> real, keys: seq<Key>, m: real, total: real, headDim: nat, d: nat)
    requires Shaped(keys, headDim) && d < headDim
    ensures NormalizedMoment(exp, keys, m, total, headDim, d)
            == if total > 0.0 then Moment(exp, keys, m, headDim, d) / total else 0.0
  {
    if keys != [] {
      var init, last := keys[..|keys| - 1], keys[|keys| - 1];
      NormalizedMomentIsRatio(exp, init, m, total, headDim, d);
      if total > 0.0 {
        DivideSum(Moment(exp, init, m, headDim, d), Weight(exp, last, m), last.value[d], total);
      }
    }
  }

  lemma DivideSum(a: real, w: real, v: real, total: real)
    requires total > 0.0
    ensures a / total + (w / total) * v == (a + w * v) / total
  {
    var x, y := a / total, w / total;
    assert (x + y * v) * total == x * total + (y * total) * v == a + w * v;
  }

  /** What the shown keys weigh together, and their weighted values, with nothing subtracted. */
  function Total(exp: real -> real, keys: seq<Key>): real {
    if keys == [] then 0.0
    else Total(exp, keys[..|keys| - 1]) + if keys[|keys| - 1].visible then exp(keys[|keys| - 1].score) else 0.0
  }

  function WeightedTotal(exp: real -> real, keys: seq<Key>, headDim: nat, d: nat): real
    requires Shaped(keys, headDim) && d < headDim
  {
    if keys == [] then 0.0
    else
      var last := keys[|keys| - 1];
      WeightedTotal(exp, keys[..|keys| - 1], headDim, d)
      + if last.visible then exp(last.score) * last.value[d] else 0.0
  }

  /** Dense attention is the mean of the shown values weighted by the exponentials of the scores, diluted by a sink. */
  lemma TwoPassIsMean(exp: real -> real, keys: seq<Key>, sink: Option<real>, headDim: nat, d: nat)
    requires IsExponential(exp) && Shaped(keys, headDim) && d < headDim
    ensures
      var total := Total(exp, keys) + if sink.Some? then exp(sink.value) else 0.0;
      TwoPass(exp, keys, sink, headDim)[d] == if total > 0.0 then WeightedTotal(exp, keys, headDim, d) / total else 0.0
  {
    TwoPassIsSoftmax(exp, keys, sink, 0.0, headDim, d);
    PlainTotals(exp, keys, headDim, d);
    assert sink.Some? ==> sink.value - 0.0 == sink.value;
  }

  lemma {:induction false} PlainTotals(exp: real -> real, keys: seq<Key>, headDim: nat, d: nat)
    requires Shaped(keys, headDim) && d < headDim
    ensures Mass(exp, keys, 0.0) == Total(exp, keys)
    ensures Moment(exp, keys, 0.0, headDim, d) == WeightedTotal(exp, keys, headDim, d)
  {
    if keys != [] {
      PlainTotals(exp, keys[..|keys| - 1], headDim, d);
      assert keys[|keys| - 1].score - 0.0 == keys[|keys| - 1].score;
    }
  }

  // ----- appending and dropping keys -----

  lemma {:induction false} MassAppend(exp: real -> real, left: seq<Key>, right: seq<Key>, m: real)
    ensures Mass(exp, left + right, m) == Mass(exp, left, m) + Mass(exp, right, m)
  {
    if right == [] {
      assert left + right == left;
    } else {
      MassAppend(exp, left, right[..|right| - 1], m);
      assert (left + right)[..|left + right| - 1] == left + right[..|right| - 1];
    }
  }

  lemma {:induction false} MomentAppend(
      exp: real -> real, left: seq<Key>, right: seq<Key>, m: real, headDim: nat, d: nat)
    requires Shaped(left, headDim) && Shaped(right, headDim) && d < headDim
    ensures Moment(exp, left + right, m, headDim, d)
            == Moment(exp, left, m, headDim, d) + Moment(exp, right, m, headDim, d)
  {
    if right == [] {
      assert left + right == left;
    } else {
      var both, last := left + right, right[|right| - 1];
      MomentAppend(exp, left, right[..|right| - 1], m, headDim, d);
      assert both[..|both| - 1] == left + right[..|right| - 1] && both[|both| - 1] == last;
      var added := Weight(exp, last, m) * last.value[d];
      assert Moment(exp, both, m, headDim, d) == Moment(exp, both[..|both| - 1], m, headDim, d) + added;
    }
  }

  /** Keys the mask hides contribute nothing, whatever their scores and values are. */
  lemma {:induction false} HiddenSuffix(
      exp: real -> real, keys: seq<Key>, hidden: seq<Key>, m: real, headDim: nat, d: nat)
    requires Shaped(keys, headDim) && Shaped(hidden, headDim) && d < headDim
    requires forall i :: 0 <= i < |hidden| ==> !hidden[i].visible
    ensures Mass(exp, keys + hidden, m) == Mass(exp, keys, m)
    ensures Moment(exp, keys + hidden, m, headDim, d) == Moment(exp, keys, m, headDim, d)
  {
    if hidden == [] {
      assert keys + hidden == keys;
    } else {
      HiddenSuffix(exp, keys, hidden[..|hidden| - 1], m, headDim, d);
      assert (keys + hidden)[..|keys + hidden| - 1] == keys + hidden[..|hidden| - 1];
    }
  }

  lemma {:induction false} MaxScoreBounds(keys: seq<Key>)
    ensures MaxScore(keys) >= MASKED_SCORE
    ensures forall i :: 0 <= i < |keys| ==> MaskedScore(keys[i]) <= MaxScore(keys)
    ensures MaxScore(keys) == MASKED_SCORE || exists i :: 0 <= i < |keys| && MaxScore(keys) == MaskedScore(keys[i])
  {
    if keys != [] {
      var init := keys[..|keys| - 1];
      MaxScoreBounds(init);
      forall i | 0 <= i < |keys| ensures MaskedScore(keys[i]) <= MaxScore(keys) {
        assert i < |init| ==> init[i] == keys[i];
      }
      if i :| 0 <= i < |init| && MaxScore(init) == MaskedScore(init[i]) {
        assert keys[i] == init[i];
      }
    }
  }
}
