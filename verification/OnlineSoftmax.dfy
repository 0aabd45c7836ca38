/**
  The page-at-a-time softmax recurrence, on lists of keys: what one page does to the
  carried maximum, sum and accumulator, and what the carried state means.
*/
module OnlineSoftmax {
  import opened Wrappers
  import opened Exponentials
  import opened Softmax

  datatype LoopState = LoopState(counter: nat, runningMax: real, runningSum: real, accumulator: seq<real>)

  /** A sink starts the recurrence as one already-seen key without a value. */
  function Initial(sink: Option<real>, headDim: nat): (state: LoopState)
    ensures |state.accumulator| == headDim
  {
    var zeros := seq(headDim, _ => 0.0);
    match sink
    case Some(s) => LoopState(0, s, 1.0, zeros)
    case None => LoopState(0, MASKED_SCORE, 0.0, zeros)
  }

  function FoldPage(exp: real -> real, headDim: nat, state: LoopState, page: seq<Key>): (next: LoopState)
    requires Shaped(page, headDim) && |state.accumulator| == headDim
    ensures |next.accumulator| == headDim
  {
    var newMax := Max(state.runningMax, MaxScore(page));
    var oldScale := exp(state.runningMax - newMax);
    LoopState(
      state.counter + 1,
      newMax,
      state.runningSum * oldScale + Mass(exp, page, newMax),
      seq(headDim, d requires 0 <= d < headDim =>
        state.accumulator[d] * oldScale + Moment(exp, page, newMax, headDim, d)))
  }

  /** What the loop keeps: sum and accumulator are prefix sums relative to the running maximum. */
  ghost predicate Online(exp: real -> real, keys: seq<Key>, sink: Option<real>, headDim: nat, state: LoopState)
    requires Shaped(keys, headDim)
  {
    && state.runningSum == Normalizer(exp, keys, sink, state.runningMax)
    && |state.accumulator| == headDim
    && forall d :: 0 <= d < headDim ==> state.accumulator[d] == Moment(exp, keys, state.runningMax, headDim, d)
  }

  lemma InitialOnline(exp: real -> real, sink: Option<real>, headDim: nat)
    requires IsExponential(exp)
    ensures Online(exp, [], sink, headDim, Initial(sink, headDim))
  {
    Zero(exp);
    if sink.Some? {
      assert sink.value - sink.value == 0.0;
    }
  }

  lemma FoldAccumulator(
      exp: real -> real, keys: seq<Key>, sink: Option<real>, headDim: nat, state: LoopState, page: seq<Key>, d: nat)
    requires IsExponential(exp) && Shaped(keys, headDim) && Shaped(page, headDim) && d < headDim
    requires Online(exp, keys, sink, headDim, state)
    ensures Shaped(keys + page, headDim)
    ensures var next := FoldPage(exp, headDim, state, page);
            next.accumulator[d] == Moment(exp, keys + page, next.runningMax, headDim, d)
  {
    AccumulatorStep(exp, keys, state.runningMax, Max(state.runningMax, MaxScore(page)), headDim, page, d);
  }

  lemma AccumulatorStep(
      exp: real -> real, keys: seq<Key>, m: real, n: real, headDim: nat, page: seq<Key>, d: nat)
    requires IsExponential(exp) && Shaped(keys, headDim) && Shaped(page, headDim) && d < headDim
    ensures Shaped(keys + page, headDim)
    ensures Moment(exp, keys + page, n, headDim, d)
            == Moment(exp, keys, m, headDim, d) * exp(m - n) + Moment(exp, page, n, headDim, d)
  {
    MomentShift(exp, keys, m, n, headDim, d);
    MomentAppend(exp, keys, page, n, headDim, d);
  }

  lemma FoldSum(exp: real -> real, keys: seq<Key>, sink: Option<real>, headDim: nat, state: LoopState, page: seq<Key>)
    requires IsExponential(exp) && Shaped(keys, headDim) && Shaped(page, headDim)
    requires Online(exp, keys, sink, headDim, state)
    ensures var next := FoldPage(exp, headDim, state, page);
            next.runningSum == Normalizer(exp, keys + page, sink, next.runningMax)
  {
    SumStep(exp, keys, sink, state.runningMax, Max(state.runningMax, MaxScore(page)), page);
  }

  lemma SumStep(exp: real -> real, keys: seq<Key>, sink: Option<real>, m: real, n: real, page: seq<Key>)
    requires IsExponential(exp)
    ensures Normalizer(exp, keys + page, sink, n) == Normalizer(exp, keys, sink, m) * exp(m - n) + Mass(exp, page, n)
  {
    NormalizerShift(exp, keys, sink, m, n);
    MassAppend(exp, keys, page, n);
  }

  /** Folding a page extends the prefix by that page. */
  lemma FoldOnline(
      exp: real -> real, keys: seq<Key>, sink: Option<real>, headDim: nat, state: LoopState, page: seq<Key>)
    requires IsExponential(exp) && Shaped(keys, headDim) && Shaped(page, headDim)
    requires Online(exp, keys, sink, headDim, state)
    ensures Shaped(keys + page, headDim)
    ensures Online(exp, keys + page, sink, headDim, FoldPage(exp, headDim, state, page))
  {
    FoldSum(exp, keys, sink, headDim, state, page);
    forall d | 0 <= d < headDim
      ensures var next := FoldPage(exp, headDim, state, page);
              next.accumulator[d] == Moment(exp, keys + page, next.runningMax, headDim, d)
    {
      FoldAccumulator(exp, keys, sink, headDim, state, page, d);
    }
  }

  // ----- the whole walk -----

  ghost predicate ShapedPages(pages: seq<seq<Key>>, headDim: nat) {
    forall p :: 0 <= p < |pages| ==> Shaped(pages[p], headDim)
  }

  /** The state after `n` iterations; every reachable loop state is one of these. */
  function After(exp: real -> real, pages: seq<seq<Key>>, sink: Option<real>, headDim: nat, n: nat): (state: LoopState)
    requires ShapedPages(pages, headDim) && n <= |pages|
    ensures state.counter == n && |state.accumulator| == headDim
  {
    if n == 0 then Initial(sink, headDim)
    else FoldPage(exp, headDim, After(exp, pages, sink, headDim, n - 1), pages[n - 1])
  }

  /** The keys of the first `n` pages, in traversal order. */
  function Traversed(pages: seq<seq<Key>>, n: nat): seq<Key>
    requires n <= |pages|
  {
    if n == 0 then [] else Traversed(pages, n - 1) + pages[n - 1]
  }

  lemma {:induction false} TraversedShaped(pages: seq<seq<Key>>, headDim: nat, n: nat)
    requires ShapedPages(pages, headDim) && n <= |pages|
    ensures Shaped(Traversed(pages, n), headDim)
  {
    if n > 0 {
      TraversedShaped(pages, headDim, n - 1);
    }
  }

  /** The loop invariant, for every number of iterations. */
  lemma {:induction false} AfterOnline(
      exp: real -> real, pages: seq<seq<Key>>, sink: Option<real>, headDim: nat, n: nat)
    requires IsExponential(exp) && ShapedPages(pages, headDim) && n <= |pages|
    ensures Shaped(Traversed(pages, n), headDim)
    ensures Online(exp, Traversed(pages, n), sink, headDim, After(exp, pages, sink, headDim, n))
  {
    if n == 0 {
      InitialOnline(exp, sink, headDim);
    } else {
      AfterOnline(exp, pages, sink, headDim, n - 1);
      FoldOnline(exp, Traversed(pages, n - 1), sink, headDim, After(exp, pages, sink, headDim, n - 1), pages[n - 1]);
    }
  }

  function Finish(headDim: nat, state: LoopState): (output: seq<real>)
    requires |state.accumulator| == headDim
    ensures |output| == headDim
  {
    seq(headDim, d requires 0 <= d < headDim =>
      if state.runningSum > 0.0 then state.accumulator[d] / state.runningSum else 0.0)
  }

  /** The guarded division of an online state is two-pass attention over the keys the mask admits. */
  lemma FinishIsTwoPass(
      exp: real -> real, keys: seq<Key>, hidden: seq<Key>, sink: Option<real>, headDim: nat, state: LoopState)
    requires IsExponential(exp) && Shaped(keys, headDim) && Shaped(hidden, headDim)
    requires forall i :: 0 <= i < |hidden| ==> !hidden[i].visible
    requires Online(exp, keys + hidden, sink, headDim, state)
    ensures Finish(headDim, state) == TwoPass(exp, keys, sink, headDim)
  {
    forall d | 0 <= d < headDim
      ensures Finish(headDim, state)[d] == TwoPass(exp, keys, sink, headDim)[d]
    {
      HiddenSuffix(exp, keys, hidden, state.runningMax, headDim, d);
      TwoPassIsSoftmax(exp, keys, sink, state.runningMax, headDim, d);
    }
  }

  // ----- numerical safety of every reachable state -----

  /** Every admitted score and the sink lie in the finite F32 range. */
  ghost predicate FiniteScores(keys: seq<Key>, sink: Option<real>) {
    && (forall i :: 0 <= i < |keys| && keys[i].visible ==> keys[i].score >= MASKED_SCORE)
    && (sink.Some? ==> sink.value >= MASKED_SCORE)
  }

  /** The running maximum bounds every score seen, and something seen attains it. */
  ghost predicate Peaked(keys: seq<Key>, sink: Option<real>, m: real) {
    && (forall i :: 0 <= i < |keys| ==> MaskedScore(keys[i]) <= m)
    && (sink.Some? ==> sink.value <= m)
    && (m == MASKED_SCORE || sink == Some(m) || exists i :: 0 <= i < |keys| && keys[i].visible && keys[i].score == m)
  }

  lemma FoldPeaked(keys: seq<Key>, sink: Option<real>, m: real, page: seq<Key>)
    requires Peaked(keys, sink, m)
    ensures Peaked(keys + page, sink, Max(m, MaxScore(page)))
  {
    MaxScoreBounds(page);
    var all := keys + page;
    if Max(m, MaxScore(page)) == m {
      if i :| 0 <= i < |keys| && keys[i].visible && keys[i].score == m {
        assert all[i] == keys[i];
      }
    } else if i :| 0 <= i < |page| && MaxScore(page) == MaskedScore(page[i]) {
      assert all[|keys| + i] == page[i];
    }
  }

  /**
    In every reachable state the running maximum bounds all scores seen and is attained,
    so no exponent used for an admitted key, for the sink or for rescaling is positive.
  */
  lemma {:induction false} AfterPeaked(
      exp: real -> real, pages: seq<seq<Key>>, sink: Option<real>, headDim: nat, n: nat)
    requires ShapedPages(pages, headDim) && n <= |pages|
    ensures Peaked(Traversed(pages, n), sink, After(exp, pages, sink, headDim, n).runningMax)
    ensures n > 0 ==>
      After(exp, pages, sink, headDim, n - 1).runningMax <= After(exp, pages, sink, headDim, n).runningMax
  {
    if n > 0 {
      AfterPeaked(exp, pages, sink, headDim, n - 1);
      FoldPeaked(Traversed(pages, n - 1), sink, After(exp, pages, sink, headDim, n - 1).runningMax, pages[n - 1]);
    }
  }

  /** Once a sink or an admitted key has been seen, the divisor is at least one. */
  lemma RunningSumAtLeastOne(exp: real -> real, pages: seq<seq<Key>>, sink: Option<real>, headDim: nat, n: nat)
    requires IsExponential(exp) && ShapedPages(pages, headDim) && n <= |pages|
    requires FiniteScores(Traversed(pages, n), sink)
    requires sink.Some? || exists i :: 0 <= i < |Traversed(pages, n)| && Traversed(pages, n)[i].visible
    ensures After(exp, pages, sink, headDim, n).runningSum >= 1.0
  {
    AfterOnline(exp, pages, sink, headDim, n);
    AfterPeaked(exp, pages, sink, headDim, n);
    PeakedNormalizer(exp, Traversed(pages, n), sink, After(exp, pages, sink, headDim, n).runningMax);
  }

  lemma PeakedNormalizer(exp: real -> real, keys: seq<Key>, sink: Option<real>, m: real)
    requires IsExponential(exp) && FiniteScores(keys, sink) && Peaked(keys, sink, m)
    requires sink.Some? || exists i :: 0 <= i < |keys| && keys[i].visible
    ensures Normalizer(exp, keys, sink, m) >= 1.0
  {
    MassNonnegative(exp, keys, m);
    if sink.Some? {
      WeightAtPeak(exp, sink.value, m);
    }
    if sink != Some(m) {
      if sink.None? {
        var k :| 0 <= k < |keys| && keys[k].visible;
        assert MaskedScore(keys[k]) <= m;
      }
      var i :| 0 <= i < |keys| && keys[i].visible && keys[i].score == m;
      MassAbove(exp, keys, i, m);
      WeightAtPeak(exp, m, m);
    }
  }

  lemma WeightAtPeak(exp: real -> real, score: real, m: real)
    requires IsExponential(exp)
    ensures exp(score - m) > 0.0 && (score == m ==> exp(score - m) == 1.0)
  {
    if score == m {
      Zero(exp);
      assert score - m == 0.0;
    }
  }

  lemma {:induction false} MassAbove(exp: real -> real, keys: seq<Key>, i: nat, m: real)
    requires IsExponential(exp) && i < |keys|
    ensures Mass(exp, keys, m) >= Weight(exp, keys[i], m)
  {
    var init := keys[..|keys| - 1];
    MassNonnegative(exp, init, m);
    if i < |init| {
      MassAbove(exp, init, i, m);
    }
  }
}
