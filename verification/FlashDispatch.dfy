/**
  Replacing the portable attention graph by a vendor kernel: the learned-sink epilogue,
  the runtime predicate that guards the replacement, and the windows the adapters pass on.
*/
module FlashDispatch {
  import opened Wrappers
  import opened Exponentials
  import opened Softmax
  import Dense = OrdinaryAttention
  import Paged = PagedAttention

  // ----- the sink epilogue -----

  function Logistic(exp: real -> real, x: real): real
    requires IsExponential(exp)
  {
    1.0 / (1.0 + exp(-x))
  }

  /**
    What a vendor kernel returns for one row: plain softmax attention without a sink and the
    logarithm of its normaliser; a row that sees nothing is zero, with any normaliser.
  */
  ghost predicate KernelRow(exp: real -> real, keys: seq<Key>, headDim: nat, output: seq<real>, lse: real) {
    && Shaped(keys, headDim)
    && output == TwoPass(exp, keys, None, headDim)
    && ((exists i :: 0 <= i < |keys| && keys[i].visible) ==> exp(lse) == Mass(exp, keys, 0.0))
  }

  function CorrectOutput(exp: real -> real, output: seq<real>, lse: real, sink: Option<real>): seq<real>
    requires IsExponential(exp)
  {
    match sink
    case None => output
    case Some(s) => seq(|output|, d requires 0 <= d < |output| => output[d] * Logistic(exp, lse - s))
  }

  /** `output * logistic(lse - sink)` is attention with the sink inside the normaliser. */
  lemma SinkEpilogue(exp: real -> real, keys: seq<Key>, headDim: nat, output: seq<real>, lse: real, sink: Option<real>)
    requires IsExponential(exp) && KernelRow(exp, keys, headDim, output, lse)
    ensures CorrectOutput(exp, output, lse, sink) == TwoPass(exp, keys, sink, headDim)
  {
    if sink.Some? {
      var corrected, expected := CorrectOutput(exp, output, lse, sink), TwoPass(exp, keys, sink, headDim);
      forall d | 0 <= d < headDim ensures corrected[d] == expected[d] {
        SinkComponent(exp, keys, headDim, output, lse, sink.value, d);
      }
    }
  }

  lemma SinkComponent(exp: real -> real, keys: seq<Key>, headDim: nat, output: seq<real>, lse: real, sink: real, d: nat)
    requires IsExponential(exp) && KernelRow(exp, keys, headDim, output, lse) && d < headDim
    ensures output[d] * Logistic(exp, lse - sink) == TwoPass(exp, keys, Some(sink), headDim)[d]
  {
    TwoPassIsSoftmax(exp, keys, None, 0.0, headDim, d);
    TwoPassIsSoftmax(exp, keys, Some(sink), 0.0, headDim, d);
    var mass, moment := Mass(exp, keys, 0.0), Moment(exp, keys, 0.0, headDim, d);
    MassNonnegative(exp, keys, 0.0);
    if exists i :: 0 <= i < |keys| && keys[i].visible {
      LogisticRatio(exp, lse, sink);
      assert sink - 0.0 == sink;
      ShareProduct(moment, mass, exp(sink));
    } else {
      NothingVisible(exp, keys, 0.0, headDim, d);
    }
  }

  lemma LogisticRatio(exp: real -> real, lse: real, sink: real)
    requires IsExponential(exp)
    ensures Logistic(exp, lse - sink) == exp(lse) / (exp(lse) + exp(sink))
  {
    var ratio, mass := exp(sink - lse), exp(lse);
    Product(exp, sink - lse, lse);
    assert sink - lse + lse == sink && -(lse - sink) == sink - lse;
    RatioScale(1.0, 1.0 + ratio, mass);
    assert (1.0 + ratio) * mass == mass + exp(sink);
  }

  lemma ShareProduct(moment: real, mass: real, extra: real)
    requires mass > 0.0 && extra > 0.0
    ensures (moment / mass) * (mass / (mass + extra)) == moment / (mass + extra)
  {
    var q, total := moment / mass, mass + extra;
    var share := mass / total;
    assert share * total == mass;
    assert (q * share) * total == q * (share * total) == moment;
  }

  lemma {:induction false} NothingVisible(exp: real -> real, keys: seq<Key>, m: real, headDim: nat, d: nat)
    requires Shaped(keys, headDim) && d < headDim
    requires forall i :: 0 <= i < |keys| ==> !keys[i].visible
    ensures Mass(exp, keys, m) == 0.0 && Moment(exp, keys, m, headDim, d) == 0.0
  {
    if keys != [] {
      NothingVisible(exp, keys[..|keys| - 1], m, headDim, d);
    }
  }

  // ----- windows handed to the kernels -----

  datatype Adapter = Flash2Dense | Flash2Paged | Flash3

  /** The mask a kernel applies, aligned to the bottom right corner of the score matrix. */
  datatype KernelMask = Unmasked | CausalMask | LocalMask(left: int, right: int)

  /** The window arithmetic of the three adapters; `capacity` is the padded key extent. */
  function AdapterMask(
      adapter: Adapter, causal: bool, slidingWindow: int, queryLength: int, capacity: int): KernelMask {
    var window := if slidingWindow < 0 then -1 else slidingWindow - 1;
    match adapter
    case Flash2Dense =>
      var left := window;
      var right := if causal then 0 else window;
      if left < 0 && right == 0 then CausalMask
      else if left < 0 && right < 0 then Unmasked
      else LocalMask(left, right)
    case Flash2Paged =>
      var left := if window >= capacity then -1 else window;
      var authoredRight := if causal then 0 else window;
      var right := if authoredRight >= capacity then -1 else authoredRight;
      if left < 0 && right == 0 then CausalMask
      else if left < 0 && right < 0 then Unmasked
      else LocalMask(if left < 0 then capacity else left, if right < 0 then capacity else right)
    case Flash3 =>
      var left := if window >= capacity - 1 then -1 else window;
      var right := if causal then 0 else if window >= queryLength - 1 then -1 else window;
      if left < 0 && right == 0 then CausalMask
      else if left < 0 && right < 0 then Unmasked
      else LocalMask(if left < 0 then capacity - 1 else left, if right < 0 then queryLength - 1 else right)
  }

  predicate KernelVisible(mask: KernelMask, queryLength: int, keyLength: int, q: int, k: int) {
    var diagonal := q + keyLength - queryLength;
    match mask
    case Unmasked => true
    case CausalMask => k <= diagonal
    case LocalMask(left, right) =>
      (left < 0 || k >= diagonal - left) && (right < 0 || k <= diagonal + right)
  }

  function WindowArgument(options: Dense.Options): int {
    match options.slidingWindow case None => -1 case Some(w) => w
  }

  /**
    The one case in which an adapter drops a bound that still matters: the paged kernel of
    version two clears a symmetric window as soon as it reaches the cache capacity, although
    queries may extend further than that past the keys.
  */
  predicate DropsUpperBound(adapter: Adapter, options: Dense.Options, queryLength: int, capacity: int) {
    && adapter == Flash2Paged && !options.causal && options.slidingWindow.Some?
    && capacity < options.slidingWindow.value < queryLength
  }

  predicate MaskAgrees(
      adapter: Adapter, options: Dense.Options, queryLength: int, keyLength: int, capacity: int, q: int, k: int) {
    var mask := AdapterMask(adapter, options.causal, WindowArgument(options), queryLength, capacity);
    KernelVisible(mask, queryLength, keyLength, q, k)
    == Dense.Visible(options, q + keyLength - queryLength, k)
  }

  lemma MaskAgreesUnlessDropped(
      adapter: Adapter, options: Dense.Options, queryLength: int, keyLength: int, capacity: int, q: int, k: int)
    requires options.slidingWindow.Some? ==> options.slidingWindow.value > 0
    requires 0 <= q < queryLength && 0 <= k < keyLength <= capacity
    requires !DropsUpperBound(adapter, options, queryLength, capacity)
    ensures MaskAgrees(adapter, options, queryLength, keyLength, capacity, q, k)
  {
  }

  /** On bottom-right aligned positions an adapter's window is the authored mask exactly when no bound is dropped. */
  lemma AdapterMaskIsAuthored(adapter: Adapter, options: Dense.Options, queryLength: int, keyLength: int, capacity: int)
    requires options.slidingWindow.Some? ==> options.slidingWindow.value > 0
    requires 0 < queryLength && 0 < keyLength <= capacity
    ensures (forall q, k :: 0 <= q < queryLength && 0 <= k < keyLength ==>
               MaskAgrees(adapter, options, queryLength, keyLength, capacity, q, k))
            <==> !DropsUpperBound(adapter, options, queryLength, capacity)
  {
    forall q, k | 0 <= q < queryLength && 0 <= k < keyLength
      && !DropsUpperBound(adapter, options, queryLength, capacity)
      ensures MaskAgrees(adapter, options, queryLength, keyLength, capacity, q, k)
    {
      MaskAgreesUnlessDropped(adapter, options, queryLength, keyLength, capacity, q, k);
    }
    if DropsUpperBound(adapter, options, queryLength, capacity) {
      assert !MaskAgrees(adapter, options, queryLength, keyLength, capacity, 0, keyLength - 1);
    }
  }

  /**
    A cache of one page of 256 positions, 258 queries and a symmetric window of 257 over a sequence of length one: the
    kernel shows the first query the key the mask hides.
  */
  lemma DroppedBoundExample()
    ensures DropsUpperBound(Flash2Paged, Dense.Options(false, Some(257), 1.0), 258, 256)
    ensures KernelVisible(AdapterMask(Flash2Paged, false, 257, 258, 256), 258, 1, 0, 0)
    ensures !Dense.Visible(Dense.Options(false, Some(257), 1.0), 0 + 1 - 258, 0)
  {
  }

  // ----- the guarded replacement -----

  /** The row a vendor kernel works on: same scores and values, its own mask. */
  function KernelKeys(
      x: Dense.Inputs, g: Dense.Geometry, keyLength: nat, mask: KernelMask, b: nat, q: nat, head: nat): (keys: seq<Key>)
    requires Dense.Valid(x, g, keyLength) && b < |x.query| && q < g.queryLength && head < g.queryHeads
    ensures |keys| == keyLength && Shaped(keys, g.headDim)
  {
    var authored := Dense.RowKeys(x, g, keyLength, b, q, head);
    seq(keyLength, k requires 0 <= k < keyLength =>
      authored[k].(visible := KernelVisible(mask, g.queryLength, keyLength, q, k)))
  }

  predicate Unrestricted(options: Dense.Options) {
    !options.causal && options.slidingWindow.None?
  }

  /** Query index `q` of row `b` sits at its bottom-right aligned position and keys are numbered from zero. */
  predicate AlignedRow(x: Dense.Inputs, queryLength: nat, keyLength: nat, b: nat)
    requires b < |x.queryPositions| == |x.keyPositions|
    requires |x.queryPositions[b]| == queryLength && |x.keyPositions[b]| == keyLength
  {
    && (forall q :: 0 <= q < queryLength ==> x.queryPositions[b][q] == q + (keyLength - queryLength))
    && (forall k :: 0 <= k < keyLength ==> x.keyPositions[b][k] == k)
  }

  /** On a row the predicate accepts, the corrected kernel result is the portable one. */
  lemma KernelBranch(
      exp: real -> real, x: Dense.Inputs, g: Dense.Geometry, keyLength: nat, capacity: nat, b: nat, q: nat, head: nat,
      adapter: Adapter, output: seq<real>, lse: real)
    requires IsExponential(exp) && Dense.Valid(x, g, keyLength) && keyLength <= capacity
    requires b < |x.query| && q < g.queryLength && head < g.queryHeads
    requires Unrestricted(x.options) || AlignedRow(x, g.queryLength, keyLength, b)
    requires !DropsUpperBound(adapter, x.options, g.queryLength, capacity)
    requires var mask := AdapterMask(adapter, x.options.causal, WindowArgument(x.options), g.queryLength, capacity);
             KernelRow(exp, KernelKeys(x, g, keyLength, mask, b, q, head), g.headDim, output, lse)
    ensures CorrectOutput(exp, output, lse, Dense.SinkOf(x.sinks, head))
      == Dense.Lower(exp, x, g, keyLength, b, q, head)
  {
    var mask := AdapterMask(adapter, x.options.causal, WindowArgument(x.options), g.queryLength, capacity);
    var authored, kernel := Dense.RowKeys(x, g, keyLength, b, q, head), KernelKeys(x, g, keyLength, mask, b, q, head);
    forall k | 0 <= k < keyLength ensures kernel[k] == authored[k] {
      MaskAgreesUnlessDropped(adapter, x.options, g.queryLength, keyLength, capacity, q, k);
    }
    assert kernel == authored;
    SinkEpilogue(exp, kernel, g.headDim, output, lse, Dense.SinkOf(x.sinks, head));
  }

  /** The predicate computed over all authored position tensors of a dense call. */
  predicate CanonicalPositions(x: Dense.Inputs, g: Dense.Geometry, keyLength: nat)
    requires |x.queryPositions| == |x.keyPositions| == |x.query|
    requires forall b :: 0 <= b < |x.query| ==>
      |x.queryPositions[b]| == g.queryLength && |x.keyPositions[b]| == keyLength
  {
    forall b :: 0 <= b < |x.query| ==> AlignedRow(x, g.queryLength, keyLength, b)
  }

  /**
    The emitted dense dispatch: unmasked attention always takes the vendor branch, masked
    attention takes it exactly when the predicate holds. `output` and `lse` stand for what
    the kernel returns for this row.
  */
  function DenseDispatch(
      exp: real -> real, x: Dense.Inputs, g: Dense.Geometry, keyLength: nat, b: nat, q: nat, head: nat,
      output: seq<real>, lse: real): seq<real>
    requires IsExponential(exp) && Dense.Valid(x, g, keyLength)
    requires b < |x.query| && q < g.queryLength && head < g.queryHeads
  {
    if Unrestricted(x.options) || CanonicalPositions(x, g, keyLength)
    then CorrectOutput(exp, output, lse, Dense.SinkOf(x.sinks, head))
    else Dense.Lower(exp, x, g, keyLength, b, q, head)
  }

  /** Some position of the row lies off its place by a different amount than the extents do, or a key is renumbered. */
  predicate Displaced(x: Dense.Inputs, queryLength: nat, keyLength: nat, b: nat)
    requires b < |x.queryPositions| == |x.keyPositions|
    requires |x.queryPositions[b]| == queryLength && |x.keyPositions[b]| == keyLength
  {
    || (exists i :: 0 <= i < queryLength && x.queryPositions[b][i] - i != keyLength - queryLength)
    || (exists k :: 0 <= k < keyLength && x.keyPositions[b][k] != k)
  }

  lemma AlignedOrDisplaced(x: Dense.Inputs, queryLength: nat, keyLength: nat, b: nat)
    requires b < |x.queryPositions| == |x.keyPositions|
    requires |x.queryPositions[b]| == queryLength && |x.keyPositions[b]| == keyLength
    ensures AlignedRow(x, queryLength, keyLength, b) <==> !Displaced(x, queryLength, keyLength, b)
  {
  }

  /** The portable branch runs exactly for masked calls in which some row is displaced. */
  lemma DenseBranchTaken(
      exp: real -> real, x: Dense.Inputs, g: Dense.Geometry, keyLength: nat, b: nat, q: nat, head: nat,
      output: seq<real>, lse: real)
    requires IsExponential(exp) && Dense.Valid(x, g, keyLength)
    requires b < |x.query| && q < g.queryLength && head < g.queryHeads
    ensures DenseDispatch(exp, x, g, keyLength, b, q, head, output, lse)
      == if (x.options.causal || x.options.slidingWindow.Some?)
            && exists r :: 0 <= r < |x.query| && Displaced(x, g.queryLength, keyLength, r)
         then Dense.Lower(exp, x, g, keyLength, b, q, head)
         else CorrectOutput(exp, output, lse, if x.sinks.None? then None else Some(x.sinks.value[head]))
  {
    forall r | 0 <= r < |x.query|
      ensures AlignedRow(x, g.queryLength, keyLength, r) <==> !Displaced(x, g.queryLength, keyLength, r)
    {
      AlignedOrDisplaced(x, g.queryLength, keyLength, r);
    }
  }

  /** Whichever branch runs, the result is the portable attention graph's. */
  lemma DenseDispatchIsPortable(
      exp: real -> real, x: Dense.Inputs, g: Dense.Geometry, keyLength: nat, b: nat, q: nat, head: nat,
      adapter: Adapter, output: seq<real>, lse: real)
    requires IsExponential(exp) && Dense.Valid(x, g, keyLength) && adapter != Flash2Paged
    requires b < |x.query| && q < g.queryLength && head < g.queryHeads
    requires var mask := AdapterMask(adapter, x.options.causal, WindowArgument(x.options), g.queryLength, keyLength);
             KernelRow(exp, KernelKeys(x, g, keyLength, mask, b, q, head), g.headDim, output, lse)
    ensures DenseDispatch(exp, x, g, keyLength, b, q, head, output, lse)
      == Dense.Lower(exp, x, g, keyLength, b, q, head)
  {
    if Unrestricted(x.options) || CanonicalPositions(x, g, keyLength) {
      KernelBranch(exp, x, g, keyLength, keyLength, b, q, head, adapter, output, lse);
    }
  }

  /** The predicate of a paged call: every position is bottom-right aligned against its row's length. */
  predicate CanonicalPagedPositions(x: Paged.Inputs, queryLength: nat)
    requires |x.queryPositions| == |x.lengths|
    requires forall b :: 0 <= b < |x.lengths| ==> |x.queryPositions[b]| == queryLength
  {
    forall b, q :: 0 <= b < |x.lengths| && 0 <= q < queryLength ==>
      x.queryPositions[b][q] == (x.lengths[b] - queryLength) + q
  }

  /**
    A paged call whose positions pass the predicate: the corrected kernel result equals the
    page loop's, provided the lengths fit the table and the window bound is not dropped.
  */
  lemma PagedKernelBranch(
      exp: real -> real, x: Paged.Inputs, g: Paged.Geometry, lane: Paged.Lane, adapter: Adapter, output: seq<real>,
      lse: real)
    requires IsExponential(exp) && Paged.Valid(x, g) && Paged.InRange(x, g, lane)
    requires Paged.HeadOf(g, lane) < g.heads.queryHeads
    requires 0 <= x.lengths[lane.b] <= g.logicalPages * g.pageSize
    requires Unrestricted(x.options) || CanonicalPagedPositions(x, g.heads.queryLength)
    requires !DropsUpperBound(adapter, x.options, g.heads.queryLength, g.logicalPages * g.pageSize)
    requires
      var capacity, window := g.logicalPages * g.pageSize, WindowArgument(x.options);
      var mask := AdapterMask(adapter, x.options.causal, window, g.heads.queryLength, capacity);
      var row, head := Paged.DenseRow(x, g, lane.b), Paged.HeadOf(g, lane);
      KernelRow(exp, KernelKeys(row, g.heads, x.lengths[lane.b], mask, 0, lane.q, head), g.heads.headDim, output, lse)
    ensures CorrectOutput(exp, output, lse, Paged.SinkOf(x, g, lane)) == Paged.LaneOutput(exp, x, g, lane)
  {
    Paged.LoopResult(exp, x, g, lane);
    var dense := Paged.DenseRow(x, g, lane.b);
    KernelBranch(exp, dense, g.heads, x.lengths[lane.b], g.logicalPages * g.pageSize, 0, lane.q, Paged.HeadOf(g, lane),
      adapter, output, lse);
  }
}
