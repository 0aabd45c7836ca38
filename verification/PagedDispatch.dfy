/**
  The emitted choice between the vendor kernel and the tile loop for paged attention, against the
  portable page loop: exactly when each branch gives its result.
*/
module PagedDispatch {
  import opened Wrappers
  import opened Arithmetic
  import opened Exponentials
  import opened FlashDispatch
  import opened Softmax
  import opened TritonAttention
  import opened TritonRows
  import Dense = OrdinaryAttention
  import Paged = PagedAttention

  function Capacity(g: Paged.Geometry): nat { g.logicalPages * g.pageSize }

  /** A lane whose row length fits the table, with the row's pages allocated. */
  ghost predicate ValidLane(x: Paged.Inputs, g: Paged.Geometry, lane: Paged.Lane) {
    && Paged.Valid(x, g) && Paged.InRange(x, g, lane) && Paged.HeadOf(g, lane) < g.heads.queryHeads
    && 0 <= x.lengths[lane.b] <= Capacity(g) && Paged.Allocated(x, g, lane.b)
  }

  predicate TakesFlash(x: Paged.Inputs, g: Paged.Geometry)
    requires |x.queryPositions| == |x.lengths|
    requires forall b :: 0 <= b < |x.lengths| ==> |x.queryPositions[b]| == g.heads.queryLength
  {
    Unrestricted(x.options) || CanonicalPagedPositions(x, g.heads.queryLength)
  }

  /** What the vendor kernel returns for a lane under its adapter's own mask. */
  ghost predicate FlashRow(
      exp: real -> real, x: Paged.Inputs, g: Paged.Geometry, lane: Paged.Lane, adapter: Adapter,
      output: seq<real>, lse: real)
    requires ValidLane(x, g, lane)
  {
    var mask := AdapterMask(adapter, x.options.causal, WindowArgument(x.options), g.heads.queryLength, Capacity(g));
    var keys := KernelKeys(Paged.DenseRow(x, g, lane.b), g.heads, x.lengths[lane.b], mask, 0, lane.q,
                           Paged.HeadOf(g, lane));
    KernelRow(exp, keys, g.heads.headDim, output, lse)
  }

  ghost predicate Drops(adapter: Adapter, options: Dense.Options, g: Paged.Geometry) {
    DropsUpperBound(adapter, options, g.heads.queryLength, Capacity(g))
  }

  /**
    The emitted dispatch; `output` and `lse` stand for the vendor kernel's row, `last` and `tileSize` for the program.
  */
  function Dispatch(
      exp: real -> real, x: Paged.Inputs, g: Paged.Geometry, lane: Paged.Lane, output: seq<real>, lse: real,
      last: int, tileSize: nat): seq<real>
    requires IsExponential(exp) && Paged.Valid(x, g) && Paged.InRange(x, g, lane)
    requires Fits(x, g, lane, last) && tileSize > 0
  {
    if TakesFlash(x, g) then CorrectOutput(exp, output, lse, Paged.SinkOf(x, g, lane))
    else TritonOutput(exp, x, g, lane, last, tileSize)
  }

  /** Masked calls take the tile loop exactly if some position of some row is not aligned with that row's length. */
  lemma BranchTaken(
      exp: real -> real, x: Paged.Inputs, g: Paged.Geometry, lane: Paged.Lane, output: seq<real>, lse: real,
      last: int, tileSize: nat)
    requires IsExponential(exp) && Paged.Valid(x, g) && Paged.InRange(x, g, lane)
    requires Fits(x, g, lane, last) && tileSize > 0
    ensures Dispatch(exp, x, g, lane, output, lse, last, tileSize)
      == if (x.options.causal || x.options.slidingWindow.Some?)
            && exists b, q :: 0 <= b < |x.lengths| && 0 <= q < g.heads.queryLength
                 && x.queryPositions[b][q] - q != x.lengths[b] - g.heads.queryLength
         then TritonOutput(exp, x, g, lane, last, tileSize)
         else CorrectOutput(exp, output, lse, Paged.SinkOf(x, g, lane))
  {
  }

  /** One choice of tensors, and of what the vendor kernel may return for them, gives the portable row. */
  ghost predicate CaseAgrees(
      exp: real -> real, x: Paged.Inputs, y: Paged.Inputs, g: Paged.Geometry, lane: Paged.Lane, adapter: Adapter,
      last: int, tileSize: nat, output: seq<real>, lse: real)
    requires IsExponential(exp) && ValidLane(x, g, lane) && Fits(x, g, lane, last) && tileSize > 0
  {
    SameCall(x, y, g) && (TakesFlash(y, g) ==> ValidLane(y, g, lane) && FlashRow(exp, y, g, lane, adapter, output, lse))
    ==> (
      SameFits(x, y, g, lane, last);
      Dispatch(exp, y, g, lane, output, lse, last, tileSize) == Paged.LaneOutput(exp, y, g, lane))
  }

  /**
    On one table, with given lengths, positions and options and an adapter that drops no bound, the dispatch gives the
    paged loop's row for all queries, caches and sinks exactly if it takes the vendor branch, or the row has no
    phantoms, or it sees no key.
  */
  lemma DispatchExactly(
      exp: real -> real, x: Paged.Inputs, g: Paged.Geometry, lane: Paged.Lane, adapter: Adapter, last: int,
      tileSize: nat)
    requires IsExponential(exp) && ValidLane(x, g, lane) && Fits(x, g, lane, last) && tileSize > 0
    requires g.heads.headDim > 0 && (TakesFlash(x, g) ==> !Drops(adapter, x.options, g))
    ensures
      (forall y: Paged.Inputs, output: seq<real>, lse: real ::
         CaseAgrees(exp, x, y, g, lane, adapter, last, tileSize, output, lse))
      <==> TakesFlash(x, g) || !HasPhantoms(x, lane, last, tileSize)
           || !SeesKey(x.options, x.queryPositions[lane.b][lane.q], x.lengths[lane.b])
  {
    TritonExactly(exp, x, g, lane, last, tileSize);
    if TakesFlash(x, g) {
      forall y: Paged.Inputs, output: seq<real>, lse: real
        ensures CaseAgrees(exp, x, y, g, lane, adapter, last, tileSize, output, lse)
      {
        if SameCall(x, y, g) && ValidLane(y, g, lane) && FlashRow(exp, y, g, lane, adapter, output, lse) {
          FlashIsPortable(exp, y, g, lane, adapter, output, lse);
        }
      }
    } else {
      forall y: Paged.Inputs, output: seq<real>, lse: real
        ensures CaseAgrees(exp, x, y, g, lane, adapter, last, tileSize, output, lse)
                == RowAgrees(exp, x, y, g, lane, last, tileSize)
      {
      }
      if y: Paged.Inputs :| !RowAgrees(exp, x, y, g, lane, last, tileSize) {
        assert !CaseAgrees(exp, x, y, g, lane, adapter, last, tileSize, [], 0.0);
      }
    }
  }

  lemma FlashIsPortable(
      exp: real -> real, x: Paged.Inputs, g: Paged.Geometry, lane: Paged.Lane, adapter: Adapter, output: seq<real>,
      lse: real)
    requires IsExponential(exp) && ValidLane(x, g, lane) && FlashRow(exp, x, g, lane, adapter, output, lse)
    requires TakesFlash(x, g) && !Drops(adapter, x.options, g)
    ensures CorrectOutput(exp, output, lse, Paged.SinkOf(x, g, lane)) == Paged.LaneOutput(exp, x, g, lane)
  {
    PagedKernelBranch(exp, x, g, lane, adapter, output, lse);
  }

  // ----- the dropped bound, at output level -----

  /** Tensors of a geometry with at least one of everything. */
  ghost predicate Inhabited(g: Paged.Geometry, options: Dense.Options) {
    && g.heads.kvHeads > 0 && g.heads.queryHeads > 0 && g.heads.queryHeads % g.heads.kvHeads == 0
    && g.heads.headDim > 0 && g.heads.queryLength > 0 && g.pageSize > 0 && g.logicalPages > 0
    && ValidWindow(options)
  }

  /** The geometries for which the compiler takes a paged vendor kernel and its adapter accepts the call. */
  ghost predicate Admissible(g: Paged.Geometry, options: Dense.Options, adapter: Adapter) {
    && Inhabited(g, options) && 16 <= g.heads.headDim <= 256 && g.heads.headDim % 8 == 0
    && (adapter == Flash3 || (adapter == Flash2Paged && g.pageSize % 256 == 0))
  }

  /** One row of length one: zero queries and keys, values of one, bottom-right aligned positions. */
  function Witness(g: Paged.Geometry, options: Dense.Options): Paged.Inputs {
    var heads := g.heads;
    Paged.Inputs([Filled(heads.queryLength, heads.queryHeads, heads.headDim, 0.0)],
      [Filled(g.pageSize, heads.kvHeads, heads.headDim, 0.0)],
      [Filled(g.pageSize, heads.kvHeads, heads.headDim, 1.0)],
      [seq(g.logicalPages, p => 0)], [1], [seq(heads.queryLength, q => 1 - heads.queryLength + q)], None, options)
  }

  lemma WitnessIsValid(g: Paged.Geometry, options: Dense.Options)
    requires Inhabited(g, options)
    ensures ValidLane(Witness(g, options), g, Paged.Lane(0, 0, 0, 0)) && TakesFlash(Witness(g, options), g)
    ensures Paged.Limit(Witness(g, options), g, 0) == 1
  {
    MulMono(1, g.logicalPages, g.pageSize);
    Split(g.heads.queryHeads, g.heads.kvHeads);
    var x := Witness(g, options);
    assert Paged.Valid(x, g);
    Paged.HeadBounds(g, Paged.Lane(0, 0, 0, 0));
  }

  /** The portable graph hides the only key from the first query. */
  lemma WitnessPortable(exp: real -> real, g: Paged.Geometry, options: Dense.Options)
    requires IsExponential(exp) && Inhabited(g, options) && Drops(Flash2Paged, options, g)
    ensures ValidLane(Witness(g, options), g, Paged.Lane(0, 0, 0, 0))
    ensures |Paged.LaneOutput(exp, Witness(g, options), g, Paged.Lane(0, 0, 0, 0))| == g.heads.headDim
    ensures Paged.LaneOutput(exp, Witness(g, options), g, Paged.Lane(0, 0, 0, 0))[0] == 0.0
  {
    var x, lane := Witness(g, options), Paged.Lane(0, 0, 0, 0);
    WitnessIsValid(g, options);
    Paged.LoopResult(exp, x, g, lane);
    var keys := Dense.RowKeys(Paged.DenseRow(x, g, 0), g.heads, 1, 0, 0, Paged.HeadOf(g, lane));
    assert !keys[0].visible;
    HiddenIsNothing(exp, keys, 0.0, g.heads.headDim, 0);
    TwoPassRatio(exp, keys, None, g.heads.headDim, 0);
  }

  /** The vendor kernel sees it. */
  lemma WitnessFlash(exp: real -> real, g: Paged.Geometry, options: Dense.Options) returns (output: seq<real>)
    requires IsExponential(exp) && Inhabited(g, options) && Drops(Flash2Paged, options, g)
    ensures ValidLane(Witness(g, options), g, Paged.Lane(0, 0, 0, 0))
    ensures FlashRow(exp, Witness(g, options), g, Paged.Lane(0, 0, 0, 0), Flash2Paged, output, 0.0)
    ensures |output| == g.heads.headDim && output[0] == 1.0
  {
    var x, lane := Witness(g, options), Paged.Lane(0, 0, 0, 0);
    WitnessIsValid(g, options);
    var mask := AdapterMask(Flash2Paged, options.causal, WindowArgument(options), g.heads.queryLength, Capacity(g));
    var keys := KernelKeys(Paged.DenseRow(x, g, 0), g.heads, 1, mask, 0, 0, Paged.HeadOf(g, lane));
    assert mask == Unmasked && keys[0].visible;
    WitnessKey(g, options, keys[0], mask);
    SingleKey(exp, keys, g.heads.headDim);
    output := TwoPass(exp, keys, None, g.heads.headDim);
  }

  lemma WitnessKey(g: Paged.Geometry, options: Dense.Options, key: Key, mask: KernelMask)
    requires Inhabited(g, options) && ValidLane(Witness(g, options), g, Paged.Lane(0, 0, 0, 0))
    requires Paged.Limit(Witness(g, options), g, 0) == 1
    requires key == KernelKeys(Paged.DenseRow(Witness(g, options), g, 0), g.heads, 1, mask, 0, 0,
                               Paged.HeadOf(g, Paged.Lane(0, 0, 0, 0)))[0]
    ensures key.score == 0.0 && key.value[0] == 1.0
  {
    var x := Witness(g, options);
    var query, row := x.query[0][0][Paged.HeadOf(g, Paged.Lane(0, 0, 0, 0))], x.keyCache[0][0][0];
    Dense.DotZero(query, row);
  }

  lemma SingleKey(exp: real -> real, keys: seq<Key>, headDim: nat)
    requires IsExponential(exp) && |keys| == 1 && Shaped(keys, headDim) && headDim > 0
    requires keys[0].visible && keys[0].score == 0.0 && keys[0].value[0] == 1.0
    ensures TwoPass(exp, keys, None, headDim)[0] == 1.0 && exp(0.0) == Mass(exp, keys, 0.0)
  {
    SingleTotals(exp, keys, headDim);
    TwoPassRatio(exp, keys, None, headDim, 0);
    WholeRatio(Moment(exp, keys, 0.0, headDim, 0), Normalizer(exp, keys, None, 0.0));
  }

  lemma SingleTotals(exp: real -> real, keys: seq<Key>, headDim: nat)
    requires IsExponential(exp) && |keys| == 1 && Shaped(keys, headDim) && headDim > 0
    requires keys[0].visible && keys[0].score == 0.0 && keys[0].value[0] == 1.0
    ensures exp(0.0) == 1.0 == Mass(exp, keys, 0.0) && Moment(exp, keys, 0.0, headDim, 0) == 1.0
  {
    Unit(exp, 0.0);
    assert keys[..0] == [];
    assert Weight(exp, keys[0], 0.0) == exp(0.0);
  }

  lemma WholeRatio(moment: real, total: real)
    requires moment == 1.0 && total == 1.0
    ensures Ratio(moment, total) == 1.0
  {
  }

  /** One vendor call on a lane, as the dispatch makes it. */
  ghost predicate FlashCase(
      exp: real -> real, x: Paged.Inputs, g: Paged.Geometry, options: Dense.Options, lane: Paged.Lane,
      adapter: Adapter, output: seq<real>, lse: real)
  {
    ValidLane(x, g, lane) && x.options == options && TakesFlash(x, g) && FlashRow(exp, x, g, lane, adapter, output, lse)
  }

  /**
    The vendor branch gives the page loop's result on all inputs of an admissible geometry exactly if the adapter
    drops no bound.
  */
  lemma FlashExactly(exp: real -> real, g: Paged.Geometry, options: Dense.Options, adapter: Adapter)
    requires IsExponential(exp) && Admissible(g, options, adapter)
    ensures
      (forall x: Paged.Inputs, lane: Paged.Lane, output: seq<real>, lse: real
         | FlashCase(exp, x, g, options, lane, adapter, output, lse) ::
         CorrectOutput(exp, output, lse, Paged.SinkOf(x, g, lane)) == Paged.LaneOutput(exp, x, g, lane))
      <==> !Drops(adapter, options, g)
  {
    if !Drops(adapter, options, g) {
      forall x: Paged.Inputs, lane: Paged.Lane, output: seq<real>, lse: real
        | FlashCase(exp, x, g, options, lane, adapter, output, lse)
        ensures CorrectOutput(exp, output, lse, Paged.SinkOf(x, g, lane)) == Paged.LaneOutput(exp, x, g, lane)
      {
        FlashIsPortable(exp, x, g, lane, adapter, output, lse);
      }
    } else {
      var x, lane := Witness(g, options), Paged.Lane(0, 0, 0, 0);
      WitnessIsValid(g, options);
      WitnessPortable(exp, g, options);
      var output := WitnessFlash(exp, g, options);
      assert FlashCase(exp, x, g, options, lane, adapter, output, 0.0);
      assert CorrectOutput(exp, output, 0.0, Paged.SinkOf(x, g, lane)) == output;
    }
  }
}
