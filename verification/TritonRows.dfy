/**
  Which keys the tile loop shows a query row, against the keys the portable graph shows it, and
  what the difference does to the row.
*/
module TritonRows {
  import opened Wrappers
  import opened Arithmetic
  import opened Exponentials
  import opened OnlineSoftmax
  import opened Softmax
  import opened TritonAttention
  import opened FlashDispatch
  import Dense = OrdinaryAttention
  import Paged = PagedAttention

  /** The keys a program loads: below the length, and for causal attention below its last query position. */
  function Prefix(options: Dense.Options, last: int, length: int): int {
    if options.causal && last + 1 < length then last + 1 else length
  }

  function TileCount(prefix: int, tileSize: nat): nat
    requires tileSize > 0
  {
    if prefix <= 0 then 0 else CeilDiv(prefix, tileSize)
  }

  /** The validity the kernel computes; only without a causal mask does it consult what was loaded. */
  predicate KernelShows(options: Dense.Options, position: int, prefix: int, k: int) {
    && (if options.causal then k < position + 1 else k < prefix)
    && match options.slidingWindow
       case None => true
       case Some(window) => position - k < window && (options.causal || position - k > -window)
  }

  predicate PortableShows(options: Dense.Options, position: int, length: int, k: int) {
    k < length && Dense.Visible(options, position, k)
  }

  /**
    A causal query at or past the length sees lanes of the last tile that were never loaded, unless its window has
    moved past the tile.
  */
  predicate Phantoms(options: Dense.Options, position: int, prefix: int, end: int) {
    && options.causal && 0 <= prefix <= position && prefix < end
    && match options.slidingWindow
       case None => true
       case Some(window) => position - end + 1 < window || position < end
  }

  ghost predicate ValidWindow(options: Dense.Options) {
    options.slidingWindow.Some? ==> options.slidingWindow.value > 0
  }

  /** Kernel and portable graph show the same keys exactly if there are no phantoms. */
  lemma ShownExactly(options: Dense.Options, position: int, last: int, length: int, end: int)
    requires ValidWindow(options) && position <= last && 0 <= length
    requires Prefix(options, last, length) <= end
    ensures position < length ==> !Phantoms(options, position, Prefix(options, last, length), end)
    ensures
      var prefix := Prefix(options, last, length);
      (forall k :: 0 <= k < (if length < end then end else length) ==>
        ((k < end && KernelShows(options, position, prefix, k)) <==> PortableShows(options, position, length, k)))
      <==> !Phantoms(options, position, prefix, end)
  {
    var prefix := Prefix(options, last, length);
    if Phantoms(options, position, prefix, end) {
      var k := if position < end then position else end - 1;
      assert KernelShows(options, position, prefix, k) && !PortableShows(options, position, length, k);
    }
  }

  lemma ShownWithin(options: Dense.Options, position: int, last: int, length: int, k: int)
    requires ValidWindow(options) && position <= last && 0 <= k < length
    ensures
      var prefix := Prefix(options, last, length);
      if k < prefix then KernelShows(options, position, prefix, k) <==> Dense.Visible(options, position, k)
      else !Dense.Visible(options, position, k)
  {
  }

  // ----- one row -----

  /** The row's table entries are pages, and the program loads no more than the row holds. */
  ghost predicate Loadable(x: Paged.Inputs, g: Paged.Geometry, lane: Paged.Lane, prefix: int) {
    && Paged.Valid(x, g) && Paged.InRange(x, g, lane) && Paged.Allocated(x, g, lane.b)
    && prefix <= Paged.Limit(x, g, lane.b)
  }

  /** The key a lane works on at logical position `k`: page ids are used as they are, unloaded lanes hold zeros. */
  function KernelKey(x: Paged.Inputs, g: Paged.Geometry, lane: Paged.Lane, prefix: int, k: nat): (key: Key)
    requires Loadable(x, g, lane, prefix)
    ensures |key.value| == g.heads.headDim
  {
    var shown := KernelShows(x.options, x.queryPositions[lane.b][lane.q], prefix, k);
    if k < prefix then
      Paged.HeadBounds(g, lane);
      var page, offset := x.pageTable[lane.b][k / g.pageSize], k % g.pageSize;
      Key(Dense.Dot(x.query[lane.b][lane.q][Paged.HeadOf(g, lane)], x.keyCache[page][offset][lane.kv])
          * x.options.scale, shown, x.valueCache[page][offset][lane.kv])
    else Key(0.0, shown, seq(g.heads.headDim, d => 0.0))
  }

  /** A loaded key is the portable loop's, apart from its visibility. */
  lemma KernelKeyIsPageKey(x: Paged.Inputs, g: Paged.Geometry, lane: Paged.Lane, prefix: int, k: nat)
    requires Loadable(x, g, lane, prefix) && k < prefix
    ensures k / g.pageSize < g.logicalPages
    ensures
      var key := KernelKey(x, g, lane, prefix, k);
      key == Paged.PageKey(x, g, lane, k / g.pageSize, k % g.pageSize).(visible := key.visible)
  {
    QuotientBelow(k, g.pageSize, g.logicalPages);
    Split(k, g.pageSize);
  }

  function KernelRowKeys(x: Paged.Inputs, g: Paged.Geometry, lane: Paged.Lane, prefix: int, end: nat): (keys: seq<Key>)
    requires Loadable(x, g, lane, prefix)
    ensures |keys| == end && Shaped(keys, g.heads.headDim)
  {
    seq(end, k requires 0 <= k < end => KernelKey(x, g, lane, prefix, k))
  }

  /** A key that is hidden, or carries score and value zero. */
  ghost predicate Blank(key: Key) {
    key.visible ==> key.score == 0.0 && forall d :: 0 <= d < |key.value| ==> key.value[d] == 0.0
  }

  function Shown(keys: seq<Key>): nat {
    if keys == [] then 0 else Shown(keys[..|keys| - 1]) + if keys[|keys| - 1].visible then 1 else 0
  }

  lemma {:induction false} BlankTail(exp: real -> real, tail: seq<Key>, headDim: nat, d: nat)
    requires IsExponential(exp) && Shaped(tail, headDim) && d < headDim
    requires forall i :: 0 <= i < |tail| ==> Blank(tail[i])
    ensures Mass(exp, tail, 0.0) == Shown(tail) as real && Moment(exp, tail, 0.0, headDim, d) == 0.0
  {
    if tail != [] {
      var last := tail[|tail| - 1];
      BlankTail(exp, tail[..|tail| - 1], headDim, d);
      Unit(exp, 0.0);
      assert last.visible ==> Weight(exp, last, 0.0) == exp(0.0);
      assert Weight(exp, last, 0.0) * last.value[d] == 0.0 by {
        if last.visible {
          assert last.value[d] == 0.0;
        }
      }
    }
  }

  /** Blank keys that show dilute every component that is not zero already. */
  lemma BlankTailDilutes(exp: real -> real, keys: seq<Key>, tail: seq<Key>, sink: Option<real>, headDim: nat, d: nat)
    requires IsExponential(exp) && Shaped(keys, headDim) && Shaped(tail, headDim) && d < headDim
    requires forall i :: 0 <= i < |tail| ==> Blank(tail[i])
    ensures Shaped(keys + tail, headDim)
    ensures TwoPass(exp, keys + tail, sink, headDim)[d] == TwoPass(exp, keys, sink, headDim)[d]
            <==> Shown(tail) == 0 || TwoPass(exp, keys, sink, headDim)[d] == 0.0
  {
    var before, after := TailRatios(exp, keys, tail, sink, headDim, d);
  }

  /** With and without the tail: the same moment over totals that differ by the keys the tail shows. */
  lemma TailRatios(exp: real -> real, keys: seq<Key>, tail: seq<Key>, sink: Option<real>, headDim: nat, d: nat)
    returns (before: real, after: real)
    requires IsExponential(exp) && Shaped(keys, headDim) && Shaped(tail, headDim) && d < headDim
    requires forall i :: 0 <= i < |tail| ==> Blank(tail[i])
    ensures Shaped(keys + tail, headDim)
    ensures before == TwoPass(exp, keys, sink, headDim)[d] && after == TwoPass(exp, keys + tail, sink, headDim)[d]
    ensures after == before <==> Shown(tail) == 0 || before == 0.0
  {
    var moment, total := Moment(exp, keys, 0.0, headDim, d), Normalizer(exp, keys, sink, 0.0);
    TailTotals(exp, keys, tail, sink, headDim, d);
    TwoPassRatio(exp, keys, sink, headDim, d);
    TwoPassRatio(exp, keys + tail, sink, headDim, d);
    TotalBounds(exp, keys, sink, headDim, d);
    before, after := Ratio(moment, total), Ratio(moment, total + Shown(tail) as real);
    Dilution(moment, total, Shown(tail) as real);
  }

  lemma TailTotals(exp: real -> real, keys: seq<Key>, tail: seq<Key>, sink: Option<real>, headDim: nat, d: nat)
    requires IsExponential(exp) && Shaped(keys, headDim) && Shaped(tail, headDim) && d < headDim
    requires forall i :: 0 <= i < |tail| ==> Blank(tail[i])
    ensures Shaped(keys + tail, headDim)
    ensures Normalizer(exp, keys + tail, sink, 0.0) == Normalizer(exp, keys, sink, 0.0) + Shown(tail) as real
    ensures Moment(exp, keys + tail, 0.0, headDim, d) == Moment(exp, keys, 0.0, headDim, d)
  {
    BlankTail(exp, tail, headDim, d);
    MassAppend(exp, keys, tail, 0.0);
    MomentAppend(exp, keys, tail, 0.0, headDim, d);
  }

  lemma TwoPassRatio(exp: real -> real, keys: seq<Key>, sink: Option<real>, headDim: nat, d: nat)
    requires IsExponential(exp) && Shaped(keys, headDim) && d < headDim
    ensures TwoPass(exp, keys, sink, headDim)[d]
            == Ratio(Moment(exp, keys, 0.0, headDim, d), Normalizer(exp, keys, sink, 0.0))
  {
    TwoPassIsSoftmax(exp, keys, sink, 0.0, headDim, d);
  }

  lemma TotalBounds(exp: real -> real, keys: seq<Key>, sink: Option<real>, headDim: nat, d: nat)
    requires IsExponential(exp) && Shaped(keys, headDim) && d < headDim
    ensures Normalizer(exp, keys, sink, 0.0) >= 0.0
    ensures Normalizer(exp, keys, sink, 0.0) == 0.0 ==> Moment(exp, keys, 0.0, headDim, d) == 0.0
  {
    MassNonnegative(exp, keys, 0.0);
    if Mass(exp, keys, 0.0) == 0.0 {
      NoMass(exp, keys, headDim, d);
    }
  }

  lemma NoMass(exp: real -> real, keys: seq<Key>, headDim: nat, d: nat)
    requires IsExponential(exp) && Shaped(keys, headDim) && d < headDim && Mass(exp, keys, 0.0) == 0.0
    ensures Moment(exp, keys, 0.0, headDim, d) == 0.0
  {
    MassNonnegative(exp, keys, 0.0);
    HiddenIsNothing(exp, keys, 0.0, headDim, d);
  }

  lemma Dilution(moment: real, total: real, extra: real)
    requires total >= 0.0 && extra >= 0.0 && (total == 0.0 ==> moment == 0.0)
    ensures Ratio(moment, total + extra) == Ratio(moment, total) <==> extra == 0.0 || Ratio(moment, total) == 0.0
  {
    if total > 0.0 {
      var before, after := moment / total, moment / (total + extra);
      assert before * total == moment && after * (total + extra) == moment;
      assert after == before ==> before * extra == 0.0;
      assert before == 0.0 ==> moment == 0.0;
    }
  }

  function Ratio(moment: real, total: real): real {
    if total > 0.0 then moment / total else 0.0
  }

  // ----- the row against the portable graph -----

  /** A length that fits the table, allocated pages, and a query position no later than the program's last one. */
  ghost predicate Fits(x: Paged.Inputs, g: Paged.Geometry, lane: Paged.Lane, last: int)
    requires Paged.Valid(x, g) && Paged.InRange(x, g, lane)
  {
    && 0 <= x.lengths[lane.b] == Paged.Limit(x, g, lane.b) && Paged.Allocated(x, g, lane.b)
    && x.queryPositions[lane.b][lane.q] <= last
  }

  /** What the tile loop, or its split form, yields for a lane whose program ends at position `last`. */
  function TritonOutput(
      exp: real -> real, x: Paged.Inputs, g: Paged.Geometry, lane: Paged.Lane, last: int, tileSize: nat): (r: seq<real>)
    requires Paged.Valid(x, g) && Paged.InRange(x, g, lane) && Fits(x, g, lane, last) && tileSize > 0
    ensures |r| == g.heads.headDim
  {
    var prefix := Prefix(x.options, last, x.lengths[lane.b]);
    var row := KernelRowKeys(x, g, lane, prefix, Times(TileCount(prefix, tileSize), tileSize));
    TwoPass(exp, row, Paged.SinkOf(x, g, lane), g.heads.headDim)
  }

  /** The tile loop over the row's tiles, and the split form for any number and content of segment buffers, yield it. */
  lemma TritonComputes(
      exp: real -> real, x: Paged.Inputs, g: Paged.Geometry, lane: Paged.Lane, last: int, tileSize: nat,
      buffers: seq<TileState>)
    requires IsExponential(exp) && Paged.Valid(x, g) && Paged.InRange(x, g, lane) && Fits(x, g, lane, last)
    requires tileSize > 0 && |buffers| > 0 && Wide(buffers, g.heads.headDim)
    ensures |buffers| * tileSize > 0
    ensures
      var prefix := Prefix(x.options, last, x.lengths[lane.b]);
      var count := TileCount(prefix, tileSize);
      var tiles := Tiled(KernelRowKeys(x, g, lane, prefix, Times(count, tileSize)), tileSize, count);
      var sink, headDim := Paged.SinkOf(x, g, lane), g.heads.headDim;
      && ShapedPages(tiles, headDim)
      && Output(AfterTiles(exp, tiles, sink, headDim)) == TritonOutput(exp, x, g, lane, last, tileSize)
      && SplitOutput(exp, tiles, x.lengths[lane.b], tileSize, CeilDiv(x.lengths[lane.b], |buffers| * tileSize),
                     buffers, sink, headDim)
         == TritonOutput(exp, x, g, lane, last, tileSize)
  {
    var length := x.lengths[lane.b];
    var prefix := Prefix(x.options, last, length);
    var count := TileCount(prefix, tileSize);
    var row := KernelRowKeys(x, g, lane, prefix, Times(count, tileSize));
    var sink, headDim := Paged.SinkOf(x, g, lane), g.heads.headDim;
    var tiles := Tiled(row, tileSize, count);
    TiledIsRow(row, tileSize, count);
    TiledShaped(row, tileSize, count, headDim);
    assert row[..Times(count, tileSize)] == row;
    TilesAreDense(exp, tiles, sink, headDim);
    CountFits(prefix, length, tileSize);
    SplitEqualsWhole(exp, tiles, length, tileSize, buffers, sink, headDim);
  }

  lemma CountFits(prefix: int, length: nat, tileSize: nat)
    requires tileSize > 0 && prefix <= length
    ensures TileCount(prefix, tileSize) <= CeilDiv(length, tileSize)
    ensures prefix <= Times(TileCount(prefix, tileSize), tileSize)
  {
    TimesIsProduct(TileCount(prefix, tileSize), tileSize);
    if prefix > 0 {
      Split(length + tileSize - 1, tileSize);
      Split(prefix + tileSize - 1, tileSize);
      CeilingBelow(prefix, tileSize, CeilDiv(length, tileSize));
    }
  }

  /**
    A component of the tile loop's row equals the paged loop's exactly if the row has no phantoms or the
    component is zero anyway.
  */
  lemma ComponentExactly(
      exp: real -> real, x: Paged.Inputs, g: Paged.Geometry, lane: Paged.Lane, last: int, tileSize: nat, d: nat)
    requires IsExponential(exp) && Paged.Valid(x, g) && Paged.InRange(x, g, lane) && Fits(x, g, lane, last)
    requires tileSize > 0 && d < g.heads.headDim
    ensures |Paged.LaneOutput(exp, x, g, lane)| == g.heads.headDim
    ensures TritonOutput(exp, x, g, lane, last, tileSize)[d] == Paged.LaneOutput(exp, x, g, lane)[d]
            <==> !HasPhantoms(x, lane, last, tileSize) || Paged.LaneOutput(exp, x, g, lane)[d] == 0.0
  {
    var length := x.lengths[lane.b];
    var prefix := Prefix(x.options, last, length);
    var loaded: nat := if prefix < 0 then 0 else prefix;
    var end := Times(TileCount(prefix, tileSize), tileSize);
    var row, sink := KernelRowKeys(x, g, lane, prefix, end), Paged.SinkOf(x, g, lane);
    CountFits(prefix, length, tileSize);
    PortableRow(exp, x, g, lane, last, loaded);
    RowSplits(x, g, lane, prefix, loaded, end);
    TailIsBlank(x, g, lane, last, loaded, end);
    BlankTailDilutes(exp, row[..loaded], row[loaded..], sink, g.heads.headDim, d);
    ShownInTail(x, g, lane, last, loaded, end);
  }

  lemma RowSplits(x: Paged.Inputs, g: Paged.Geometry, lane: Paged.Lane, prefix: int, loaded: nat, end: nat)
    requires Loadable(x, g, lane, prefix) && loaded <= end
    ensures
      var row := KernelRowKeys(x, g, lane, prefix, end);
      && row == row[..loaded] + row[loaded..] && row[..loaded] == KernelRowKeys(x, g, lane, prefix, loaded)
      && Shaped(row[..loaded], g.heads.headDim) && Shaped(row[loaded..], g.heads.headDim)
  {
  }

  // ----- for all tensors of a call -----

  /** The row's last tile holds lanes that were not loaded and are shown. */
  predicate HasPhantoms(x: Paged.Inputs, lane: Paged.Lane, last: int, tileSize: nat)
    requires tileSize > 0 && lane.b < |x.lengths| == |x.queryPositions| && lane.q < |x.queryPositions[lane.b]|
  {
    var prefix := Prefix(x.options, last, x.lengths[lane.b]);
    Phantoms(x.options, x.queryPositions[lane.b][lane.q], prefix, Times(TileCount(prefix, tileSize), tileSize))
  }

  /** Some key below the length is visible to the position. */
  ghost predicate SeesKey(options: Dense.Options, position: int, length: int) {
    exists k :: 0 <= k < length && Dense.Visible(options, position, k)
  }

  /** The same table, lengths, positions and options over other queries, caches and sinks. */
  ghost predicate SameCall(x: Paged.Inputs, y: Paged.Inputs, g: Paged.Geometry) {
    && Paged.Valid(y, g) && |y.keyCache| == |x.keyCache|
    && y.pageTable == x.pageTable && y.lengths == x.lengths && y.queryPositions == x.queryPositions
    && y.options == x.options
  }

  lemma SameFits(x: Paged.Inputs, y: Paged.Inputs, g: Paged.Geometry, lane: Paged.Lane, last: int)
    requires Paged.Valid(x, g) && Paged.InRange(x, g, lane) && Fits(x, g, lane, last) && SameCall(x, y, g)
    ensures Paged.InRange(y, g, lane) && Fits(y, g, lane, last)
  {
  }

  ghost predicate RowAgrees(
      exp: real -> real, x: Paged.Inputs, y: Paged.Inputs, g: Paged.Geometry, lane: Paged.Lane, last: int,
      tileSize: nat)
    requires Paged.Valid(x, g) && Paged.InRange(x, g, lane) && Fits(x, g, lane, last) && tileSize > 0
  {
    SameCall(x, y, g) ==> (
      SameFits(x, y, g, lane, last);
      TritonOutput(exp, y, g, lane, last, tileSize) == Paged.LaneOutput(exp, y, g, lane))
  }

  /**
    On one table, with given lengths, positions and options, the tile loop gives the paged loop's row for all queries,
    caches and sinks exactly if the row has no phantoms or sees no key.
  */
  lemma TritonExactly(
      exp: real -> real, x: Paged.Inputs, g: Paged.Geometry, lane: Paged.Lane, last: int, tileSize: nat)
    requires IsExponential(exp) && Paged.Valid(x, g) && Paged.InRange(x, g, lane) && Fits(x, g, lane, last)
    requires tileSize > 0 && g.heads.headDim > 0
    ensures
      (forall y: Paged.Inputs :: RowAgrees(exp, x, y, g, lane, last, tileSize))
      <==> !HasPhantoms(x, lane, last, tileSize)
           || !SeesKey(x.options, x.queryPositions[lane.b][lane.q], x.lengths[lane.b])
  {
    if HasPhantoms(x, lane, last, tileSize) && SeesKey(x.options, x.queryPositions[lane.b][lane.q], x.lengths[lane.b]) {
      var y := Uniform(x, g);
      UniformIsValid(x, g);
      SameFits(x, y, g, lane, last);
      UniformPortable(exp, x, g, lane, 0);
      ComponentExactly(exp, y, g, lane, last, tileSize, 0);
      assert !RowAgrees(exp, x, y, g, lane, last, tileSize);
    } else {
      forall y: Paged.Inputs ensures RowAgrees(exp, x, y, g, lane, last, tileSize) {
        if SameCall(x, y, g) {
          SameFits(x, y, g, lane, last);
          RowIsPortable(exp, y, g, lane, last, tileSize);
        }
      }
    }
  }

  lemma RowIsPortable(
      exp: real -> real, x: Paged.Inputs, g: Paged.Geometry, lane: Paged.Lane, last: int, tileSize: nat)
    requires IsExponential(exp) && Paged.Valid(x, g) && Paged.InRange(x, g, lane) && Fits(x, g, lane, last)
    requires tileSize > 0
    requires !HasPhantoms(x, lane, last, tileSize)
             || !SeesKey(x.options, x.queryPositions[lane.b][lane.q], x.lengths[lane.b])
    ensures TritonOutput(exp, x, g, lane, last, tileSize) == Paged.LaneOutput(exp, x, g, lane)
  {
    var kernel, portable := TritonOutput(exp, x, g, lane, last, tileSize), Paged.LaneOutput(exp, x, g, lane);
    forall d | 0 <= d < g.heads.headDim ensures |portable| == |kernel| && kernel[d] == portable[d] {
      ComponentExactly(exp, x, g, lane, last, tileSize, d);
      if !SeesKey(x.options, x.queryPositions[lane.b][lane.q], x.lengths[lane.b]) {
        BlindIsZero(exp, x, g, lane, d);
      }
    }
    Paged.LoopResult(exp, x, g, lane);
  }

  /** A row that sees no key is zero. */
  lemma BlindIsZero(exp: real -> real, x: Paged.Inputs, g: Paged.Geometry, lane: Paged.Lane, d: nat)
    requires IsExponential(exp) && Paged.Valid(x, g) && Paged.InRange(x, g, lane) && d < g.heads.headDim
    requires x.lengths[lane.b] == Paged.Limit(x, g, lane.b)
    requires !SeesKey(x.options, x.queryPositions[lane.b][lane.q], x.lengths[lane.b])
    ensures |Paged.LaneOutput(exp, x, g, lane)| == g.heads.headDim && Paged.LaneOutput(exp, x, g, lane)[d] == 0.0
  {
    Paged.LoopResult(exp, x, g, lane);
    var n := Paged.Limit(x, g, lane.b);
    var keys := Dense.RowKeys(Paged.DenseRow(x, g, lane.b), g.heads, n, 0, lane.q, Paged.HeadOf(g, lane));
    HiddenIsNothing(exp, keys, 0.0, g.heads.headDim, d);
    TwoPassRatio(exp, keys, Dense.SinkOf(x.sinks, Paged.HeadOf(g, lane)), g.heads.headDim, d);
  }

  // ----- zero scores and values of one -----

  function Filled(rows: nat, heads: nat, headDim: nat, value: real): (t: Dense.Tensor3)
    ensures |t| == rows
    ensures forall i :: 0 <= i < rows ==> |t[i]| == heads && forall h :: 0 <= h < heads ==>
      |t[i][h]| == headDim && forall d :: 0 <= d < headDim ==> t[i][h][d] == value
  {
    seq(rows, i => seq(heads, h => seq(headDim, d => value)))
  }

  /** The call over zero queries and keys, values of one and no sinks. */
  function Uniform(x: Paged.Inputs, g: Paged.Geometry): Paged.Inputs {
    var heads := g.heads;
    Paged.Inputs(seq(|x.query|, b => Filled(heads.queryLength, heads.queryHeads, heads.headDim, 0.0)),
      seq(|x.keyCache|, p => Filled(g.pageSize, heads.kvHeads, heads.headDim, 0.0)),
      seq(|x.keyCache|, p => Filled(g.pageSize, heads.kvHeads, heads.headDim, 1.0)),
      x.pageTable, x.lengths, x.queryPositions, None, x.options)
  }

  lemma UniformIsValid(x: Paged.Inputs, g: Paged.Geometry)
    requires Paged.Valid(x, g)
    ensures SameCall(x, Uniform(x, g), g)
  {
  }

  /** Score zero and value one at component `d`. */
  ghost predicate Flat(keys: seq<Key>, d: nat) {
    forall i :: 0 <= i < |keys| ==> keys[i].score == 0.0 && d < |keys[i].value| && keys[i].value[d] == 1.0
  }

  lemma {:induction false} FlatTotals(exp: real -> real, keys: seq<Key>, headDim: nat, d: nat)
    requires IsExponential(exp) && Shaped(keys, headDim) && d < headDim && Flat(keys, d)
    ensures Mass(exp, keys, 0.0) == Moment(exp, keys, 0.0, headDim, d) == Shown(keys) as real
  {
    if keys != [] {
      var last := keys[|keys| - 1];
      FlatTotals(exp, keys[..|keys| - 1], headDim, d);
      Unit(exp, 0.0);
      assert last.visible ==> Weight(exp, last, 0.0) == exp(0.0);
    }
  }

  /** The portable row of a uniform call averages ones. */
  lemma UniformPortable(exp: real -> real, x: Paged.Inputs, g: Paged.Geometry, lane: Paged.Lane, d: nat)
    requires IsExponential(exp) && Paged.Valid(x, g) && Paged.InRange(x, g, lane) && d < g.heads.headDim
    requires x.lengths[lane.b] == Paged.Limit(x, g, lane.b)
    requires SeesKey(x.options, x.queryPositions[lane.b][lane.q], x.lengths[lane.b])
    ensures Paged.Valid(Uniform(x, g), g) && Paged.InRange(Uniform(x, g), g, lane)
    ensures |Paged.LaneOutput(exp, Uniform(x, g), g, lane)| == g.heads.headDim
    ensures Paged.LaneOutput(exp, Uniform(x, g), g, lane)[d] == 1.0
  {
    var y, n := Uniform(x, g), Paged.Limit(x, g, lane.b);
    UniformIsValid(x, g);
    Paged.LoopResult(exp, y, g, lane);
    var keys := Dense.RowKeys(Paged.DenseRow(y, g, lane.b), g.heads, n, 0, lane.q, Paged.HeadOf(g, lane));
    forall k: nat | k < n
      ensures keys[k].score == 0.0 && keys[k].value[d] == 1.0
      ensures keys[k].visible == Dense.Visible(x.options, x.queryPositions[lane.b][lane.q], k)
    {
      UniformKey(x, g, lane, d, k);
    }
    var k :| 0 <= k < n && Dense.Visible(x.options, x.queryPositions[lane.b][lane.q], k);
    FlatIsOne(exp, keys, g.heads.headDim, d, k);
  }

  lemma FlatIsOne(exp: real -> real, keys: seq<Key>, headDim: nat, d: nat, k: nat)
    requires IsExponential(exp) && Shaped(keys, headDim) && d < headDim && Flat(keys, d)
    requires k < |keys| && keys[k].visible
    ensures TwoPass(exp, keys, None, headDim)[d] == 1.0
  {
    NoneShown(keys);
    FlatTotals(exp, keys, headDim, d);
    TwoPassRatio(exp, keys, None, headDim, d);
    SelfRatio(Moment(exp, keys, 0.0, headDim, d));
  }

  lemma SelfRatio(total: real)
    requires total > 0.0
    ensures Ratio(total, total) == 1.0
  {
  }

  lemma UniformKey(x: Paged.Inputs, g: Paged.Geometry, lane: Paged.Lane, d: nat, k: nat)
    requires Paged.Valid(x, g) && Paged.InRange(x, g, lane) && d < g.heads.headDim && k < Paged.Limit(x, g, lane.b)
    ensures Paged.Valid(Uniform(x, g), g) && Paged.InRange(Uniform(x, g), g, lane)
    ensures Paged.Limit(Uniform(x, g), g, lane.b) == Paged.Limit(x, g, lane.b)
    ensures Paged.HeadOf(g, lane) < g.heads.queryHeads
    ensures
      var row := Paged.DenseRow(Uniform(x, g), g, lane.b);
      var key := Dense.RowKeys(row, g.heads, Paged.Limit(x, g, lane.b), 0, lane.q, Paged.HeadOf(g, lane))[k];
      && key.score == 0.0 && key.value[d] == 1.0
      && key.visible == Dense.Visible(x.options, x.queryPositions[lane.b][lane.q], k)
  {
    var y := Uniform(x, g);
    UniformIsValid(x, g);
    Paged.HeadBounds(g, lane);
    var row, head := Paged.DenseRow(y, g, lane.b), Paged.HeadOf(g, lane);
    Dense.HeadInRange(g.heads, head);
    QuotientBelow(k, g.pageSize, g.logicalPages);
    Dense.DotZero(row.query[0][lane.q][head], row.key[0][k][head / (g.heads.queryHeads / g.heads.kvHeads)]);
  }

  // ----- a phantom -----

  /** One page of sixteen positions, one key, one causal query just past it; a uniform call. */
  function Lone(): Paged.Inputs {
    Paged.Inputs([Filled(1, 1, 16, 0.0)], [Filled(16, 1, 16, 0.0)], [Filled(16, 1, 16, 1.0)], [[0]], [1], [[1]], None,
      Dense.Options(true, None, 1.0))
  }

  const LONE: Paged.Geometry := Paged.Geometry(Dense.Geometry(1, 1, 1, 16), 16, 1)

  lemma LoneFits()
    ensures Paged.Valid(Lone(), LONE) && Paged.InRange(Lone(), LONE, Paged.Lane(0, 0, 0, 0))
    ensures Fits(Lone(), LONE, Paged.Lane(0, 0, 0, 0), 1)
    ensures Prefix(Lone().options, 1, 1) == 1 && Times(TileCount(1, 16), 16) == 16
  {
    assert Times(1, 16) == Times(0, 16) + 16;
  }

  /** The portable row is one in every component; the tile loop averages it with one unloaded lane. */
  lemma PhantomWitness(exp: real -> real, d: nat)
    requires IsExponential(exp) && d < 16
    ensures Paged.Valid(Lone(), LONE) && Paged.InRange(Lone(), LONE, Paged.Lane(0, 0, 0, 0))
    ensures Fits(Lone(), LONE, Paged.Lane(0, 0, 0, 0), 1)
    ensures TritonOutput(exp, Lone(), LONE, Paged.Lane(0, 0, 0, 0), 1, 16)[d] == 0.5
    ensures |Paged.LaneOutput(exp, Lone(), LONE, Paged.Lane(0, 0, 0, 0))| == 16
    ensures Paged.LaneOutput(exp, Lone(), LONE, Paged.Lane(0, 0, 0, 0))[d] == 1.0
  {
    LoneFits();
    var x, lane := Lone(), Paged.Lane(0, 0, 0, 0);
    var row := KernelRowKeys(x, LONE, lane, 1, 16);
    PortableRow(exp, x, LONE, lane, 1, 1);
    assert row[..1] == KernelRowKeys(x, LONE, lane, 1, 1);
    LoneKeys(row);
    LoneOutputs(exp, row[..1], row[1..], d);
    assert row == row[..1] + row[1..];
  }

  lemma LoneKeys(row: seq<Key>)
    requires
      Paged.Valid(Lone(), LONE) && Paged.InRange(Lone(), LONE, Paged.Lane(0, 0, 0, 0))
      && Fits(Lone(), LONE, Paged.Lane(0, 0, 0, 0), 1)
    requires row == KernelRowKeys(Lone(), LONE, Paged.Lane(0, 0, 0, 0), 1, 16)
    ensures Shaped(row, 16) && |row| == 16 && row[0].visible && row[1].visible
    ensures row[0].score == 0.0 && forall d :: 0 <= d < 16 ==> row[0].value[d] == 1.0
    ensures forall i :: 1 <= i < 16 ==> Blank(row[i]) && (row[i].visible <==> i == 1)
  {
    Dense.DotZero(Lone().query[0][0][0], Lone().keyCache[0][0][0]);
  }

  lemma LoneOutputs(exp: real -> real, first: seq<Key>, tail: seq<Key>, d: nat)
    requires IsExponential(exp) && Shaped(first, 16) && Shaped(tail, 16) && d < 16 && |first| == 1 && |tail| == 15
    requires first[0].visible && Flat(first, d) && tail[0].visible && AllHidden(tail[1..])
    requires forall i :: 0 <= i < |tail| ==> Blank(tail[i])
    ensures TwoPass(exp, first, None, 16)[d] == 1.0
    ensures Shaped(first + tail, 16) && TwoPass(exp, first + tail, None, 16)[d] == 0.5
  {
    FlatTotals(exp, first, 16, d);
    assert first[..0] == [] && Shown(first) == 1;
    OneShown(tail);
    TailTotals(exp, first, tail, None, 16, d);
    TwoPassRatio(exp, first, None, 16, d);
    TwoPassRatio(exp, first + tail, None, 16, d);
  }

  lemma {:induction false} OneShown(keys: seq<Key>)
    requires |keys| > 0 && keys[0].visible && AllHidden(keys[1..])
    ensures Shown(keys) == 1
  {
    var front := keys[..|keys| - 1];
    if front == [] {
      assert Shown(front) == 0;
    } else {
      assert forall i :: 1 <= i < |keys| ==> keys[i] == keys[1..][i - 1];
      OneShown(front);
    }
  }

  /** The portable row is the loaded part of the kernel's, followed by hidden keys. */
  lemma PortableRow(exp: real -> real, x: Paged.Inputs, g: Paged.Geometry, lane: Paged.Lane, last: int, loaded: nat)
    requires IsExponential(exp) && Paged.Valid(x, g) && Paged.InRange(x, g, lane) && Fits(x, g, lane, last)
    requires var prefix := Prefix(x.options, last, x.lengths[lane.b]); loaded == if prefix < 0 then 0 else prefix
    ensures
      Paged.LaneOutput(exp, x, g, lane)
      == TwoPass(exp, KernelRowKeys(x, g, lane, Prefix(x.options, last, x.lengths[lane.b]), loaded),
                 Paged.SinkOf(x, g, lane), g.heads.headDim)
  {
    Paged.LoopResult(exp, x, g, lane);
    var n := Paged.Limit(x, g, lane.b);
    var keys := Dense.RowKeys(Paged.DenseRow(x, g, lane.b), g.heads, n, 0, lane.q, Paged.HeadOf(g, lane));
    var row := KernelRowKeys(x, g, lane, Prefix(x.options, last, n), loaded);
    forall k: nat | k < n ensures if k < loaded then keys[k] == row[k] else !keys[k].visible {
      PortableKey(x, g, lane, last, k);
    }
    assert keys[..loaded] == row;
    assert keys == row + keys[loaded..];
    HiddenTail(exp, row, keys[loaded..], Paged.SinkOf(x, g, lane), g.heads.headDim);
  }

  lemma PortableKey(x: Paged.Inputs, g: Paged.Geometry, lane: Paged.Lane, last: int, k: nat)
    requires Paged.Valid(x, g) && Paged.InRange(x, g, lane) && Fits(x, g, lane, last) && k < Paged.Limit(x, g, lane.b)
    ensures Paged.HeadOf(g, lane) < g.heads.queryHeads
    ensures
      var n := Paged.Limit(x, g, lane.b);
      var prefix := Prefix(x.options, last, n);
      var key := Dense.RowKeys(Paged.DenseRow(x, g, lane.b), g.heads, n, 0, lane.q, Paged.HeadOf(g, lane))[k];
      if k < prefix then key == KernelKey(x, g, lane, prefix, k) else !key.visible
  {
    Paged.PageKeyIsDenseKey(x, g, lane, k);
    if k < Prefix(x.options, last, x.lengths[lane.b]) {
      KernelKeyIsPageKey(x, g, lane, Prefix(x.options, last, x.lengths[lane.b]), k);
    }
    ShownWithin(x.options, x.queryPositions[lane.b][lane.q], last, x.lengths[lane.b], k);
  }

  lemma HiddenTail(exp: real -> real, keys: seq<Key>, hidden: seq<Key>, sink: Option<real>, headDim: nat)
    requires IsExponential(exp) && Shaped(keys, headDim) && Shaped(hidden, headDim) && AllHidden(hidden)
    ensures Shaped(keys + hidden, headDim)
    ensures TwoPass(exp, keys + hidden, sink, headDim) == TwoPass(exp, keys, sink, headDim)
  {
    var long, short := TwoPass(exp, keys + hidden, sink, headDim), TwoPass(exp, keys, sink, headDim);
    forall d | 0 <= d < headDim ensures long[d] == short[d] {
      HiddenSuffix(exp, keys, hidden, 0.0, headDim, d);
      TwoPassRatio(exp, keys + hidden, sink, headDim, d);
      TwoPassRatio(exp, keys, sink, headDim, d);
    }
  }

  lemma TailIsBlank(x: Paged.Inputs, g: Paged.Geometry, lane: Paged.Lane, last: int, loaded: nat, end: nat)
    requires Paged.Valid(x, g) && Paged.InRange(x, g, lane) && Fits(x, g, lane, last) && loaded <= end
    requires var prefix := Prefix(x.options, last, x.lengths[lane.b]); loaded == if prefix < 0 then 0 else prefix
    ensures var tail := KernelRowKeys(x, g, lane, Prefix(x.options, last, x.lengths[lane.b]), end)[loaded..];
            forall i :: 0 <= i < |tail| ==> Blank(tail[i])
  {
  }

  lemma ShownInTail(x: Paged.Inputs, g: Paged.Geometry, lane: Paged.Lane, last: int, loaded: nat, end: nat)
    requires Paged.Valid(x, g) && Paged.InRange(x, g, lane) && Fits(x, g, lane, last) && loaded <= end
    requires var prefix := Prefix(x.options, last, x.lengths[lane.b]); loaded == if prefix < 0 then 0 else prefix
    requires Prefix(x.options, last, x.lengths[lane.b]) <= 0 ==> end == 0
    ensures
      var prefix := Prefix(x.options, last, x.lengths[lane.b]);
      Shown(KernelRowKeys(x, g, lane, prefix, end)[loaded..]) == 0
      <==> !Phantoms(x.options, x.queryPositions[lane.b][lane.q], prefix, end)
  {
    var position := x.queryPositions[lane.b][lane.q];
    var prefix := Prefix(x.options, last, x.lengths[lane.b]);
    var tail := KernelRowKeys(x, g, lane, prefix, end)[loaded..];
    NoneShown(tail);
    assert forall i :: 0 <= i < |tail| ==> (tail[i].visible <==> KernelShows(x.options, position, prefix, loaded + i));
    if Phantoms(x.options, position, prefix, end) {
      var k := if position < end then position else end - 1;
      assert tail[k - loaded].visible;
    }
  }

  lemma {:induction false} NoneShown(keys: seq<Key>)
    ensures Shown(keys) == 0 <==> AllHidden(keys)
  {
    if keys != [] {
      NoneShown(keys[..|keys| - 1]);
    }
  }
}
