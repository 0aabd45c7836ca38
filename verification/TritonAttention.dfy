/**
  The tile loop of the accelerated paged attention and the split-K reduction. Maxima start at
  minus infinity, every tile rescales what came before, and the split form merges independent
  segments; both are dense softmax over the keys the tiles show.
*/
module TritonAttention {
  import opened Wrappers
  import opened Arithmetic
  import opened Exponentials
  import opened OnlineSoftmax
  import opened Softmax

  /** `None` is minus infinity. The kernel keeps scores in units of log 2 and uses powers of two. */
  datatype TileState = TileState(maximum: Option<real>, denominator: real, accumulator: seq<real>)

  /** A learned sink is the initial maximum, with its own weight as the initial denominator. */
  function Start(sink: Option<real>, headDim: nat): (state: TileState)
    ensures |state.accumulator| == headDim
  {
    TileState(sink, 1.0, seq(headDim, d => 0.0))
  }

  function Larger(a: Option<real>, b: Option<real>): Option<real> {
    if a.None? then b else if b.None? then a else Some(Max(a.value, b.value))
  }

  /** The maximum of the valid scores of a tile. */
  function RowMaximum(tile: seq<Key>): Option<real> {
    if tile == [] then None
    else
      var last := tile[|tile| - 1];
      Larger(RowMaximum(tile[..|tile| - 1]), if last.visible then Some(MaskedScore(last)) else None)
  }

  /** Zero replaces minus infinity in the arithmetic of one step only. */
  function Reference(maximum: Option<real>): real {
    match maximum case None => 0.0 case Some(m) => m
  }

  function Rescale(exp: real -> real, maximum: Option<real>, reference: real): real {
    match maximum case None => 0.0 case Some(m) => exp(m - reference)
  }

  function FoldTile(exp: real -> real, headDim: nat, state: TileState, tile: seq<Key>): (next: TileState)
    requires Shaped(tile, headDim) && |state.accumulator| == headDim
    ensures |next.accumulator| == headDim
  {
    var maximum := Larger(state.maximum, RowMaximum(tile));
    var reference := Reference(maximum);
    var alpha := Rescale(exp, state.maximum, reference);
    TileState(maximum, Scaled(state.denominator, alpha) + Mass(exp, tile, reference),
      seq(headDim, d requires 0 <= d < headDim =>
        Scaled(state.accumulator[d], alpha) + Moment(exp, tile, reference, headDim, d)))
  }

  function Scaled(value: real, factor: real): real { value * factor }

  // ----- the tile loop -----

  /** What the carried state says about the keys seen so far. */
  ghost predicate Carried(exp: real -> real, keys: seq<Key>, sink: Option<real>, headDim: nat, state: TileState)
    requires Shaped(keys, headDim)
  {
    && |state.accumulator| == headDim
    && match state.maximum
       case None => sink.None? && AllHidden(keys) && forall d :: 0 <= d < headDim ==> state.accumulator[d] == 0.0
       case Some(m) =>
         && state.denominator == Normalizer(exp, keys, sink, m)
         && forall d :: 0 <= d < headDim ==> state.accumulator[d] == Moment(exp, keys, m, headDim, d)
  }

  ghost predicate AllHidden(keys: seq<Key>) {
    forall i :: 0 <= i < |keys| ==> !keys[i].visible
  }

  lemma {:induction false} HiddenIsNothing(exp: real -> real, keys: seq<Key>, m: real, headDim: nat, d: nat)
    requires Shaped(keys, headDim) && d < headDim && AllHidden(keys)
    ensures Mass(exp, keys, m) == 0.0 && Moment(exp, keys, m, headDim, d) == 0.0
  {
    if keys != [] {
      HiddenIsNothing(exp, keys[..|keys| - 1], m, headDim, d);
    }
  }

  lemma {:induction false} HiddenMass(exp: real -> real, keys: seq<Key>, m: real)
    requires AllHidden(keys)
    ensures Mass(exp, keys, m) == 0.0
  {
    if keys != [] {
      HiddenMass(exp, keys[..|keys| - 1], m);
    }
  }

  lemma {:induction false} NoMaximumIsHidden(tile: seq<Key>)
    ensures RowMaximum(tile).None? <==> AllHidden(tile)
  {
    if tile != [] {
      NoMaximumIsHidden(tile[..|tile| - 1]);
    }
  }

  /** Rescaling a carried sum or accumulator moves it to the new reference. */
  lemma CarriedAt(
      exp: real -> real, keys: seq<Key>, sink: Option<real>, headDim: nat, state: TileState, n: real, d: nat)
    requires IsExponential(exp) && Shaped(keys, headDim) && Carried(exp, keys, sink, headDim, state) && d < headDim
    ensures Scaled(state.accumulator[d], Rescale(exp, state.maximum, n)) == Moment(exp, keys, n, headDim, d)
  {
    match state.maximum
    case None => HiddenIsNothing(exp, keys, n, headDim, d);
    case Some(m) => MomentShift(exp, keys, m, n, headDim, d);
  }

  lemma DenominatorAt(exp: real -> real, keys: seq<Key>, sink: Option<real>, headDim: nat, state: TileState, n: real)
    requires IsExponential(exp) && Shaped(keys, headDim) && Carried(exp, keys, sink, headDim, state)
    ensures Scaled(state.denominator, Rescale(exp, state.maximum, n)) == Normalizer(exp, keys, sink, n)
  {
    match state.maximum
    case None => HiddenMass(exp, keys, n);
    case Some(m) => NormalizerShift(exp, keys, sink, m, n);
  }

  /** One tile extends what is carried by that tile. */
  lemma FoldCarried(
      exp: real -> real, keys: seq<Key>, sink: Option<real>, headDim: nat, state: TileState, tile: seq<Key>)
    requires IsExponential(exp) && Shaped(keys, headDim) && Shaped(tile, headDim)
    requires Carried(exp, keys, sink, headDim, state)
    ensures Shaped(keys + tile, headDim)
    ensures Carried(exp, keys + tile, sink, headDim, FoldTile(exp, headDim, state, tile))
  {
    var next := FoldTile(exp, headDim, state, tile);
    var n := Reference(next.maximum);
    NoMaximumIsHidden(tile);
    DenominatorAt(exp, keys, sink, headDim, state, n);
    MassAppend(exp, keys, tile, n);
    forall d | 0 <= d < headDim ensures next.accumulator[d] == Moment(exp, keys + tile, n, headDim, d) {
      CarriedAt(exp, keys, sink, headDim, state, n, d);
      MomentAppend(exp, keys, tile, n, headDim, d);
    }
    if next.maximum.None? {
      forall d | 0 <= d < headDim ensures next.accumulator[d] == 0.0 {
        HiddenIsNothing(exp, keys + tile, n, headDim, d);
      }
    }
  }

  function AfterTiles(exp: real -> real, tiles: seq<seq<Key>>, sink: Option<real>, headDim: nat): (state: TileState)
    requires ShapedPages(tiles, headDim)
    ensures |state.accumulator| == headDim
  {
    if tiles == [] then Start(sink, headDim)
    else FoldTile(exp, headDim, AfterTiles(exp, tiles[..|tiles| - 1], sink, headDim), tiles[|tiles| - 1])
  }

  /** All keys of a list of tiles, in order. */
  function Joined(tiles: seq<seq<Key>>): seq<Key> {
    if tiles == [] then [] else Joined(tiles[..|tiles| - 1]) + tiles[|tiles| - 1]
  }

  lemma {:induction false} JoinedShaped(tiles: seq<seq<Key>>, headDim: nat)
    requires ShapedPages(tiles, headDim)
    ensures Shaped(Joined(tiles), headDim)
  {
    if tiles != [] {
      JoinedShaped(tiles[..|tiles| - 1], headDim);
    }
  }

  lemma StartCarried(exp: real -> real, sink: Option<real>, headDim: nat)
    requires IsExponential(exp)
    ensures Carried(exp, [], sink, headDim, Start(sink, headDim))
  {
    if sink.Some? {
      Unit(exp, sink.value - sink.value);
    }
  }

  lemma {:induction false} TilesCarried(exp: real -> real, tiles: seq<seq<Key>>, sink: Option<real>, headDim: nat)
    requires IsExponential(exp) && ShapedPages(tiles, headDim)
    ensures Shaped(Joined(tiles), headDim)
    ensures Carried(exp, Joined(tiles), sink, headDim, AfterTiles(exp, tiles, sink, headDim))
  {
    JoinedShaped(tiles, headDim);
    if tiles == [] {
      StartCarried(exp, sink, headDim);
    } else {
      var front := tiles[..|tiles| - 1];
      TilesCarried(exp, front, sink, headDim);
      FoldCarried(exp, Joined(front), sink, headDim, AfterTiles(exp, front, sink, headDim), tiles[|tiles| - 1]);
    }
  }

  /** The guarded division. */
  function Quotient(value: real, total: real): real {
    if total == 0.0 then 0.0 else value / total
  }

  function Output(state: TileState): (r: seq<real>)
    ensures |r| == |state.accumulator|
  {
    seq(|state.accumulator|,
      d requires 0 <= d < |state.accumulator| => Quotient(state.accumulator[d], state.denominator))
  }

  lemma QuotientIsSoftmax(exp: real -> real, keys: seq<Key>, sink: Option<real>, m: real, headDim: nat, d: nat)
    requires IsExponential(exp) && Shaped(keys, headDim) && d < headDim
    ensures Quotient(Moment(exp, keys, m, headDim, d), Normalizer(exp, keys, sink, m))
            == TwoPass(exp, keys, sink, headDim)[d]
  {
    MassNonnegative(exp, keys, m);
    TwoPassIsSoftmax(exp, keys, sink, m, headDim, d);
  }

  /** The tile loop and its division give dense softmax over all keys of the tiles, for any tiling. */
  lemma TilesAreDense(exp: real -> real, tiles: seq<seq<Key>>, sink: Option<real>, headDim: nat)
    requires IsExponential(exp) && ShapedPages(tiles, headDim)
    ensures Shaped(Joined(tiles), headDim)
    ensures Output(AfterTiles(exp, tiles, sink, headDim)) == TwoPass(exp, Joined(tiles), sink, headDim)
  {
    var state, keys := AfterTiles(exp, tiles, sink, headDim), Joined(tiles);
    TilesCarried(exp, tiles, sink, headDim);
    forall d | 0 <= d < headDim ensures Output(state)[d] == TwoPass(exp, keys, sink, headDim)[d] {
      StateIsDense(exp, keys, sink, headDim, state, d);
    }
  }

  lemma StateIsDense(exp: real -> real, keys: seq<Key>, sink: Option<real>, headDim: nat, state: TileState, d: nat)
    requires IsExponential(exp) && Shaped(keys, headDim) && Carried(exp, keys, sink, headDim, state) && d < headDim
    ensures Quotient(state.accumulator[d], state.denominator) == TwoPass(exp, keys, sink, headDim)[d]
  {
    match state.maximum
    case None =>
      QuotientIsSoftmax(exp, keys, sink, 0.0, headDim, d);
      HiddenIsNothing(exp, keys, 0.0, headDim, d);
    case Some(m) => QuotientIsSoftmax(exp, keys, sink, m, headDim, d);
  }

  /** The emitted loop over the tiles of one row, and its guarded division. */
  method TileLoop(exp: real -> real, tiles: seq<seq<Key>>, sink: Option<real>, headDim: nat) returns (output: seq<real>)
    requires IsExponential(exp) && ShapedPages(tiles, headDim)
    ensures Shaped(Joined(tiles), headDim) && output == TwoPass(exp, Joined(tiles), sink, headDim)
  {
    var state := Start(sink, headDim);
    for n := 0 to |tiles|
      invariant state == AfterTiles(exp, tiles[..n], sink, headDim)
    {
      assert tiles[..n + 1][..n] == tiles[..n];
      state := FoldTile(exp, headDim, state, tiles[n]);
    }
    assert tiles[..|tiles|] == tiles;
    TilesAreDense(exp, tiles, sink, headDim);
    output := Output(state);
  }

  /** The first `n` tiles of a row. */
  function Tiled(row: seq<Key>, tileSize: nat, n: nat): (tiles: seq<seq<Key>>)
    requires Times(n, tileSize) <= |row|
    ensures |tiles| == n
  {
    if n == 0 then []
    else Tiled(row, tileSize, n - 1) + [row[Times(n - 1, tileSize)..Times(n, tileSize)]]
  }

  lemma {:induction false} TiledIsRow(row: seq<Key>, tileSize: nat, n: nat)
    requires Times(n, tileSize) <= |row|
    ensures Joined(Tiled(row, tileSize, n)) == row[..Times(n, tileSize)]
  {
    if n > 0 {
      var from, to := Times(n - 1, tileSize), Times(n, tileSize);
      TiledIsRow(row, tileSize, n - 1);
      JoinedPush(Tiled(row, tileSize, n - 1), row[from..to]);
      SlicesMeet(row, from, to);
    }
  }

  lemma SlicesMeet<T>(s: seq<T>, from: nat, to: nat)
    requires from <= to <= |s|
    ensures s[..from] + s[from..to] == s[..to]
  {
  }

  lemma {:induction false} TiledShaped(row: seq<Key>, tileSize: nat, n: nat, headDim: nat)
    requires Times(n, tileSize) <= |row| && Shaped(row, headDim)
    ensures ShapedPages(Tiled(row, tileSize, n), headDim)
  {
    if n > 0 {
      TiledShaped(row, tileSize, n - 1, headDim);
      SliceShaped(row, Times(n - 1, tileSize), Times(n, tileSize), headDim);
    }
  }

  lemma SliceShaped(row: seq<Key>, from: nat, to: nat, headDim: nat)
    requires from <= to <= |row| && Shaped(row, headDim)
    ensures Shaped(row[from..to], headDim)
  {
  }

  lemma JoinedPush(front: seq<seq<Key>>, tile: seq<Key>)
    ensures Joined(front + [tile]) == Joined(front) + tile
  {
    assert (front + [tile])[..|front|] == front;
  }

  // ----- merging segments -----

  function LargestMaximum(states: seq<TileState>): Option<real> {
    if states == [] then None else Larger(LargestMaximum(states[..|states| - 1]), states[|states| - 1].maximum)
  }

  function MergedSum(exp: real -> real, states: seq<TileState>, reference: real): real {
    if states == [] then 0.0
    else
      var last := states[|states| - 1];
      MergedSum(exp, states[..|states| - 1], reference)
      + Scaled(last.denominator, Rescale(exp, last.maximum, reference))
  }

  function MergedValue(exp: real -> real, states: seq<TileState>, reference: real, headDim: nat, d: nat): real
    requires d < headDim && forall i :: 0 <= i < |states| ==> |states[i].accumulator| == headDim
  {
    if states == [] then 0.0
    else
      var last := states[|states| - 1];
      MergedValue(exp, states[..|states| - 1], reference, headDim, d)
      + Scaled(last.accumulator[d], Rescale(exp, last.maximum, reference))
  }

  /** The segment reduction: one common maximum, rescaled sums and values, the sink once. */
  function Reduce(exp: real -> real, states: seq<TileState>, sink: Option<real>, headDim: nat): (r: seq<real>)
    requires forall i :: 0 <= i < |states| ==> |states[i].accumulator| == headDim
    ensures |r| == headDim
  {
    var reference := Reference(Larger(LargestMaximum(states), sink));
    var total := MergedSum(exp, states, reference) + SinkMass(exp, sink, reference);
    seq(headDim, d requires 0 <= d < headDim => Quotient(MergedValue(exp, states, reference, headDim, d), total))
  }

  /** What each segment carries over its own tiles; producers never see the sink. */
  ghost predicate Segments(exp: real -> real, segments: seq<seq<seq<Key>>>, headDim: nat, states: seq<TileState>) {
    && |states| == |segments|
    && forall i :: 0 <= i < |segments| ==>
         && ShapedPages(segments[i], headDim) && Shaped(Joined(segments[i]), headDim)
         && Carried(exp, Joined(segments[i]), None, headDim, states[i])
  }

  function AllTiles(segments: seq<seq<seq<Key>>>): seq<seq<Key>> {
    if segments == [] then [] else AllTiles(segments[..|segments| - 1]) + segments[|segments| - 1]
  }

  lemma {:induction false} JoinedAppend(a: seq<seq<Key>>, b: seq<seq<Key>>)
    ensures Joined(a + b) == Joined(a) + Joined(b)
  {
    if b == [] {
      assert a + b == a;
    } else {
      assert (a + b)[..|a + b| - 1] == a + b[..|b| - 1];
      JoinedAppend(a, b[..|b| - 1]);
    }
  }

  lemma {:induction false} MergedSumIsMass(
      exp: real -> real, segments: seq<seq<seq<Key>>>, headDim: nat, states: seq<TileState>, n: real)
    requires IsExponential(exp) && Segments(exp, segments, headDim, states)
    ensures MergedSum(exp, states, n) == Mass(exp, Joined(AllTiles(segments)), n)
  {
    if segments != [] {
      var front, last := segments[..|segments| - 1], segments[|segments| - 1];
      MergedSumIsMass(exp, front, headDim, states[..|states| - 1], n);
      DenominatorAt(exp, Joined(last), None, headDim, states[|states| - 1], n);
      JoinedAppend(AllTiles(front), last);
      MassAppend(exp, Joined(AllTiles(front)), Joined(last), n);
    }
  }

  lemma {:induction false} AllTilesShaped(
      exp: real -> real, segments: seq<seq<seq<Key>>>, headDim: nat, states: seq<TileState>)
    requires Segments(exp, segments, headDim, states)
    ensures ShapedPages(AllTiles(segments), headDim)
    ensures forall i :: 0 <= i < |states| ==> |states[i].accumulator| == headDim
  {
    if segments != [] {
      AllTilesShaped(exp, segments[..|segments| - 1], headDim, states[..|states| - 1]);
    }
  }

  lemma {:induction false} MergedValueIsMoment(
      exp: real -> real, segments: seq<seq<seq<Key>>>, headDim: nat, states: seq<TileState>, n: real, d: nat)
    requires IsExponential(exp) && Segments(exp, segments, headDim, states) && d < headDim
    ensures forall i :: 0 <= i < |states| ==> |states[i].accumulator| == headDim
    ensures Shaped(Joined(AllTiles(segments)), headDim)
    ensures MergedValue(exp, states, n, headDim, d) == Moment(exp, Joined(AllTiles(segments)), n, headDim, d)
  {
    AllTilesShaped(exp, segments, headDim, states);
    JoinedShaped(AllTiles(segments), headDim);
    if segments != [] {
      var front, last := segments[..|segments| - 1], segments[|segments| - 1];
      MergedValueIsMoment(exp, front, headDim, states[..|states| - 1], n, d);
      CarriedAt(exp, Joined(last), None, headDim, states[|states| - 1], n, d);
      JoinedAppend(AllTiles(front), last);
      MomentAppend(exp, Joined(AllTiles(front)), Joined(last), n, headDim, d);
    }
  }

  /** Merging independently computed segments, empty ones included, and the sink once is dense softmax over all keys. */
  lemma ReduceIsDense(
      exp: real -> real, segments: seq<seq<seq<Key>>>, headDim: nat, states: seq<TileState>, sink: Option<real>)
    requires IsExponential(exp) && Segments(exp, segments, headDim, states)
    ensures Shaped(Joined(AllTiles(segments)), headDim)
    ensures forall i :: 0 <= i < |states| ==> |states[i].accumulator| == headDim
    ensures Reduce(exp, states, sink, headDim) == TwoPass(exp, Joined(AllTiles(segments)), sink, headDim)
  {
    AllTilesShaped(exp, segments, headDim, states);
    JoinedShaped(AllTiles(segments), headDim);
    var n, keys := Reference(Larger(LargestMaximum(states), sink)), Joined(AllTiles(segments));
    var merged := Reduce(exp, states, sink, headDim);
    forall d | 0 <= d < headDim ensures merged[d] == TwoPass(exp, keys, sink, headDim)[d] {
      MergedSumIsMass(exp, segments, headDim, states, n);
      MergedValueIsMoment(exp, segments, headDim, states, n, d);
      QuotientIsSoftmax(exp, keys, sink, n, headDim, d);
    }
  }

  // ----- how tiles are dealt to segments -----

  function AtMost(a: nat, limit: nat): (r: nat)
    ensures r <= limit
  {
    if a < limit then a else limit
  }

  /** The tiles of segment `i` when each segment owns `share` tiles. */
  function SegmentTiles(tiles: seq<seq<Key>>, share: nat, i: nat): seq<seq<Key>> {
    var from, to := AtMost(Times(i, share), |tiles|), AtMost(Times(i, share) + share, |tiles|);
    tiles[from..to]
  }

  function Dealt(tiles: seq<seq<Key>>, share: nat, segments: nat): (r: seq<seq<seq<Key>>>)
    ensures |r| == segments
  {
    if segments == 0 then [] else Dealt(tiles, share, segments - 1) + [SegmentTiles(tiles, share, segments - 1)]
  }

  lemma {:induction false} DealtInOrder(tiles: seq<seq<Key>>, share: nat, segments: nat)
    ensures AllTiles(Dealt(tiles, share, segments)) == tiles[..AtMost(Times(segments, share), |tiles|)]
  {
    if segments > 0 {
      DealtInOrder(tiles, share, segments - 1);
      AllTilesPush(Dealt(tiles, share, segments - 1), SegmentTiles(tiles, share, segments - 1));
      var from, to := AtMost(Times(segments - 1, share), |tiles|), AtMost(Times(segments, share), |tiles|);
      SlicesMeet(tiles, from, to);
    }
  }

  lemma AllTilesPush(front: seq<seq<seq<Key>>>, segment: seq<seq<Key>>)
    ensures AllTiles(front + [segment]) == AllTiles(front) + segment
  {
    assert (front + [segment])[..|front|] == front;
  }

  /** The share the kernels compute from the length covers every tile. */
  lemma ShareCovers(length: nat, tileSize: nat, segments: nat, tiles: nat)
    requires tileSize > 0 && segments > 0 && tiles <= CeilDiv(length, tileSize)
    ensures segments * tileSize > 0 && tiles <= Times(segments, CeilDiv(length, segments * tileSize))
  {
    MulMono(1, segments, tileSize);
    var span := segments * tileSize;
    var share := CeilDiv(length, span);
    Split(length + span - 1, span);
    assert share * span >= length;
    assert share * span == (share * segments) * tileSize;
    CeilingBelow(length, tileSize, share * segments);
    TimesIsProduct(segments, share);
  }

  lemma {:induction false} DealtAt(tiles: seq<seq<Key>>, share: nat, segments: nat, i: nat)
    requires i < segments
    ensures Dealt(tiles, share, segments)[i] == SegmentTiles(tiles, share, i)
  {
    if i < segments - 1 {
      DealtAt(tiles, share, segments - 1, i);
    }
  }

  // ----- skipped segments -----

  /** Whether segment `i` has a producer program: one that starts at or past the length has none. */
  predicate Produces(length: nat, tileSize: nat, share: nat, i: nat) {
    (i * share) * tileSize < length
  }

  /** How many segments the reduction reads; an empty sequence divides minus one by one. */
  function ActiveSegments(length: nat, tileSize: nat, share: nat): int {
    var span := share * tileSize;
    TruncatedQuotient(length + span - 1, if span < 1 then 1 else span)
  }

  /** The reduction reads exactly the segments that were produced. */
  lemma MaskIsGuard(length: nat, tileSize: nat, share: nat, i: nat)
    requires tileSize > 0 && (share == 0 ==> length == 0)
    ensures i < ActiveSegments(length, tileSize, share) <==> Produces(length, tileSize, share, i)
  {
    var span := share * tileSize;
    Regroup(i, share, tileSize);
    if share > 0 {
      MulMono(1, share, tileSize);
      ActiveIsCeiling(length, span);
      CeilDivAbove(length, span, i);
    }
  }

  lemma Regroup(a: nat, b: nat, c: nat)
    ensures (a * b) * c == a * (b * c) && (b == 0 ==> b * c == 0 && (a * b) * c == 0)
  {
  }

  lemma ActiveIsCeiling(length: nat, span: nat)
    requires span > 0
    ensures TruncatedQuotient(length + span - 1, span) == CeilDiv(length, span)
  {
  }

  /** Segments without a producer own no tile. */
  lemma SkippedIsEmpty(tiles: seq<seq<Key>>, length: nat, tileSize: nat, share: nat, i: nat)
    requires tileSize > 0 && |tiles| <= CeilDiv(length, tileSize) && !Produces(length, tileSize, share, i)
    ensures SegmentTiles(tiles, share, i) == []
  {
    CeilingBelow(length, tileSize, i * share);
    TimesIsProduct(i, share);
  }

  predicate Wide(states: seq<TileState>, headDim: nat) {
    forall i :: 0 <= i < |states| ==> |states[i].accumulator| == headDim
  }

  /** The segment buffers after the producers ran; the others keep what was there. */
  function Stored(
      exp: real -> real, tiles: seq<seq<Key>>, length: nat, tileSize: nat, share: nat, before: seq<TileState>,
      headDim: nat): (after: seq<TileState>)
    requires ShapedPages(tiles, headDim) && Wide(before, headDim)
    ensures |after| == |before| && Wide(after, headDim)
  {
    seq(|before|, i requires 0 <= i < |before| =>
      if Produces(length, tileSize, share, i) then AfterTiles(exp, SegmentTiles(tiles, share, i), None, headDim)
      else before[i])
  }

  /** What the reduction loads: minus infinity and zeros where its mask is off. */
  function Read(stored: seq<TileState>, active: int, headDim: nat): (states: seq<TileState>)
    requires Wide(stored, headDim)
    ensures |states| == |stored| && Wide(states, headDim)
  {
    seq(|stored|, i requires 0 <= i < |stored| =>
      if i < active then stored[i] else TileState(None, 0.0, seq(headDim, d => 0.0)))
  }

  /** The states the reduction of a split launch works on. */
  function SegmentStates(
      exp: real -> real, tiles: seq<seq<Key>>, length: nat, tileSize: nat, share: nat, before: seq<TileState>,
      headDim: nat): (states: seq<TileState>)
    requires ShapedPages(tiles, headDim) && Wide(before, headDim)
    ensures |states| == |before| && Wide(states, headDim)
  {
    Read(Stored(exp, tiles, length, tileSize, share, before, headDim), ActiveSegments(length, tileSize, share), headDim)
  }

  /** Split execution into `|before|` segments: producers store, the reduction reads what they stored and merges. */
  function SplitOutput(
      exp: real -> real, tiles: seq<seq<Key>>, length: nat, tileSize: nat, share: nat, before: seq<TileState>,
      sink: Option<real>, headDim: nat): seq<real>
    requires ShapedPages(tiles, headDim) && Wide(before, headDim)
  {
    Reduce(exp, SegmentStates(exp, tiles, length, tileSize, share, before, headDim), sink, headDim)
  }

  lemma ShareOfNothing(length: nat, span: nat)
    requires span > 0 && CeilDiv(length, span) == 0
    ensures length == 0
  {
    CeilDivBounds(length, span);
  }

  /** Whatever the buffers held, the reduction reads what each segment carries over its tiles. */
  lemma ReadCarries(
      exp: real -> real, tiles: seq<seq<Key>>, length: nat, tileSize: nat, share: nat, before: seq<TileState>,
      headDim: nat)
    requires IsExponential(exp) && ShapedPages(tiles, headDim) && Wide(before, headDim)
    requires tileSize > 0 && |tiles| <= CeilDiv(length, tileSize) && (share == 0 ==> length == 0)
    ensures Segments(exp, Dealt(tiles, share, |before|), headDim,
                     SegmentStates(exp, tiles, length, tileSize, share, before, headDim))
  {
    var states := SegmentStates(exp, tiles, length, tileSize, share, before, headDim);
    var dealt := Dealt(tiles, share, |before|);
    forall i | 0 <= i < |before|
      ensures ShapedPages(dealt[i], headDim) && Shaped(Joined(dealt[i]), headDim)
      ensures Carried(exp, Joined(dealt[i]), None, headDim, states[i])
    {
      DealtAt(tiles, share, |before|, i);
      TilesCarried(exp, SegmentTiles(tiles, share, i), None, headDim);
      MaskIsGuard(length, tileSize, share, i);
      if !Produces(length, tileSize, share, i) {
        SkippedIsEmpty(tiles, length, tileSize, share, i);
      }
    }
  }

  /** Split-K over the kernels' share equals the single tile loop, for every content of the segment buffers. */
  lemma SplitEqualsWhole(
      exp: real -> real, tiles: seq<seq<Key>>, length: nat, tileSize: nat, before: seq<TileState>,
      sink: Option<real>, headDim: nat)
    requires IsExponential(exp) && ShapedPages(tiles, headDim) && Wide(before, headDim)
    requires tileSize > 0 && |before| > 0 && |tiles| <= CeilDiv(length, tileSize)
    ensures |before| * tileSize > 0
    ensures SplitOutput(exp, tiles, length, tileSize, CeilDiv(length, |before| * tileSize), before, sink, headDim)
            == Output(AfterTiles(exp, tiles, sink, headDim))
  {
    ShareCovers(length, tileSize, |before|, |tiles|);
    var share := CeilDiv(length, |before| * tileSize);
    if share == 0 {
      ShareOfNothing(length, |before| * tileSize);
    }
    SplitIsDense(exp, tiles, length, tileSize, share, before, sink, headDim);
    TilesAreDense(exp, tiles, sink, headDim);
  }

  lemma SplitIsDense(
      exp: real -> real, tiles: seq<seq<Key>>, length: nat, tileSize: nat, share: nat, before: seq<TileState>,
      sink: Option<real>, headDim: nat)
    requires IsExponential(exp) && ShapedPages(tiles, headDim) && Wide(before, headDim)
    requires tileSize > 0 && |tiles| <= CeilDiv(length, tileSize) && (share == 0 ==> length == 0)
    requires |tiles| <= Times(|before|, share)
    ensures Shaped(Joined(tiles), headDim)
    ensures SplitOutput(exp, tiles, length, tileSize, share, before, sink, headDim)
            == TwoPass(exp, Joined(tiles), sink, headDim)
  {
    var dealt := Dealt(tiles, share, |before|);
    ReadCarries(exp, tiles, length, tileSize, share, before, headDim);
    AllDealt(tiles, share, |before|);
    ReduceIsDense(exp, dealt, headDim, SegmentStates(exp, tiles, length, tileSize, share, before, headDim), sink);
  }

  lemma AllDealt(tiles: seq<seq<Key>>, share: nat, segments: nat)
    requires |tiles| <= Times(segments, share)
    ensures AllTiles(Dealt(tiles, share, segments)) == tiles
  {
    DealtInOrder(tiles, share, segments);
  }
}
