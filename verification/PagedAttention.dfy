/**
  Blockwise attention over a paged cache. The loop walks the logical pages of every
  row once, carrying a running maximum, a running sum and an accumulator that are
  rescaled at each page; its result is dense attention over the logical sequence.
*/
module PagedAttention {
  import opened Wrappers
  import opened Arithmetic
  import opened Exponentials
  import opened OnlineSoftmax
  import opened Softmax
  import Dense = OrdinaryAttention

  datatype Inputs = Inputs(
    query: Dense.Tensor4,         // [batch, queryLength, queryHeads, headDim]
    keyCache: Dense.Tensor4,      // [physicalPages, pageSize, kvHeads, headDim]
    valueCache: Dense.Tensor4,
    pageTable: seq<seq<int>>,     // [batch, logicalPages]
    lengths: seq<int>,            // [batch]
    queryPositions: seq<seq<int>>,
    sinks: Option<seq<real>>,
    options: Dense.Options)

  datatype Geometry = Geometry(heads: Dense.Geometry, pageSize: nat, logicalPages: nat)

  /** One query row: batch row, key/value head, group inside that head, query index. */
  datatype Lane = Lane(b: nat, kv: nat, group: nat, q: nat)

  ghost predicate Valid(x: Inputs, g: Geometry) {
    && Dense.HeadGeometry(g.heads, x.sinks, x.options)
    && g.pageSize > 0
    && |x.keyCache| == |x.valueCache| > 0
    && (forall p :: 0 <= p < |x.keyCache| ==>
          && Dense.Rows(x.keyCache[p], g.pageSize, g.heads.kvHeads, g.heads.headDim)
          && Dense.Rows(x.valueCache[p], g.pageSize, g.heads.kvHeads, g.heads.headDim))
    && |x.query| == |x.pageTable| == |x.lengths| == |x.queryPositions|
    && (forall b :: 0 <= b < |x.query| ==>
          && Dense.Rows(x.query[b], g.heads.queryLength, g.heads.queryHeads, g.heads.headDim)
          && |x.pageTable[b]| == g.logicalPages
          && |x.queryPositions[b]| == g.heads.queryLength)
  }

  function Groups(g: Geometry): nat
    requires g.heads.kvHeads > 0
  {
    g.heads.queryHeads / g.heads.kvHeads
  }

  /** Query heads are laid out key/value head first, group second. */
  function HeadOf(g: Geometry, lane: Lane): nat
    requires g.heads.kvHeads > 0
  {
    lane.kv * Groups(g) + lane.group
  }

  ghost predicate InRange(x: Inputs, g: Geometry, lane: Lane)
    requires g.heads.kvHeads > 0
  {
    lane.b < |x.query| && lane.kv < g.heads.kvHeads && lane.group < Groups(g) && lane.q < g.heads.queryLength
  }

  lemma HeadBounds(g: Geometry, lane: Lane)
    requires g.heads.kvHeads > 0 && g.heads.queryHeads % g.heads.kvHeads == 0
    requires lane.kv < g.heads.kvHeads && lane.group < Groups(g)
    ensures HeadOf(g, lane) < g.heads.queryHeads
    ensures HeadOf(g, lane) / Groups(g) == lane.kv
  {
    IndexBelow(lane.kv, lane.group, g.heads.kvHeads, Groups(g));
    QuotientOf(lane.kv, Groups(g), lane.group);
  }

  // ----- gathering -----

  /** The physical page read for logical page `page`: page 0 stands in for an inactive one. */
  function PhysicalPage(x: Inputs, g: Geometry, b: nat, page: nat): (r: nat)
    requires Valid(x, g) && b < |x.query| && page < g.logicalPages
    ensures r < |x.keyCache|
  {
    ClampIndex(if page * g.pageSize < x.lengths[b] then x.pageTable[b][page] else 0, |x.keyCache|)
  }

  /** The key a lane sees at `offset` of logical page `page`. */
  function PageKey(x: Inputs, g: Geometry, lane: Lane, page: nat, offset: nat): (key: Key)
    requires Valid(x, g) && InRange(x, g, lane) && page < g.logicalPages && offset < g.pageSize
    ensures |key.value| == g.heads.headDim
  {
    var physical := PhysicalPage(x, g, lane.b, page);
    var position := page * g.pageSize + offset;
    HeadBounds(g, lane);
    Key(Dense.Dot(x.query[lane.b][lane.q][HeadOf(g, lane)], x.keyCache[physical][offset][lane.kv]) * x.options.scale,
        position < x.lengths[lane.b] && Dense.Visible(x.options, x.queryPositions[lane.b][lane.q], position),
        x.valueCache[physical][offset][lane.kv])
  }

  /** A unit query reads one component of the cached key of its head, times the scale. */
  lemma UnitPageScore(x: Inputs, g: Geometry, lane: Lane, page: nat, offset: nat, i: nat)
    requires Valid(x, g) && InRange(x, g, lane) && page < g.logicalPages && offset < g.pageSize && i < g.heads.headDim
    requires HeadOf(g, lane) < g.heads.queryHeads
    requires forall j :: 0 <= j < g.heads.headDim ==>
      x.query[lane.b][lane.q][HeadOf(g, lane)][j] == if j == i then 1.0 else 0.0
    ensures PageKey(x, g, lane, page, offset).score
            == x.keyCache[PhysicalPage(x, g, lane.b, page)][offset][lane.kv][i] * x.options.scale
  {
    var physical := PhysicalPage(x, g, lane.b, page);
    Dense.DotUnit(x.query[lane.b][lane.q][HeadOf(g, lane)], x.keyCache[physical][offset][lane.kv], i);
  }

  function PageKeys(x: Inputs, g: Geometry, lane: Lane, page: nat): (keys: seq<Key>)
    requires Valid(x, g) && InRange(x, g, lane) && page < g.logicalPages
    ensures |keys| == g.pageSize && Shaped(keys, g.heads.headDim)
  {
    seq(g.pageSize, offset requires 0 <= offset < g.pageSize => PageKey(x, g, lane, page, offset))
  }

  // ----- the loop -----

  function SinkOf(x: Inputs, g: Geometry, lane: Lane): Option<real>
    requires Valid(x, g) && InRange(x, g, lane)
  {
    HeadBounds(g, lane);
    Dense.SinkOf(x.sinks, HeadOf(g, lane))
  }

  /** The pages a lane's loop visits, one per iteration. */
  function LanePages(x: Inputs, g: Geometry, lane: Lane): (pages: seq<seq<Key>>)
    requires Valid(x, g) && InRange(x, g, lane)
    ensures |pages| == g.logicalPages && ShapedPages(pages, g.heads.headDim)
    ensures forall p :: 0 <= p < |pages| ==> |pages[p]| == g.pageSize
  {
    seq(g.logicalPages, page requires 0 <= page < g.logicalPages => PageKeys(x, g, lane, page))
  }

  // ----- the logical sequence -----

  /** How many logical positions of row `b` hold a key. */
  function Limit(x: Inputs, g: Geometry, b: nat): (n: nat)
    requires Valid(x, g) && b < |x.query|
    ensures n <= g.logicalPages * g.pageSize
  {
    var capacity := g.logicalPages * g.pageSize;
    if x.lengths[b] <= 0 then 0 else if x.lengths[b] <= capacity then x.lengths[b] else capacity
  }

  /** Every position below the row's length is backed by a page of the cache. */
  ghost predicate Allocated(x: Inputs, g: Geometry, b: nat)
    requires Valid(x, g) && b < |x.query|
  {
    forall k: nat :: k < Limit(x, g, b) ==>
      k / g.pageSize < |x.pageTable[b]| && 0 <= x.pageTable[b][k / g.pageSize] < |x.keyCache|
  }

  /** Logical position `k` of row `b`, read through the page table. */
  function Slot(x: Inputs, g: Geometry, cache: Dense.Tensor4, b: nat, k: nat): (row: Dense.Tensor2)
    requires Valid(x, g) && b < |x.query| && k < Limit(x, g, b)
    requires cache == x.keyCache || cache == x.valueCache
    ensures |row| == g.heads.kvHeads && forall h :: 0 <= h < |row| ==> |row[h]| == g.heads.headDim
  {
    QuotientBelow(k, g.pageSize, g.logicalPages);
    cache[ClampIndex(x.pageTable[b][k / g.pageSize], |cache|)][k % g.pageSize]
  }

  /** Row `b` as a dense attention problem over the keys `0..length`. */
  function DenseRow(x: Inputs, g: Geometry, b: nat): (dense: Dense.Inputs)
    requires Valid(x, g) && b < |x.query|
    ensures Dense.Valid(dense, g.heads, Limit(x, g, b))
  {
    var n := Limit(x, g, b);
    Dense.Inputs(
      [x.query[b]],
      [seq(n, k requires 0 <= k < n => Slot(x, g, x.keyCache, b, k))],
      [seq(n, k requires 0 <= k < n => Slot(x, g, x.valueCache, b, k))],
      [x.queryPositions[b]],
      [seq(n, k => k)],
      x.sinks,
      x.options)
  }

  lemma {:induction false} TraversedAt(pages: seq<seq<Key>>, pageSize: nat, n: nat, k: nat)
    requires pageSize > 0 && n <= |pages| && forall p :: 0 <= p < |pages| ==> |pages[p]| == pageSize
    ensures |Traversed(pages, n)| == n * pageSize
    ensures k < n * pageSize ==>
      k / pageSize < n && Traversed(pages, n)[k] == pages[k / pageSize][k % pageSize]
  {
    if n > 0 {
      TraversedAt(pages, pageSize, n - 1, k);
      OneMorePage(pageSize, n - 1, k);
    }
  }

  lemma OneMorePage(pageSize: nat, n: nat, k: nat)
    requires pageSize > 0
    ensures (n + 1) * pageSize == n * pageSize + pageSize
    ensures n * pageSize <= k < n * pageSize + pageSize ==> k / pageSize == n && k % pageSize == k - n * pageSize
  {
    if n * pageSize <= k < n * pageSize + pageSize {
      QuotientOf(n, pageSize, k - n * pageSize);
    }
  }

  /** Below the limit a page lane is the dense row's key at that position. */
  lemma PageKeyIsDenseKey(x: Inputs, g: Geometry, lane: Lane, k: nat)
    requires Valid(x, g) && InRange(x, g, lane) && k < Limit(x, g, lane.b)
    ensures k / g.pageSize < g.logicalPages && HeadOf(g, lane) < g.heads.queryHeads
    ensures PageKey(x, g, lane, k / g.pageSize, k % g.pageSize)
            == Dense.RowKeys(DenseRow(x, g, lane.b), g.heads, Limit(x, g, lane.b), 0, lane.q, HeadOf(g, lane))[k]
  {
    HeadBounds(g, lane);
    QuotientBelow(k, g.pageSize, g.logicalPages);
    assert k == k / g.pageSize * g.pageSize + k % g.pageSize;
  }

  /** At or past the limit every page lane is hidden. */
  lemma PageKeyHidden(x: Inputs, g: Geometry, lane: Lane, k: nat)
    requires Valid(x, g) && InRange(x, g, lane)
    requires Limit(x, g, lane.b) <= k < g.logicalPages * g.pageSize
    ensures k / g.pageSize < g.logicalPages
    ensures !PageKey(x, g, lane, k / g.pageSize, k % g.pageSize).visible
  {
    QuotientBelow(k, g.pageSize, g.logicalPages);
    assert k == k / g.pageSize * g.pageSize + k % g.pageSize;
  }

  /** The traversal shows the dense row's keys first and nothing visible after them. */
  lemma TraversedKey(x: Inputs, g: Geometry, lane: Lane, k: nat)
    requires Valid(x, g) && InRange(x, g, lane) && k < g.logicalPages * g.pageSize
    ensures HeadOf(g, lane) < g.heads.queryHeads
    ensures var n := Limit(x, g, lane.b);
            var keys := Traversed(LanePages(x, g, lane), g.logicalPages);
            && k < |keys|
            && (k < n ==> keys[k] == Dense.RowKeys(DenseRow(x, g, lane.b), g.heads, n, 0, lane.q, HeadOf(g, lane))[k])
            && (n <= k ==> !keys[k].visible)
  {
    TraversedPageKey(x, g, lane, k);
    SplitKey(x, g, lane, k);
  }

  lemma TraversedPageKey(x: Inputs, g: Geometry, lane: Lane, k: nat)
    requires Valid(x, g) && InRange(x, g, lane) && k < g.logicalPages * g.pageSize
    ensures k / g.pageSize < g.logicalPages && k < |Traversed(LanePages(x, g, lane), g.logicalPages)|
    ensures Traversed(LanePages(x, g, lane), g.logicalPages)[k] == PageKey(x, g, lane, k / g.pageSize, k % g.pageSize)
  {
    var pages, page, offset := LanePages(x, g, lane), k / g.pageSize, k % g.pageSize;
    TraversedAt(pages, g.pageSize, g.logicalPages, k);
    Split(k, g.pageSize);
    PageAt(x, g, lane, page, offset);
  }

  lemma PageAt(x: Inputs, g: Geometry, lane: Lane, page: nat, offset: nat)
    requires Valid(x, g) && InRange(x, g, lane) && page < g.logicalPages && offset < g.pageSize
    ensures LanePages(x, g, lane)[page][offset] == PageKey(x, g, lane, page, offset)
  {
  }

  lemma SplitKey(x: Inputs, g: Geometry, lane: Lane, k: nat)
    requires Valid(x, g) && InRange(x, g, lane) && k / g.pageSize < g.logicalPages && k < g.logicalPages * g.pageSize
    ensures HeadOf(g, lane) < g.heads.queryHeads
    ensures var n, key := Limit(x, g, lane.b), PageKey(x, g, lane, k / g.pageSize, k % g.pageSize);
            && (k < n ==> key == Dense.RowKeys(DenseRow(x, g, lane.b), g.heads, n, 0, lane.q, HeadOf(g, lane))[k])
            && (n <= k ==> !key.visible)
  {
    HeadBounds(g, lane);
    if k < Limit(x, g, lane.b) {
      PageKeyIsDenseKey(x, g, lane, k);
    } else {
      PageKeyHidden(x, g, lane, k);
    }
  }

  /** What the finished loop yields for a lane. */
  function LaneOutput(exp: real -> real, x: Inputs, g: Geometry, lane: Lane): seq<real>
    requires Valid(x, g) && InRange(x, g, lane)
  {
    Finish(g.heads.headDim, After(exp, LanePages(x, g, lane), SinkOf(x, g, lane), g.heads.headDim, g.logicalPages))
  }

  /** Blockwise attention over the pages is dense attention over the logical keys below the length. */
  lemma LoopResult(exp: real -> real, x: Inputs, g: Geometry, lane: Lane)
    requires IsExponential(exp) && Valid(x, g) && InRange(x, g, lane)
    ensures HeadOf(g, lane) < g.heads.queryHeads
    ensures LaneOutput(exp, x, g, lane)
            == Dense.Lower(exp, DenseRow(x, g, lane.b), g.heads, Limit(x, g, lane.b), 0, lane.q, HeadOf(g, lane))
  {
    HeadBounds(g, lane);
    var pages, sink, n := LanePages(x, g, lane), SinkOf(x, g, lane), Limit(x, g, lane.b);
    var dense := Dense.RowKeys(DenseRow(x, g, lane.b), g.heads, n, 0, lane.q, HeadOf(g, lane));
    AfterOnline(exp, pages, sink, g.heads.headDim, g.logicalPages);
    var hidden := HiddenTail(x, g, lane);
    FinishIsTwoPass(exp, dense, hidden, sink, g.heads.headDim,
      After(exp, pages, sink, g.heads.headDim, g.logicalPages));
  }

  /** The loop traverses the logical keys below the length and then only hidden ones. */
  lemma HiddenTail(x: Inputs, g: Geometry, lane: Lane) returns (hidden: seq<Key>)
    requires Valid(x, g) && InRange(x, g, lane)
    ensures HeadOf(g, lane) < g.heads.queryHeads
    ensures
      var n := Limit(x, g, lane.b);
      Traversed(LanePages(x, g, lane), g.logicalPages)
      == Dense.RowKeys(DenseRow(x, g, lane.b), g.heads, n, 0, lane.q, HeadOf(g, lane)) + hidden
    ensures Shaped(hidden, g.heads.headDim) && forall k :: 0 <= k < |hidden| ==> !hidden[k].visible
  {
    HeadBounds(g, lane);
    var pages, n := LanePages(x, g, lane), Limit(x, g, lane.b);
    var keys := Traversed(pages, g.logicalPages);
    var dense := Dense.RowKeys(DenseRow(x, g, lane.b), g.heads, n, 0, lane.q, HeadOf(g, lane));
    TraversedAt(pages, g.pageSize, g.logicalPages, 0);
    forall k: nat | k < |keys|
      ensures (k < n ==> keys[k] == dense[k]) && (n <= k ==> !keys[k].visible)
    {
      TraversedKey(x, g, lane, k);
    }
    TraversedShaped(pages, g.heads.headDim, g.logicalPages);
    hidden := SplitAt(keys, dense, g.heads.headDim);
  }

  lemma SplitAt(keys: seq<Key>, visible: seq<Key>, headDim: nat) returns (hidden: seq<Key>)
    requires |visible| <= |keys| && Shaped(keys, headDim)
    requires forall k :: 0 <= k < |keys| ==> if k < |visible| then keys[k] == visible[k] else !keys[k].visible
    ensures keys == visible + hidden && Shaped(hidden, headDim)
    ensures forall k :: 0 <= k < |hidden| ==> !hidden[k].visible
  {
    hidden := keys[|visible|..];
  }

  /**
    The output depends on the caches and the table only through the logical positions below
    the length: stale table entries, unused slots and other pages may hold anything.
  */
  lemma StaleStateIrrelevant(exp: real -> real, x: Inputs, y: Inputs, g: Geometry, lane: Lane)
    requires IsExponential(exp) && Valid(x, g) && Valid(y, g) && InRange(x, g, lane)
    requires y == x.(keyCache := y.keyCache, valueCache := y.valueCache, pageTable := y.pageTable)
    requires forall k :: 0 <= k < Limit(x, g, lane.b) ==>
      && Slot(y, g, y.keyCache, lane.b, k) == Slot(x, g, x.keyCache, lane.b, k)
      && Slot(y, g, y.valueCache, lane.b, k) == Slot(x, g, x.valueCache, lane.b, k)
    ensures LaneOutput(exp, x, g, lane) == LaneOutput(exp, y, g, lane)
  {
    LoopResult(exp, x, g, lane);
    LoopResult(exp, y, g, lane);
    var before, after := DenseRow(x, g, lane.b), DenseRow(y, g, lane.b);
    assert before.key[0] == after.key[0];
    assert before.value[0] == after.value[0];
  }

  /** The emitted while loop for one lane, followed by the guarded division. */
  method LowerLane(exp: real -> real, x: Inputs, g: Geometry, lane: Lane) returns (output: seq<real>)
    requires IsExponential(exp) && Valid(x, g) && InRange(x, g, lane)
    ensures HeadOf(g, lane) < g.heads.queryHeads
    ensures output == Dense.Lower(exp, DenseRow(x, g, lane.b), g.heads, Limit(x, g, lane.b), 0, lane.q, HeadOf(g, lane))
  {
    ghost var pages := LanePages(x, g, lane);
    var sink := SinkOf(x, g, lane);
    var state := Initial(sink, g.heads.headDim);
    while state.counter < g.logicalPages
      invariant state.counter <= g.logicalPages
      invariant state == After(exp, pages, sink, g.heads.headDim, state.counter)
      decreases g.logicalPages - state.counter
    {
      state := FoldPage(exp, g.heads.headDim, state, PageKeys(x, g, lane, state.counter));
    }
    LoopResult(exp, x, g, lane);
    output := Finish(g.heads.headDim, state);
  }
}
