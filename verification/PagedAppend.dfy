/**
  The append kernel of the paged caches: one launch writes keys and values of every enabled update into flat memory,
  a block of elements at a time and its programs in any order. It is the pair of scatters of the portable graph.
*/
module PagedAppend {
  import opened Arithmetic
  import opened PagedCache

  // ----- flat memory -----

  /** Rows of one width laid out one after the other. */
  function Flat<T>(rows: seq<seq<T>>, width: nat): (flat: seq<T>)
    requires forall i :: 0 <= i < |rows| ==> |rows[i]| == width
    ensures |flat| == Times(|rows|, width)
  {
    if rows == [] then [] else Flat(rows[..|rows| - 1], width) + rows[|rows| - 1]
  }

  lemma {:induction false} FlatAt<T>(rows: seq<seq<T>>, width: nat, i: nat, j: nat)
    requires forall k :: 0 <= k < |rows| ==> |rows[k]| == width
    requires i < |rows| && j < width
    ensures Times(i, width) + j < |Flat(rows, width)| && Flat(rows, width)[Times(i, width) + j] == rows[i][j]
  {
    if i < |rows| - 1 {
      FlatAt(rows[..|rows| - 1], width, i, j);
    }
  }

  /** A position of flat memory is one place of one row. */
  lemma {:induction false} PlaceOf(p: nat, rows: nat, width: nat) returns (i: nat, j: nat)
    requires p < Times(rows, width)
    ensures i < rows && j < width && p == Times(i, width) + j
  {
    if p >= Times(rows - 1, width) {
      i, j := rows - 1, p - Times(rows - 1, width);
    } else {
      i, j := PlaceOf(p, rows - 1, width);
    }
  }

  lemma {:induction false} RowsApart(i: nat, k: nat, width: nat)
    requires i < k
    ensures Times(i, width) + width <= Times(k, width)
  {
    if i < k - 1 {
      RowsApart(i, k - 1, width);
    }
  }

  lemma PlacesDiffer(i: nat, j: nat, k: nat, l: nat, width: nat)
    requires j < width && l < width
    ensures Times(i, width) + j == Times(k, width) + l <==> i == k && j == l
  {
    if i < k {
      RowsApart(i, k, width);
    } else if k < i {
      RowsApart(k, i, width);
    }
  }

  /** Dividing a flat position by the width gives its row. */
  lemma RowOfPlace(i: nat, j: nat, width: nat)
    requires j < width
    ensures (Times(i, width) + j) / width == i && (Times(i, width) + j) % width == j
  {
    TimesIsProduct(i, width);
    QuotientOf(i, width, j);
  }

  lemma RemainderRange(k: nat, d: nat)
    requires d > 0
    ensures 0 <= TruncatedRemainder(k, d) < d && TruncatedRemainder(k, d) == k % d
  {
    Split(k, d);
  }

  // ----- the kernel -----

  type Row = seq<real>

  datatype Extents = Extents(
    query: nat, logicalPages: nat, physicalPages: nat, pageSize: nat, elements: nat, blockElements: nat)

  ghost predicate ValidExtents(x: Extents) {
    x.query > 0 && x.pageSize > 0 && x.elements > 0 && x.blockElements > 0
  }

  ghost predicate WideRows(rows: seq<seq<Row>>, width: nat, elements: nat) {
    forall i :: 0 <= i < |rows| ==> |rows[i]| == width && forall j :: 0 <= j < width ==> |rows[i][j]| == elements
  }

  /** What the host validates, and rows of the right width. */
  ghost predicate Prepared(call: Call<Row>, x: Extents) {
    && ValidExtents(x) && ValidCall(call, x.query, x.logicalPages) && WideRows(call.updates, x.query, x.elements)
    && HostValidated(call, x.query, x.logicalPages, x.physicalPages, x.pageSize)
  }

  /** No two enabled updates share a cell. */
  ghost predicate Separate(call: Call<Row>, x: Extents)
    requires ValidExtents(x) && ValidCall(call, x.query, x.logicalPages)
  {
    forall b: nat, q: nat, b': nat, q': nat ::
      Writes(call, x, b, q) && Writes(call, x, b', q') && (b, q) != (b', q') ==>
        Target(call, x, b, q) != Target(call, x, b', q')
  }

  predicate Writes(call: Call<Row>, x: Extents, b: nat, q: nat)
    requires ValidCall(call, x.query, x.logicalPages)
  {
    b < |call.tables| && q < x.query && Enabled(call, b, q)
  }

  function Target(call: Call<Row>, x: Extents, b: nat, q: nat): (int, int)
    requires ValidExtents(x) && ValidCall(call, x.query, x.logicalPages) && b < |call.tables| && q < x.query
  {
    ScatterIndex(call, x.physicalPages, x.pageSize, b, q)
  }

  function FlatCache(pages: Pages<Row>, x: Extents): seq<real>
    requires WideRows(pages, x.pageSize, x.elements)
  {
    FlatRows(pages, x.pageSize, x.elements);
    Flat(Flat(pages, x.pageSize), x.elements)
  }

  function FlatUpdates(call: Call<Row>, x: Extents): seq<real>
    requires WideRows(call.updates, x.query, x.elements)
  {
    FlatRows(call.updates, x.query, x.elements);
    Flat(Flat(call.updates, x.query), x.elements)
  }

  lemma {:induction false} FlatRows(rows: seq<seq<Row>>, width: nat, elements: nat)
    requires WideRows(rows, width, elements)
    ensures forall i :: 0 <= i < |Flat(rows, width)| ==> |Flat(rows, width)[i]| == elements
  {
    if rows != [] {
      FlatRows(rows[..|rows| - 1], width, elements);
    }
  }

  /** A masked store of one block: elements `lo..hi` of the row at `base`, from the row at `from`. */
  function StoreBlock(memory: seq<real>, base: int, source: seq<real>, from: nat, lo: nat, hi: nat): (after: seq<real>)
    requires from + hi <= |source|
    ensures |after| == |memory|
  {
    seq(|memory|, i requires 0 <= i < |memory| =>
      if base + lo <= i < base + hi then source[from + (i - base)] else memory[i])
  }

  /** The elements of block `block`, cut to the row. */
  function BlockFirst(x: Extents, block: nat): (lo: nat)
    ensures lo <= x.elements
  {
    if Times(block, x.blockElements) <= x.elements then Times(block, x.blockElements) else x.elements
  }

  function BlockLimit(x: Extents, block: nat): (hi: nat)
    ensures hi <= x.elements
  {
    BlockFirst(x, block + 1)
  }

  /** The page id a program with an enabled update reads from the flat table. */
  function PageRead(call: Call<Row>, x: Extents, b: nat, q: nat): (page: nat)
    requires Prepared(call, x) && Writes(call, x, b, q)
  {
    var logical := TruncatedQuotient(call.starts[b] + q, x.pageSize);
    FlatAt(call.tables, x.logicalPages, b, logical);
    Flat(call.tables, x.logicalPages)[Times(b, x.logicalPages) + logical]
  }

  /** The cell it writes, counted from the start of the cache. */
  function CellRead(call: Call<Row>, x: Extents, b: nat, q: nat): (cell: nat)
    requires Prepared(call, x) && Writes(call, x, b, q)
  {
    RemainderRange(call.starts[b] + q, x.pageSize);
    Times(PageRead(call, x, b, q), x.pageSize) + TruncatedRemainder(call.starts[b] + q, x.pageSize)
  }

  /** What a program does for the update of `(b, q)`. */
  function Stored(memory: seq<real>, call: Call<Row>, x: Extents, b: nat, q: nat, block: nat): (after: seq<real>)
    requires Prepared(call, x) && b < |call.tables| && q < x.query
    ensures |after| == |memory|
  {
    if !Enabled(call, b, q) then memory
    else
      UpdateRow(call, x, b, q);
      StoreBlock(memory, Times(CellRead(call, x, b, q), x.elements), FlatUpdates(call, x),
        Times(Times(b, x.query) + q, x.elements), BlockFirst(x, block), BlockLimit(x, block))
  }

  /** One program: the element block `p.1` of the flat row `p.0`. */
  function Program(memory: seq<real>, call: Call<Row>, x: Extents, p: (nat, nat)): (after: seq<real>)
    requires Prepared(call, x) && p.0 < Rows(call, x)
    ensures |after| == |memory|
  {
    RowInCall(call, x, p.0);
    Stored(memory, call, x, p.0 / x.query, p.0 % x.query, p.1)
  }

  /** How many rows the launch has. */
  function Rows(call: Call<Row>, x: Extents): nat { Times(|call.tables|, x.query) }

  lemma RowInCall(call: Call<Row>, x: Extents, p: nat)
    requires ValidExtents(x) && p < Rows(call, x)
    ensures p / x.query < |call.tables| && p == Times(p / x.query, x.query) + p % x.query
  {
    var b, q := PlaceOf(p, |call.tables|, x.query);
    RowOfPlace(b, q, x.query);
  }

  /** The update of `(b, q)` lies at flat row `b * query + q`. */
  lemma UpdateRow(call: Call<Row>, x: Extents, b: nat, q: nat)
    requires Prepared(call, x) && b < |call.tables| && q < x.query
    ensures Times(Times(b, x.query) + q, x.elements) + x.elements <= |FlatUpdates(call, x)|
  {
    FlatRows(call.updates, x.query, x.elements);
    FlatAt(call.updates, x.query, b, q);
    FlatAt(Flat(call.updates, x.query), x.elements, Times(b, x.query) + q, x.elements - 1);
  }

  lemma UpdateAt(call: Call<Row>, x: Extents, b: nat, q: nat, e: nat)
    requires Prepared(call, x) && b < |call.tables| && q < x.query && e < x.elements
    ensures Times(Times(b, x.query) + q, x.elements) + e < |FlatUpdates(call, x)|
    ensures FlatUpdates(call, x)[Times(Times(b, x.query) + q, x.elements) + e] == call.updates[b][q][e]
  {
    FlatRows(call.updates, x.query, x.elements);
    FlatAt(call.updates, x.query, b, q);
    FlatAt(Flat(call.updates, x.query), x.elements, Times(b, x.query) + q, e);
  }

  function Blocks(x: Extents): nat
    requires x.blockElements > 0
  {
    CeilDiv(x.elements, x.blockElements)
  }

  /** The launch with its programs run in the given order. */
  ghost function Launch(memory: seq<real>, call: Call<Row>, x: Extents, order: seq<(nat, nat)>): (after: seq<real>)
    requires Prepared(call, x) && InGrid(call, x, order)
    ensures |after| == |memory|
  {
    if order == [] then memory
    else Program(Launch(memory, call, x, order[..|order| - 1]), call, x, order[|order| - 1])
  }

  ghost predicate InGrid(call: Call<Row>, x: Extents, order: seq<(nat, nat)>) {
    forall i :: 0 <= i < |order| ==> order[i].0 < Rows(call, x)
  }

  // ----- one cell -----

  /** A store reaches an element of a cell exactly if it is for that cell and within its bounds. */
  lemma StoreAt(
      memory: seq<real>, c': nat, source: seq<real>, from: nat, lo: nat, hi: nat, c: nat, e: nat, width: nat)
    requires from + hi <= |source| && hi <= width && e < width && Times(c, width) + e < |memory|
    ensures StoreBlock(memory, Times(c', width), source, from, lo, hi)[Times(c, width) + e]
            == if c == c' && lo <= e < hi then source[from + e] else memory[Times(c, width) + e]
  {
    var d := Times(c, width) + e - Times(c', width);
    if 0 <= d < width {
      PlacesDiffer(c, e, c', d, width);
    }
  }

  /** The element lies in the block. */
  predicate InBlock(x: Extents, block: nat, e: nat) {
    BlockFirst(x, block) <= e < BlockLimit(x, block)
  }

  lemma OneBlock(x: Extents, i: nat, j: nat, e: nat)
    requires InBlock(x, i, e) && InBlock(x, j, e)
    ensures i == j
  {
    if i < j {
      RowsApart(i, j, x.blockElements);
    } else if j < i {
      RowsApart(j, i, x.blockElements);
    }
  }

  /** Every element lies in a block of the launch. */
  lemma BlockExists(x: Extents, e: nat) returns (i: nat)
    requires ValidExtents(x) && e < x.elements
    ensures i < Blocks(x) && InBlock(x, i, e)
  {
    CeilDivBounds(x.elements, x.blockElements);
    TimesIsProduct(Blocks(x), x.blockElements);
    var j;
    i, j := PlaceOf(e, Blocks(x), x.blockElements);
  }

  /** The flat cell number of a target. */
  function CellOf(x: Extents, page: nat, offset: nat): nat { Times(page, x.pageSize) + offset }

  /** The flat position of an element. */
  function Place(x: Extents, page: nat, offset: nat, e: nat): nat { Times(CellOf(x, page, offset), x.elements) + e }

  lemma TargetInCache(call: Call<Row>, x: Extents, b: nat, q: nat) returns (page: nat, offset: nat)
    requires Prepared(call, x) && Writes(call, x, b, q)
    ensures Target(call, x, b, q) == (page, offset) && page < x.physicalPages && offset < x.pageSize
    ensures CellRead(call, x, b, q) == CellOf(x, page, offset)
  {
    var k := call.starts[b] + q;
    TargetIndex(call, x.physicalPages, x.pageSize, b, q, k / x.pageSize);
    Split(k, x.pageSize);
    page, offset := call.tables[b][k / x.pageSize], k % x.pageSize;
    FlatAt(call.tables, x.logicalPages, b, k / x.pageSize);
  }

  /** The program of a flat row works on that row's update. */
  lemma ProgramStores(memory: seq<real>, call: Call<Row>, x: Extents, p: (nat, nat), b: nat, q: nat)
    requires Prepared(call, x) && b < |call.tables| && q < x.query && p.0 == Times(b, x.query) + q
    requires p.0 < Rows(call, x)
    ensures Program(memory, call, x, p) == Stored(memory, call, x, b, q, p.1)
  {
    RowOfPlace(b, q, x.query);
  }

  lemma StoresAt(
      memory: seq<real>, call: Call<Row>, x: Extents, block: nat, b: nat, q: nat, page: nat, offset: nat, e: nat)
    requires Prepared(call, x) && b < |call.tables| && q < x.query && offset < x.pageSize && e < x.elements
    requires Place(x, page, offset, e) < |memory|
    ensures Stored(memory, call, x, b, q, block)[Place(x, page, offset, e)]
            == if Writes(call, x, b, q) && Target(call, x, b, q) == (page, offset) && InBlock(x, block, e)
               then call.updates[b][q][e] else memory[Place(x, page, offset, e)]
  {
    if Enabled(call, b, q) {
      CellIsTarget(call, x, b, q, page, offset);
      UpdateStored(memory, call, x, block, b, q, CellRead(call, x, b, q), CellOf(x, page, offset), e);
    }
  }

  lemma ProgramAt(
      memory: seq<real>, call: Call<Row>, x: Extents, p: (nat, nat), b: nat, q: nat, page: nat, offset: nat, e: nat)
    requires Prepared(call, x) && b < |call.tables| && q < x.query && p.0 == Times(b, x.query) + q
    requires p.0 < Rows(call, x) && offset < x.pageSize && e < x.elements
    requires Place(x, page, offset, e) < |memory|
    ensures Program(memory, call, x, p)[Place(x, page, offset, e)]
            == if Writes(call, x, b, q) && Target(call, x, b, q) == (page, offset) && InBlock(x, p.1, e)
               then call.updates[b][q][e] else memory[Place(x, page, offset, e)]
  {
    ProgramStores(memory, call, x, p, b, q);
    StoresAt(memory, call, x, p.1, b, q, page, offset, e);
  }

  lemma UpdateStored(
      memory: seq<real>, call: Call<Row>, x: Extents, block: nat, b: nat, q: nat, c': nat, c: nat, e: nat)
    requires Prepared(call, x) && b < |call.tables| && q < x.query
    requires e < x.elements && Times(c, x.elements) + e < |memory|
    ensures Times(Times(b, x.query) + q, x.elements) + x.elements <= |FlatUpdates(call, x)|
    ensures StoreBlock(memory, Times(c', x.elements), FlatUpdates(call, x),
                       Times(Times(b, x.query) + q, x.elements), BlockFirst(x, block), BlockLimit(x, block))
              [Times(c, x.elements) + e]
            == if c == c' && InBlock(x, block, e) then call.updates[b][q][e] else memory[Times(c, x.elements) + e]
  {
    UpdateRow(call, x, b, q);
    UpdateAt(call, x, b, q, e);
    StoredAt(memory, x, FlatUpdates(call, x), Times(Times(b, x.query) + q, x.elements), block, c', c, e);
  }

  /** The cell a program writes is a place of the cache exactly if that place is its update's target. */
  lemma CellIsTarget(call: Call<Row>, x: Extents, b: nat, q: nat, page: nat, offset: nat)
    requires Prepared(call, x) && Writes(call, x, b, q) && offset < x.pageSize
    ensures CellRead(call, x, b, q) == CellOf(x, page, offset) <==> Target(call, x, b, q) == (page, offset)
  {
    var target, place := TargetInCache(call, x, b, q);
    PlacesDiffer(page, offset, target, place, x.pageSize);
  }

  /** A program's block holds the element it stores, from wherever the row is read. */
  lemma StoredAt(
      memory: seq<real>, x: Extents, source: seq<real>, from: nat, block: nat, c': nat, c: nat, e: nat)
    requires ValidExtents(x) && from + x.elements <= |source|
    requires e < x.elements && Times(c, x.elements) + e < |memory|
    ensures StoreBlock(memory, Times(c', x.elements), source, from, BlockFirst(x, block),
                       BlockLimit(x, block))[Times(c, x.elements) + e]
            == if c == c' && InBlock(x, block, e) then source[from + e] else memory[Times(c, x.elements) + e]
  {
    StoreAt(memory, c', source, from, BlockFirst(x, block), BlockLimit(x, block), c, e, x.elements);
  }

  // ----- the whole launch -----

  /** A cell no enabled update targets keeps its elements. */
  lemma {:induction false} LaunchUntouched(
      memory: seq<real>, call: Call<Row>, x: Extents, order: seq<(nat, nat)>, page: nat, offset: nat, e: nat)
    requires Prepared(call, x) && InGrid(call, x, order) && offset < x.pageSize && e < x.elements
    requires Place(x, page, offset, e) < |memory|
    requires forall b: nat, q: nat :: Writes(call, x, b, q) ==> Target(call, x, b, q) != (page, offset)
    ensures Launch(memory, call, x, order)[Place(x, page, offset, e)]
            == memory[Place(x, page, offset, e)]
  {
    if order != [] {
      var init, last := order[..|order| - 1], order[|order| - 1];
      LaunchUntouched(memory, call, x, init, page, offset, e);
      var b, q := PlaceOf(last.0, |call.tables|, x.query);
      ProgramAt(Launch(memory, call, x, init), call, x, last, b, q, page, offset, e);
    }
  }

  /** The cell of an enabled update holds its element once the element's program has run. */
  lemma {:induction false} LaunchTouched(
      memory: seq<real>, call: Call<Row>, x: Extents, order: seq<(nat, nat)>, b: nat, q: nat, page: nat, offset: nat,
      e: nat, block: nat)
    requires InBlock(x, block, e)
    requires Prepared(call, x) && Separate(call, x) && InGrid(call, x, order) && offset < x.pageSize && e < x.elements
    requires Place(x, page, offset, e) < |memory|
    requires Writes(call, x, b, q) && Target(call, x, b, q) == (page, offset)
    ensures Launch(memory, call, x, order)[Place(x, page, offset, e)]
            == if (Times(b, x.query) + q, block) in order then call.updates[b][q][e]
               else memory[Place(x, page, offset, e)]
  {
    if order != [] {
      var init, last := order[..|order| - 1], order[|order| - 1];
      LaunchTouched(memory, call, x, init, b, q, page, offset, e, block);
      var b', q' := PlaceOf(last.0, |call.tables|, x.query);
      ProgramAt(Launch(memory, call, x, init), call, x, last, b', q', page, offset, e);
      PlacesDiffer(b, q, b', q', x.query);
      if InBlock(x, last.1, e) {
        OneBlock(x, block, last.1, e);
      }
      assert order == init + [last];
    }
  }

  /** The scatter leaves the same row in that cell. */
  lemma {:induction false} ScatterTouched(
      pages: Pages<Row>, call: Call<Row>, x: Extents, order: seq<(nat, nat)>, b: nat, q: nat, page: nat, offset: nat)
    requires Shaped(pages, x.pageSize) && |pages| == x.physicalPages && Prepared(call, x) && Separate(call, x)
    requires forall i :: 0 <= i < |order| ==> order[i].0 < |call.tables| && order[i].1 < x.query
    requires page < |pages| && offset < x.pageSize
    requires Writes(call, x, b, q) && Target(call, x, b, q) == (page, offset)
    ensures Scatter(pages, call, x.query, x.logicalPages, x.pageSize, order)[page][offset]
            == if (b, q) in order then call.updates[b][q] else pages[page][offset]
  {
    if order != [] {
      var init, last := order[..|order| - 1], order[|order| - 1];
      ScatterTouched(pages, call, x, init, b, q, page, offset);
      assert order == init + [last];
      if last != (b, q) {
        DisabledMisses(call, x, last.0, last.1, page, offset);
      }
    }
  }

  /** Another update does not land in a cell that has its own. */
  lemma DisabledMisses(call: Call<Row>, x: Extents, b: nat, q: nat, page: nat, offset: nat)
    requires Prepared(call, x) && b < |call.tables| && q < x.query && page < x.physicalPages
    requires Writes(call, x, b, q) ==> Target(call, x, b, q) != (page, offset)
    ensures ScatterIndex(call, x.physicalPages, x.pageSize, b, q) != (page, offset)
  {
  }

  lemma ScatterWide(pages: Pages<Row>, call: Call<Row>, x: Extents, order: seq<(nat, nat)>)
    requires Shaped(pages, x.pageSize) && WideRows(pages, x.pageSize, x.elements) && Prepared(call, x)
    requires forall i :: 0 <= i < |order| ==> order[i].0 < |call.tables| && order[i].1 < x.query
    ensures WideRows(Scatter(pages, call, x.query, x.logicalPages, x.pageSize, order), x.pageSize, x.elements)
  {
    if order != [] {
      ScatterWide(pages, call, x, order[..|order| - 1]);
    }
  }

  lemma CacheAt(pages: Pages<Row>, x: Extents, page: nat, offset: nat, e: nat)
    requires WideRows(pages, x.pageSize, x.elements) && page < |pages| && offset < x.pageSize && e < x.elements
    ensures Place(x, page, offset, e) < |FlatCache(pages, x)|
    ensures FlatCache(pages, x)[Place(x, page, offset, e)] == pages[page][offset][e]
  {
    FlatRows(pages, x.pageSize, x.elements);
    FlatAt(pages, x.pageSize, page, offset);
    FlatAt(Flat(pages, x.pageSize), x.elements, CellOf(x, page, offset), e);
  }

  lemma CacheExtent(pages: Pages<Row>, x: Extents)
    requires WideRows(pages, x.pageSize, x.elements)
    ensures |FlatCache(pages, x)| == Times(Times(|pages|, x.pageSize), x.elements)
  {
    FlatRows(pages, x.pageSize, x.elements);
  }

  /** A launch and a scatter of one call over one cache, each running everything once. */
  ghost predicate Launched(
      pages: Pages<Row>, call: Call<Row>, x: Extents, programs: seq<(nat, nat)>, order: seq<(nat, nat)>)
  {
    && Shaped(pages, x.pageSize) && WideRows(pages, x.pageSize, x.elements) && |pages| == x.physicalPages
    && Prepared(call, x) && Separate(call, x) && Enumerates(programs, Rows(call, x), Blocks(x))
    && Enumerates(order, |call.tables|, x.query)
  }

  /** One element of the scattered cache. */
  ghost function Element(
      pages: Pages<Row>, call: Call<Row>, x: Extents, order: seq<(nat, nat)>, page: nat, offset: nat, e: nat): real
    requires Shaped(pages, x.pageSize) && WideRows(pages, x.pageSize, x.elements) && Prepared(call, x)
    requires forall i :: 0 <= i < |order| ==> order[i].0 < |call.tables| && order[i].1 < x.query
    requires page < |pages| && offset < x.pageSize && e < x.elements
  {
    ScatterWide(pages, call, x, order);
    Scatter(pages, call, x.query, x.logicalPages, x.pageSize, order)[page][offset][e]
  }

  lemma TouchedAgrees(
      pages: Pages<Row>, call: Call<Row>, x: Extents, programs: seq<(nat, nat)>, order: seq<(nat, nat)>, page: nat,
      offset: nat, e: nat, b: nat, q: nat)
    requires Launched(pages, call, x, programs, order)
    requires page < |pages| && offset < x.pageSize && e < x.elements
    requires Writes(call, x, b, q) && Target(call, x, b, q) == (page, offset)
    ensures Place(x, page, offset, e) < |FlatCache(pages, x)|
    ensures Launch(FlatCache(pages, x), call, x, programs)[Place(x, page, offset, e)]
            == Element(pages, call, x, order, page, offset, e)
  {
    CacheAt(pages, x, page, offset, e);
    var block := BlockExists(x, e);
    LaunchTouched(FlatCache(pages, x), call, x, programs, b, q, page, offset, e, block);
    ScatterTouched(pages, call, x, order, b, q, page, offset);
    ProgramRuns(call, x, programs, b, q, block);
  }

  lemma UntouchedAgrees(
      pages: Pages<Row>, call: Call<Row>, x: Extents, programs: seq<(nat, nat)>, order: seq<(nat, nat)>, page: nat,
      offset: nat, e: nat)
    requires Launched(pages, call, x, programs, order)
    requires page < |pages| && offset < x.pageSize && e < x.elements
    requires forall b: nat, q: nat :: Writes(call, x, b, q) ==> Target(call, x, b, q) != (page, offset)
    ensures Place(x, page, offset, e) < |FlatCache(pages, x)|
    ensures Launch(FlatCache(pages, x), call, x, programs)[Place(x, page, offset, e)]
            == Element(pages, call, x, order, page, offset, e)
  {
    CacheAt(pages, x, page, offset, e);
    LaunchUntouched(FlatCache(pages, x), call, x, programs, page, offset, e);
    forall b: nat, q: nat | b < |call.tables| && q < x.query && Enabled(call, b, q)
      ensures ScatterIndex(call, |pages|, x.pageSize, b, q) != (page, offset)
    {
      assert Writes(call, x, b, q);
    }
    UntargetedCell(pages, call, x.query, x.logicalPages, x.pageSize, order, page, offset);
  }

  /** One element of one cell, after the launch and after the scatter. */
  lemma CellAgrees(
      pages: Pages<Row>, call: Call<Row>, x: Extents, programs: seq<(nat, nat)>, order: seq<(nat, nat)>, page: nat,
      offset: nat, e: nat)
    requires Launched(pages, call, x, programs, order)
    requires page < |pages| && offset < x.pageSize && e < x.elements
    ensures Place(x, page, offset, e) < |FlatCache(pages, x)|
    ensures Launch(FlatCache(pages, x), call, x, programs)[Place(x, page, offset, e)]
            == Element(pages, call, x, order, page, offset, e)
  {
    if b: nat, q: nat :| Writes(call, x, b, q) && Target(call, x, b, q) == (page, offset) {
      TouchedAgrees(pages, call, x, programs, order, page, offset, e, b, q);
    } else {
      UntouchedAgrees(pages, call, x, programs, order, page, offset, e);
    }
  }

  lemma ProgramRuns(call: Call<Row>, x: Extents, programs: seq<(nat, nat)>, b: nat, q: nat, block: nat)
    requires ValidExtents(x) && Enumerates(programs, Rows(call, x), Blocks(x))
    requires b < |call.tables| && q < x.query && block < Blocks(x)
    ensures (Times(b, x.query) + q, block) in programs
  {
    RowsApart(b, |call.tables|, x.query);
  }

  /** The launch leaves the scattered cache in memory, for any order of its programs and of the scatter. */
  lemma AppendIsScatter(
      pages: Pages<Row>, call: Call<Row>, x: Extents, programs: seq<(nat, nat)>, order: seq<(nat, nat)>)
    requires Launched(pages, call, x, programs, order)
    ensures WideRows(Scatter(pages, call, x.query, x.logicalPages, x.pageSize, order), x.pageSize, x.elements)
    ensures Launch(FlatCache(pages, x), call, x, programs)
            == FlatCache(Scatter(pages, call, x.query, x.logicalPages, x.pageSize, order), x)
  {
    var after := Scatter(pages, call, x.query, x.logicalPages, x.pageSize, order);
    ScatterWide(pages, call, x, order);
    CacheExtent(pages, x);
    CacheExtent(after, x);
    var launched, scattered := Launch(FlatCache(pages, x), call, x, programs), FlatCache(after, x);
    forall i: nat | i < |launched| ensures launched[i] == scattered[i] {
      PositionAgrees(pages, call, x, programs, order, launched, scattered, i);
    }
  }

  lemma PositionAgrees(
      pages: Pages<Row>, call: Call<Row>, x: Extents, programs: seq<(nat, nat)>, order: seq<(nat, nat)>,
      launched: seq<real>, scattered: seq<real>, i: nat)
    requires Launched(pages, call, x, programs, order) && launched == Launch(FlatCache(pages, x), call, x, programs)
    requires WideRows(Scatter(pages, call, x.query, x.logicalPages, x.pageSize, order), x.pageSize, x.elements)
    requires scattered == FlatCache(Scatter(pages, call, x.query, x.logicalPages, x.pageSize, order), x)
    requires i < |launched| == |scattered|
    ensures launched[i] == scattered[i]
  {
    CacheExtent(pages, x);
    var page, offset, e := PlaceHolds(x, |pages|, i);
    PlaceAgrees(pages, call, x, programs, order, page, offset, e);
  }

  /** A position of the flat cache is an element of one cell. */
  lemma PlaceHolds(x: Extents, pages: nat, i: nat) returns (page: nat, offset: nat, e: nat)
    requires i < Times(Times(pages, x.pageSize), x.elements)
    ensures page < pages && offset < x.pageSize && e < x.elements && i == Place(x, page, offset, e)
  {
    var c;
    c, e := PlaceOf(i, Times(pages, x.pageSize), x.elements);
    page, offset := PlaceOf(c, pages, x.pageSize);
  }

  lemma PlaceAgrees(
      pages: Pages<Row>, call: Call<Row>, x: Extents, programs: seq<(nat, nat)>, order: seq<(nat, nat)>, page: nat,
      offset: nat, e: nat)
    requires Launched(pages, call, x, programs, order)
    requires page < |pages| && offset < x.pageSize && e < x.elements
    ensures WideRows(Scatter(pages, call, x.query, x.logicalPages, x.pageSize, order), x.pageSize, x.elements)
    ensures
      var after := FlatCache(Scatter(pages, call, x.query, x.logicalPages, x.pageSize, order), x);
      && Place(x, page, offset, e) < |FlatCache(pages, x)| && Place(x, page, offset, e) < |after|
      && Launch(FlatCache(pages, x), call, x, programs)[Place(x, page, offset, e)] == after[Place(x, page, offset, e)]
  {
    ScatterWide(pages, call, x, order);
    CellAgrees(pages, call, x, programs, order, page, offset, e);
    CacheAt(Scatter(pages, call, x.query, x.logicalPages, x.pageSize, order), x, page, offset, e);
  }

  /** A cell every update of the call spares keeps its elements through the launch. */
  lemma LaunchSpares(
      memory: seq<real>, call: Call<Row>, x: Extents, order: seq<(nat, nat)>, page: nat, offset: nat, e: nat)
    requires Prepared(call, x) && InGrid(call, x, order) && offset < x.pageSize && e < x.elements
    requires Place(x, page, offset, e) < |memory|
    requires forall b: nat, q: nat :: b < |call.tables| && q < x.query ==> Spares(call, x.pageSize, b, q, page, offset)
    ensures Launch(memory, call, x, order)[Place(x, page, offset, e)] == memory[Place(x, page, offset, e)]
  {
    forall b: nat, q: nat | Writes(call, x, b, q) ensures Target(call, x, b, q) != (page, offset) {
      TargetSpares(call, x, b, q, page, offset);
    }
    LaunchUntouched(memory, call, x, order, page, offset, e);
  }

  lemma TargetSpares(call: Call<Row>, x: Extents, b: nat, q: nat, page: nat, offset: nat)
    requires Prepared(call, x) && Writes(call, x, b, q)
    ensures Spares(call, x.pageSize, b, q, page, offset) ==> Target(call, x, b, q) != (page, offset)
  {
    TargetIndex(call, x.physicalPages, x.pageSize, b, q, (call.starts[b] + q) / x.pageSize);
  }

  /** The cell an update addresses holds that update's elements after the launch. */
  lemma LaunchAddresses(
      memory: seq<real>, call: Call<Row>, x: Extents, programs: seq<(nat, nat)>, b: nat, q: nat, page: nat,
      offset: nat, e: nat)
    requires Prepared(call, x) && Separate(call, x) && Enumerates(programs, Rows(call, x), Blocks(x))
    requires offset < x.pageSize && e < x.elements && Place(x, page, offset, e) < |memory|
    requires b < |call.tables| && q < x.query && Addresses(call, x.pageSize, b, q, page, offset)
    ensures Launch(memory, call, x, programs)[Place(x, page, offset, e)] == call.updates[b][q][e]
  {
    TargetIndex(call, x.physicalPages, x.pageSize, b, q, (call.starts[b] + q) / x.pageSize);
    var block := BlockExists(x, e);
    LaunchTouched(memory, call, x, programs, b, q, page, offset, e, block);
    ProgramRuns(call, x, programs, b, q, block);
  }

  // ----- keys and values together -----

  /** The same call for the values. */
  function ForValues(call: Call<Row>, values: seq<seq<Row>>): Call<Row> { call.(updates := values) }

  /** Every program writes its block of the keys and of the values. */
  ghost function PairLaunch(
      keys: seq<real>, values: seq<real>, call: Call<Row>, rows: seq<seq<Row>>, x: Extents, order: seq<(nat, nat)>)
    : (seq<real>, seq<real>)
    requires Prepared(call, x) && Prepared(ForValues(call, rows), x) && InGrid(call, x, order)
  {
    if order == [] then (keys, values)
    else
      var (k, v) := PairLaunch(keys, values, call, rows, x, order[..|order| - 1]);
      var last := order[|order| - 1];
      (Program(k, call, x, last), Program(v, ForValues(call, rows), x, last))
  }

  lemma {:induction false} PairIsBoth(
      keys: seq<real>, values: seq<real>, call: Call<Row>, rows: seq<seq<Row>>, x: Extents, order: seq<(nat, nat)>)
    requires Prepared(call, x) && Prepared(ForValues(call, rows), x) && InGrid(call, x, order)
    ensures PairLaunch(keys, values, call, rows, x, order)
            == (Launch(keys, call, x, order), Launch(values, ForValues(call, rows), x, order))
  {
    if order != [] {
      PairIsBoth(keys, values, call, rows, x, order[..|order| - 1]);
    }
  }

  /** What is checked for the keys holds for values of the same width. */
  lemma ValuesPrepared(call: Call<Row>, x: Extents, rows: seq<seq<Row>>)
    requires Prepared(call, x) && Separate(call, x) && |rows| == |call.tables| && WideRows(rows, x.query, x.elements)
    ensures Prepared(ForValues(call, rows), x) && Separate(ForValues(call, rows), x)
  {
    var changed := ForValues(call, rows);
    forall b: nat, q: nat | b < |call.tables| && q < x.query && Enabled(changed, b, q) ensures Enabled(call, b, q) {
    }
    forall b: nat, q: nat | Writes(changed, x, b, q)
      ensures Writes(call, x, b, q) && Target(changed, x, b, q) == Target(call, x, b, q)
    {
    }
  }

  /** The paired kernel is the pair of scatters, each in any order of its own. */
  lemma PairedAppendIsScatters(
      keys: Pages<Row>, values: Pages<Row>, call: Call<Row>, rows: seq<seq<Row>>, x: Extents,
      programs: seq<(nat, nat)>, keyOrder: seq<(nat, nat)>, valueOrder: seq<(nat, nat)>)
    requires Shaped(keys, x.pageSize) && WideRows(keys, x.pageSize, x.elements) && |keys| == x.physicalPages
    requires Shaped(values, x.pageSize) && WideRows(values, x.pageSize, x.elements) && |values| == x.physicalPages
    requires Prepared(call, x) && Separate(call, x) && |rows| == |call.tables| && WideRows(rows, x.query, x.elements)
    requires Enumerates(programs, Rows(call, x), Blocks(x))
    requires Enumerates(keyOrder, |call.tables|, x.query) && Enumerates(valueOrder, |call.tables|, x.query)
    ensures Prepared(ForValues(call, rows), x) && Separate(ForValues(call, rows), x)
    ensures
      var key := Scatter(keys, call, x.query, x.logicalPages, x.pageSize, keyOrder);
      var value := Scatter(values, ForValues(call, rows), x.query, x.logicalPages, x.pageSize, valueOrder);
      && WideRows(key, x.pageSize, x.elements) && WideRows(value, x.pageSize, x.elements)
      && PairLaunch(FlatCache(keys, x), FlatCache(values, x), call, rows, x, programs)
         == (FlatCache(key, x), FlatCache(value, x))
  {
    ValuesPrepared(call, x, rows);
    PairIsBoth(FlatCache(keys, x), FlatCache(values, x), call, rows, x, programs);
    AppendIsScatter(keys, call, x, programs, keyOrder);
    AppendIsScatter(values, ForValues(call, rows), x, programs, valueOrder);
  }
}
