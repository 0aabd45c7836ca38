/**
  The paged key/value cache: batched rows scattered into physical pages through a block
  table, and the logical sequences that reading back through the table yields.
*/
module PagedCache {
  import opened Arithmetic

  type Pages<Row> = seq<seq<Row>>

  /** One update call. Tensors are indexed by batch row, then by query index or logical page. */
  datatype Call<Row> = Call(
    tables: seq<seq<int>>,        // [batch, logicalPages]
    starts: seq<int>,             // [batch]
    lengths: seq<int>,            // [batch]
    active: seq<bool>,            // [batch]
    writeMask: seq<seq<bool>>,    // [batch, query]
    updates: seq<seq<Row>>)       // [batch, query]

  ghost predicate Shaped<Row>(pages: Pages<Row>, pageSize: nat) {
    && pageSize > 0 && |pages| > 0
    && forall p :: 0 <= p < |pages| ==> |pages[p]| == pageSize
  }

  ghost predicate ValidCall<Row>(call: Call<Row>, query: nat, logicalPages: nat) {
    && logicalPages > 0
    && |call.tables| == |call.starts| == |call.lengths| == |call.active| == |call.writeMask| == |call.updates|
    && forall b :: 0 <= b < |call.tables| ==>
         |call.tables[b]| == logicalPages && |call.writeMask[b]| == |call.updates[b]| == query
  }

  // ----- the index arithmetic of one update element -----

  predicate Enabled<Row>(call: Call<Row>, b: nat, q: nat)
    requires b < |call.active| == |call.lengths| == |call.writeMask| && q < |call.writeMask[b]|
  {
    call.active[b] && q < call.lengths[b] && call.writeMask[b][q]
  }

  /** The scatter index pair of one update: disabled updates receive the sentinel page. */
  function ScatterIndex<Row>(call: Call<Row>, physicalPages: nat, pageSize: nat, b: nat, q: nat): (int, int)
    requires pageSize > 0 && b < |call.tables| == |call.starts| == |call.active| == |call.lengths| == |call.writeMask|
    requires q < |call.writeMask[b]| && |call.tables[b]| > 0
  {
    var position := call.starts[b] + q;
    var enabled := Enabled(call, b, q);
    var logical := if enabled then TruncatedQuotient(position, pageSize) else 0;
    var physical := call.tables[b][ClampIndex(logical, |call.tables[b]|)];
    (if enabled then physical else physicalPages,
     if enabled then TruncatedRemainder(position, pageSize) else 0)
  }

  /** Scatter drops an update whose index pair lies outside the operand. */
  function ApplyUpdate<Row>(
      pages: Pages<Row>, call: Call<Row>, query: nat, logicalPages: nat, pageSize: nat,
      b: nat, q: nat): (after: Pages<Row>)
    requires Shaped(pages, pageSize) && ValidCall(call, query, logicalPages) && b < |call.tables| && q < query
    ensures Shaped(after, pageSize) && |after| == |pages|
  {
    var (page, offset) := ScatterIndex(call, |pages|, pageSize, b, q);
    if 0 <= page < |pages| && 0 <= offset < pageSize
    then pages[page := pages[page][offset := call.updates[b][q]]]
    else pages
  }

  ghost predicate Enumerates(order: seq<(nat, nat)>, batch: nat, query: nat) {
    && (forall i, j :: 0 <= i < j < |order| ==> order[i] != order[j])
    && (forall i :: 0 <= i < |order| ==> order[i].0 < batch && order[i].1 < query)
    && (forall b: nat, q: nat :: b < batch && q < query ==> (b, q) in order)
  }

  /** The scatter with its updates applied in the given order; the runtime may choose any. */
  function Scatter<Row>(
      pages: Pages<Row>, call: Call<Row>, query: nat, logicalPages: nat, pageSize: nat,
      order: seq<(nat, nat)>): (after: Pages<Row>)
    requires Shaped(pages, pageSize) && ValidCall(call, query, logicalPages)
    requires forall i :: 0 <= i < |order| ==> order[i].0 < |call.tables| && order[i].1 < query
    ensures Shaped(after, pageSize) && |after| == |pages|
  {
    if order == [] then pages
    else
      var last := order[|order| - 1];
      ApplyUpdate(Scatter(pages, call, query, logicalPages, pageSize, order[..|order| - 1]),
                  call, query, logicalPages, pageSize, last.0, last.1)
  }

  class Cache<Row> {
    const pageSize: nat
    var pages: Pages<Row>

    ghost predicate Valid()
      reads this
    {
      Shaped(pages, pageSize)
    }

    constructor (pages: Pages<Row>, pageSize: nat)
      requires Shaped(pages, pageSize)
      ensures Valid() && this.pages == pages && this.pageSize == pageSize
    {
      this.pages := pages;
      this.pageSize := pageSize;
    }

    /** One update call, its elements landing in the runtime's order. */
    method Update(call: Call<Row>, query: nat, logicalPages: nat, order: seq<(nat, nat)>)
      requires Valid() && ValidCall(call, query, logicalPages)
      requires Enumerates(order, |call.tables|, query)
      modifies this
      ensures Valid()
      ensures pages == Scatter(old(pages), call, query, logicalPages, pageSize, order)
    {
      for i := 0 to |order|
        invariant Valid()
        invariant pages == Scatter(old(pages), call, query, logicalPages, pageSize, order[..i])
      {
        assert order[..i + 1][..i] == order[..i];
        var (b, q) := order[i];
        var (page, offset) := ScatterIndex(call, |pages|, pageSize, b, q);
        if 0 <= page < |pages| && 0 <= offset < pageSize {
          pages := pages[page := pages[page][offset := call.updates[b][q]]];
        }
      }
      assert order[..|order|] == order;
    }
  }

  // ----- which updates write, and where -----

  /** An update of an inactive row, past its row's length or masked out changes nothing. */
  lemma MaskedUpdate<Row>(
      pages: Pages<Row>, call: Call<Row>, query: nat, logicalPages: nat, pageSize: nat, b: nat, q: nat)
    requires Shaped(pages, pageSize) && ValidCall(call, query, logicalPages) && b < |call.tables| && q < query
    requires !call.active[b] || q >= call.lengths[b] || !call.writeMask[b][q]
    ensures ApplyUpdate(pages, call, query, logicalPages, pageSize, b, q) == pages
  {
  }

  /** Every other update at a position of its table writes its row in the cell the table names, and nothing else. */
  lemma AdmittedUpdate<Row>(
      pages: Pages<Row>, call: Call<Row>, query: nat, logicalPages: nat, pageSize: nat, b: nat, q: nat, k: nat,
      page: nat)
    requires Shaped(pages, pageSize) && ValidCall(call, query, logicalPages) && b < |call.tables| && q < query
    requires call.active[b] && q < call.lengths[b] && call.writeMask[b][q]
    requires k == call.starts[b] + q && k / pageSize < logicalPages
    requires page == call.tables[b][k / pageSize] && page < |pages|
    ensures ApplyUpdate(pages, call, query, logicalPages, pageSize, b, q)
            == pages[page := pages[page][k % pageSize := call.updates[b][q]]]
  {
    Split(k, pageSize);
  }

  /** The update is admitted and its table entry names the cell. */
  predicate Addresses<Row>(call: Call<Row>, pageSize: nat, b: nat, q: nat, page: nat, offset: nat)
    requires pageSize > 0 && b < |call.tables| == |call.starts| == |call.active| == |call.lengths| == |call.writeMask|
    requires q < |call.writeMask[b]|
  {
    var k := call.starts[b] + q;
    && call.active[b] && q < call.lengths[b] && call.writeMask[b][q]
    && k >= 0 && k / pageSize < |call.tables[b]| && call.tables[b][k / pageSize] == page && k % pageSize == offset
  }

  /** The update is not admitted, or its position exists and its table entry names another cell. */
  predicate Spares<Row>(call: Call<Row>, pageSize: nat, b: nat, q: nat, page: nat, offset: nat)
    requires pageSize > 0 && b < |call.tables| == |call.starts| == |call.active| == |call.lengths| == |call.writeMask|
    requires q < |call.writeMask[b]|
  {
    var k := call.starts[b] + q;
    || !call.active[b] || q >= call.lengths[b] || !call.writeMask[b][q]
    || (k >= 0 && k / pageSize < |call.tables[b]| && (call.tables[b][k / pageSize] != page || k % pageSize != offset))
  }

  lemma SparedUpdate<Row>(
      pages: Pages<Row>, call: Call<Row>, query: nat, logicalPages: nat, pageSize: nat, b: nat, q: nat, page: nat,
      offset: nat)
    requires Shaped(pages, pageSize) && ValidCall(call, query, logicalPages) && b < |call.tables| && q < query
    requires page < |pages| && offset < pageSize && Spares(call, pageSize, b, q, page, offset)
    ensures ApplyUpdate(pages, call, query, logicalPages, pageSize, b, q)[page][offset] == pages[page][offset]
  {
    if call.active[b] && q < call.lengths[b] && call.writeMask[b][q] {
      Split(call.starts[b] + q, pageSize);
    }
  }

  /** A cell every update of the call spares keeps its row, in any scatter order. */
  lemma {:induction false} SparedCell<Row>(
      pages: Pages<Row>, call: Call<Row>, query: nat, logicalPages: nat, pageSize: nat, order: seq<(nat, nat)>,
      page: nat, offset: nat)
    requires Shaped(pages, pageSize) && ValidCall(call, query, logicalPages) && page < |pages| && offset < pageSize
    requires forall i :: 0 <= i < |order| ==> order[i].0 < |call.tables| && order[i].1 < query
    requires forall i :: 0 <= i < |order| ==> Spares(call, pageSize, order[i].0, order[i].1, page, offset)
    ensures Scatter(pages, call, query, logicalPages, pageSize, order)[page][offset] == pages[page][offset]
  {
    if order != [] {
      var init, last := order[..|order| - 1], order[|order| - 1];
      SparedCell(pages, call, query, logicalPages, pageSize, init, page, offset);
      SparedUpdate(Scatter(pages, call, query, logicalPages, pageSize, init), call, query, logicalPages, pageSize,
        last.0, last.1, page, offset);
    }
  }

  /** A cell that one update of the call addresses and every other spares holds that update's row afterwards. */
  lemma {:induction false} AddressedCell<Row>(
      pages: Pages<Row>, call: Call<Row>, query: nat, logicalPages: nat, pageSize: nat, order: seq<(nat, nat)>,
      page: nat, offset: nat, b: nat, q: nat)
    requires Shaped(pages, pageSize) && ValidCall(call, query, logicalPages) && page < |pages| && offset < pageSize
    requires forall i :: 0 <= i < |order| ==> order[i].0 < |call.tables| && order[i].1 < query
    requires b < |call.tables| && q < query && (b, q) in order && Addresses(call, pageSize, b, q, page, offset)
    requires forall i :: 0 <= i < |order| && order[i] != (b, q) ==>
      Spares(call, pageSize, order[i].0, order[i].1, page, offset)
    ensures Scatter(pages, call, query, logicalPages, pageSize, order)[page][offset] == call.updates[b][q]
  {
    var init, last := order[..|order| - 1], order[|order| - 1];
    var before := Scatter(pages, call, query, logicalPages, pageSize, init);
    if last == (b, q) {
      AdmittedUpdate(before, call, query, logicalPages, pageSize, b, q, call.starts[b] + q, page);
    } else {
      assert order == init + [last];
      AddressedCell(pages, call, query, logicalPages, pageSize, init, page, offset, b, q);
      SparedUpdate(before, call, query, logicalPages, pageSize, last.0, last.1, page, offset);
    }
  }

  // ----- ownership and the logical view -----

  /** Logical page `l` of row `b` under `table`, when it is allocated. */
  predicate Mapped(table: seq<seq<int>>, physicalPages: nat, pageSize: nat, b: nat, k: nat) {
    && pageSize > 0 && b < |table| && k / pageSize < |table[b]|
    && 0 <= table[b][k / pageSize] < physicalPages
  }

  /** The update writes to logical page `l` of row `b`. */
  predicate Targets<Row>(call: Call<Row>, pageSize: nat, b': nat, q': nat, b: nat, l: nat)
    requires pageSize > 0 && b' < |call.starts|
  {
    b' == b && call.starts[b'] + q' >= 0 && (call.starts[b'] + q') / pageSize == l
  }

  /** An enabled update of another logical page that lands in the page. */
  predicate Intrudes<Row>(
      call: Call<Row>, physicalPages: nat, pageSize: nat, page: int, b': nat, q': nat, b: nat, l: nat)
    requires pageSize > 0 && b' < |call.tables| == |call.starts| == |call.active| == |call.lengths| == |call.writeMask|
    requires q' < |call.writeMask[b']| && |call.tables[b']| > 0
  {
    var (target, offset) := ScatterIndex(call, physicalPages, pageSize, b', q');
    Enabled(call, b', q') && !Targets(call, pageSize, b', q', b, l) && target == page && offset >= 0
  }

  /**
    During a call `page` backs logical page `l` of row `b`: enabled updates of that logical page resolve to it, and
    no other enabled update does. Other rows, disabled updates and unused table entries may name the same page.
  */
  ghost predicate Backs<Row>(
      call: Call<Row>, query: nat, logicalPages: nat, physicalPages: nat, pageSize: nat, page: int, b: nat, l: nat)
    requires ValidCall(call, query, logicalPages) && pageSize > 0
  {
    && b < |call.tables| && l < logicalPages
    && (forall b': nat, q': nat :: b' < |call.tables| && q' < query ==>
          !Intrudes(call, physicalPages, pageSize, page, b', q', b, l))
    && (forall q': nat :: q' < query && Enabled(call, b, q') && Targets(call, pageSize, b, q', b, l) ==>
          call.tables[b][l] == page)
  }

  /** What a host can check before a call: enabled positions exist and their entries name pages of the cache. */
  ghost predicate HostValidated<Row>(
      call: Call<Row>, query: nat, logicalPages: nat, physicalPages: nat, pageSize: nat)
    requires ValidCall(call, query, logicalPages)
  {
    forall b: nat, q: nat :: b < |call.tables| && q < query && Enabled(call, b, q) ==>
      var k := call.starts[b] + q;
      && k >= 0 && pageSize > 0 && k / pageSize < logicalPages
      && 0 <= call.tables[b][k / pageSize] < physicalPages
  }

  /** No enabled update of another logical page has the same table entry. */
  ghost predicate Unshared<Row>(call: Call<Row>, query: nat, logicalPages: nat, pageSize: nat, b: nat, l: nat)
    requires ValidCall(call, query, logicalPages) && pageSize > 0 && b < |call.tables| && l < logicalPages
  {
    forall b': nat, q': nat :: b' < |call.tables| && q' < query && Enabled(call, b', q') ==>
      var k := call.starts[b'] + q';
      k >= 0 && k / pageSize < logicalPages && !Targets(call, pageSize, b', q', b, l) ==>
        call.tables[b'][k / pageSize] != call.tables[b][l]
  }

  /** On a validated call an unshared entry backs its logical page. */
  lemma UnsharedBacks<Row>(
      call: Call<Row>, query: nat, logicalPages: nat, physicalPages: nat, pageSize: nat, b: nat, l: nat)
    requires ValidCall(call, query, logicalPages) && pageSize > 0 && b < |call.tables| && l < logicalPages
    requires HostValidated(call, query, logicalPages, physicalPages, pageSize)
    requires Unshared(call, query, logicalPages, pageSize, b, l)
    ensures Backs(call, query, logicalPages, physicalPages, pageSize, call.tables[b][l], b, l)
  {
    forall b': nat, q': nat | b' < |call.tables| && q' < query && Enabled(call, b', q')
      ensures !Intrudes(call, physicalPages, pageSize, call.tables[b][l], b', q', b, l)
    {
      assert call.starts[b'] + q' >= 0;
    }
  }

  /**
    Two rows name one page, the second row inactive: wherever the first row appends, each of its pages is backed.
  */
  lemma InactiveRowMayShare<Row>(call: Call<Row>, l: nat)
    requires ValidCall(call, 4, 3) && call.tables == [[3, 1, 4], [2, 0, 4]] && call.active == [true, false]
    requires 0 <= call.starts[0] <= 9 && call.writeMask[0] == [true, false, true, true] && call.lengths[0] == 3 && l < 3
    ensures HostValidated(call, 4, 3, 5, 4) && Backs(call, 4, 3, 5, 4, call.tables[0][l], 0, l)
  {
    forall b: nat, q: nat | b < 2 && q < 4 && Enabled(call, b, q)
      ensures b == 0 && 0 <= (call.starts[b] + q) / 4 < 3
    {
    }
    UnsharedBacks(call, 4, 3, 5, 4, 0, l);
  }

  function Read<Row>(pages: Pages<Row>, table: seq<seq<int>>, pageSize: nat, b: nat, k: nat): Row
    requires Shaped(pages, pageSize) && Mapped(table, |pages|, pageSize, b, k)
  {
    pages[table[b][k / pageSize]][k % pageSize]
  }

  /** The logical effect of one call on position `k` of row `b`. */
  function LogicalStep<Row>(call: Call<Row>, query: nat, b: nat, k: nat, before: Row): Row
    requires |call.tables| == |call.starts| == |call.lengths| == |call.active| == |call.writeMask| == |call.updates|
    requires b < |call.tables| && |call.writeMask[b]| == |call.updates[b]| == query
  {
    var q := k - call.starts[b];
    if 0 <= q < query && Enabled(call, b, q) then call.updates[b][q] else before
  }

  /** An update of the backed logical page lands on its position; another lands on another page. */
  lemma BackedIndex<Row>(
      call: Call<Row>, query: nat, logicalPages: nat, physicalPages: nat, pageSize: nat, page: int, b: nat, k: nat,
      b': nat, q': nat)
    requires ValidCall(call, query, logicalPages) && pageSize > 0 && b' < |call.tables| && q' < query
    requires Backs(call, query, logicalPages, physicalPages, pageSize, page, b, k / pageSize) && Enabled(call, b', q')
    ensures ScatterIndex(call, physicalPages, pageSize, b', q') == (page, k % pageSize) <==>
      b' == b && call.starts[b'] + q' == k
  {
    assert !Intrudes(call, physicalPages, pageSize, page, b', q', b, k / pageSize);
    if Targets(call, pageSize, b', q', b, k / pageSize) {
      SameOffset(call.starts[b'] + q', k, pageSize);
      TargetIndex(call, physicalPages, pageSize, b', q', k / pageSize);
    }
  }

  lemma SameOffset(k': nat, k: nat, d: nat)
    requires d > 0 && k' / d == k / d
    ensures k' % d == k % d <==> k' == k
  {
    Split(k', d);
    Split(k, d);
  }

  lemma TargetIndex<Row>(call: Call<Row>, physicalPages: nat, pageSize: nat, b: nat, q: nat, l: nat)
    requires pageSize > 0 && b < |call.tables| == |call.starts| == |call.active| == |call.lengths| == |call.writeMask|
    requires q < |call.writeMask[b]| && l < |call.tables[b]|
    requires Enabled(call, b, q) && Targets(call, pageSize, b, q, b, l)
    ensures ScatterIndex(call, physicalPages, pageSize, b, q)
            == (call.tables[b][l], (call.starts[b] + q) % pageSize)
  {
    Split(call.starts[b] + q, pageSize);
  }

  /** One update changes what is read at its own position, if enabled, and nothing else. */
  lemma UpdateCell<Row>(
      pages: Pages<Row>, call: Call<Row>, query: nat, logicalPages: nat, pageSize: nat, page: nat, b': nat, q': nat,
      b: nat, k: nat)
    requires Shaped(pages, pageSize) && ValidCall(call, query, logicalPages) && b' < |call.tables| && q' < query
    requires page < |pages| && Backs(call, query, logicalPages, |pages|, pageSize, page, b, k / pageSize)
    ensures ApplyUpdate(pages, call, query, logicalPages, pageSize, b', q')[page][k % pageSize]
            == if b' == b && call.starts[b] + q' == k && Enabled(call, b, q') then call.updates[b][q']
               else pages[page][k % pageSize]
  {
    if Enabled(call, b', q') {
      BackedIndex(call, query, logicalPages, |pages|, pageSize, page, b, k, b', q');
    }
  }

  /** A partial scatter has applied exactly the enabled updates among those performed so far. */
  lemma {:induction false} ScatterCell<Row>(
      pages: Pages<Row>, call: Call<Row>, query: nat, logicalPages: nat, pageSize: nat, order: seq<(nat, nat)>,
      page: nat, b: nat, k: nat)
    requires Shaped(pages, pageSize) && ValidCall(call, query, logicalPages)
    requires forall i :: 0 <= i < |order| ==> order[i].0 < |call.tables| && order[i].1 < query
    requires page < |pages| && Backs(call, query, logicalPages, |pages|, pageSize, page, b, k / pageSize)
    ensures
      var q := k - call.starts[b];
      var before := pages[page][k % pageSize];
      Scatter(pages, call, query, logicalPages, pageSize, order)[page][k % pageSize]
      == if q >= 0 && (b, q) in order then LogicalStep(call, query, b, k, before) else before
  {
    if order != [] {
      var init, last := order[..|order| - 1], order[|order| - 1];
      ScatterCell(pages, call, query, logicalPages, pageSize, init, page, b, k);
      assert order == init + [last];
      UpdateCell(Scatter(pages, call, query, logicalPages, pageSize, init), call, query, logicalPages, pageSize, page,
        last.0, last.1, b, k);
    }
  }

  /**
    Reading back after one call gives the logical sequence with the enabled positions overwritten, in any scatter
    order, wherever the page read is backed.
  */
  lemma CallRefinesLogical<Row>(
      pages: Pages<Row>, call: Call<Row>, query: nat, logicalPages: nat, table: seq<seq<int>>, pageSize: nat,
      order: seq<(nat, nat)>, b: nat, k: nat)
    requires Shaped(pages, pageSize) && ValidCall(call, query, logicalPages)
    requires Enumerates(order, |call.tables|, query) && Mapped(table, |pages|, pageSize, b, k)
    requires Backs(call, query, logicalPages, |pages|, pageSize, table[b][k / pageSize], b, k / pageSize)
    ensures Read(Scatter(pages, call, query, logicalPages, pageSize, order), table, pageSize, b, k)
            == LogicalStep(call, query, b, k, Read(pages, table, pageSize, b, k))
  {
    ScatterCell(pages, call, query, logicalPages, pageSize, order, table[b][k / pageSize], b, k);
    var q := k - call.starts[b];
    assert 0 <= q < query ==> (b, q) in order;
  }

  /** A physical cell no enabled update addresses keeps its row, whatever the table holds. */
  lemma {:induction false} UntargetedCell<Row>(
      pages: Pages<Row>, call: Call<Row>, query: nat, logicalPages: nat, pageSize: nat, order: seq<(nat, nat)>,
      page: nat, offset: nat)
    requires Shaped(pages, pageSize) && ValidCall(call, query, logicalPages)
    requires forall i :: 0 <= i < |order| ==> order[i].0 < |call.tables| && order[i].1 < query
    requires page < |pages| && offset < pageSize
    requires forall b: nat, q: nat :: b < |call.tables| && q < query && Enabled(call, b, q) ==>
      ScatterIndex(call, |pages|, pageSize, b, q) != (page, offset)
    ensures Scatter(pages, call, query, logicalPages, pageSize, order)[page][offset] == pages[page][offset]
  {
    if order != [] {
      UntargetedCell(pages, call, query, logicalPages, pageSize, order[..|order| - 1], page, offset);
    }
  }

  // ----- the condition is exact -----

  /** The call with other rows to write. */
  function With<Row>(call: Call<Row>, updates: seq<seq<Row>>): Call<Row> { call.(updates := updates) }

  ghost predicate SameExtents<Row>(call: Call<Row>, query: nat, updates: seq<seq<Row>>) {
    |updates| == |call.tables| && forall b :: 0 <= b < |updates| ==> |updates[b]| == query
  }

  /** One choice of contents, rows, order and position reads back as the logical step. */
  ghost predicate ReadsStep<Row>(
      call: Call<Row>, query: nat, logicalPages: nat, physicalPages: nat, pageSize: nat, page: nat, b: nat, l: nat,
      pages: Pages<Row>, updates: seq<seq<Row>>, order: seq<(nat, nat)>, k: nat)
    requires ValidCall(call, query, logicalPages) && pageSize > 0 && page < physicalPages && b < |call.tables|
  {
    && Shaped(pages, pageSize) && |pages| == physicalPages && SameExtents(call, query, updates)
    && Enumerates(order, |call.tables|, query) && k / pageSize == l ==>
      Scatter(pages, With(call, updates), query, logicalPages, pageSize, order)[page][k % pageSize]
      == LogicalStep(With(call, updates), query, b, k, pages[page][k % pageSize])
  }

  /** Reading logical page `l` of row `b` from `page` gives the logical step, for all contents, rows and orders. */
  ghost predicate Refines<Row(!new)>(
      call: Call<Row>, query: nat, logicalPages: nat, physicalPages: nat, pageSize: nat, page: nat, b: nat, l: nat)
    requires ValidCall(call, query, logicalPages) && pageSize > 0 && page < physicalPages && b < |call.tables|
  {
    forall pages: Pages<Row>, updates: seq<seq<Row>>, order: seq<(nat, nat)>, k: nat ::
      ReadsStep(call, query, logicalPages, physicalPages, pageSize, page, b, l, pages, updates, order, k)
  }

  function RowOrder(b: nat, query: nat): seq<(nat, nat)> {
    if query == 0 then [] else RowOrder(b, query - 1) + [(b, query - 1)]
  }

  function AnyOrder(batch: nat, query: nat): seq<(nat, nat)> {
    if batch == 0 then [] else AnyOrder(batch - 1, query) + RowOrder(batch - 1, query)
  }

  lemma {:induction false} RowOrderAt(b: nat, query: nat)
    ensures |RowOrder(b, query)| == query && forall i :: 0 <= i < query ==> RowOrder(b, query)[i] == (b, i)
  {
    if query > 0 {
      RowOrderAt(b, query - 1);
    }
  }

  lemma {:induction false} AnyOrderHas(batch: nat, query: nat, b: nat, q: nat) returns (i: nat)
    requires b < batch && q < query
    ensures i < |AnyOrder(batch, query)| && AnyOrder(batch, query)[i] == (b, q)
  {
    if b == batch - 1 {
      RowOrderAt(b, query);
      i := |AnyOrder(b, query)| + q;
    } else {
      i := AnyOrderHas(batch - 1, query, b, q);
    }
  }

  lemma {:induction false} AnyOrderDistinct(batch: nat, query: nat)
    ensures forall u :: u in AnyOrder(batch, query) ==> u.0 < batch && u.1 < query
    ensures Distinct(AnyOrder(batch, query))
  {
    if batch > 0 {
      AnyOrderDistinct(batch - 1, query);
      RowOrderAt(batch - 1, query);
      JoinedDistinct(AnyOrder(batch - 1, query), RowOrder(batch - 1, query));
    }
  }

  ghost predicate Distinct<T(!new)>(s: seq<T>) {
    forall i, j :: 0 <= i < j < |s| ==> s[i] != s[j]
  }

  lemma JoinedDistinct<T(!new)>(a: seq<T>, b: seq<T>)
    requires Distinct(a) && Distinct(b) && forall u :: u in a ==> u !in b
    ensures Distinct(a + b)
  {
    forall i, j | 0 <= i < j < |a + b| ensures (a + b)[i] != (a + b)[j] {
      if i < |a| <= j {
        assert a[i] in a && b[j - |a|] in b;
      }
    }
  }

  lemma AnyOrderEnumerates(batch: nat, query: nat)
    ensures Enumerates(AnyOrder(batch, query), batch, query)
  {
    AnyOrderDistinct(batch, query);
    forall b: nat, q: nat | b < batch && q < query ensures (b, q) in AnyOrder(batch, query) {
      var i := AnyOrderHas(batch, query, b, q);
    }
  }

  /** Some enumeration ends with a chosen update. */
  lemma OrderEndingWith(batch: nat, query: nat, u: (nat, nat)) returns (order: seq<(nat, nat)>)
    requires u.0 < batch && u.1 < query
    ensures Enumerates(order, batch, query) && |order| > 0 && order[|order| - 1] == u
  {
    var all := AnyOrder(batch, query);
    var i := AnyOrderHas(batch, query, u.0, u.1);
    order := Moved(all, i);
    AnyOrderDistinct(batch, query);
    MovedDistinct(all, i);
    forall b: nat, q: nat | b < batch && q < query ensures (b, q) in order {
      var j := AnyOrderHas(batch, query, b, q);
      MovedHolds(all, i, (b, q));
    }
    forall j | 0 <= j < |order| ensures order[j].0 < batch && order[j].1 < query {
      MovedFrom(all, i, j);
    }
  }

  /** The element at `i` moved to the end. */
  function Moved<T>(s: seq<T>, i: nat): (r: seq<T>)
    requires i < |s|
    ensures |r| == |s|
    ensures forall j :: 0 <= j < |s| ==> r[j] == if j < i then s[j] else if j < |s| - 1 then s[j + 1] else s[i]
  {
    s[..i] + s[i + 1..] + [s[i]]
  }

  lemma MovedHolds<T>(s: seq<T>, i: nat, u: T)
    requires i < |s| && u in s
    ensures u in Moved(s, i)
  {
    var j :| 0 <= j < |s| && s[j] == u;
    assert Moved(s, i)[if j < i then j else if j == i then |s| - 1 else j - 1] == u;
  }

  lemma MovedFrom<T>(s: seq<T>, i: nat, j: nat)
    requires i < |s| && j < |s|
    ensures Moved(s, i)[j] in s
  {
  }

  lemma MovedDistinct<T(!new)>(s: seq<T>, i: nat)
    requires i < |s| && Distinct(s)
    ensures Distinct(Moved(s, i))
  {
  }

  function Constant<T>(n: nat, m: nat, x: T): (rows: seq<seq<T>>)
    ensures |rows| == n && forall i :: 0 <= i < n ==> |rows[i]| == m && forall j :: 0 <= j < m ==> rows[i][j] == x
  {
    seq(n, i => seq(m, j => x))
  }

  /** An update of another logical page that lands in the page is read there. */
  lemma IntruderShows<Row(!new)>(
      call: Call<Row>, query: nat, logicalPages: nat, physicalPages: nat, pageSize: nat, page: nat, b: nat, l: nat,
      b': nat, q': nat, x: Row, y: Row)
    requires ValidCall(call, query, logicalPages) && pageSize > 0 && page < physicalPages && b < |call.tables|
    requires x != y && b' < |call.tables| && q' < query
    requires Intrudes(call, physicalPages, pageSize, page, b', q', b, l)
    ensures !Refines(call, query, logicalPages, physicalPages, pageSize, page, b, l)
  {
    var offset := ScatterIndex(call, physicalPages, pageSize, b', q').1;
    var k := l * pageSize + offset;
    RemainderBelow(call.starts[b'] + q', pageSize);
    QuotientOf(l, pageSize, offset);
    var clean := Constant(|call.tables|, query, x);
    var updates := clean[b' := clean[b'][q' := y]];
    var pages := Constant(physicalPages, pageSize, x);
    var order := OrderEndingWith(|call.tables|, query, (b', q'));
    var before := Scatter(pages, With(call, updates), query, logicalPages, pageSize, order[..|order| - 1]);
    assert ScatterIndex(With(call, updates), physicalPages, pageSize, b', q') == (page, offset);
    assert ApplyUpdate(before, With(call, updates), query, logicalPages, pageSize, b', q')[page][offset] == y;
    assert LogicalStep(With(call, updates), query, b, k, pages[page][k % pageSize]) == x;
    assert !ReadsStep(call, query, logicalPages, physicalPages, pageSize, page, b, l, pages, updates, order, k);
  }

  lemma RemainderBelow(a: int, d: int)
    requires d > 0
    ensures TruncatedRemainder(a, d) < d
  {
    if a >= 0 {
      Split(a, d);
    } else {
      Split(-a, d);
    }
  }

  /** With the logical page resolving elsewhere, an update that does not intrude never lands in the page. */
  lemma Misses<Row>(
      call: Call<Row>, query: nat, logicalPages: nat, physicalPages: nat, pageSize: nat, page: nat, b: nat, l: nat,
      a: nat, q: nat, offset: nat)
    requires ValidCall(call, query, logicalPages) && pageSize > 0 && page < physicalPages && b < |call.tables|
    requires l < logicalPages && call.tables[b][l] != page && a < |call.tables| && q < query && Enabled(call, a, q)
    requires !Intrudes(call, physicalPages, pageSize, page, a, q, b, l)
    ensures ScatterIndex(call, physicalPages, pageSize, a, q) != (page, offset)
  {
    if Targets(call, pageSize, a, q, b, l) {
      TargetIndex(call, physicalPages, pageSize, a, q, l);
    }
  }

  /** An update of the logical page that resolves elsewhere is missed. */
  lemma StrayShows<Row(!new)>(
      call: Call<Row>, query: nat, logicalPages: nat, physicalPages: nat, pageSize: nat, page: nat, b: nat, l: nat,
      q': nat, x: Row, y: Row)
    requires ValidCall(call, query, logicalPages) && pageSize > 0 && page < physicalPages && b < |call.tables|
    requires x != y && q' < query && Enabled(call, b, q') && Targets(call, pageSize, b, q', b, l)
    requires l < logicalPages && call.tables[b][l] != page
    requires forall a: nat, q: nat :: a < |call.tables| && q < query ==>
      !Intrudes(call, physicalPages, pageSize, page, a, q, b, l)
    ensures !Refines(call, query, logicalPages, physicalPages, pageSize, page, b, l)
  {
    var k := call.starts[b] + q';
    Split(k, pageSize);
    var pages, updates := Constant(physicalPages, pageSize, x), Constant(|call.tables|, query, y);
    var order := AnyOrder(|call.tables|, query);
    AnyOrderEnumerates(|call.tables|, query);
    var changed := With(call, updates);
    forall a: nat, q: nat | a < |call.tables| && q < query && Enabled(changed, a, q)
      ensures ScatterIndex(changed, physicalPages, pageSize, a, q) != (page, k % pageSize)
    {
      SameIndex(call, physicalPages, pageSize, a, q, updates);
      Misses(call, query, logicalPages, physicalPages, pageSize, page, b, l, a, q, k % pageSize);
    }
    UntargetedCell(pages, changed, query, logicalPages, pageSize, order, page, k % pageSize);
    assert !ReadsStep(call, query, logicalPages, physicalPages, pageSize, page, b, l, pages, updates, order, k);
  }

  /**
    A page read as a logical page refines it, for all contents, rows and orders, exactly if the call's masks, tables
    and positions make it back that logical page.
  */
  lemma CallRefinesExactly<Row(!new)>(
      call: Call<Row>, query: nat, logicalPages: nat, physicalPages: nat, pageSize: nat, page: nat, b: nat, l: nat,
      x: Row, y: Row)
    requires ValidCall(call, query, logicalPages) && pageSize > 0 && page < physicalPages && b < |call.tables|
    requires l < logicalPages && x != y
    ensures Refines(call, query, logicalPages, physicalPages, pageSize, page, b, l)
            <==> Backs(call, query, logicalPages, physicalPages, pageSize, page, b, l)
  {
    if Backs(call, query, logicalPages, physicalPages, pageSize, page, b, l) {
      forall pages: Pages<Row>, updates: seq<seq<Row>>, order: seq<(nat, nat)>, k: nat
        ensures ReadsStep(call, query, logicalPages, physicalPages, pageSize, page, b, l, pages, updates, order, k)
      {
        BackedReads(call, query, logicalPages, physicalPages, pageSize, page, b, l, pages, updates, order, k);
      }
    } else if exists a: nat, q: nat ::
      a < |call.tables| && q < query && Intrudes(call, physicalPages, pageSize, page, a, q, b, l)
    {
      var a: nat, q: nat :|
        a < |call.tables| && q < query && Intrudes(call, physicalPages, pageSize, page, a, q, b, l);
      IntruderShows(call, query, logicalPages, physicalPages, pageSize, page, b, l, a, q, x, y);
    } else {
      var q': nat :| q' < query && Enabled(call, b, q') && Targets(call, pageSize, b, q', b, l)
        && call.tables[b][l] != page;
      StrayShows(call, query, logicalPages, physicalPages, pageSize, page, b, l, q', x, y);
    }
  }

  lemma BackedReads<Row>(
      call: Call<Row>, query: nat, logicalPages: nat, physicalPages: nat, pageSize: nat, page: nat, b: nat, l: nat,
      pages: Pages<Row>, updates: seq<seq<Row>>, order: seq<(nat, nat)>, k: nat)
    requires ValidCall(call, query, logicalPages) && pageSize > 0 && page < physicalPages && b < |call.tables|
    requires Backs(call, query, logicalPages, physicalPages, pageSize, page, b, l)
    ensures ReadsStep(call, query, logicalPages, physicalPages, pageSize, page, b, l, pages, updates, order, k)
  {
    if Shaped(pages, pageSize) && |pages| == physicalPages && SameExtents(call, query, updates)
      && Enumerates(order, |call.tables|, query) && k / pageSize == l
    {
      SameBacks(call, query, logicalPages, physicalPages, pageSize, page, b, l, updates);
      ScatterCell(pages, With(call, updates), query, logicalPages, pageSize, order, page, b, k);
      var q := k - call.starts[b];
      assert 0 <= q < query ==> (b, q) in order;
    }
  }

  /** The condition does not read the rows to write. */
  lemma SameBacks<Row>(
      call: Call<Row>, query: nat, logicalPages: nat, physicalPages: nat, pageSize: nat, page: int, b: nat, l: nat,
      updates: seq<seq<Row>>)
    requires ValidCall(call, query, logicalPages) && pageSize > 0 && SameExtents(call, query, updates)
    requires Backs(call, query, logicalPages, physicalPages, pageSize, page, b, l)
    ensures Backs(With(call, updates), query, logicalPages, physicalPages, pageSize, page, b, l)
  {
    var changed := With(call, updates);
    forall a: nat, q: nat | a < |call.tables| && q < query
      ensures !Intrudes(changed, physicalPages, pageSize, page, a, q, b, l)
    {
      assert !Intrudes(call, physicalPages, pageSize, page, a, q, b, l);
      SameIndex(call, physicalPages, pageSize, a, q, updates);
    }
    forall q: nat | q < query && Enabled(changed, b, q) && Targets(changed, pageSize, b, q, b, l)
      ensures changed.tables[b][l] == page
    {
      assert Enabled(call, b, q) && Targets(call, pageSize, b, q, b, l);
    }
  }

  lemma SameIndex<Row>(
      call: Call<Row>, physicalPages: nat, pageSize: nat, b: nat, q: nat, updates: seq<seq<Row>>)
    requires pageSize > 0 && b < |call.tables| == |call.starts| == |call.active| == |call.lengths| == |call.writeMask|
    requires q < |call.writeMask[b]| && |call.tables[b]| > 0
    ensures Enabled(With(call, updates), b, q) == Enabled(call, b, q)
    ensures ScatterIndex(With(call, updates), physicalPages, pageSize, b, q)
            == ScatterIndex(call, physicalPages, pageSize, b, q)
  {
  }

  // ----- runs of calls -----

  datatype Step<Row> = Step(call: Call<Row>, order: seq<(nat, nat)>)

  ghost predicate ValidRun<Row>(steps: seq<Step<Row>>, query: nat, logicalPages: nat) {
    forall i :: 0 <= i < |steps| ==>
      ValidCall(steps[i].call, query, logicalPages) && Enumerates(steps[i].order, |steps[i].call.tables|, query)
  }

  /** Every call of the run backs the logical page by the same physical page; other pages may come and go. */
  ghost predicate BacksRun<Row>(
      steps: seq<Step<Row>>, query: nat, logicalPages: nat, physicalPages: nat, pageSize: nat, page: int, b: nat,
      l: nat)
    requires ValidRun(steps, query, logicalPages) && pageSize > 0
  {
    forall i :: 0 <= i < |steps| ==> Backs(steps[i].call, query, logicalPages, physicalPages, pageSize, page, b, l)
  }

  function Run<Row>(
      pages: Pages<Row>, steps: seq<Step<Row>>, query: nat, logicalPages: nat, pageSize: nat): (after: Pages<Row>)
    requires Shaped(pages, pageSize) && ValidRun(steps, query, logicalPages)
    ensures Shaped(after, pageSize) && |after| == |pages|
  {
    if steps == [] then pages
    else
      var before := Run(pages, steps[..|steps| - 1], query, logicalPages, pageSize);
      Scatter(before, steps[|steps| - 1].call, query, logicalPages, pageSize, steps[|steps| - 1].order)
  }

  /** The same run on one logical position. */
  function LogicalRun<Row>(
      initial: Row, steps: seq<Step<Row>>, query: nat, logicalPages: nat, b: nat, k: nat): Row
    requires ValidRun(steps, query, logicalPages)
    requires forall i :: 0 <= i < |steps| ==> b < |steps[i].call.tables|
  {
    if steps == [] then initial
    else
      LogicalStep(steps[|steps| - 1].call, query, b, k,
        LogicalRun(initial, steps[..|steps| - 1], query, logicalPages, b, k))
  }

  /** Over any run the cache refines its logical sequences. */
  lemma {:induction false} RunRefinesLogical<Row>(
      pages: Pages<Row>, steps: seq<Step<Row>>, query: nat, logicalPages: nat, table: seq<seq<int>>, pageSize: nat,
      b: nat, k: nat)
    requires Shaped(pages, pageSize) && ValidRun(steps, query, logicalPages)
    requires Mapped(table, |pages|, pageSize, b, k)
    requires BacksRun(steps, query, logicalPages, |pages|, pageSize, table[b][k / pageSize], b, k / pageSize)
    ensures Read(Run(pages, steps, query, logicalPages, pageSize), table, pageSize, b, k)
            == LogicalRun(Read(pages, table, pageSize, b, k), steps, query, logicalPages, b, k)
  {
    if steps != [] {
      var init, last := steps[..|steps| - 1], steps[|steps| - 1];
      RunRefinesLogical(pages, init, query, logicalPages, table, pageSize, b, k);
      CallRefinesLogical(Run(pages, init, query, logicalPages, pageSize), last.call, query, logicalPages, table,
        pageSize, last.order, b, k);
    }
  }
}
