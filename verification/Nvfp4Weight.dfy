/**
  A compact weight as the kernels hold it: rows laid end to end, checked once when it is built.
  What the converter writes passes that check and keeps its error bound.
*/
module Nvfp4Weight {
  import opened Arithmetic
  import opened Wrappers
  import E4m3fn
  import opened Nvfp4Row
  import opened Nvfp4Convert

  /** A compact weight: rows of packed bytes and rows of scale codes laid end to end, one factor for all. */
  datatype Weight = Weight(rows: nat, width: nat, payload: seq<bv8>, scales: seq<nat>, g: real)

  /** `row * extent`, counted one row at a time. */
  function RowStart(row: nat, extent: nat): nat {
    if row == 0 then 0 else RowStart(row - 1, extent) + extent
  }

  lemma {:induction false} RowStartIsProduct(row: nat, extent: nat)
    ensures RowStart(row, extent) == row * extent
  {
    if row > 0 {
      RowStartIsProduct(row - 1, extent);
      Distribute(row, -1, extent);
    }
  }

  ghost predicate WeightExtents(w: Weight) {
    |w.payload| == RowStart(w.rows, Halved(w.width)) && |w.scales| == RowStart(w.rows, Blocks(w.width))
  }

  /** A row starts a whole row before the end. */
  lemma {:induction false} RowFits(row: nat, rows: nat, extent: nat)
    requires row < rows
    ensures RowStart(row, extent) + extent <= RowStart(rows, extent)
  {
    if row + 1 < rows {
      RowFits(row, rows - 1, extent);
    }
  }

  function Slice<T>(flat: seq<T>, row: nat, rows: nat, extent: nat): (r: seq<T>)
    requires row < rows && |flat| == RowStart(rows, extent)
    ensures |r| == extent
  {
    RowFits(row, rows, extent);
    flat[RowStart(row, extent)..RowStart(row, extent) + extent]
  }

  function RowOf(w: Weight, row: nat): (r: Row)
    requires WeightExtents(w) && row < w.rows
    ensures Extents(r, w.width)
  {
    Row(Slice(w.payload, row, w.rows, Halved(w.width)), Slice(w.scales, row, w.rows, Blocks(w.width)))
  }

  ghost predicate Loaded(w: Weight) {
    && w.width > 0 && w.g > 0.0 && WeightExtents(w)
    && (forall row: nat | row < w.rows :: Accepted(RowOf(w, row), w.g, w.width))
  }

  /** The scalar form of one element: a nibble of the flat payload times its effective scale. */
  function WeightValue(w: Weight, row: nat, column: nat): real
    requires w.g > 0.0 && WeightExtents(w) && row < w.rows && column < w.width
  {
    RowFits(row, w.rows, Halved(w.width));
    RowFits(row, w.rows, Blocks(w.width));
    Column(
      Half(w.payload[RowStart(row, Halved(w.width)) + column / 2], column % 2 == 1),
      w.scales[RowStart(row, Blocks(w.width)) + column / 16],
      w.g)
  }

  /** It is the nibble's value times the product of its block's scale and the weight's factor. */
  lemma WeightValueIsFormula(w: Weight, row: nat, column: nat, byte: nat, scale: nat)
    requires w.g > 0.0 && WeightExtents(w) && row < w.rows && column < w.width
    requires byte == RowStart(row, Halved(w.width)) + column / 2
    requires scale == RowStart(row, Blocks(w.width)) + column / 16
    ensures byte < |w.payload| && scale < |w.scales|
    ensures WeightValue(w, row, column) == Formula(w.payload[byte], column % 2 == 0, w.scales[scale], w.g)
  {
    WeightCell(w, row, column);
    FormulaIsColumn(w.payload[byte], column % 2 == 1, w.scales[scale], w.g);
  }

  lemma WeightValueIsColumn(w: Weight, row: nat, column: nat)
    requires w.g > 0.0 && WeightExtents(w) && row < w.rows && column < w.width
    ensures WeightValue(w, row, column) == ColumnAt(RowOf(w, row), w.g, column)
  {
    WeightCell(w, row, column);
  }

  /** The flat weight and the row hold the same code and scale for a column. */
  lemma WeightCell(w: Weight, row: nat, column: nat)
    requires WeightExtents(w) && row < w.rows && column < w.width
    ensures RowStart(row, Halved(w.width)) + column / 2 < |w.payload|
    ensures RowStart(row, Blocks(w.width)) + column / 16 < |w.scales|
    ensures Half(w.payload[RowStart(row, Halved(w.width)) + column / 2], column % 2 == 1)
      == Nibble(RowOf(w, row).payload, column)
    ensures w.scales[RowStart(row, Blocks(w.width)) + column / 16] == RowOf(w, row).scales[column / 16]
  {
    RowFits(row, w.rows, Halved(w.width));
    RowFits(row, w.rows, Blocks(w.width));
  }

  // ----- loading -----

  method CheckZeroBlock(row: Row, width: nat, start: nat, end: nat) returns (ok: bool)
    requires Extents(row, width) && start <= end <= width
    ensures ok <==> forall column: nat | start <= column < end :: Nibble(row.payload, column) & 7 == 0
  {
    for column := start to end
      invariant forall j: nat | start <= j < column :: Nibble(row.payload, j) & 7 == 0
    {
      if Nibble(row.payload, column) & 7 != 0 {
        return false;
      }
    }
    return true;
  }

  method CheckBlock(row: Row, width: nat, b: nat) returns (ok: bool)
    requires Extents(row, width) && b < Blocks(width) && b * 16 < width
    ensures ok <==> LegalRange(row, width, b * 16, BlockEnd(width, b))
  {
    var start, end := b * 16, BlockEnd(width, b);
    RangeIsColumns(row, width, start, end);
    var zero := E4m3fn.Decode(row.scales[b]) == 0.0;
    forall column: nat | start <= column < end
      ensures LegalColumn(row, column) <==> LegalScale(row.scales[b]) && (zero ==> Nibble(row.payload, column) & 7 == 0)
    {
      QuotientOf(b, 16, column - b * 16);
    }
    if !LegalScale(row.scales[b]) {
      assert !LegalColumn(row, start);
      return false;
    }
    ok := true;
    if zero {
      ok := CheckZeroBlock(row, width, start, end);
    }
  }

  method CheckRow(row: Row, g: real, width: nat) returns (ok: bool)
    requires g > 0.0 && Extents(row, width)
    ensures ok <==> Accepted(row, g, width)
  {
    if !PaddingIsZero(row.payload, width) {
      return false;
    }
    ok := CheckBlocks(row, width);
  }

  method CheckBlocks(row: Row, width: nat) returns (ok: bool)
    requires Extents(row, width)
    ensures ok <==> LegalRange(row, width, 0, width)
  {
    for b := 0 to Blocks(width)
      invariant LegalRange(row, width, 0, BlockStart(width, b))
    {
      BlockLimits(width, b);
      var legal := CheckBlock(row, width, b);
      RangesJoin(row, width, 0, BlockStart(width, b), BlockStart(width, b + 1));
      if !legal {
        RangesJoin(row, width, 0, BlockStart(width, b + 1), width);
        return false;
      }
    }
    BlockLimits(width, Blocks(width));
    return true;
  }

  /** Builds the weight, or refuses anything its rows could not be decoded from. */
  method LoadWeight(
      rows: nat, width: nat, payload: seq<bv8>, scales: seq<nat>, g: real) returns (result: Option<Weight>)
    ensures result.Some? <==> Loaded(Weight(rows, width, payload, scales, g))
    ensures result.Some? ==> result.value == Weight(rows, width, payload, scales, g)
  {
    var w := Weight(rows, width, payload, scales, g);
    RowStartIsProduct(rows, Halved(width));
    RowStartIsProduct(rows, Blocks(width));
    if width == 0 || g <= 0.0 || |payload| != rows * Halved(width) || |scales| != rows * Blocks(width) {
      return None;
    }
    for row := 0 to rows
      invariant forall r: nat | r < row :: Accepted(RowOf(w, r), g, width)
    {
      var ok := CheckRow(RowOf(w, row), g, width);
      if !ok {
        return None;
      }
    }
    return Some(w);
  }

  // ----- from the converter to the kernels -----

  function Flatten<T>(parts: seq<seq<T>>): seq<T> {
    if parts == [] then [] else Flatten(parts[..|parts| - 1]) + parts[|parts| - 1]
  }

  ghost predicate Uniform<T>(parts: seq<seq<T>>, extent: nat) {
    forall r: nat | r < |parts| :: |parts[r]| == extent
  }

  lemma {:induction false} FlattenExtent<T>(parts: seq<seq<T>>, extent: nat)
    requires Uniform(parts, extent)
    ensures |Flatten(parts)| == RowStart(|parts|, extent)
  {
    if parts != [] {
      FlattenExtent(parts[..|parts| - 1], extent);
    }
  }

  /** Laying uniform rows end to end keeps each of them in its place. */
  lemma {:induction false} FlattenSlice<T>(parts: seq<seq<T>>, extent: nat, row: nat)
    requires Uniform(parts, extent) && row < |parts|
    ensures |Flatten(parts)| == RowStart(|parts|, extent)
    ensures Slice(Flatten(parts), row, |parts|, extent) == parts[row]
  {
    var last := |parts| - 1;
    FlattenExtent(parts, extent);
    FlattenExtent(parts[..last], extent);
    if row < last {
      FlattenSlice(parts[..last], extent, row);
      RowFits(row, last, extent);
    }
  }

  function Payloads(rows: seq<Row>): seq<seq<bv8>> {
    seq(|rows|, r requires 0 <= r < |rows| => rows[r].payload)
  }

  function ScaleRows(rows: seq<Row>): seq<seq<nat>> {
    seq(|rows|, r requires 0 <= r < |rows| => rows[r].scales)
  }

  /** The published form of a converted tensor. */
  function Published(tensor: Tensor, width: nat): Weight {
    Weight(|tensor.rows|, width, Flatten(Payloads(tensor.rows)), Flatten(ScaleRows(tensor.rows)), tensor.globalScale)
  }

  lemma PublishedRow(tensor: Tensor, width: nat, row: nat)
    requires row < |tensor.rows| && forall r: nat | r < |tensor.rows| :: Extents(tensor.rows[r], width)
    ensures WeightExtents(Published(tensor, width)) && RowOf(Published(tensor, width), row) == tensor.rows[row]
  {
    FlattenSlice(Payloads(tensor.rows), Halved(width), row);
    FlattenSlice(ScaleRows(tensor.rows), Blocks(width), row);
  }

  /**
    The kernels load every tensor the converter publishes, and each element they compute lies
    within the promised distance of the source element.
  */
  lemma PublishedIsFaithful(rows: seq<seq<real>>, width: nat, row: nat, column: nat)
    requires forall r: nat | r < |rows| :: |rows[r]| == width
    requires row < |rows| && column < width
    ensures Loaded(Published(QuantizedTensor(rows), width))
    ensures
      var w := Published(QuantizedTensor(rows), width);
      Close(WeightValue(w, row, column), rows[row][column], E4m3fn.Decode(RowOf(w, row).scales[column / 16]), w.g)
  {
    var tensor := QuantizedTensor(rows);
    var w := Published(tensor, width);
    forall r: nat | r < |rows| ensures Accepted(tensor.rows[r], tensor.globalScale, width) {
      TensorError(rows, r, 0);
    }
    forall r: nat | r < |rows| ensures WeightExtents(w) && RowOf(w, r) == tensor.rows[r] {
      PublishedRow(tensor, width, r);
    }
    TensorError(rows, row, column);
    PublishedRow(tensor, width, row);
    WeightValueIsColumn(w, row, column);
  }
}
