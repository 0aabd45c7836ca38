/**
  The offline converter: two passes over a tensor in chunks of rows, one for the tensor-wide
  scale and one that pads, scales, buckets and packs, then a validation of its own output.
  It writes exactly the rows the runtime's quantiser writes, whatever the chunk size.
*/
module Nvfp4Convert {
  import opened Wrappers
  import opened Nearest
  import E4m3fn
  import E2m1
  import opened Nvfp4Row

  // ----- one padded row -----

  function Zeros(n: nat): seq<real> { seq(n, i => 0.0) }

  function Padding(width: nat): nat { Blocks(width) * 16 - width }

  function Padded(values: seq<real>): seq<real> { values + Zeros(Padding(|values|)) }

  function TensorScale(padded: seq<real>, g: real, b: nat): nat
    requires g > 0.0 && b * 16 + 16 <= |padded|
  {
    ScaleCode(MaxAbs(padded[b * 16..b * 16 + 16]), g)
  }

  /** The element divided by its effective scale, or zero under a zero scale; then bucketed and signed. */
  function TensorCode(x: real, e: real): bv8 {
    E2m1.Code(if e == 0.0 then 0.0 else x / e)
  }

  function PaddedCode(padded: seq<real>, g: real, j: nat): bv8
    requires g > 0.0 && |padded| % 16 == 0 && j < |padded|
  {
    TensorCode(padded[j], EffectiveScale(E4m3fn.Decode(TensorScale(padded, g, j / 16)), g))
  }

  /** Codes of the padded row cut back to the logical width. */
  function TensorCodes(padded: seq<real>, g: real, width: nat): seq<bv8>
    requires g > 0.0 && |padded| % 16 == 0 && width <= |padded|
  {
    seq(width, j requires 0 <= j < width => PaddedCode(padded, g, j))
  }

  /** Even columns against odd ones, after an odd width gained a zero column. */
  function TensorPack(codes: seq<bv8>): seq<bv8> {
    var even := if |codes| % 2 == 1 then codes + [0] else codes;
    seq(|even| / 2, i requires 0 <= i < |even| / 2 => Pair(even[2 * i], even[2 * i + 1]))
  }

  function TensorScales(padded: seq<real>, g: real): seq<nat>
    requires g > 0.0 && |padded| % 16 == 0
  {
    seq(|padded| / 16, b requires 0 <= b < |padded| / 16 => TensorScale(padded, g, b))
  }

  function TensorRow(values: seq<real>, g: real): Row
    requires g > 0.0
  {
    Row(TensorPack(TensorCodes(Padded(values), g, |values|)), TensorScales(Padded(values), g))
  }

  lemma {:induction false} MaxAbsOfZeros(values: seq<real>, n: nat)
    ensures MaxAbs(values + Zeros(n)) == MaxAbs(values)
  {
    if n > 0 {
      assert (values + Zeros(n))[..|values| + n - 1] == values + Zeros(n - 1);
      MaxAbsOfZeros(values, n - 1);
    } else {
      assert values + Zeros(0) == values;
    }
  }

  /** Zero padding never changes a block's scale. */
  lemma PaddingKeepsScale(values: seq<real>, g: real, b: nat)
    requires g > 0.0 && b * 16 < |values|
    ensures TensorScale(Padded(values), g, b) == ScaleAt(values, g, b)
  {
    var part := BlockOf(values, b);
    assert Padded(values)[b * 16..b * 16 + 16] == part + Zeros(16 - |part|);
    MaxAbsOfZeros(part, 16 - |part|);
  }

  lemma TensorCodeIsElementCode(x: real, g: real, scale: nat)
    requires g > 0.0 && scale <= E4m3fn.MAX_CODE
    ensures TensorCode(x, EffectiveScale(E4m3fn.Decode(scale), g)) == ElementCode(x, g, scale)
  {
    E4m3fn.DecodeRange(scale);
    var s := E4m3fn.Decode(scale);
    EffectiveIsZero(s, g);
    ZeroCode();
  }

  lemma EffectiveIsZero(s: real, g: real)
    requires s >= 0.0 && g > 0.0
    ensures EffectiveScale(s, g) == 0.0 <==> s == 0.0
  {
  }

  lemma ZeroCode()
    ensures E2m1.Code(0.0) == 0
  {
    E2m1.BucketizeValue(0.0);
  }

  lemma PaddedCodeIsCode(values: seq<real>, g: real, j: nat)
    requires g > 0.0 && j < |values|
    ensures PaddedCode(Padded(values), g, j) == CodeAt(values, g, j)
  {
    PaddingKeepsScale(values, g, j / 16);
    TensorCodeIsElementCode(values[j], g, ScaleAt(values, g, j / 16));
  }

  lemma TensorPackIsPack(codes: seq<bv8>)
    ensures TensorPack(codes) == Pack(codes)
  {
  }

  /** The converter's padded row program writes what the runtime's row quantiser writes. */
  lemma TensorRowIsQuantized(values: seq<real>, g: real)
    requires g > 0.0
    ensures TensorRow(values, g) == Quantized(values, g)
  {
    CodesAgree(values, g);
    TensorPackIsPack(Codes(values, g));
    ScalesAgree(values, g);
  }

  lemma CodesAgree(values: seq<real>, g: real)
    requires g > 0.0
    ensures TensorCodes(Padded(values), g, |values|) == Codes(values, g)
  {
    var tensor, row := TensorCodes(Padded(values), g, |values|), Codes(values, g);
    forall j: nat | j < |values| ensures tensor[j] == row[j] {
      CodeAgrees(values, g, j, tensor, row);
    }
  }

  lemma CodeAgrees(values: seq<real>, g: real, j: nat, tensor: seq<bv8>, row: seq<bv8>)
    requires g > 0.0 && j < |values| && tensor == TensorCodes(Padded(values), g, |values|) && row == Codes(values, g)
    ensures tensor[j] == row[j]
  {
    PaddedCodeIsCode(values, g, j);
  }

  lemma ScalesAgree(values: seq<real>, g: real)
    requires g > 0.0
    ensures TensorScales(Padded(values), g) == Scales(values, g)
  {
    forall b: nat | b < Blocks(|values|) ensures TensorScales(Padded(values), g)[b] == Scales(values, g)[b] {
      PaddingKeepsScale(values, g, b);
    }
  }

  // ----- the whole tensor -----

  function Maximum(rows: seq<seq<real>>): (m: real)
    ensures m >= 0.0
  {
    if rows == [] then 0.0 else Max(Maximum(rows[..|rows| - 1]), MaxAbs(rows[|rows| - 1]))
  }

  lemma {:induction false} MaximumAppend(a: seq<seq<real>>, b: seq<seq<real>>)
    ensures Maximum(a + b) == Max(Maximum(a), Maximum(b))
  {
    if b == [] {
      assert a + b == a;
    } else {
      assert (a + b)[..|a + b| - 1] == a + b[..|b| - 1];
      MaximumAppend(a, b[..|b| - 1]);
    }
  }

  lemma {:induction false} MaximumBounds(rows: seq<seq<real>>, r: nat)
    requires r < |rows|
    ensures MaxAbs(rows[r]) <= Maximum(rows)
  {
    if r < |rows| - 1 {
      MaximumBounds(rows[..|rows| - 1], r);
    }
  }

  function GlobalScale(maximum: real): (g: real)
    requires maximum >= 0.0
    ensures g > 0.0 && maximum <= 2688.0 * g
    ensures if maximum > 0.0 then maximum == 2688.0 * g else g == 1.0
  {
    if maximum == 0.0 then 1.0 else maximum / 2688.0
  }

  datatype Tensor = Tensor(rows: seq<Row>, globalScale: real)

  function QuantizedRows(rows: seq<seq<real>>, g: real): seq<Row>
    requires g > 0.0
  {
    seq(|rows|, r requires 0 <= r < |rows| => Quantized(rows[r], g))
  }

  function QuantizedTensor(rows: seq<seq<real>>): Tensor {
    var g := GlobalScale(Maximum(rows));
    Tensor(QuantizedRows(rows, g), g)
  }

  /** What the converter checks of each row it wrote. */
  predicate RowPasses(row: Row, width: nat) {
    && |row.payload| == Halved(width) && |row.scales| == Blocks(width)
    && (width % 2 == 1 ==> row.payload[|row.payload| - 1] & 0xF0 == 0)
    && forall b | 0 <= b < |row.scales| :: row.scales[b] != 0x7F && row.scales[b] < 0x80
  }

  /** A row passes exactly if its extents are right, its padding is zero and every scale byte is a legal scale. */
  lemma PassesExactly(row: Row, width: nat)
    ensures RowPasses(row, width) <==>
      && Extents(row, width) && PaddingIsZero(row.payload, width)
      && forall b | 0 <= b < |row.scales| :: LegalScale(row.scales[b])
  {
  }

  lemma QuantizedPasses(values: seq<real>, g: real)
    requires g > 0.0
    ensures RowPasses(Quantized(values, g), |values|)
  {
    QuantizedIsAccepted(values, g);
    forall b | 0 <= b < Blocks(|values|) ensures Quantized(values, g).scales[b] <= E4m3fn.MAX_CODE {
      assert Quantized(values, g).scales[b] == ScaleAt(values, g, b);
    }
  }

  method TensorMaximum(rows: seq<seq<real>>, chunk: nat) returns (maximum: real)
    requires chunk > 0
    ensures maximum == Maximum(rows)
  {
    maximum := 0.0;
    var start := 0;
    while start < |rows|
      invariant 0 <= start <= |rows| && maximum == Maximum(rows[..start])
    {
      var end := if start + chunk <= |rows| then start + chunk else |rows|;
      MaximumAppend(rows[..start], rows[start..end]);
      assert rows[..start] + rows[start..end] == rows[..end];
      maximum := Max(maximum, Maximum(rows[start..end]));
      start := end;
    }
    assert rows[..start] == rows;
  }

  method QuantizeChunk(rows: seq<seq<real>>, g: real) returns (written: seq<Row>)
    requires g > 0.0
    ensures written == QuantizedRows(rows, g)
  {
    written := seq(|rows|, r requires 0 <= r < |rows| => TensorRow(rows[r], g));
    forall r | 0 <= r < |rows| ensures TensorRow(rows[r], g) == Quantized(rows[r], g) {
      TensorRowIsQuantized(rows[r], g);
    }
  }

  /** A tensor without rows or without columns is refused; every other one is written and passes its own validation. */
  method QuantizeTensor(rows: seq<seq<real>>, width: nat, chunk: nat) returns (result: Option<Tensor>)
    requires chunk > 0 && forall r | 0 <= r < |rows| :: |rows[r]| == width
    ensures result == if width == 0 || rows == [] then None else Some(QuantizedTensor(rows))
  {
    if width == 0 || rows == [] {
      return None;
    }
    var maximum := TensorMaximum(rows, chunk);
    var g := GlobalScale(maximum);
    var written := [];
    var start := 0;
    while start < |rows|
      invariant 0 <= start <= |rows| && written == QuantizedRows(rows[..start], g)
    {
      var end := if start + chunk <= |rows| then start + chunk else |rows|;
      var part := QuantizeChunk(rows[start..end], g);
      written := written + part;
      start := end;
    }
    assert rows[..start] == rows;
    if exists r | 0 <= r < |written| :: !RowPasses(written[r], width) {
      RowsPass(rows, width, g);
      return None;
    }
    return Some(Tensor(written, g));
  }

  lemma RowsPass(rows: seq<seq<real>>, width: nat, g: real)
    requires g > 0.0 && forall r | 0 <= r < |rows| :: |rows[r]| == width
    ensures forall r | 0 <= r < |rows| :: RowPasses(QuantizedRows(rows, g)[r], width)
  {
    forall r | 0 <= r < |rows| ensures RowPasses(QuantizedRows(rows, g)[r], width) {
      QuantizedPasses(rows[r], g);
    }
  }

  /**
    End to end: the decoder accepts every row the converter wrote and returns each element within
    one effective scale of its source, or within 3/512 of the tensor-wide scale.
  */
  lemma TensorError(rows: seq<seq<real>>, r: nat, column: nat)
    requires r < |rows| && column < |rows[r]|
    ensures
      var tensor := QuantizedTensor(rows);
      && Accepted(tensor.rows[r], tensor.globalScale, |rows[r]|)
      && Close(ColumnAt(tensor.rows[r], tensor.globalScale, column), rows[r][column],
           E4m3fn.Decode(tensor.rows[r].scales[column / 16]), tensor.globalScale)
  {
    var g := GlobalScale(Maximum(rows));
    MaximumBounds(rows, r);
    forall j: nat | j < |rows[r]| ensures Abs(rows[r][j]) <= 2688.0 * g {
      MaxAbsBounds(rows[r], j);
    }
    QuantizedIsAccepted(rows[r], g);
    QuantizedError(rows[r], g, column);
  }

  /** The largest elements of a tensor survive quantisation exactly: nothing of the range is wasted. */
  lemma LargestSurvives(rows: seq<seq<real>>, r: nat, column: nat)
    requires r < |rows| && column < |rows[r]| && Abs(rows[r][column]) == Maximum(rows) > 0.0
    ensures Extents(QuantizedTensor(rows).rows[r], |rows[r]|)
    ensures ColumnAt(QuantizedTensor(rows).rows[r], QuantizedTensor(rows).globalScale, column) == rows[r][column]
  {
    var g := GlobalScale(Maximum(rows));
    var values := rows[r];
    MaximumBounds(rows, r);
    forall j: nat | j < |values| ensures Abs(values[j]) <= 2688.0 * g {
      MaxAbsBounds(values, j);
    }
    LargestInRow(values, g, column);
  }

  lemma LargestInRow(values: seq<real>, g: real, column: nat)
    requires g > 0.0 && column < |values| && Abs(values[column]) == 2688.0 * g
    requires forall j: nat | j < |values| :: Abs(values[j]) <= 2688.0 * g
    ensures Extents(Quantized(values, g), |values|) && ColumnAt(Quantized(values, g), g, column) == values[column]
  {
    var scale := ScaleAt(values, g, column / 16);
    QuantizedColumn(values, g, column);
    TopBlock(values, g, column, scale);
    TopElement(values[column], g, scale);
  }

  lemma TopBlock(values: seq<real>, g: real, column: nat, scale: nat)
    requires g > 0.0 && column < |values| && Abs(values[column]) == 2688.0 * g
    requires scale == ScaleAt(values, g, column / 16)
    requires forall j: nat | j < |values| :: Abs(values[j]) <= 2688.0 * g
    ensures E4m3fn.Decode(scale) == 448.0
  {
    BlockBounds(values, column, 2688.0 * g);
    TopScale(MaxAbs(BlockOf(values, column / 16)), g);
  }

  lemma TopScale(amax: real, g: real)
    requires g > 0.0 && amax == 2688.0 * g
    ensures E4m3fn.Decode(ScaleCode(amax, g)) == 448.0
  {
    TopRawScale(amax, g, RawScale(amax, g));
    E4m3fn.RoundTrip(E4m3fn.MAX_CODE);
    E4m3fn.DecodeEnds();
  }

  lemma TopRawScale(amax: real, g: real, raw: real)
    requires g > 0.0 && amax == 2688.0 * g && raw == amax / E2m1.LARGEST / g
    ensures raw == 448.0
  {
    assert raw * g == 448.0 * g;
    assert raw < 448.0 ==> raw * g < 448.0 * g;
    assert raw > 448.0 ==> raw * g > 448.0 * g;
  }

  lemma TopElement(x: real, g: real, scale: nat)
    requires g > 0.0 && Abs(x) == 2688.0 * g && E4m3fn.Decode(scale) == 448.0
    ensures Column(ElementCode(x, g, scale), scale, g) == x
  {
    var e := EffectiveScale(448.0, g);
    TopNormalised(x, e, Normalised(x, e));
    E2m1.BucketizeValue(6.0);
    E2m1.ValueOfSigned(x < 0.0, 7);
  }

  lemma TopNormalised(x: real, e: real, m: real)
    requires e > 0.0 && Abs(x) == 6.0 * e && x == Product(m, e)
    ensures m == if x < 0.0 then -6.0 else 6.0
  {
    var top := if x < 0.0 then -6.0 else 6.0;
    assert m < top ==> m * e < top * e;
    assert m > top ==> m * e > top * e;
  }
}
