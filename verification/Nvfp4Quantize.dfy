/**
  The three programs over quantised rows: the row quantiser of the runtime, its decoder, and the
  converter that walks a whole tensor in chunks of padded rows.
*/
module Nvfp4Quantize {
  import opened Wrappers
  import opened Nearest
  import E4m3fn
  import E2m1
  import opened Nvfp4Row

  // ----- the runtime's row quantiser -----

  /** Codes up to column `k`, zero beyond. */
  function Prefix(codes: seq<bv8>, k: nat): seq<bv8> {
    seq(|codes|, j requires 0 <= j < |codes| => if j < k then codes[j] else 0)
  }

  function Written(byte: bv8, code: bv8, odd: bool): bv8 {
    if odd then byte | (code << 4) else code
  }

  lemma WritingExtendsPrefix(codes: seq<bv8>, k: nat)
    requires k < |codes|
    ensures Pack(Prefix(codes, k + 1))
      == Pack(Prefix(codes, k))[k / 2 := Written(Pack(Prefix(codes, k))[k / 2], codes[k], k % 2 == 1)]
  {
    var before, after := Prefix(codes, k), Prefix(codes, k + 1);
    forall i | 0 <= i < Halved(|codes|) && i != k / 2 ensures Packed(after, i) == Packed(before, i) {
    }
    PairOf(codes, k, k / 2, k % 2 == 1);
  }

  lemma PairOf(codes: seq<bv8>, k: nat, i: nat, odd: bool)
    requires k < |codes| && k == 2 * i + (if odd then 1 else 0)
    ensures Packed(Prefix(codes, k + 1), i) == Written(Packed(Prefix(codes, k), i), codes[k], odd)
  {
    WrittenPair(if odd then codes[k - 1] else 0, codes[k], odd);
  }

  lemma WrittenPair(low: bv8, code: bv8, odd: bool)
    ensures odd ==> Written(Pair(low, 0), code, odd) == Pair(low, code)
    ensures !odd ==> Written(Pair(low, 0), code, odd) == Pair(code, 0)
  {
  }

  lemma WholePrefix(codes: seq<bv8>)
    ensures Prefix(codes, |codes|) == codes
  {
  }

  lemma EmptyPrefix(codes: seq<bv8>)
    ensures Pack(Prefix(codes, 0)) == seq(Halved(|codes|), i => 0)
  {
    assert forall i | 0 <= i < Halved(|codes|) :: Packed(Prefix(codes, 0), i) == 0;
  }

  method BlockMaximum(values: seq<real>, start: nat, end: nat) returns (amax: real)
    requires start <= end <= |values|
    ensures amax == MaxAbs(values[start..end])
  {
    amax := 0.0;
    for j := start to end
      invariant amax == MaxAbs(values[start..j])
    {
      assert values[start..j + 1][..j - start] == values[start..j];
      amax := Max(amax, Abs(values[j]));
    }
  }

  method QuantizeElement(value: real, g: real, scale: nat) returns (code: bv8)
    requires g > 0.0
    ensures code == ElementCode(value, g, scale)
  {
    var blockScale := E4m3fn.Decode(scale);
    if blockScale <= 0.0 {
      code := 0;
    } else {
      code := E2m1.SearchCode(Normalised(value, EffectiveScale(blockScale, g)));
    }
  }

  /** `codes` holds what the elements of one block encode to under its scale. */
  ghost predicate BlockCodes(values: seq<real>, g: real, start: nat, end: nat, scale: nat, codes: seq<bv8>)
    requires g > 0.0
  {
    |codes| == |values| && forall j: nat | start <= j < end && j < |values| ::
      codes[j] == ElementCode(values[j], g, scale)
  }

  lemma CodesOfBlock(values: seq<real>, g: real, b: nat)
    requires g > 0.0 && b * 16 < |values|
    ensures BlockCodes(values, g, b * 16, BlockEnd(|values|, b), ScaleAt(values, g, b), Codes(values, g))
  {
    forall j: nat | b * 16 <= j < BlockEnd(|values|, b)
      ensures Codes(values, g)[j] == ElementCode(values[j], g, ScaleAt(values, g, b))
    {
      assert j / 16 == b;
    }
  }

  /** Writes the codes of one block into the payload, low nibble first. */
  method WriteBlock(
      values: seq<real>, g: real, start: nat, end: nat, scale: nat, before: seq<bv8>, ghost codes: seq<bv8>)
    returns (payload: seq<bv8>)
    requires g > 0.0 && start <= end <= |values| && BlockCodes(values, g, start, end, scale, codes)
    requires before == Pack(Prefix(codes, start))
    ensures payload == Pack(Prefix(codes, end))
  {
    payload := before;
    for j := start to end
      invariant payload == Pack(Prefix(codes, j))
    {
      var code := QuantizeElement(values[j], g, scale);
      WritingExtendsPrefix(codes, j);
      payload := payload[j / 2 := Written(payload[j / 2], code, j % 2 == 1)];
    }
  }

  /** Quantises one row under a tensor-wide scale; refuses a scale that is not positive. */
  method QuantizeRow(values: seq<real>, g: real) returns (row: Option<Row>)
    ensures row == if g > 0.0 then Some(Quantized(values, g)) else None
  {
    if g <= 0.0 {
      return None;
    }
    var payload, scales := QuantizeBlocks(values, g);
    return Some(Row(payload, scales));
  }

  method QuantizeBlocks(values: seq<real>, g: real) returns (payload: seq<bv8>, scales: seq<nat>)
    requires g > 0.0
    ensures payload == Pack(Codes(values, g)) && scales == Scales(values, g)
  {
    ghost var codes := Codes(values, g);
    ghost var all := Scales(values, g);
    payload, scales := seq(Halved(|values|), i => 0 as bv8), [];
    EmptyPrefix(codes);
    for b := 0 to Blocks(|values|)
      invariant payload == Pack(Prefix(codes, BlockStart(|values|, b)))
      invariant scales == all[..b]
    {
      var scale;
      BlockLimits(|values|, b);
      scale, payload := QuantizeBlock(values, g, b, payload, codes, all);
      scales := scales + [scale];
    }
    AllBlocksWritten(codes);
  }

  lemma AllBlocksWritten(codes: seq<bv8>)
    ensures Pack(Prefix(codes, BlockStart(|codes|, Blocks(|codes|)))) == Pack(codes)
  {
    WholePrefix(codes);
  }

  method QuantizeBlock(
      values: seq<real>, g: real, b: nat, before: seq<bv8>, ghost codes: seq<bv8>, ghost scales: seq<nat>)
    returns (scale: nat, payload: seq<bv8>)
    requires g > 0.0 && b * 16 < |values| && codes == Codes(values, g) && scales == Scales(values, g)
    requires before == Pack(Prefix(codes, b * 16))
    ensures payload == Pack(Prefix(codes, BlockEnd(|values|, b))) && scale == scales[b]
  {
    scale := BlockScale(values, g, b, b * 16, BlockEnd(|values|, b));
    CodesOfBlock(values, g, b);
    payload := WriteBlock(values, g, b * 16, BlockEnd(|values|, b), scale, before, codes);
  }

  method BlockScale(values: seq<real>, g: real, b: nat, start: nat, end: nat) returns (scale: nat)
    requires g > 0.0 && start == b * 16 < |values| && end == BlockEnd(|values|, b)
    ensures scale == ScaleAt(values, g, b)
  {
    var amax := BlockMaximum(values, start, end);
    RawScaleIsPositive(amax, g);
    var found := E4m3fn.SearchEncode(RawScale(amax, g));
    scale := found.value;
  }

  lemma RawScaleIsPositive(amax: real, g: real)
    requires g > 0.0 && amax >= 0.0
    ensures RawScale(amax, g) >= 0.0
  {
    var raw := RawScale(amax, g);
    assert raw * g == amax / E2m1.LARGEST;
    assert raw < 0.0 ==> raw * g < 0.0;
  }

  // ----- the runtime's decoder -----

  /** Decodes a row, or refuses it if any consumer's demand is broken. */
  method DequantizeRow(row: Row, g: real, width: nat) returns (result: Option<seq<real>>)
    ensures result.Some? <==> Accepted(row, g, width)
    ensures result.Some? ==> result.value == Columns(row, g, width)
    ensures result.Some? ==> forall column: nat | column < width ::
      result.value[column] == Formula(row.payload[column / 2], column % 2 == 0, row.scales[column / 16], g)
  {
    if g <= 0.0 || |row.payload| != Halved(width) || |row.scales| != Blocks(width) {
      return None;
    }
    if !PaddingIsZero(row.payload, width) {
      return None;
    }
    result := DecodeColumns(row, g, width);
    forall column: nat | column < width
      ensures Columns(row, g, width)[column]
        == Formula(row.payload[column / 2], column % 2 == 0, row.scales[column / 16], g)
    {
      ColumnsAreFormula(row, g, width, column);
    }
  }

  method DecodeColumns(row: Row, g: real, width: nat) returns (result: Option<seq<real>>)
    requires g > 0.0 && Extents(row, width)
    ensures result.Some? <==> LegalRange(row, width, 0, width)
    ensures result.Some? ==> result.value == Columns(row, g, width)
  {
    ghost var columns := Columns(row, g, width);
    var values := [];
    for column := 0 to width
      invariant values == columns[..column] && LegalRange(row, width, 0, column)
    {
      var legal := CheckColumn(row, width, column);
      if !legal {
        return None;
      }
      var value := DecodeColumn(row, g, width, column, columns);
      values := values + [value];
    }
    return Some(values);
  }

  /** Whether a column may be decoded; the row as a whole is legal only if it is. */
  method CheckColumn(row: Row, width: nat, column: nat) returns (legal: bool)
    requires Extents(row, width) && column < width
    ensures !legal ==> !LegalRange(row, width, 0, width)
    ensures legal && LegalRange(row, width, 0, column) ==> LegalRange(row, width, 0, column + 1)
  {
    var scale := row.scales[column / 16];
    legal := LegalScale(scale) && (E4m3fn.Decode(scale) == 0.0 ==> Nibble(row.payload, column) & 7 == 0);
    RangesJoin(row, width, 0, column + 1, width);
  }

  method DecodeColumn(row: Row, g: real, width: nat, column: nat, ghost columns: seq<real>) returns (value: real)
    requires g > 0.0 && Extents(row, width) && column < width && columns == Columns(row, g, width)
    ensures value == columns[column]
  {
    ColumnsIndex(row, g, width, width, column);
    value := ColumnAt(row, g, column);
  }
}
