/**
  One quantised row: nibble packing, block scales, element codes, the decoder that refuses a
  malformed row, and how far a decoded element may lie from its source.
*/
module Nvfp4Row {
  import opened Wrappers
  import opened Nearest
  import E4m3fn
  import E2m1

  /** Packed payload and one scale code per block. */
  datatype Row = Row(payload: seq<bv8>, scales: seq<nat>)

  function Halved(width: nat): nat { (width + 1) / 2 }

  function Blocks(width: nat): nat { (width + 15) / 16 }

  // ----- packing -----

  function CodeOrZero(codes: seq<bv8>, j: nat): bv8 {
    if j < |codes| then codes[j] else 0
  }

  function Packed(codes: seq<bv8>, i: nat): bv8 {
    Pair(CodeOrZero(codes, 2 * i), CodeOrZero(codes, 2 * i + 1))
  }

  function Pair(low: bv8, high: bv8): bv8 { low | (high << 4) }

  /** Even columns in the low nibbles, odd ones in the high nibbles, an odd width padded with zero. */
  function Pack(codes: seq<bv8>): seq<bv8> {
    seq(Halved(|codes|), i requires 0 <= i < Halved(|codes|) => Packed(codes, i))
  }

  function Half(byte: bv8, odd: bool): bv8 {
    if odd then byte >> 4 else byte & 0x0F
  }

  function Nibble(payload: seq<bv8>, column: nat): bv8
    requires column / 2 < |payload|
  {
    Half(payload[column / 2], column % 2 == 1)
  }

  ghost predicate Nibbles(codes: seq<bv8>) {
    forall j | 0 <= j < |codes| :: codes[j] & 0xF0 == 0
  }

  lemma PairIsRecovered(low: bv8, high: bv8)
    requires low & 0xF0 == 0 && high & 0xF0 == 0
    ensures Half(Pair(low, high), false) == low && Half(Pair(low, high), true) == high
    ensures high == 0 ==> Pair(low, high) & 0xF0 == 0
  {
  }

  /** Every code survives packing, at even and odd widths. */
  lemma PackThenNibble(codes: seq<bv8>, column: nat)
    requires Nibbles(codes) && column < |codes|
    ensures Nibble(Pack(codes), column) == codes[column]
  {
    PairIsRecovered(CodeOrZero(codes, column / 2 * 2), CodeOrZero(codes, column / 2 * 2 + 1));
  }

  predicate PaddingIsZero(payload: seq<bv8>, width: nat) {
    width % 2 == 1 && |payload| == Halved(width) ==> payload[|payload| - 1] & 0xF0 == 0
  }

  lemma PackPadsWithZero(codes: seq<bv8>)
    requires Nibbles(codes)
    ensures PaddingIsZero(Pack(codes), |codes|)
  {
    if |codes| % 2 == 1 {
      PairIsRecovered(codes[|codes| - 1], 0);
    }
  }

  // ----- quantising -----

  function Max(x: real, y: real): (m: real) { if x < y then y else x }

  function MaxAbs(values: seq<real>): (m: real)
    ensures m >= 0.0
  {
    if values == [] then 0.0 else Max(MaxAbs(values[..|values| - 1]), Abs(values[|values| - 1]))
  }

  lemma {:induction false} MaxAbsBounds(values: seq<real>, j: nat)
    requires j < |values|
    ensures Abs(values[j]) <= MaxAbs(values)
  {
    if j < |values| - 1 {
      MaxAbsBounds(values[..|values| - 1], j);
    }
  }

  function BlockStart(width: nat, b: nat): (start: nat)
    ensures start <= width
  {
    if b * 16 <= width then b * 16 else width
  }

  lemma BlockLimits(width: nat, b: nat)
    ensures b < Blocks(width) ==>
      BlockStart(width, b) == b * 16 < width && BlockStart(width, b + 1) == BlockEnd(width, b)
    ensures b >= Blocks(width) ==> BlockStart(width, b) == width
  {
    assert width + 15 == Blocks(width) * 16 + (width + 15) % 16;
  }

  function BlockEnd(width: nat, b: nat): nat {
    if b * 16 + 16 <= width then b * 16 + 16 else width
  }

  function BlockOf(values: seq<real>, b: nat): seq<real>
    requires b * 16 < |values|
  {
    values[b * 16..BlockEnd(|values|, b)]
  }

  function ScaleCode(amax: real, g: real): (code: nat)
    requires g > 0.0
    ensures code <= E4m3fn.MAX_CODE
  {
    E4m3fn.Encode(RawScale(amax, g))
  }

  /** The scale that would map the largest element of a block to the largest magnitude. */
  function RawScale(amax: real, g: real): real
    requires g > 0.0
  {
    amax / E2m1.LARGEST / g
  }

  function ScaleAt(values: seq<real>, g: real, b: nat): (code: nat)
    requires g > 0.0 && b * 16 < |values|
    ensures code <= E4m3fn.MAX_CODE
  {
    ScaleCode(MaxAbs(BlockOf(values, b)), g)
  }

  function ElementCode(x: real, g: real, scale: nat): bv8
    requires g > 0.0
  {
    var s := E4m3fn.Decode(scale);
    if s <= 0.0 then 0 else E2m1.Code(Normalised(x, EffectiveScale(s, g)))
  }

  function EffectiveScale(s: real, g: real): (e: real)
    requires g > 0.0
    ensures s > 0.0 ==> e > 0.0
  {
    assert s > 0.0 ==> s * g > 0.0;
    s * g
  }

  function CodeAt(values: seq<real>, g: real, j: nat): bv8
    requires g > 0.0 && j < |values|
  {
    ElementCode(values[j], g, ScaleAt(values, g, j / 16))
  }

  function Codes(values: seq<real>, g: real): seq<bv8>
    requires g > 0.0
  {
    seq(|values|, j requires 0 <= j < |values| => CodeAt(values, g, j))
  }

  function Scales(values: seq<real>, g: real): seq<nat>
    requires g > 0.0
  {
    seq(Blocks(|values|), b requires 0 <= b < Blocks(|values|) => ScaleAt(values, g, b))
  }

  function Quantized(values: seq<real>, g: real): Row
    requires g > 0.0
  {
    Row(Pack(Codes(values, g)), Scales(values, g))
  }

  lemma ElementCodeIsNibble(x: real, g: real, scale: nat)
    requires g > 0.0
    ensures ElementCode(x, g, scale) & 0xF0 == 0
  {
    var s := E4m3fn.Decode(scale);
    if s > 0.0 {
      var v := Normalised(x, EffectiveScale(s, g));
      E2m1.BucketizeValue(Abs(v));
      E2m1.SignedBits(v < 0.0, E2m1.ThresholdCode(Abs(v)));
    }
  }

  lemma CodesAreNibbles(values: seq<real>, g: real)
    requires g > 0.0
    ensures Nibbles(Codes(values, g))
  {
    forall j | 0 <= j < |values| ensures Codes(values, g)[j] & 0xF0 == 0 {
      ElementCodeIsNibble(values[j], g, ScaleAt(values, g, j / 16));
    }
  }

  // ----- decoding -----

  /** The value of one column: element value times effective scale. */
  function Column(code: bv8, scale: nat, g: real): real
    requires g > 0.0
  {
    Product(E2m1.Value(code), EffectiveScale(E4m3fn.Decode(scale), g))
  }

  function Product(value: real, scale: real): real { value * scale }

  /** The formula of one element: its code, the low nibble if even, times the product of the two scales. */
  function Formula(byte: bv8, even: bool, scale: nat, g: real): real {
    Weighted(E2m1.Value(if even then byte & 0x0F else byte >> 4), E4m3fn.Decode(scale), g)
  }

  function Weighted(value: real, scale: real, g: real): real { value * (scale * g) }

  lemma ProductIsWeighted(value: real, scale: real, g: real)
    requires g > 0.0
    ensures Product(value, EffectiveScale(scale, g)) == value * (scale * g) == Weighted(value, scale, g)
  {
  }

  lemma ColumnIsProduct(code: bv8, scale: nat, g: real)
    requires g > 0.0
    ensures Column(code, scale, g) == Weighted(E2m1.Value(code), E4m3fn.Decode(scale), g)
  {
    ProductIsWeighted(E2m1.Value(code), E4m3fn.Decode(scale), g);
  }

  lemma FormulaIsColumn(byte: bv8, odd: bool, scale: nat, g: real)
    requires g > 0.0
    ensures Formula(byte, !odd, scale, g) == Column(Half(byte, odd), scale, g)
  {
    ColumnIsProduct(Half(byte, odd), scale, g);
  }

  lemma ColumnsAreFormula(row: Row, g: real, width: nat, column: nat)
    requires g > 0.0 && Extents(row, width) && column < width
    ensures Columns(row, g, width)[column]
            == Formula(row.payload[column / 2], column % 2 == 0, row.scales[column / 16], g)
  {
    ColumnsIndex(row, g, width, width, column);
    FormulaIsColumn(row.payload[column / 2], column % 2 == 1, row.scales[column / 16], g);
  }

  function ColumnAt(row: Row, g: real, column: nat): real
    requires g > 0.0 && column / 2 < |row.payload| && column / 16 < |row.scales|
  {
    Column(Nibble(row.payload, column), row.scales[column / 16], g)
  }

  ghost predicate Extents(row: Row, width: nat) {
    |row.payload| == Halved(width) && |row.scales| == Blocks(width)
  }

  /** The first `n` columns. */
  function ColumnsTo(row: Row, g: real, width: nat, n: nat): (r: seq<real>)
    requires g > 0.0 && Extents(row, width) && n <= width
    ensures |r| == n
  {
    if n == 0 then [] else ColumnsTo(row, g, width, n - 1) + [ColumnAt(row, g, n - 1)]
  }

  function Columns(row: Row, g: real, width: nat): (r: seq<real>)
    requires g > 0.0 && Extents(row, width)
    ensures |r| == width
  {
    ColumnsTo(row, g, width, width)
  }

  lemma {:induction false} ColumnsIndex(row: Row, g: real, width: nat, n: nat, j: nat)
    requires g > 0.0 && Extents(row, width) && j < n <= width
    ensures ColumnsTo(row, g, width, n)[j] == ColumnAt(row, g, j)
  {
    if j < n - 1 {
      ColumnsIndex(row, g, width, n - 1, j);
    }
  }

  /** A scale byte without its sign bit that is not the format's NaN. */
  predicate LegalScale(bits: nat) { bits <= E4m3fn.MAX_CODE }

  ghost predicate LegalColumn(row: Row, column: nat)
    requires column / 2 < |row.payload| && column / 16 < |row.scales|
  {
    && LegalScale(row.scales[column / 16])
    && (E4m3fn.Decode(row.scales[column / 16]) == 0.0 ==> Nibble(row.payload, column) & 7 == 0)
  }

  ghost predicate LegalRange(row: Row, width: nat, from: nat, to: nat)
    requires Extents(row, width) && to <= width
  {
    to <= from || (LegalRange(row, width, from, to - 1) && LegalColumn(row, to - 1))
  }

  lemma {:induction false} RangesJoin(row: Row, width: nat, from: nat, middle: nat, to: nat)
    requires Extents(row, width) && from <= middle <= to <= width
    ensures LegalRange(row, width, from, to) <==>
      LegalRange(row, width, from, middle) && LegalRange(row, width, middle, to)
  {
    if middle < to {
      RangesJoin(row, width, from, middle, to - 1);
    }
  }

  /** A range is legal exactly if each of its columns is. */
  lemma {:induction false} RangeIsColumns(row: Row, width: nat, from: nat, to: nat)
    requires Extents(row, width) && to <= width
    ensures LegalRange(row, width, from, to) <==> forall column: nat | from <= column < to :: LegalColumn(row, column)
  {
    if from < to {
      RangeIsColumns(row, width, from, to - 1);
    }
  }

  /** What every consumer demands of a row before it decodes it. */
  ghost predicate Accepted(row: Row, g: real, width: nat) {
    g > 0.0 && Extents(row, width) && PaddingIsZero(row.payload, width) && LegalRange(row, width, 0, width)
  }

  lemma QuantizedColumn(values: seq<real>, g: real, column: nat)
    requires g > 0.0 && column < |values|
    ensures Extents(Quantized(values, g), |values|)
    ensures Nibble(Quantized(values, g).payload, column) == CodeAt(values, g, column)
    ensures Quantized(values, g).scales[column / 16] == ScaleAt(values, g, column / 16)
  {
    CodesAreNibbles(values, g);
    PackThenNibble(Codes(values, g), column);
  }

  /** Everything the quantiser writes is accepted by the decoder and by the weight loader. */
  lemma QuantizedIsAccepted(values: seq<real>, g: real)
    requires g > 0.0
    ensures Accepted(Quantized(values, g), g, |values|)
  {
    CodesAreNibbles(values, g);
    PackPadsWithZero(Codes(values, g));
    forall column: nat | column < |values| ensures LegalColumn(Quantized(values, g), column) {
      QuantizedColumn(values, g, column);
    }
    RangeIsColumns(Quantized(values, g), |values|, 0, |values|);
  }

  // ----- the error bound -----

  /** The promised distance: one effective scale, or half the smallest scale times six. */
  ghost predicate Close(value: real, x: real, s: real, g: real) {
    Abs(value - x) <= Max(s * g, 3.0 / 512.0 * g)
  }

  lemma RawScaleInRange(amax: real, g: real, raw: real)
    requires g > 0.0 && 0.0 <= amax <= 2688.0 * g && raw == amax / E2m1.LARGEST / g
    ensures amax == 6.0 * Product(raw, g) && 0.0 <= raw <= E4m3fn.MAX_VALUE
  {
    assert raw * g == amax / E2m1.LARGEST;
    assert raw > 448.0 ==> raw * g > 448.0 * g;
    assert raw < 0.0 ==> raw * g < 0.0;
  }

  /** Rounding the scale down costs the block's largest element at most this. */
  lemma SaturationLoss(raw: real, s: real, g: real)
    requires g > 0.0 && s >= 0.0 && E4m3fn.SmallError(raw, s)
    ensures 6.0 * (raw * g) - 6.0 * (s * g) <= Max(s * g, 3.0 / 512.0 * g)
  {
    TimesBound(0.0, s, g);
    TimesDifference(raw, s, g);
    LossIsSmall(raw - s, s, g, raw * g - s * g, s * g);
  }

  lemma LossIsSmall(loss: real, s: real, g: real, scaledLoss: real, scaled: real)
    requires g > 0.0 && s >= 0.0 && (loss <= 1.0 / 1024.0 || 16.0 * loss <= s)
    requires scaledLoss == loss * g && scaled == s * g && scaled >= 0.0
    ensures 6.0 * scaledLoss <= Max(scaled, 3.0 / 512.0 * g)
  {
    if loss <= 1.0 / 1024.0 {
      TimesBound(loss, 1.0 / 1024.0, g);
    } else {
      TimesBound(16.0 * loss, s, g);
    }
  }

  lemma TimesDifference(a: real, b: real, g: real)
    ensures (a - b) * g == a * g - b * g
  {
  }

  lemma ElementError(x: real, amax: real, g: real)
    requires g > 0.0 && Abs(x) <= amax <= 2688.0 * g
    ensures
      var scale := ScaleCode(amax, g);
      Close(Column(ElementCode(x, g, scale), scale, g), x, E4m3fn.Decode(scale), g)
  {
    var scale := ScaleCode(amax, g);
    var s := E4m3fn.Decode(scale);
    var e := EffectiveScale(s, g);
    var value, m := ElementValue(x, g, scale, s, e);
    ErrorUnderScale(x, amax, g, scale, s, e, value, m);
    WithinScale(Product(value, e), x, s, g, e);
  }

  lemma WithinScale(value: real, x: real, s: real, g: real, e: real)
    requires g > 0.0 && e == EffectiveScale(s, g) && Abs(value - x) <= Max(e, 3.0 / 512.0 * g)
    ensures Close(value, x, s, g)
  {
  }

  lemma ErrorUnderScale(x: real, amax: real, g: real, scale: nat, s: real, e: real, value: real, m: real)
    requires g > 0.0 && Abs(x) <= amax <= 2688.0 * g && scale == ScaleCode(amax, g)
    requires s == E4m3fn.Decode(scale) && e == EffectiveScale(s, g) && Represents(value, x, m, s, e)
    ensures Abs(Product(value, e) - x) <= Max(e, 3.0 / 512.0 * g)
  {
    ScaleIsClose(amax, g, scale, s, e);
    DecodedError(x, amax, s, g, e, value, m);
  }

  /** `value` is the rounded quotient `m` of `x`, or zero under a zero scale. */
  predicate Represents(value: real, x: real, m: real, s: real, e: real) {
    if s > 0.0 then e > 0.0 && x == Product(m, e) && Rounded(value, m) else value == 0.0
  }

  /** Rounding a normalised element loses at most this many effective scales. */
  predicate Rounded(value: real, m: real) {
    Abs(value - m) <= if Abs(m) <= 6.0 then 1.0 else Abs(m) - 6.0
  }

  lemma ElementValue(x: real, g: real, scale: nat, s: real, e: real) returns (value: real, m: real)
    requires g > 0.0 && s == E4m3fn.Decode(scale) && e == EffectiveScale(s, g)
    ensures value == E2m1.Value(ElementCode(x, g, scale))
    ensures Represents(value, x, m, s, e)
  {
    m := if s > 0.0 then Normalised(x, e) else 0.0;
    value := RoundedElement(m, s > 0.0);
  }

  lemma RoundedElement(m: real, coded: bool) returns (value: real)
    ensures value == E2m1.Value(if coded then E2m1.Code(m) else 0)
    ensures if coded then Rounded(value, m) else value == 0.0
  {
    value := E2m1.Value(if coded then E2m1.Code(m) else 0);
    if coded {
      E2m1.CodeError(m);
    }
  }

  function Normalised(x: real, e: real): (m: real)
    requires e > 0.0
    ensures x == Product(m, e)
  {
    assert x == x / e * e;
    x / e
  }

  /** What the largest element of a block loses to saturation under a rounded scale. */
  lemma ScaleIsClose(amax: real, g: real, scale: nat, s: real, e: real)
    requires g > 0.0 && 0.0 <= amax <= 2688.0 * g && scale == ScaleCode(amax, g)
    requires s == E4m3fn.Decode(scale) && e == EffectiveScale(s, g)
    ensures s >= 0.0 && amax - 6.0 * e <= Max(e, 3.0 / 512.0 * g)
  {
    var raw := RoundedScale(amax, g, scale, s);
    LossUnderScale(amax, raw, s, g, e);
  }

  lemma RoundedScale(amax: real, g: real, scale: nat, s: real) returns (raw: real)
    requires g > 0.0 && 0.0 <= amax <= 2688.0 * g && scale == ScaleCode(amax, g) && s == E4m3fn.Decode(scale)
    ensures amax == 6.0 * Product(raw, g) && s >= 0.0 && E4m3fn.SmallError(raw, s)
  {
    raw := RawScale(amax, g);
    RawScaleInRange(amax, g, raw);
    EncodedScale(raw, scale, s);
  }

  lemma EncodedScale(raw: real, scale: nat, s: real)
    requires 0.0 <= raw <= E4m3fn.MAX_VALUE && scale == E4m3fn.Encode(raw) && s == E4m3fn.Decode(scale)
    ensures s >= 0.0 && E4m3fn.SmallError(raw, s)
  {
    E4m3fn.EncodeError(raw);
    E4m3fn.DecodeRange(scale);
  }

  lemma LossUnderScale(amax: real, raw: real, s: real, g: real, e: real)
    requires g > 0.0 && s >= 0.0 && E4m3fn.SmallError(raw, s) && amax == 6.0 * Product(raw, g)
    requires e == EffectiveScale(s, g)
    ensures amax - 6.0 * e <= Max(e, 3.0 / 512.0 * g)
  {
    SaturationLoss(raw, s, g);
  }

  lemma DecodedError(x: real, amax: real, s: real, g: real, e: real, value: real, m: real)
    requires g > 0.0 && Abs(x) <= amax && s >= 0.0 && e == EffectiveScale(s, g)
    requires amax - 6.0 * e <= Max(e, 3.0 / 512.0 * g) && Represents(value, x, m, s, e)
    ensures Abs(Product(value, e) - x) <= Max(e, 3.0 / 512.0 * g)
  {
    if s > 0.0 {
      RescaledError(x, m, value, e);
    } else {
      assert e == 0.0;
    }
  }

  lemma RescaledError(x: real, m: real, v: real, e: real)
    requires e > 0.0 && x == m * e && Rounded(v, m)
    ensures Abs(Product(v, e) - x) <= Max(e, Abs(x) - 6.0 * e)
  {
    DistanceTimes(v, m, x, e);
    Excess(m, x, e);
    RescaledBound(Abs(v - m), Abs(m), Abs(x), e, Abs(Product(v, e) - x));
  }

  lemma RescaledBound(unscaled: real, m: real, x: real, e: real, distance: real)
    requires e > 0.0 && distance == unscaled * e && x - 6.0 * e == (m - 6.0) * e
    requires unscaled <= if m <= 6.0 then 1.0 else m - 6.0
    ensures distance <= Max(e, x - 6.0 * e)
  {
    TimesBound(unscaled, if m <= 6.0 then 1.0 else m - 6.0, e);
  }

  lemma DistanceTimes(v: real, m: real, x: real, e: real)
    requires e > 0.0 && x == m * e
    ensures Abs(Product(v, e) - x) == Abs(v - m) * e
  {
    TimesDifference(v, m, e);
    AbsTimes(v - m, e);
  }

  lemma Excess(m: real, x: real, e: real)
    requires e > 0.0 && x == m * e
    ensures (Abs(m) - 6.0) * e == Abs(x) - 6.0 * e
  {
    AbsTimes(m, e);
    TimesDifference(Abs(m), 6.0, e);
  }

  lemma AbsTimes(x: real, e: real)
    requires e > 0.0
    ensures Abs(x * e) == Abs(x) * e
  {
    assert x >= 0.0 ==> x * e >= 0.0;
    assert x < 0.0 ==> x * e < 0.0;
  }

  lemma TimesBound(x: real, y: real, e: real)
    requires e > 0.0 && x <= y
    ensures x * e <= y * e
  {
  }

  /**
    Decoding a quantised row: each element lies within one effective scale of its source, or
    within the loss of the smallest scale, whatever the block.
  */
  lemma QuantizedError(values: seq<real>, g: real, column: nat)
    requires g > 0.0 && column < |values| && (forall j: nat | j < |values| :: Abs(values[j]) <= 2688.0 * g)
    ensures Extents(Quantized(values, g), |values|)
    ensures Close(ColumnAt(Quantized(values, g), g, column), values[column],
      E4m3fn.Decode(Quantized(values, g).scales[column / 16]), g)
  {
    QuantizedColumn(values, g, column);
    BlockBounds(values, column, 2688.0 * g);
    ElementError(values[column], MaxAbs(BlockOf(values, column / 16)), g);
  }

  // ----- what the quantiser chooses -----

  lemma {:induction false} MaxAbsAttained(values: seq<real>) returns (j: nat)
    requires values != []
    ensures j < |values| && MaxAbs(values) == Abs(values[j])
  {
    j := |values| - 1;
    if MaxAbs(values[..j]) > Abs(values[j]) {
      j := MaxAbsAttained(values[..j]);
    }
  }

  /**
    The scale of a block is the code nearest to a sixth of its largest magnitude over the tensor-wide scale, as long
    as the format reaches that far.
  */
  lemma ScaleIsNearest(values: seq<real>, g: real, b: nat) returns (top: nat)
    requires g > 0.0 && b < Blocks(|values|) && (forall j: nat | j < |values| :: Abs(values[j]) <= 2688.0 * g)
    ensures top < |values| && top / 16 == b
    ensures forall j: nat | j < |values| && j / 16 == b :: Abs(values[j]) <= Abs(values[top])
    ensures IsNearest(E4m3fn.Grid(), E4m3fn.CODES, Abs(values[top]) / 6.0 / g, Quantized(values, g).scales[b])
  {
    BlockLimits(|values|, b);
    top := TopOfBlock(values, b);
    NearestScale(Abs(values[top]), g);
  }

  lemma TopOfBlock(values: seq<real>, b: nat) returns (top: nat)
    requires b * 16 < |values|
    ensures top < |values| && top / 16 == b && MaxAbs(BlockOf(values, b)) == Abs(values[top])
    ensures forall j: nat | j < |values| && j / 16 == b :: Abs(values[j]) <= Abs(values[top])
  {
    var part := BlockOf(values, b);
    var i := MaxAbsAttained(part);
    top := b * 16 + i;
    forall j: nat | j < |values| && j / 16 == b ensures Abs(values[j]) <= Abs(values[top]) {
      MaxAbsBounds(part, j % 16);
    }
  }

  lemma NearestScale(amax: real, g: real)
    requires g > 0.0 && 0.0 <= amax <= 2688.0 * g
    ensures IsNearest(E4m3fn.Grid(), E4m3fn.CODES, amax / 6.0 / g, ScaleCode(amax, g))
  {
    RawScaleInRange(amax, g, RawScale(amax, g));
    E4m3fn.EncodeIsNearest(RawScale(amax, g));
  }

  /**
    Under a positive block scale the code of an element is the magnitude nearest to the element over the product of
    the scales, with the element's sign; under a zero scale it is zero.
  */
  lemma CodeIsNearest(values: seq<real>, g: real, j: nat) returns (k: nat)
    requires g > 0.0 && j < |values|
    ensures j / 16 < |Quantized(values, g).scales|
    ensures
      var s := E4m3fn.Decode(Quantized(values, g).scales[j / 16]);
      if s > 0.0
      then Scaled(s, g) > 0.0 && IsNearest(E2m1.Grid(), E2m1.MAGNITUDES, Abs(values[j] / Scaled(s, g)), k)
           && CodeAt(values, g, j) == if values[j] / Scaled(s, g) < 0.0 then 8 | E2m1.Bits(k) else E2m1.Bits(k)
      else CodeAt(values, g, j) == 0
  {
    QuantizedColumn(values, g, j);
    var s := E4m3fn.Decode(ScaleAt(values, g, j / 16));
    k := 0;
    if s > 0.0 {
      k := ChosenCode(values[j], s, g);
    }
  }

  function Scaled(s: real, g: real): real { s * g }

  lemma ChosenCode(x: real, s: real, g: real) returns (k: nat)
    requires g > 0.0 && s > 0.0
    ensures Scaled(s, g) > 0.0 && IsNearest(E2m1.Grid(), E2m1.MAGNITUDES, Abs(x / Scaled(s, g)), k)
    ensures E2m1.Code(Normalised(x, EffectiveScale(s, g)))
            == if x / Scaled(s, g) < 0.0 then 8 | E2m1.Bits(k) else E2m1.Bits(k)
  {
    var m := Normalised(x, EffectiveScale(s, g));
    assert m == x / Scaled(s, g);
    k := E2m1.ThresholdCode(Abs(m));
    E2m1.ThresholdsAreNearest(Abs(m));
    assert 0 | E2m1.Bits(k) == E2m1.Bits(k);
  }

  lemma BlockBounds(values: seq<real>, column: nat, bound: real)
    requires bound >= 0.0 && column < |values| && (forall j: nat | j < |values| :: Abs(values[j]) <= bound)
    ensures Abs(values[column]) <= MaxAbs(BlockOf(values, column / 16)) <= bound
  {
    var part := BlockOf(values, column / 16);
    MaxAbsBounds(part, column % 16);
    MaxAbsWithin(part, bound);
  }

  lemma {:induction false} MaxAbsWithin(values: seq<real>, bound: real)
    requires bound >= 0.0 && (forall j: nat | j < |values| :: Abs(values[j]) <= bound)
    ensures MaxAbs(values) <= bound
  {
    if values != [] {
      MaxAbsWithin(values[..|values| - 1], bound);
    }
  }
}
