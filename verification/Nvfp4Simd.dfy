/**
  The vector forms of row decoding and row dot products: eight packed bytes become sixteen
  codes in registers, a codebook gather turns them into values, and both loops finish the last
  partial block one column at a time.
*/
module Nvfp4Simd {
  import opened Arithmetic
  import E4m3fn
  import E2m1
  import opened Nvfp4Row
  import opened Nvfp4Weight

  // ----- register operations, byte lanes little-endian -----

  function ZeroBytes(n: nat): seq<bv8> { seq(n, i => 0 as bv8) }

  /** Loads eight bytes into the low half of a register and clears the high half. */
  function LoadLow(memory: seq<bv8>, offset: nat): (r: seq<bv8>)
    requires offset + 8 <= |memory|
    ensures |r| == 16
  {
    memory[offset..offset + 8] + ZeroBytes(8)
  }

  function MaskByte(byte: bv8, mask: bv8): bv8 { byte & mask }

  function And(register: seq<bv8>, mask: bv8): (r: seq<bv8>)
    ensures |r| == |register|
  {
    seq(|register|, i requires 0 <= i < |register| => MaskByte(register[i], mask))
  }

  /** One byte of a sixteen-bit lane after the lane moved right by four bits. */
  function ShiftedByte(low: bv8, high: bv8, odd: bool): bv8 {
    var word: bv16 := ((high as bv16) << 8) | (low as bv16);
    var shifted := word >> 4;
    (if odd then shifted >> 8 else shifted & 0x00FF) as bv8
  }

  /** Sixteen-bit lanes moved right by four bits, so that bits cross from the odd byte into the even one. */
  function ShiftWords(register: seq<bv8>): (r: seq<bv8>)
    requires |register| == 16
    ensures |r| == 16
  {
    seq(16, i requires 0 <= i < 16 => ShiftedByte(register[i / 2 * 2], register[i / 2 * 2 + 1], i % 2 == 1))
  }

  /** Alternates the low halves of two registers. */
  function UnpackLow(a: seq<bv8>, b: seq<bv8>): (r: seq<bv8>)
    requires |a| == 16 && |b| == 16
    ensures |r| == 16
  {
    seq(16, i requires 0 <= i < 16 => if i % 2 == 0 then a[i / 2] else b[i / 2])
  }

  /** Moves a whole register right by eight bytes. */
  function ShiftBytes(register: seq<bv8>): (r: seq<bv8>)
    requires |register| == 16
    ensures |r| == 16
  {
    register[8..] + ZeroBytes(8)
  }

  /** Zero-extends the low eight bytes. */
  function Widen(register: seq<bv8>): (r: seq<nat>)
    requires |register| == 16
    ensures |r| == 8
  {
    seq(8, i requires 0 <= i < 8 => register[i] as nat)
  }

  const CODEBOOK: seq<real> :=
    [0.0, 0.5, 1.0, 1.5, 2.0, 3.0, 4.0, 6.0, 0.0, -0.5, -1.0, -1.5, -2.0, -3.0, -4.0, -6.0]

  /** Every index must lie inside the codebook: the gather does not check. */
  function Gather(indices: seq<nat>): (r: seq<real>)
    requires |indices| == 8 && forall i | 0 <= i < 8 :: indices[i] < 16
    ensures |r| == 8
  {
    seq(8, i requires 0 <= i < 8 => CODEBOOK[indices[i]])
  }

  function Multiply(a: seq<real>, b: seq<real>): (r: seq<real>)
    requires |a| == 8 && |b| == 8
    ensures |r| == 8
  {
    seq(8, i requires 0 <= i < 8 => Product(a[i], b[i]))
  }

  function Add(a: seq<real>, b: seq<real>): (r: seq<real>)
    requires |a| == 8 && |b| == 8
    ensures |r| == 8
  {
    seq(8, i requires 0 <= i < 8 => a[i] + b[i])
  }

  function Broadcast(x: real): (r: seq<real>)
    ensures |r| == 8
  {
    seq(8, i => x)
  }

  // ----- sixteen codes -----

  function Interleaved(packed: seq<bv8>): (r: seq<bv8>)
    requires |packed| == 16
    ensures |r| == 16
  {
    UnpackLow(And(packed, 0x0F), And(ShiftWords(packed), 0x0F))
  }

  /** The mask removes exactly the bits that crossed from the neighbouring byte. */
  lemma CrossedBitsAreMasked(low: bv8, high: bv8)
    ensures MaskByte(ShiftedByte(low, high, false), 0x0F) == low >> 4
    ensures MaskByte(ShiftedByte(low, high, true), 0x0F) == high >> 4
  {
  }

  /** Interleaving restores the column order of the packed nibbles. */
  lemma InterleavedIsNibble(packed: seq<bv8>, k: nat)
    requires |packed| == 16 && k < 16
    ensures Interleaved(packed)[k] == Half(packed[k / 2], k % 2 == 1)
  {
    var pair := k / 2 / 2 * 2;
    CrossedBitsAreMasked(packed[pair], packed[pair + 1]);
  }

  lemma HalfIsBelowSixteen(byte: bv8, odd: bool)
    ensures Half(byte, odd) < 16
  {
  }

  /** The codebook is the scalar decoder, and a four-bit code stays inside it. */
  lemma CodebookIsValue(code: bv8)
    requires code < 16
    ensures (code as nat) < 16 && CODEBOOK[code as nat] == E2m1.Value(code)
  {
  }

  // ----- one block -----

  /** Where block `b` of a row begins in the payload: half a byte for each of its columns. */
  function BlockOffset(w: Weight, row: nat, b: nat): (offset: nat)
    requires WeightExtents(w) && row < w.rows && b * 16 + 16 <= w.width
    ensures offset == RowStart(row, Halved(w.width)) + b * 8 && offset + 8 <= |w.payload|
  {
    RowFits(row, w.rows, Halved(w.width));
    WholeBlock(w.width, b);
    RowStart(row, Halved(w.width)) + b * 8
  }

  lemma WholeBlock(width: nat, b: nat)
    requires b * 16 + 16 <= width
    ensures b * 8 + 8 <= Halved(width) && b < Blocks(width)
  {
    Split(width + 1, 2);
    Split(width + 15, 16);
  }

  /** The row seen from its own start holds the bytes and the scale a block loads from the flat weight. */
  lemma BlockOfRow(w: Weight, row: nat, b: nat)
    requires WeightExtents(w) && row < w.rows && b * 16 + 16 <= w.width
    ensures b * 8 + 8 <= Halved(w.width) && b < Blocks(w.width)
    ensures LoadLow(w.payload, BlockOffset(w, row, b)) == LoadLow(RowOf(w, row).payload, b * 8)
    ensures RowStart(row, Blocks(w.width)) + b < |w.scales|
    ensures w.scales[RowStart(row, Blocks(w.width)) + b] == RowOf(w, row).scales[b]
  {
    WholeBlock(w.width, b);
    PartOfSlice(w.payload, row, w.rows, Halved(w.width), b * 8, 8);
    ScaleOfRow(w, row, b);
  }

  lemma ScaleOfRow(w: Weight, row: nat, b: nat)
    requires WeightExtents(w) && row < w.rows && b < Blocks(w.width)
    ensures RowStart(row, Blocks(w.width)) + b < |w.scales|
    ensures w.scales[RowStart(row, Blocks(w.width)) + b] == RowOf(w, row).scales[b]
  {
    PartOfSlice(w.scales, row, w.rows, Blocks(w.width), b, 1);
  }

  lemma PartOfSlice<T>(flat: seq<T>, row: nat, rows: nat, extent: nat, from: nat, count: nat)
    requires row < rows && |flat| == RowStart(rows, extent) && from + count <= extent
    ensures RowStart(row, extent) + extent <= |flat|
    ensures Slice(flat, row, rows, extent)[from..from + count]
      == flat[RowStart(row, extent) + from..RowStart(row, extent) + from + count]
    ensures count > 0 ==> Slice(flat, row, rows, extent)[from] == flat[RowStart(row, extent) + from]
  {
    RowFits(row, rows, extent);
    SliceOfSlice(flat, RowStart(row, extent), extent, from, count);
  }

  lemma SliceOfSlice<T>(flat: seq<T>, base: nat, extent: nat, from: nat, count: nat)
    requires base + extent <= |flat| && from + count <= extent
    ensures flat[base..base + extent][from..from + count] == flat[base + from..base + from + count]
  {
    var part, whole := flat[base..base + extent][from..from + count], flat[base + from..base + from + count];
    assert forall i | 0 <= i < count :: part[i] == whole[i];
  }

  ghost predicate InBook(codes: seq<bv8>) {
    forall i | 0 <= i < |codes| :: (codes[i] as nat) < 16
  }

  lemma CodesInBook(packed: seq<bv8>)
    requires |packed| == 16
    ensures InBook(Interleaved(packed))
  {
    forall k: nat | k < 16 ensures (Interleaved(packed)[k] as nat) < 16 {
      CodeInBook(packed, k);
    }
  }

  lemma CodeInBook(packed: seq<bv8>, k: nat)
    requires |packed| == 16 && k < 16
    ensures (Interleaved(packed)[k] as nat) < 16
    ensures CODEBOOK[Interleaved(packed)[k] as nat] == E2m1.Value(Half(packed[k / 2], k % 2 == 1))
  {
    InterleavedIsNibble(packed, k);
    HalfIsBelowSixteen(packed[k / 2], k % 2 == 1);
    CodebookIsValue(Interleaved(packed)[k]);
  }

  /** Gathers one half of a block and scales it. */
  function DecodeHalf(codes: seq<bv8>, scale: real): (r: seq<real>)
    requires |codes| == 16 && InBook(codes)
    ensures |r| == 8
  {
    Multiply(Gather(Widen(codes)), Broadcast(scale))
  }

  method DecodeBlock(
      w: Weight, row: nat, b: nat, ghost columns: seq<real>) returns (first: seq<real>, second: seq<real>)
    requires w.g > 0.0 && WeightExtents(w) && row < w.rows && b * 16 + 16 <= w.width
    requires columns == Columns(RowOf(w, row), w.g, w.width)
    ensures first == columns[b * 16..b * 16 + 8] && second == columns[b * 16 + 8..b * 16 + 16]
  {
    BlockOfRow(w, row, b);
    ghost var view := RowOf(w, row);
    var packed := LoadLow(w.payload, BlockOffset(w, row, b));
    var scaleCode := w.scales[RowStart(row, Blocks(w.width)) + b];
    LanesAreColumns(packed, scaleCode, w.g, w.width, b, b * 16, view, columns);
    first, second := DecodePacked(packed, EffectiveScale(E4m3fn.Decode(scaleCode), w.g), b * 16, columns);
  }

  method DecodePacked(
      packed: seq<bv8>, scale: real, ghost start: nat, ghost columns: seq<real>)
    returns (first: seq<real>, second: seq<real>)
    requires |packed| == 16 && LanesHold(packed, scale, columns, start)
    ensures first == columns[start..start + 8] && second == columns[start + 8..start + 16]
  {
    var codes := Interleaved(packed);
    CodesInBook(packed);
    first := DecodeHalf(codes, scale);
    second := DecodeHalf(ShiftBytes(codes), scale);
    LanesAgree(codes, scale, columns, start, first, second);
  }

  /** The sixteen lanes of the packed bytes are the columns from `start` on. */
  ghost predicate LanesHold(packed: seq<bv8>, scale: real, columns: seq<real>, start: nat)
    requires |packed| == 16
  {
    CodesInBook(packed);
    start + 16 <= |columns| && forall k: nat | k < 16 :: Lane(Interleaved(packed), scale, k) == columns[start + k]
  }

  function Lane(codes: seq<bv8>, scale: real, k: nat): real
    requires k < |codes| && InBook(codes)
  {
    Product(CODEBOOK[codes[k] as nat], scale)
  }

  lemma LanesAgree(codes: seq<bv8>, scale: real, columns: seq<real>, start: nat, first: seq<real>, second: seq<real>)
    requires |codes| == 16 && InBook(codes) && start + 16 <= |columns|
    requires forall k: nat | k < 16 :: Lane(codes, scale, k) == columns[start + k]
    requires first == DecodeHalf(codes, scale) && second == DecodeHalf(ShiftBytes(codes), scale)
    ensures first == columns[start..start + 8] && second == columns[start + 8..start + 16]
  {
    forall k: nat | k < 8 ensures first[k] == columns[start + k] {
      LowerLane(codes, scale, k);
    }
    forall k: nat | k < 8 ensures second[k] == columns[start + 8 + k] {
      UpperLane(codes, scale, k);
    }
  }

  lemma LowerLane(codes: seq<bv8>, scale: real, k: nat)
    requires |codes| == 16 && InBook(codes) && k < 8
    ensures DecodeHalf(codes, scale)[k] == Lane(codes, scale, k)
  {
  }

  lemma UpperLane(codes: seq<bv8>, scale: real, k: nat)
    requires |codes| == 16 && InBook(codes) && k < 8
    ensures InBook(ShiftBytes(codes)) && DecodeHalf(ShiftBytes(codes), scale)[k] == Lane(codes, scale, k + 8)
  {
    assert ShiftBytes(codes)[k] == codes[k + 8];
    LowerLane(ShiftBytes(codes), scale, k);
  }

  lemma LowByte(memory: seq<bv8>, offset: nat, i: nat)
    requires offset + 8 <= |memory| && i < 8
    ensures LoadLow(memory, offset)[i] == memory[offset + i]
  {
  }

  lemma DecodedLane(packed: seq<bv8>, codes: seq<bv8>, scaleCode: nat, g: real, width: nat, b: nat, k: nat, view: Row)
    requires g > 0.0 && Extents(view, width) && b * 16 + 16 <= width && k < 16 && b * 8 + 8 <= |view.payload|
    requires b < |view.scales|
    requires packed == LoadLow(view.payload, b * 8) && scaleCode == view.scales[b]
    requires codes == Interleaved(packed) && InBook(codes)
    ensures Lane(codes, EffectiveScale(E4m3fn.Decode(scaleCode), g), k) == ColumnAt(view, g, b * 16 + k)
  {
    CodeInBook(packed, k);
    LaneIndex(b, k);
    LowByte(view.payload, b * 8, k / 2);
    LaneIsColumn(Nibble(view.payload, b * 16 + k), CODEBOOK[codes[k] as nat], scaleCode, g);
  }

  lemma LanesAreColumns(
      packed: seq<bv8>, scaleCode: nat, g: real, width: nat, b: nat, start: nat, view: Row, columns: seq<real>)
    requires g > 0.0 && Extents(view, width) && start == b * 16 && start + 16 <= width
    requires b * 8 + 8 <= |view.payload| && b < |view.scales| && columns == Columns(view, g, width)
    requires packed == LoadLow(view.payload, b * 8) && scaleCode == view.scales[b]
    ensures LanesHold(packed, EffectiveScale(E4m3fn.Decode(scaleCode), g), columns, start)
  {
    var codes := Interleaved(packed);
    CodesInBook(packed);
    forall k: nat | k < 16
      ensures Lane(codes, EffectiveScale(E4m3fn.Decode(scaleCode), g), k) == columns[start + k]
    {
      LaneOfColumns(packed, codes, scaleCode, g, width, b, k, view, columns);
    }
  }

  lemma LaneOfColumns(
      packed: seq<bv8>, codes: seq<bv8>, scaleCode: nat, g: real, width: nat, b: nat, k: nat, view: Row,
      columns: seq<real>)
    requires g > 0.0 && Extents(view, width) && b * 16 + 16 <= width && k < 16 && b * 8 + 8 <= |view.payload|
    requires b < |view.scales| && columns == Columns(view, g, width)
    requires packed == LoadLow(view.payload, b * 8) && scaleCode == view.scales[b]
    requires codes == Interleaved(packed) && InBook(codes)
    ensures Lane(codes, EffectiveScale(E4m3fn.Decode(scaleCode), g), k) == columns[b * 16 + k]
  {
    DecodedLane(packed, codes, scaleCode, g, width, b, k, view);
    ColumnsIndex(view, g, width, width, b * 16 + k);
  }

  lemma LaneIsColumn(code: bv8, book: real, scaleCode: nat, g: real)
    requires g > 0.0 && book == E2m1.Value(code)
    ensures Product(book, EffectiveScale(E4m3fn.Decode(scaleCode), g)) == Column(code, scaleCode, g)
  {
  }

  lemma LaneIndex(b: nat, k: nat)
    requires k < 16
    ensures (b * 16 + k) / 2 == b * 8 + k / 2 && (b * 16 + k) % 2 == k % 2 && (b * 16 + k) / 16 == b && k / 2 < 8
  {
    Split(k, 2);
    QuotientOf(b * 8 + k / 2, 2, k % 2);
    QuotientOf(b, 16, k);
  }

  // ----- one row -----

  /** Writes a whole row: complete blocks in vectors, the rest one column at a time. */
  method DecodeRow(w: Weight, row: nat, output: array<real>)
    requires w.g > 0.0 && WeightExtents(w) && row < w.rows && output.Length == w.width
    modifies output
    ensures output[..] == Columns(RowOf(w, row), w.g, w.width)
    ensures forall column: nat | column < w.width :: output[column] == Scalar(w, row, column)
  {
    ghost var columns := Columns(RowOf(w, row), w.g, w.width);
    var blocks := w.width / 16;
    Split(w.width, 16);
    DecodeVectors(w, row, output, blocks, columns);
    for column := blocks * 16 to w.width
      invariant output[..column] == columns[..column]
    {
      output[column] := ScalarColumn(w, row, column, columns);
    }
    assert output[..] == output[..w.width];
    forall column: nat | column < w.width ensures columns[column] == Scalar(w, row, column) {
      ColumnIsValue(w, row, column, columns);
      ValueIsScalar(w, row, column);
    }
  }

  /** The scalar formula on the flat weight: nibble value times block scale times factor. */
  ghost function Scalar(w: Weight, row: nat, column: nat): real
    requires WeightExtents(w) && row < w.rows && column < w.width
  {
    WeightCell(w, row, column);
    Formula(w.payload[RowStart(row, Halved(w.width)) + column / 2], column % 2 == 0,
      w.scales[RowStart(row, Blocks(w.width)) + column / 16], w.g)
  }

  lemma ValueIsScalar(w: Weight, row: nat, column: nat)
    requires w.g > 0.0 && WeightExtents(w) && row < w.rows && column < w.width
    ensures WeightValue(w, row, column) == Scalar(w, row, column)
  {
    WeightValueIsFormula(w, row, column, RowStart(row, Halved(w.width)) + column / 2,
      RowStart(row, Blocks(w.width)) + column / 16);
  }

  lemma ColumnIsValue(w: Weight, row: nat, column: nat, columns: seq<real>)
    requires w.g > 0.0 && WeightExtents(w) && row < w.rows && column < w.width
    requires columns == Columns(RowOf(w, row), w.g, w.width)
    ensures columns[column] == WeightValue(w, row, column)
  {
    WeightValueIsColumn(w, row, column);
    ColumnsIndex(RowOf(w, row), w.g, w.width, w.width, column);
  }

  method ScalarColumn(w: Weight, row: nat, column: nat, ghost columns: seq<real>) returns (value: real)
    requires w.g > 0.0 && WeightExtents(w) && row < w.rows && column < w.width
    requires columns == Columns(RowOf(w, row), w.g, w.width)
    ensures value == columns[column]
  {
    ColumnIsValue(w, row, column, columns);
    value := WeightValue(w, row, column);
  }

  method DecodeVectors(w: Weight, row: nat, output: array<real>, blocks: nat, ghost columns: seq<real>)
    requires w.g > 0.0 && WeightExtents(w) && row < w.rows && columns == Columns(RowOf(w, row), w.g, w.width)
    requires blocks * 16 <= w.width == output.Length
    modifies output
    ensures output[..blocks * 16] == columns[..blocks * 16]
  {
    for b := 0 to blocks
      invariant output[..b * 16] == columns[..b * 16]
    {
      WriteBlock(w, row, b, output, columns);
    }
  }

  method WriteBlock(w: Weight, row: nat, b: nat, output: array<real>, ghost columns: seq<real>)
    requires w.g > 0.0 && WeightExtents(w) && row < w.rows && b * 16 + 16 <= w.width
    requires columns == Columns(RowOf(w, row), w.g, w.width) && output.Length == w.width
    requires output[..b * 16] == columns[..b * 16]
    modifies output
    ensures output[..b * 16 + 16] == columns[..b * 16 + 16]
  {
    var first, second := DecodeBlock(w, row, b, columns);
    Store(output, b * 16, first, columns);
    Store(output, b * 16 + 8, second, columns);
  }

  /** Stores eight lanes after a finished prefix. */
  method Store(output: array<real>, start: nat, lanes: seq<real>, ghost columns: seq<real>)
    requires |lanes| == 8 && start + 8 <= output.Length == |columns|
    requires output[..start] == columns[..start] && lanes == columns[start..start + 8]
    modifies output
    ensures output[..start + 8] == columns[..start + 8]
  {
    for k := 0 to 8
      invariant output[..start + k] == columns[..start + k]
    {
      output[start + k] := lanes[k];
    }
  }

  // ----- a row against an activation vector -----

  /** The products of a plain scalar product. */
  function Terms(input: seq<real>, columns: seq<real>): (r: seq<real>)
    requires |input| == |columns|
    ensures |r| == |input|
  {
    if input == [] then []
    else Terms(input[..|input| - 1], columns[..|input| - 1]) + [Product(input[|input| - 1], columns[|input| - 1])]
  }

  lemma {:induction false} TermsIndex(input: seq<real>, columns: seq<real>, k: nat)
    requires |input| == |columns| && k < |input|
    ensures Terms(input, columns)[k] == Product(input[k], columns[k])
  {
    if k < |input| - 1 {
      TermsIndex(input[..|input| - 1], columns[..|input| - 1], k);
    }
  }

  /** The sum of the first `n` terms, one after the other. */
  function PlainSum(terms: seq<real>, n: nat): real
    requires n <= |terms|
  {
    if n == 0 then 0.0 else PlainSum(terms, n - 1) + terms[n - 1]
  }

  function PlainDot(input: seq<real>, columns: seq<real>): real
    requires |input| == |columns|
  {
    PlainSum(Terms(input, columns), |input|)
  }

  function LaneSum(lanes: seq<real>): real
    requires |lanes| == 8
  {
    lanes[0] + lanes[1] + lanes[2] + lanes[3] + lanes[4] + lanes[5] + lanes[6] + lanes[7]
  }

  lemma LanesAdd(a: seq<real>, b: seq<real>)
    requires |a| == 8 && |b| == 8
    ensures LaneSum(Add(a, b)) == LaneSum(a) + LaneSum(b)
  {
  }

  lemma EightTerms(terms: seq<real>, start: nat)
    requires start + 8 <= |terms|
    ensures PlainSum(terms, start + 8) == PlainSum(terms, start) + LaneSum(terms[start..start + 8])
  {
    FourTerms(terms, start);
    FourTerms(terms, start + 4);
  }

  lemma FourTerms(terms: seq<real>, start: nat)
    requires start + 4 <= |terms|
    ensures PlainSum(terms, start + 4)
      == PlainSum(terms, start) + terms[start] + terms[start + 1] + terms[start + 2] + terms[start + 3]
  {
    assert PlainSum(terms, start + 2) == PlainSum(terms, start) + terms[start] + terms[start + 1];
  }

  lemma ProductsAreTerms(input: seq<real>, columns: seq<real>, start: nat)
    requires |input| == |columns| && start + 8 <= |input|
    ensures Multiply(input[start..start + 8], columns[start..start + 8]) == Terms(input, columns)[start..start + 8]
  {
    var products, terms := Multiply(input[start..start + 8], columns[start..start + 8]), Terms(input, columns);
    forall k: nat | k < 8 ensures products[k] == terms[start + k] {
      TermsIndex(input, columns, start + k);
    }
  }

  /** Accumulating eight products in eight lanes adds eight terms of the plain sum. */
  lemma LanesAdvance(sum: seq<real>, terms: seq<real>, start: nat)
    requires |sum| == 8 && start + 8 <= |terms| && LaneSum(sum) == PlainSum(terms, start)
    ensures LaneSum(Add(sum, terms[start..start + 8])) == PlainSum(terms, start + 8)
  {
    LanesAdd(sum, terms[start..start + 8]);
    EightTerms(terms, start);
  }

  /** Eight running sums over complete blocks, added up at the end, then the remaining columns: the plain sum. */
  method DotRow(w: Weight, row: nat, input: seq<real>) returns (sum: real)
    requires w.g > 0.0 && WeightExtents(w) && row < w.rows && |input| == w.width
    ensures sum == PlainDot(input, Columns(RowOf(w, row), w.g, w.width))
  {
    ghost var columns := Columns(RowOf(w, row), w.g, w.width);
    ghost var terms := Terms(input, columns);
    var blocks := w.width / 16;
    Split(w.width, 16);
    sum := DotVectors(w, row, input, blocks, columns, terms);
    for column := blocks * 16 to w.width
      invariant sum == PlainSum(terms, column)
    {
      sum := DotColumn(w, row, input, column, sum, columns, terms);
    }
  }

  method DotColumn(
      w: Weight, row: nat, input: seq<real>, column: nat, before: real, ghost columns: seq<real>,
      ghost terms: seq<real>)
    returns (sum: real)
    requires w.g > 0.0 && WeightExtents(w) && row < w.rows && |input| == w.width
    requires columns == Columns(RowOf(w, row), w.g, w.width)
    requires column < w.width && terms == Terms(input, columns) && before == PlainSum(terms, column)
    ensures sum == PlainSum(terms, column + 1)
  {
    var value := ScalarColumn(w, row, column, columns);
    TermsIndex(input, columns, column);
    sum := before + Product(input[column], value);
  }

  method DotVectors(
      w: Weight, row: nat, input: seq<real>, blocks: nat, ghost columns: seq<real>, ghost terms: seq<real>)
    returns (sum: real)
    requires w.g > 0.0 && WeightExtents(w) && row < w.rows && |input| == w.width
    requires columns == Columns(RowOf(w, row), w.g, w.width)
    requires blocks * 16 <= w.width && terms == Terms(input, columns)
    ensures sum == PlainSum(terms, blocks * 16)
  {
    var lanes := Broadcast(0.0);
    for b := 0 to blocks
      invariant |lanes| == 8 && LaneSum(lanes) == PlainSum(terms, b * 16)
    {
      lanes := DotBlock(w, row, input, b, lanes, columns, terms);
    }
    sum := LaneSum(lanes);
  }

  method DotBlock(
      w: Weight, row: nat, input: seq<real>, b: nat, before: seq<real>, ghost columns: seq<real>,
      ghost terms: seq<real>)
    returns (lanes: seq<real>)
    requires w.g > 0.0 && WeightExtents(w) && row < w.rows && |input| == w.width
    requires columns == Columns(RowOf(w, row), w.g, w.width)
    requires b * 16 + 16 <= w.width && terms == Terms(input, columns)
    requires |before| == 8 && LaneSum(before) == PlainSum(terms, b * 16)
    ensures |lanes| == 8 && LaneSum(lanes) == PlainSum(terms, b * 16 + 16)
  {
    var first, second := DecodeBlock(w, row, b, columns);
    lanes := MultiplyAdd(before, input, b * 16, first, second, columns);
  }

  /** Two multiply-adds take one block into the lanes. */
  method MultiplyAdd(
      before: seq<real>, input: seq<real>, start: nat, first: seq<real>, second: seq<real>, ghost columns: seq<real>)
    returns (lanes: seq<real>)
    requires |before| == 8 && start + 16 <= |input| == |columns|
    requires LaneSum(before) == PlainSum(Terms(input, columns), start)
    requires first == columns[start..start + 8] && second == columns[start + 8..start + 16]
    ensures |lanes| == 8 && LaneSum(lanes) == PlainSum(Terms(input, columns), start + 16)
  {
    lanes := Add(before, Multiply(input[start..start + 8], first));
    lanes := Add(lanes, Multiply(input[start + 8..start + 16], second));
    TwoVectors(before, input, columns, start, first, second);
  }

  lemma TwoVectors(
      before: seq<real>, input: seq<real>, columns: seq<real>, start: nat, first: seq<real>, second: seq<real>)
    requires |before| == 8 && start + 16 <= |input| == |columns|
    requires LaneSum(before) == PlainSum(Terms(input, columns), start)
    requires first == columns[start..start + 8] && second == columns[start + 8..start + 16]
    ensures
      LaneSum(Add(Add(before, Multiply(input[start..start + 8], first)),
        Multiply(input[start + 8..start + 16], second)))
      == PlainSum(Terms(input, columns), start + 16)
  {
    var terms := Terms(input, columns);
    ProductsAreTerms(input, columns, start);
    ProductsAreTerms(input, columns, start + 8);
    LanesAdvance(before, terms, start);
    LanesAdvance(Add(before, terms[start..start + 8]), terms, start + 8);
  }
}
