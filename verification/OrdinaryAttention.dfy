/**
  Dense attention over authored positions: the reference meaning every optimised
  lowering has to reproduce. A tensor is a nested sequence indexed outermost axis first.
*/
module OrdinaryAttention {
  import opened Wrappers
  import opened Arithmetic
  import opened Exponentials
  import opened Softmax

  type Tensor2 = seq<seq<real>>
  type Tensor3 = seq<seq<seq<real>>>
  type Tensor4 = seq<seq<seq<seq<real>>>>

  /** `scale` is the resolved one: authoring replaces a missing scale before lowering. */
  datatype Options = Options(causal: bool, slidingWindow: Option<int>, scale: real)

  datatype Inputs = Inputs(
    query: Tensor4,               // [batch, queryLength, queryHeads, headDim]
    key: Tensor4,                 // [batch, keyLength, kvHeads, headDim]
    value: Tensor4,               // [batch, keyLength, kvHeads, headDim]
    queryPositions: seq<seq<int>>,
    keyPositions: seq<seq<int>>,
    sinks: Option<seq<real>>,     // [queryHeads]
    options: Options)

  datatype Geometry = Geometry(queryLength: nat, queryHeads: nat, kvHeads: nat, headDim: nat)

  ghost predicate Rows(t: Tensor3, rows: nat, heads: nat, headDim: nat) {
    && |t| == rows
    && forall i :: 0 <= i < rows ==> |t[i]| == heads && forall h :: 0 <= h < heads ==> |t[i][h]| == headDim
  }

  ghost predicate HeadGeometry(g: Geometry, sinks: Option<seq<real>>, options: Options) {
    && g.kvHeads > 0 && g.queryHeads % g.kvHeads == 0
    && (sinks.Some? ==> |sinks.value| == g.queryHeads)
    && (options.slidingWindow.Some? ==> options.slidingWindow.value > 0)
  }

  ghost predicate Valid(x: Inputs, g: Geometry, keyLength: nat) {
    && HeadGeometry(g, x.sinks, x.options)
    && |x.query| == |x.key| == |x.value| == |x.queryPositions| == |x.keyPositions|
    && forall b :: 0 <= b < |x.query| ==>
      && Rows(x.query[b], g.queryLength, g.queryHeads, g.headDim)
      && Rows(x.key[b], keyLength, g.kvHeads, g.headDim)
      && Rows(x.value[b], keyLength, g.kvHeads, g.headDim)
      && |x.queryPositions[b]| == g.queryLength
      && |x.keyPositions[b]| == keyLength
  }

  function Dot(a: seq<real>, b: seq<real>): real
    requires |a| == |b|
  {
    if a == [] then 0.0 else Dot(a[..|a| - 1], b[..|b| - 1]) + a[|a| - 1] * b[|b| - 1]
  }

  /** A unit vector picks a component. */
  lemma {:induction false} DotUnit(a: seq<real>, b: seq<real>, i: nat)
    requires |a| == |b| && i < |a| && forall j :: 0 <= j < |a| ==> a[j] == if j == i then 1.0 else 0.0
    ensures Dot(a, b) == b[i]
  {
    var front, last := |a| - 1, b[|b| - 1];
    if i == front {
      DotZero(a[..front], b[..front]);
    } else {
      DotUnit(a[..front], b[..front], i);
    }
    assert 1.0 * last == last && 0.0 * last == 0.0;
  }

  lemma {:induction false} DotZero(a: seq<real>, b: seq<real>)
    requires |a| == |b| && forall j :: 0 <= j < |a| ==> a[j] == 0.0
    ensures Dot(a, b) == 0.0
  {
    if a != [] {
      DotZero(a[..|a| - 1], b[..|b| - 1]);
    }
  }

  lemma {:induction false} DotCommutes(a: seq<real>, b: seq<real>)
    requires |a| == |b|
    ensures Dot(a, b) == Dot(b, a)
  {
    if a != [] {
      DotCommutes(a[..|a| - 1], b[..|b| - 1]);
    }
  }

  /** The score is linear in the query, and by commutation in the key. */
  lemma {:induction false} DotLinear(a: seq<real>, c: seq<real>, w: real, b: seq<real>, sum: seq<real>)
    requires |a| == |b| == |c| == |sum| && forall j :: 0 <= j < |a| ==> sum[j] == a[j] + w * c[j]
    ensures Dot(sum, b) == Dot(a, b) + w * Dot(c, b)
  {
    if a != [] {
      var n := |a| - 1;
      DotLinear(a[..n], c[..n], w, b[..n], sum[..n]);
      LinearStep(a[n], c[n], w, b[n], Dot(c[..n], b[..n]));
    }
  }

  lemma LinearStep(x: real, z: real, w: real, y: real, before: real)
    ensures (x + w * z) * y == x * y + w * (z * y) && w * (before + z * y) == w * before + w * (z * y)
  {
  }

  /** The authored mask between one query position and one key position. */
  predicate Visible(options: Options, queryPosition: int, keyPosition: int) {
    && (options.causal ==> keyPosition <= queryPosition)
    && match options.slidingWindow
       case None => true
       case Some(window) =>
         && keyPosition >= queryPosition - (window - 1)
         && (options.causal || keyPosition <= queryPosition + (window - 1))
  }

  /** A window of `w` admits exactly the positions less than `w` away; a causal mask removes later ones. */
  lemma VisibleExactly(options: Options, queryPosition: int, keyPosition: int)
    ensures Visible(options, queryPosition, keyPosition) <==>
      && (options.causal ==> keyPosition <= queryPosition)
      && (options.slidingWindow.Some? ==>
            queryPosition - keyPosition < options.slidingWindow.value
            && keyPosition - queryPosition < (if options.causal then 1 else options.slidingWindow.value))
  {
  }

  function SinkOf(sinks: Option<seq<real>>, head: nat): Option<real>
    requires sinks.Some? ==> head < |sinks.value|
  {
    match sinks case None => None case Some(s) => Some(s[head])
  }

  /** What the row of query head `head` at query index `q` sees. */
  function RowKeys(x: Inputs, g: Geometry, keyLength: nat, b: nat, q: nat, head: nat): (keys: seq<Key>)
    requires Valid(x, g, keyLength)
    requires b < |x.query| && q < g.queryLength && head < g.queryHeads
    ensures |keys| == keyLength && Shaped(keys, g.headDim)
  {
    var kv := head / (g.queryHeads / g.kvHeads);
    HeadInRange(g, head);
    assert forall k :: 0 <= k < keyLength ==> |x.key[b][k]| == g.kvHeads && |x.value[b][k]| == g.kvHeads;
    seq(keyLength, k requires 0 <= k < keyLength =>
      Key(Dot(x.query[b][q][head], x.key[b][k][kv]) * x.options.scale,
          Visible(x.options, x.queryPositions[b][q], x.keyPositions[b][k]),
          x.value[b][k][kv]))
  }

  /** A unit query reads one component of the key of its head group, times the scale. */
  lemma UnitScore(x: Inputs, g: Geometry, keyLength: nat, b: nat, q: nat, head: nat, k: nat, i: nat)
    requires Valid(x, g, keyLength) && b < |x.query| && q < g.queryLength && head < g.queryHeads && k < keyLength
    requires i < g.headDim
    requires forall j :: 0 <= j < g.headDim ==> x.query[b][q][head][j] == if j == i then 1.0 else 0.0
    ensures g.queryHeads / g.kvHeads > 0 && head / (g.queryHeads / g.kvHeads) < g.kvHeads
    ensures RowKeys(x, g, keyLength, b, q, head)[k].score
            == x.key[b][k][head / (g.queryHeads / g.kvHeads)][i] * x.options.scale
  {
    HeadInRange(g, head);
    DotUnit(x.query[b][q][head], x.key[b][k][head / (g.queryHeads / g.kvHeads)], i);
  }

  /** The attention output vector of one query head at one query index. */
  function Lower(exp: real -> real, x: Inputs, g: Geometry, keyLength: nat, b: nat, q: nat, head: nat): (r: seq<real>)
    requires Valid(x, g, keyLength)
    requires b < |x.query| && q < g.queryLength && head < g.queryHeads
    ensures |r| == g.headDim
  {
    TwoPass(exp, RowKeys(x, g, keyLength, b, q, head), SinkOf(x.sinks, head), g.headDim)
  }

  /**
    A component of the output is the mean of the shown values of the head's group, weighted by the exponentials of the
    scaled scores; the head's own sink adds to the divisor alone.
  */
  lemma LowerIsMean(
      exp: real -> real, x: Inputs, g: Geometry, keyLength: nat, b: nat, q: nat, head: nat, d: nat)
    requires IsExponential(exp) && Valid(x, g, keyLength)
    requires b < |x.query| && q < g.queryLength && head < g.queryHeads && d < g.headDim
    ensures
      var keys := RowKeys(x, g, keyLength, b, q, head);
      var total := Total(exp, keys) + if x.sinks.Some? then exp(x.sinks.value[head]) else 0.0;
      Lower(exp, x, g, keyLength, b, q, head)[d]
      == if total > 0.0 then WeightedTotal(exp, keys, g.headDim, d) / total else 0.0
  {
    TwoPassIsMean(exp, RowKeys(x, g, keyLength, b, q, head), SinkOf(x.sinks, head), g.headDim, d);
  }

  lemma HeadInRange(g: Geometry, head: nat)
    requires g.kvHeads > 0 && g.queryHeads % g.kvHeads == 0 && head < g.queryHeads
    ensures g.queryHeads / g.kvHeads > 0
    ensures head / (g.queryHeads / g.kvHeads) < g.kvHeads
  {
    var groups := g.queryHeads / g.kvHeads;
    assert g.queryHeads == g.kvHeads * groups;
    assert groups == 0 ==> g.kvHeads * groups == 0;
    QuotientBelow(head, groups, g.kvHeads);
  }
}
