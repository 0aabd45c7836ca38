/**
  The two gate/up layouts. The portable graph of the gated operators splits the doubled axis into
  halves, the grouped kernels read interleaved rows; the clamped operator is interleaved throughout.
*/
module MoeLayouts {
  import opened Arithmetic
  import opened MoeExecution
  import opened MoeSchedule
  import opened RoutingAlgebra
  import opened Sums

  /** Reading de-interleaved weights as halves is reading the weights interleaved. */
  function Deinterleave(x: Layer, intermediate: nat): Layer {
    x.(gateUp := (e: int, row: int, k: int) => x.gateUp(e, Interleave(row, intermediate), k),
       gateUpBias := (e: int, row: int) => x.gateUpBias(e, Interleave(row, intermediate)))
  }

  function Interleave(row: int, intermediate: nat): int {
    if row < intermediate then 2 * row else 2 * (row - intermediate) + 1
  }

  lemma ProjectCongruent(x: Layer, y: Layer, s: Shape, e: int, left: int, right: int, t: int)
    requires y.input == x.input && y.gateUpBias(e, left) == x.gateUpBias(e, right)
    requires forall k :: y.gateUp(e, left, k) == x.gateUp(e, right, k)
    ensures Project(y, s, e, left, t) == Project(x, s, e, right, t)
  {
    Congruent(s.hidden, k => y.input(t, k) * y.gateUp(e, left, k), k => x.input(t, k) * x.gateUp(e, right, k));
  }

  /** One expert of a portable graph over halves agrees with interleaving kernels on permuted weights. */
  lemma HalvesOfDeinterleaved(x: Layer, s: Shape, e: int, t: int, d: int)
    ensures ExpertOutput(Deinterleave(x, s.intermediate), s, Halves, e, t, d)
            == ExpertOutput(x, s, Interleaved, e, t, d)
  {
    var y := Deinterleave(x, s.intermediate);
    forall c | 0 <= c < s.intermediate ensures Channel(y, s, Halves, e, t, c) == Channel(x, s, Interleaved, e, t, c) {
      assert Interleave(c, s.intermediate) == 2 * c;
      assert Interleave(s.intermediate + c, s.intermediate) == 2 * c + 1;
      ProjectCongruent(x, y, s, e, c, 2 * c, t);
      ProjectCongruent(x, y, s, e, s.intermediate + c, 2 * c + 1, t);
    }
    ContractCongruent(y, x, s, e, d, Channels(y, s, Halves, e, t), Channels(x, s, Interleaved, e, t));
  }

  // ----- whole graphs -----

  /** Dense graphs whose experts agree agree. */
  lemma DenseCongruent(
      x: Layer, left: Layout, y: Layer, right: Layout, s: Shape, ids: seq<int>, t: nat, d: int)
    requires x.weights == y.weights
    requires forall e :: 0 <= e < s.experts ==> ExpertOutput(x, s, left, e, t, d) == ExpertOutput(y, s, right, e, t, d)
    ensures DenseOutput(x, s, left, ids, t, d) == DenseOutput(y, s, right, ids, t, d)
  {
    var id, weight := RouteIds(ids, t * s.routes), RouteWeights(x, t * s.routes);
    assert weight == RouteWeights(y, t * s.routes);
    WeightedCongruent(Outputs(x, s, left, t, d), Outputs(y, s, right, t, d), id, weight, s.experts, s.routes);
  }

  /** The grouped kernels compute the portable halves graph of de-interleaved weights, token by token. */
  lemma GroupedEqualsDeinterleaved(
      x: Layer, s: Shape, ids: seq<int>, blockSize: nat, plan: Plan, storage: (int, int) -> real, t: nat, d: int)
    requires |ids| == s.tokens * s.routes && PlanFor(ids, s.experts, blockSize, plan) && t < s.tokens
    requires TokenServed(s, ids, t)
    ensures GroupedOutput(x, s, plan, blockSize, 0, s.experts, storage, t, d)
            == DenseOutput(Deinterleave(x, s.intermediate), s, Halves, ids, t, d)
  {
    var y := Deinterleave(x, s.intermediate);
    forall e | 0 <= e < s.experts
      ensures ExpertOutput(x, s, Interleaved, e, t, d) == ExpertOutput(y, s, Halves, e, t, d)
    {
      HalvesOfDeinterleaved(x, s, e, t, d);
    }
    DenseCongruent(x, Interleaved, y, Halves, s, ids, t, d);
    GroupedEqualsDense(x, s, ids, blockSize, plan, storage, t, d);
  }

  // ----- the same weights under both readings -----

  /** The gated activation of an operator with activation `act`. */
  function GateOf(act: real -> real): (real, real) -> real {
    (gate: real, up: real) => act(gate) * up
  }

  /** What the gated operators run: a fixed activation, no biases. */
  ghost predicate GatedLayer(x: Layer, act: real -> real) {
    && x.combine == GateOf(act)
    && (forall e, row :: x.gateUpBias(e, row) == 0.0)
    && (forall e, d :: x.downBias(e, d) == 0.0)
  }

  /** With at most one channel the two readings name the same rows, whatever the layer. */
  lemma OneChannelAgrees(x: Layer, s: Shape, e: int, t: int, d: int)
    requires s.intermediate <= 1
    ensures ExpertOutput(x, s, Halves, e, t, d) == ExpertOutput(x, s, Interleaved, e, t, d)
  {
    ContractCongruent(x, x, s, e, d, Channels(x, s, Halves, e, t), Channels(x, s, Interleaved, e, t));
  }

  /** Without hidden components every projection of a layer without biases is zero. */
  lemma NoHiddenAgrees(x: Layer, act: real -> real, s: Shape, e: int, t: int, d: int)
    requires s.hidden == 0 && GatedLayer(x, act)
    ensures ExpertOutput(x, s, Halves, e, t, d) == ExpertOutput(x, s, Interleaved, e, t, d)
  {
    ContractCongruent(x, x, s, e, d, Channels(x, s, Halves, e, t), Channels(x, s, Interleaved, e, t));
  }

  /** Every token's routing weights are positive and sum to one, as a renormalised softmax leaves them. */
  ghost predicate Normalised(x: Layer, s: Shape) {
    && (forall a :: x.weights(a) > 0.0)
    && (s.routes > 0 ==> forall t: nat :: t < s.tokens ==> Sum(s.routes, RouteWeights(x, t * s.routes)) == 1.0)
  }

  /** A layer that looks at one hidden component; its first two gate/up rows are one, and routes share one weight. */
  function Probe(act: real -> real, weight: real): Layer {
    Layer((t: int, k: int) => if k == 0 then 1.0 else 0.0,
          (e: int, row: int, k: int) => if row < 2 then 1.0 else 0.0,
          (e: int, row: int) => 0.0,
          (e: int, d: int, c: int) => 1.0,
          (e: int, d: int) => 0.0,
          a => weight,
          GateOf(act))
  }

  lemma ProbeProject(act: real -> real, weight: real, s: Shape, e: int, row: int, t: int)
    requires s.hidden > 0
    ensures Project(Probe(act, weight), s, e, row, t) == if row < 2 then 1.0 else 0.0
  {
    var x := Probe(act, weight);
    var f := k => x.input(t, k) * x.gateUp(e, row, k);
    forall k | k != 0 ensures f(k) == 0.0 {
      assert x.input(t, k) == 0.0;
    }
    Single(s.hidden, f, 0);
    Congruent(s.hidden, f, k => x.input(t, k) * x.gateUp(e, row, k));
  }

  /** Read as halves no channel of the probe has both its rows set; interleaved the first one has. */
  lemma ProbeChannel(act: real -> real, weight: real, s: Shape, e: int, t: int, c: int)
    requires s.hidden > 0 && 0 <= c < s.intermediate && s.intermediate >= 2
    ensures Channel(Probe(act, weight), s, Halves, e, t, c) == 0.0
    ensures Channel(Probe(act, weight), s, Interleaved, e, t, c) == if c == 0 then act(1.0) else 0.0
  {
    ProbeProject(act, weight, s, e, c, t);
    ProbeProject(act, weight, s, e, s.intermediate + c, t);
    ProbeProject(act, weight, s, e, 2 * c, t);
    ProbeProject(act, weight, s, e, 2 * c + 1, t);
    ZeroTimes(act(1.0));
    ZeroTimes(act(0.0));
  }

  lemma ProbeHalves(act: real -> real, weight: real, s: Shape, e: int, t: int, d: int)
    requires s.hidden > 0 && s.intermediate >= 2
    ensures ExpertOutput(Probe(act, weight), s, Halves, e, t, d) == 0.0
  {
    var x := Probe(act, weight);
    var halves := Channels(x, s, Halves, e, t);
    forall c | 0 <= c < s.intermediate ensures halves(c) * x.down(e, d, c) == 0.0 {
      ProbeChannel(act, weight, s, e, t, c);
    }
    Zeros(s.intermediate, c => halves(c) * x.down(e, d, c));
  }

  lemma ProbeInterleaved(act: real -> real, weight: real, s: Shape, e: int, t: int, d: int)
    requires s.hidden > 0 && s.intermediate >= 2
    ensures ExpertOutput(Probe(act, weight), s, Interleaved, e, t, d) == act(1.0)
  {
    var x := Probe(act, weight);
    var interleaved := Channels(x, s, Interleaved, e, t);
    var term := c => interleaved(c) * x.down(e, d, c);
    forall c | 0 <= c < s.intermediate ensures term(c) == if c == 0 then act(1.0) else 0.0 {
      ProbeChannel(act, weight, s, e, t, c);
      OneTimes(interleaved(c));
    }
    Single(s.intermediate, term, 0);
    Congruent(s.intermediate, term, c => interleaved(c) * x.down(e, d, c));
  }

  /**
    One expert: the two readings agree on every layer with at most one channel, and for a fixed activation that is
    nonzero at one they agree on all layers only then.
  */
  lemma HalvesAgreeExactly(s: Shape, act: real -> real)
    requires s.hidden > 0 && act(1.0) != 0.0
    ensures (forall x: Layer, e: int, t: int, d: int | GatedLayer(x, act) ::
               ExpertOutput(x, s, Halves, e, t, d) == ExpertOutput(x, s, Interleaved, e, t, d))
            <==> s.intermediate <= 1
    ensures s.intermediate <= 1 ==>
      forall x: Layer, e: int, t: int, d: int ::
        ExpertOutput(x, s, Halves, e, t, d) == ExpertOutput(x, s, Interleaved, e, t, d)
  {
    if s.intermediate <= 1 {
      forall x: Layer, e: int, t: int, d: int
        ensures ExpertOutput(x, s, Halves, e, t, d) == ExpertOutput(x, s, Interleaved, e, t, d)
      {
        OneChannelAgrees(x, s, e, t, d);
      }
    } else {
      ProbeHalves(act, 1.0, s, 0, 0, 0);
      ProbeInterleaved(act, 1.0, s, 0, 0, 0);
    }
  }

  // ----- the gated operator -----

  ghost predicate NamesExpert(s: Shape, ids: seq<int>, t: nat) {
    exists r: nat :: r < s.routes && RouteNamesExpert(s, ids, t, r)
  }

  /** A token routed to no expert gets zero from every dense graph. */
  lemma UnroutedIsZero(x: Layer, layout: Layout, s: Shape, ids: seq<int>, t: nat, d: int)
    requires !NamesExpert(s, ids, t)
    ensures DenseOutput(x, s, layout, ids, t, d) == 0.0
  {
    var output, id := Outputs(x, s, layout, t, d), RouteIds(ids, t * s.routes);
    var weight := RouteWeights(x, t * s.routes);
    forall e | 0 <= e < s.experts ensures Weighted(output, id, weight, s.routes)(e) == 0.0 {
      forall r | 0 <= r < s.routes ensures Selected(id, weight, e)(r) == 0.0 {
        assert !RouteNamesExpert(s, ids, t, r);
      }
      Zeros(s.routes, Selected(id, weight, e));
      ZeroTimes(output(e));
    }
    Zeros(s.experts, Weighted(output, id, weight, s.routes));
  }

  lemma OneTimes(y: real)
    ensures y * 1.0 == y
  {
  }

  /** The probe tells the grouped kernels from the halves graph at a route that names an expert. */
  lemma ProbeSeparates(
      act: real -> real, weight: real, s: Shape, ids: seq<int>, blockSize: nat, plan: Plan,
      storage: (int, int) -> real, t: nat, r: nat)
    requires |ids| == s.tokens * s.routes && PlanFor(ids, s.experts, blockSize, plan) && t < s.tokens
    requires TokenServed(s, ids, t) && r < s.routes && RouteNamesExpert(s, ids, t, r)
    requires s.hidden > 0 && s.intermediate >= 2 && act(1.0) != 0.0 && weight > 0.0
    ensures GroupedOutput(Probe(act, weight), s, plan, blockSize, 0, s.experts, storage, t, 0) != 0.0
    ensures DenseOutput(Probe(act, weight), s, Halves, ids, t, 0) == 0.0
  {
    var x := Probe(act, weight);
    PlanIsWellRouted(s, ids, blockSize, plan);
    ServedExactly(s, ids, blockSize, plan, t);
    GroupedIsRouteSum(x, s, ids, blockSize, plan, 0, s.experts, storage, t, 0);
    AssignmentOf(s, ids, t, r);
    BaseFits(s, ids, t);
    ProbeShareSum(act, weight, s, ids, t, t * s.routes, r);
    ProbeHalvesDense(act, weight, s, ids, t);
  }

  lemma BaseFits(s: Shape, ids: seq<int>, t: nat)
    requires |ids| == s.tokens * s.routes && t < s.tokens
    ensures 0 <= t * s.routes && t * s.routes + s.routes <= |ids|
  {
    MulMono(0, t, s.routes);
    MulMono(t + 1, s.tokens, s.routes);
    Distribute(t, 1, s.routes);
  }

  lemma ProbeShareSum(act: real -> real, weight: real, s: Shape, ids: seq<int>, t: nat, base: nat, r: nat)
    requires base + s.routes <= |ids| && r < s.routes && 0 <= ids[base + r] < s.experts
    requires s.hidden > 0 && s.intermediate >= 2 && act(1.0) != 0.0 && weight > 0.0
    ensures Sum(s.routes, Share(Outputs(Probe(act, weight), s, Interleaved, t, 0), RouteIds(ids, base),
                                RouteWeights(Probe(act, weight), base), 0, s.experts)) != 0.0
  {
    var x := Probe(act, weight);
    var output, id, weights := Outputs(x, s, Interleaved, t, 0), RouteIds(ids, base), RouteWeights(x, base);
    forall e | 0 <= e < s.experts ensures output(e) == act(1.0) {
      ProbeInterleaved(act, weight, s, e, t, 0);
    }
    RouteAt(x, ids, base, r, base + r);
    UniformShares(output, id, weights, s.experts, s.routes, act(1.0), weight, r);
  }

  /** Equal shares of one. */
  lemma ProbeIsNormalised(act: real -> real, s: Shape)
    requires s.routes > 0
    ensures Normalised(Probe(act, EqualShare(s.routes)), s)
  {
    var weight := EqualShare(s.routes);
    var x := Probe(act, weight);
    ShareIsWhole(s.routes);
    forall t: nat | t < s.tokens ensures Sum(s.routes, RouteWeights(x, t * s.routes)) == 1.0 {
      SumConstant(s.routes, RouteWeights(x, t * s.routes), weight);
    }
  }

  function EqualShare(n: nat): real
    requires n > 0
  {
    1.0 / n as real
  }

  lemma ShareIsWhole(n: nat)
    requires n > 0
    ensures EqualShare(n) > 0.0 && EqualShare(n) * n as real == 1.0
  {
  }

  lemma {:induction false} SumConstant(n: nat, f: int -> real, w: real)
    requires forall i: nat | i < n :: f(i) == w
    ensures Sum(n, f) == w * n as real
  {
    if n > 0 {
      SumConstant(n - 1, f, w);
      assert w * n as real == w * (n - 1) as real + w;
    }
  }

  lemma ProbeHalvesDense(act: real -> real, weight: real, s: Shape, ids: seq<int>, t: nat)
    requires s.hidden > 0 && s.intermediate >= 2
    ensures DenseOutput(Probe(act, weight), s, Halves, ids, t, 0) == 0.0
  {
    var x := Probe(act, weight);
    var weighted := Weighted(Outputs(x, s, Halves, t, 0), RouteIds(ids, t * s.routes),
                             RouteWeights(x, t * s.routes), s.routes);
    forall e | 0 <= e < s.experts ensures weighted(e) == 0.0 {
      ProbeHalves(act, weight, s, e, t, 0);
      ZeroTimes(Sum(s.routes, Selected(RouteIds(ids, t * s.routes), RouteWeights(x, t * s.routes), e)));
    }
    Zeros(s.experts, weighted);
  }

  /** One layer the gated operator may run, one buffer content and one column give the same in both graphs. */
  ghost predicate GatedAgrees(
      act: real -> real, x: Layer, s: Shape, ids: seq<int>, blockSize: nat, plan: Plan,
      storage: (int, int) -> real, t: nat, d: int)
    requires blockSize > 0
  {
    GatedLayer(x, act) && Normalised(x, s) ==>
      GroupedOutput(x, s, plan, blockSize, 0, s.experts, storage, t, d) == DenseOutput(x, s, Halves, ids, t, d)
  }

  /**
    The gated operator: with its activation fixed, the grouped kernels agree with the portable halves graph for all
    weights, all normalised routings and all storage exactly when there is at most one channel, no hidden component,
    or no route of the token names an expert.
  */
  lemma GatedGroupedExactly(
      act: real -> real, s: Shape, ids: seq<int>, blockSize: nat, plan: Plan, t: nat)
    requires act(1.0) != 0.0 && |ids| == s.tokens * s.routes && PlanFor(ids, s.experts, blockSize, plan)
    requires t < s.tokens && TokenServed(s, ids, t)
    ensures (forall x: Layer, storage: (int, int) -> real, d: int ::
               GatedAgrees(act, x, s, ids, blockSize, plan, storage, t, d))
            <==> s.intermediate <= 1 || s.hidden == 0 || !NamesExpert(s, ids, t)
  {
    if s.intermediate <= 1 || s.hidden == 0 || !NamesExpert(s, ids, t) {
      forall x: Layer, storage: (int, int) -> real, d: int
        ensures GatedAgrees(act, x, s, ids, blockSize, plan, storage, t, d)
      {
        if GatedLayer(x, act) {
          GroupedEqualsDense(x, s, ids, blockSize, plan, storage, t, d);
          ReadingsAgree(act, x, s, ids, t, d);
        }
      }
    } else {
      var r: nat :| r < s.routes && RouteNamesExpert(s, ids, t, r);
      var x, storage := Probe(act, EqualShare(s.routes)), (a: int, c: int) => 0.0;
      GatedDiffers(act, s, ids, blockSize, plan, storage, t, r);
      assert !GatedAgrees(act, x, s, ids, blockSize, plan, storage, t, 0);
    }
  }

  lemma GatedDiffers(
      act: real -> real, s: Shape, ids: seq<int>, blockSize: nat, plan: Plan, storage: (int, int) -> real, t: nat,
      r: nat)
    requires act(1.0) != 0.0 && |ids| == s.tokens * s.routes && PlanFor(ids, s.experts, blockSize, plan)
    requires t < s.tokens && TokenServed(s, ids, t) && r < s.routes && RouteNamesExpert(s, ids, t, r)
    requires s.hidden > 0 && s.intermediate >= 2
    ensures !GatedAgrees(act, Probe(act, EqualShare(s.routes)), s, ids, blockSize, plan, storage, t, 0)
  {
    var weight := EqualShare(s.routes);
    ProbeIsNormalised(act, s);
    ProbeIsGated(act, weight);
    ShareIsWhole(s.routes);
    ProbeSeparates(act, weight, s, ids, blockSize, plan, storage, t, r);
  }

  lemma ProbeIsGated(act: real -> real, weight: real)
    ensures GatedLayer(Probe(act, weight), act)
  {
  }

  lemma ReadingsAgree(act: real -> real, x: Layer, s: Shape, ids: seq<int>, t: nat, d: int)
    requires GatedLayer(x, act) && (s.intermediate <= 1 || s.hidden == 0 || !NamesExpert(s, ids, t))
    ensures DenseOutput(x, s, Interleaved, ids, t, d) == DenseOutput(x, s, Halves, ids, t, d)
  {
    if s.intermediate <= 1 || s.hidden == 0 {
      forall e | 0 <= e < s.experts
        ensures ExpertOutput(x, s, Interleaved, e, t, d) == ExpertOutput(x, s, Halves, e, t, d)
      {
        if s.intermediate <= 1 {
          OneChannelAgrees(x, s, e, t, d);
        } else {
          NoHiddenAgrees(x, act, s, e, t, d);
        }
      }
      DenseCongruent(x, Interleaved, x, Halves, s, ids, t, d);
    } else {
      UnroutedIsZero(x, Interleaved, s, ids, t, d);
      UnroutedIsZero(x, Halves, s, ids, t, d);
    }
  }
}
