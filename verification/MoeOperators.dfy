/**
  The routed operator around the grouped kernels: a runtime mask that removes tokens from the
  routing and selects zero for their outputs.
*/
module MoeOperators {
  import opened Arithmetic
  import opened MoeExecution
  import opened MoeSchedule
  import opened RoutingAlgebra
  import opened Sums

  // ----- the token mask -----

  /** Every route was chosen among the experts, and there is one mask bit for each token. */
  ghost predicate Chosen(s: Shape, chosen: seq<int>, active: seq<bool>) {
    && |chosen| == s.tokens * s.routes && |active| == s.tokens
    && forall a :: 0 <= a < |chosen| ==> 0 <= chosen[a] < s.experts
  }

  function ActiveRoute(s: Shape, active: seq<bool>, a: int): bool {
    s.routes > 0 && 0 <= a / s.routes < |active| && active[a / s.routes]
  }

  /** Routes of masked tokens get expert -1. */
  function MaskedIds(s: Shape, chosen: seq<int>, active: seq<bool>): (ids: seq<int>)
    ensures |ids| == |chosen|
  {
    seq(|chosen|, a requires 0 <= a < |chosen| => if ActiveRoute(s, active, a) then chosen[a] else -1)
  }

  /** Routes of masked tokens get weight zero. */
  function MaskedWeights(x: Layer, s: Shape, active: seq<bool>): Layer {
    x.(weights := a => if ActiveRoute(s, active, a) then x.weights(a) else 0.0)
  }

  /** The final select: a masked token's output is exactly zero. */
  function Select(active: seq<bool>, t: nat, value: real): real
    requires t < |active|
  {
    if active[t] then value else 0.0
  }

  /** What the masked operator promises: the unmasked dense result for active tokens, zero for the others. */
  function Promised(x: Layer, s: Shape, chosen: seq<int>, active: seq<bool>, t: nat, d: int): real
    requires t < |active|
  {
    Select(active, t, DenseOutput(x, s, Interleaved, chosen, t, d))
  }

  lemma MaskedRoute(x: Layer, s: Shape, chosen: seq<int>, active: seq<bool>, t: nat, r: nat)
    requires Chosen(s, chosen, active) && t < s.tokens && r < s.routes
    ensures
      var base := t * s.routes;
      && RouteIds(MaskedIds(s, chosen, active), base)(r) == (if active[t] then RouteIds(chosen, base)(r) else -1)
      && RouteWeights(MaskedWeights(x, s, active), base)(r) == (if active[t] then RouteWeights(x, base)(r) else 0.0)
      && 0 <= RouteIds(chosen, base)(r) < s.experts
  {
    AssignmentOf(s, chosen, t, r);
    MaskedAt(x, s, chosen, active, t * s.routes, t, r);
  }

  lemma MaskedAt(x: Layer, s: Shape, chosen: seq<int>, active: seq<bool>, base: nat, t: nat, r: nat)
    requires Chosen(s, chosen, active) && t < s.tokens && r < s.routes
    requires base + r < |chosen| && (base + r) / s.routes == t
    ensures RouteIds(MaskedIds(s, chosen, active), base)(r) == (if active[t] then RouteIds(chosen, base)(r) else -1)
    ensures RouteWeights(MaskedWeights(x, s, active), base)(r) == (if active[t] then RouteWeights(x, base)(r) else 0.0)
    ensures 0 <= RouteIds(chosen, base)(r) < s.experts
  {
    RouteAt(x, chosen, base, r, base + r);
    RouteAt(MaskedWeights(x, s, active), MaskedIds(s, chosen, active), base, r, base + r);
  }

  /** The mask changes no expert. */
  lemma MaskKeepsExperts(x: Layer, s: Shape, active: seq<bool>, e: int, t: int, d: int)
    ensures ExpertOutput(MaskedWeights(x, s, active), s, Interleaved, e, t, d)
            == ExpertOutput(x, s, Interleaved, e, t, d)
  {
    var y := MaskedWeights(x, s, active);
    forall c | 0 <= c < s.intermediate
      ensures Channel(y, s, Interleaved, e, t, c) == Channel(x, s, Interleaved, e, t, c)
    {
      MaskKeepsRow(x, s, active, e, 2 * c, t);
      MaskKeepsRow(x, s, active, e, 2 * c + 1, t);
    }
    ContractCongruent(y, x, s, e, d, Channels(y, s, Interleaved, e, t), Channels(x, s, Interleaved, e, t));
  }

  lemma MaskKeepsRow(x: Layer, s: Shape, active: seq<bool>, e: int, row: int, t: int)
    ensures Project(MaskedWeights(x, s, active), s, e, row, t) == Project(x, s, e, row, t)
  {
    var y := MaskedWeights(x, s, active);
    Congruent(s.hidden, k => y.input(t, k) * y.gateUp(e, row, k), k => x.input(t, k) * x.gateUp(e, row, k));
  }

  /** The dense graph over masked routes already gives the promised result: its own select is redundant. */
  lemma MaskedDenseIsPromised(x: Layer, s: Shape, chosen: seq<int>, active: seq<bool>, t: nat, d: int)
    requires Chosen(s, chosen, active) && t < s.tokens
    ensures DenseOutput(MaskedWeights(x, s, active), s, Interleaved, MaskedIds(s, chosen, active), t, d)
            == Promised(x, s, chosen, active, t, d)
  {
    var base, y, ids := t * s.routes, MaskedWeights(x, s, active), MaskedIds(s, chosen, active);
    var masked := Weighted(Outputs(y, s, Interleaved, t, d), RouteIds(ids, base), RouteWeights(y, base), s.routes);
    var plain := Weighted(Outputs(x, s, Interleaved, t, d), RouteIds(chosen, base), RouteWeights(x, base), s.routes);
    forall e | 0 <= e < s.experts ensures masked(e) == if active[t] then plain(e) else 0.0 {
      MaskedExpert(x, s, chosen, active, t, d, e);
    }
    if active[t] {
      Congruent(s.experts, masked, plain);
    } else {
      Zeros(s.experts, masked);
    }
  }

  lemma MaskedExpert(x: Layer, s: Shape, chosen: seq<int>, active: seq<bool>, t: nat, d: int, e: int)
    requires Chosen(s, chosen, active) && t < s.tokens && 0 <= e
    ensures
      var base, y, ids := t * s.routes, MaskedWeights(x, s, active), MaskedIds(s, chosen, active);
      Weighted(Outputs(y, s, Interleaved, t, d), RouteIds(ids, base), RouteWeights(y, base), s.routes)(e)
      == if active[t] then
           Weighted(Outputs(x, s, Interleaved, t, d), RouteIds(chosen, base), RouteWeights(x, base), s.routes)(e)
         else 0.0
  {
    MaskKeepsExperts(x, s, active, e, t, d);
    MaskedSelection(x, s, chosen, active, t, e);
    ZeroTimes(ExpertOutput(x, s, Interleaved, e, t, d));
  }

  lemma MaskedSelection(x: Layer, s: Shape, chosen: seq<int>, active: seq<bool>, t: nat, e: int)
    requires Chosen(s, chosen, active) && t < s.tokens && 0 <= e
    ensures
      var base := t * s.routes;
      Sum(s.routes, Selected(RouteIds(MaskedIds(s, chosen, active), base),
                             RouteWeights(MaskedWeights(x, s, active), base), e))
      == if active[t] then Sum(s.routes, Selected(RouteIds(chosen, base), RouteWeights(x, base), e)) else 0.0
  {
    var base := t * s.routes;
    var masked := Selected(RouteIds(MaskedIds(s, chosen, active), base),
                           RouteWeights(MaskedWeights(x, s, active), base), e);
    var plain := Selected(RouteIds(chosen, base), RouteWeights(x, base), e);
    forall r: nat | r < s.routes ensures masked(r) == if active[t] then plain(r) else 0.0 {
      MaskedRoute(x, s, chosen, active, t, r);
    }
    if active[t] {
      Congruent(s.routes, masked, plain);
    } else {
      Zeros(s.routes, masked);
    }
  }

  lemma ActiveIsServed(s: Shape, chosen: seq<int>, active: seq<bool>, t: nat)
    requires Chosen(s, chosen, active) && t < s.tokens && active[t]
    ensures TokenServed(s, MaskedIds(s, chosen, active), t)
  {
    var x: Layer := Blank();
    forall r: nat | r < s.routes ensures RouteNamesExpert(s, MaskedIds(s, chosen, active), t, r) {
      MaskedRoute(x, s, chosen, active, t, r);
    }
  }

  function Blank(): Layer {
    Layer((t: int, k: int) => 0.0, (e: int, row: int, k: int) => 0.0, (e: int, row: int) => 0.0,
          (e: int, d: int, c: int) => 0.0, (e: int, d: int) => 0.0, a => 0.0, (gate: real, up: real) => 0.0)
  }

  /**
    The masked operator over the grouped kernels: for every batch, mask and storage an active token gets the
    unmasked dense result and a masked one exactly zero, as the masked dense graph gives.
  */
  lemma MaskedOperator(
      x: Layer, s: Shape, chosen: seq<int>, active: seq<bool>, blockSize: nat, plan: Plan,
      storage: (int, int) -> real, t: nat, d: int)
    requires Chosen(s, chosen, active) && PlanFor(MaskedIds(s, chosen, active), s.experts, blockSize, plan)
    requires t < s.tokens
    ensures
      var y := MaskedWeights(x, s, active);
      Select(active, t, GroupedOutput(y, s, plan, blockSize, 0, s.experts, storage, t, d))
      == Promised(x, s, chosen, active, t, d)
      == DenseOutput(y, s, Interleaved, MaskedIds(s, chosen, active), t, d)
  {
    MaskedDenseIsPromised(x, s, chosen, active, t, d);
    if active[t] {
      ActiveIsServed(s, chosen, active, t);
      GroupedEqualsDense(MaskedWeights(x, s, active), s, MaskedIds(s, chosen, active), blockSize, plan, storage, t, d);
    }
  }
}
