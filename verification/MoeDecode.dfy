/**
  Small batches: with at most eight tokens the NVFP4 grouped kernels read only the first lane of
  every block. When what they compute is the masked operator's result, and an input for which it is not.
*/
module MoeDecode {
  import opened Arithmetic
  import opened MoeExecution
  import opened MoeSchedule
  import opened MoeOperators

  /** The schedule as a first-lane kernel sees it: every other lane might as well hold the sentinel. */
  function Heads(plan: Plan, sentinel: int, blockSize: nat): Plan
    requires blockSize > 0
  {
    plan.(sorted := seq(|plan.sorted|, p requires 0 <= p < |plan.sorted| =>
      if p % blockSize == 0 then plan.sorted[p] else sentinel))
  }

  /** What the first-lane kernels leave after the reshape and the sum over routes. */
  ghost function DecodeOutput(
      x: Layer, s: Shape, plan: Plan, blockSize: nat, lo: int, hi: int, storage: (int, int) -> real,
      t: nat, d: int): real
    requires blockSize > 0
  {
    GroupedOutput(x, s, Heads(plan, s.tokens * s.routes, blockSize), blockSize, lo, hi, storage, t, d)
  }

  lemma HeadsConsistent(ids: seq<int>, blockSize: nat, plan: Plan)
    requires blockSize > 0 && Consistent(ids, blockSize, plan)
    ensures Consistent(ids, blockSize, Heads(plan, |ids|, blockSize))
  {
    var heads := Heads(plan, |ids|, blockSize);
    assert forall p :: 0 <= p < |heads.sorted| && heads.sorted[p] < |ids| ==> heads.sorted[p] == plan.sorted[p];
  }

  lemma HeadsOfHeadsOnly(ids: seq<int>, blockSize: nat, plan: Plan)
    requires blockSize > 0 && HeadsOnly(ids, blockSize, plan)
    ensures Heads(plan, |ids|, blockSize) == plan
  {
    assert Heads(plan, |ids|, blockSize).sorted == plan.sorted;
  }

  /** An assignment outside the first lanes has no lane left. */
  lemma HeadsDrop(ids: seq<int>, blockSize: nat, plan: Plan, p: nat)
    requires blockSize > 0 && Consistent(ids, blockSize, plan)
    requires p < |plan.sorted| && plan.sorted[p] < |ids| && p % blockSize != 0
    ensures !Scheduled(Heads(plan, |ids|, blockSize), plan.sorted[p])
  {
  }

  /**
    Reading first lanes only, the masked operator gives the promised result for every layer, storage and token
    exactly on the sparse path, or when no expert is shared by two routes.
  */
  lemma DecodeExactly(s: Shape, chosen: seq<int>, active: seq<bool>, blockSize: nat, plan: Plan)
    requires Chosen(s, chosen, active) && PlanFor(MaskedIds(s, chosen, active), s.experts, blockSize, plan)
    ensures DecodePromised(s, chosen, active, blockSize, plan) <==>
      blockSize == 1 || |chosen| <= s.experts || NoSharedExpert(MaskedIds(s, chosen, active), s.experts)
  {
    var ids := MaskedIds(s, chosen, active);
    FirstLanesSuffice(ids, s.experts, blockSize, plan);
    if HeadsOnly(ids, blockSize, plan) {
      HeadsOfHeadsOnly(ids, blockSize, plan);
      forall x: Layer, storage: (int, int) -> real, t: nat, d: int | t < s.tokens
        ensures DecodeAgrees(x, s, chosen, active, blockSize, plan, storage, t, d)
      {
        MaskedOperator(x, s, chosen, active, blockSize, plan, storage, t, d);
      }
    } else {
      var p :| 0 <= p < |plan.sorted| && plan.sorted[p] != |ids| && p % blockSize != 0;
      DroppedLaneDiffers(s, chosen, active, blockSize, plan, p);
    }
  }

  ghost predicate DecodeAgrees(
      x: Layer, s: Shape, chosen: seq<int>, active: seq<bool>, blockSize: nat, plan: Plan,
      storage: (int, int) -> real, t: nat, d: int)
    requires blockSize > 0 && t < |active|
  {
    Select(active, t, DecodeOutput(MaskedWeights(x, s, active), s, plan, blockSize, 0, s.experts, storage, t, d))
    == Promised(x, s, chosen, active, t, d)
  }

  ghost predicate DecodePromised(s: Shape, chosen: seq<int>, active: seq<bool>, blockSize: nat, plan: Plan)
    requires blockSize > 0 && |active| == s.tokens
  {
    forall x: Layer, storage: (int, int) -> real, t: nat, d: int :: t < s.tokens ==>
      DecodeAgrees(x, s, chosen, active, blockSize, plan, storage, t, d)
  }

  /** The token of an assignment outside the first lanes follows what the storage held. */
  lemma DroppedLaneDiffers(
      s: Shape, chosen: seq<int>, active: seq<bool>, blockSize: nat, plan: Plan, p: nat)
    requires Chosen(s, chosen, active) && PlanFor(MaskedIds(s, chosen, active), s.experts, blockSize, plan)
    requires p < |plan.sorted| && plan.sorted[p] != |chosen| && p % blockSize != 0
    ensures !DecodePromised(s, chosen, active, blockSize, plan)
  {
    var ids := MaskedIds(s, chosen, active);
    var a := plan.sorted[p];
    OffHeadIsActive(s, chosen, active, blockSize, plan, p);
    var t, r := TokenOf(s, ids, a);
    AssignmentOf(s, ids, t, r);
    DroppedLaneLeaks(MaskedWeights(Blank(), s, active), s, ids, blockSize, plan, p, t, r);
    assert !(DecodeAgrees(Blank(), s, chosen, active, blockSize, plan, Mark(a, 1.0), t, 0)
             && DecodeAgrees(Blank(), s, chosen, active, blockSize, plan, Mark(a, 0.0), t, 0));
  }

  lemma DroppedLaneLeaks(
      x: Layer, s: Shape, ids: seq<int>, blockSize: nat, plan: Plan, p: nat, t: nat, r: nat)
    requires blockSize > 0 && Consistent(ids, blockSize, plan) && |ids| == s.tokens * s.routes
    requires p < |plan.sorted| && plan.sorted[p] < |ids| && p % blockSize != 0
    requires t < s.tokens && r < s.routes && plan.sorted[p] == t * s.routes + r
    ensures DecodeOutput(x, s, plan, blockSize, 0, s.experts, Mark(plan.sorted[p], 1.0), t, 0)
            == DecodeOutput(x, s, plan, blockSize, 0, s.experts, Mark(plan.sorted[p], 0.0), t, 0) + 1.0
  {
    HeadsConsistent(ids, blockSize, plan);
    HeadsDrop(ids, blockSize, plan, p);
    PlanIsWellRouted(s, ids, blockSize, Heads(plan, |ids|, blockSize));
    UnscheduledRouteLeaks(x, s, ids, blockSize, Heads(plan, |ids|, blockSize), 0, s.experts, t, r, 0);
  }

  /** Off the first lanes only the dense path puts assignments, and only those of active tokens. */
  lemma OffHeadIsActive(
      s: Shape, chosen: seq<int>, active: seq<bool>, blockSize: nat, plan: Plan, p: nat)
    requires Chosen(s, chosen, active) && PlanFor(MaskedIds(s, chosen, active), s.experts, blockSize, plan)
    requires p < |plan.sorted| && plan.sorted[p] != |chosen| && p % blockSize != 0
    ensures 0 <= plan.sorted[p] < |chosen| && ActiveRoute(s, active, plan.sorted[p])
  {
    var ids := MaskedIds(s, chosen, active);
    if |ids| <= s.experts {
      PaddedOffset(|ids|, blockSize, p);
    } else {
      assert Scheduled(plan, plan.sorted[p]);
    }
  }

  // ----- without a mask -----

  ghost predicate AllActive(active: seq<bool>) {
    forall t :: 0 <= t < |active| ==> active[t]
  }

  /** More routes than experts always share one. */
  lemma {:induction false} Pigeonhole(ids: seq<int>, experts: nat)
    requires |ids| > experts && forall a :: 0 <= a < |ids| ==> 0 <= ids[a] < experts
    ensures !NoSharedExpert(ids, experts)
  {
    if NoSharedExpert(ids, experts) {
      DistinctBound(ids, experts);
    }
  }

  lemma {:induction false} DistinctBound(ids: seq<int>, experts: nat)
    requires forall a, b :: 0 <= a < b < |ids| ==> ids[a] != ids[b]
    requires forall a :: 0 <= a < |ids| ==> 0 <= ids[a] < experts
    ensures |ids| <= experts
  {
    if ids != [] {
      assert 0 <= ids[0] < experts;
      var last: nat := experts - 1;
      if k :| 0 <= k < |ids| && ids[k] == last {
        var rest := ids[..k] + ids[k + 1..];
        forall a | 0 <= a < |rest| ensures rest[a] == ids[if a < k then a else a + 1] {
        }
        DistinctBound(rest, last);
      } else {
        DistinctBound(ids, last);
      }
    }
  }

  lemma UnmaskedIds(s: Shape, chosen: seq<int>, active: seq<bool>)
    requires Chosen(s, chosen, active) && AllActive(active)
    ensures MaskedIds(s, chosen, active) == chosen
  {
    forall a | 0 <= a < |chosen| ensures ActiveRoute(s, active, a) {
      var t, r := TokenOf(s, chosen, a);
      AssignmentOf(s, chosen, t, r);
    }
  }

  /** With every token active the first-lane kernels are right exactly when there are no more routes than experts. */
  lemma UnmaskedDecodeExactly(s: Shape, chosen: seq<int>, active: seq<bool>, blockSize: nat, plan: Plan)
    requires Chosen(s, chosen, active) && AllActive(active) && PlanFor(chosen, s.experts, blockSize, plan)
    ensures DecodePromised(s, chosen, active, blockSize, plan) <==> blockSize == 1 || |chosen| <= s.experts
  {
    UnmaskedIds(s, chosen, active);
    DecodeExactly(s, chosen, active, blockSize, plan);
    if |chosen| > s.experts {
      Pigeonhole(chosen, s.experts);
    }
  }

  /**
    Three tokens with two routes each over four experts: token 1 never receives its first route, so for one of two
    contents of the storage its output is not the dense graph's.
  */
  lemma DecodeWitness(x: Layer, plan: Plan)
    requires PlanFor([0, 1, 0, 1, 0, 1], 4, 16, plan)
    ensures
      var s := Shape(3, 2, 4, 1, 1);
      var marked := DecodeOutput(x, s, plan, 16, 0, 4, Mark(2, 1.0), 1, 0);
      var clean := DecodeOutput(x, s, plan, 16, 0, 4, Mark(2, 0.0), 1, 0);
      var dense := DenseOutput(x, s, Interleaved, [0, 1, 0, 1, 0, 1], 1, 0);
      marked == clean + 1.0 && (marked != dense || clean != dense)
  {
    var ids := [0, 1, 0, 1, 0, 1];
    WitnessLane(plan);
    DroppedLaneLeaks(x, Shape(3, 2, 4, 1, 1), ids, 16, plan, 1, 1, 0);
  }

  /** The second route to expert 0 lies in the second lane of its block. */
  lemma WitnessLane(plan: Plan)
    requires PlanFor([0, 1, 0, 1, 0, 1], 4, 16, plan)
    ensures |plan.sorted| > 1 && plan.sorted[1] == 2
  {
    var ids := [0, 1, 0, 1, 0, 1];
    assert Rank(ids, 0, 1) == 1;
    WrittenAt(ids, 16, 4, plan.sorted, 2);
  }

  lemma WrittenAt(ids: seq<int>, blockSize: nat, experts: nat, sorted: seq<int>, a: nat)
    requires blockSize > 0 && Written(ids, blockSize, experts, sorted) && a < |ids| && 0 <= ids[a] < experts
    ensures Position(ids, blockSize, a) < |sorted| && sorted[Position(ids, blockSize, a)] == a
  {
  }
}
