/** Expert-parallel execution: per-device partial results, summed over one replica group. */
module ExpertParallel {
  import opened Arithmetic
  import opened Sums
  import opened RoutingAlgebra
  import Mesh = ExpertMesh
  import Moe = MoeExecution
  import Operators = MoeOperators
  import Schedule = MoeSchedule

  /** The experts a device owns, from the partition-id arithmetic it executes. */
  function ExpertOffset(sizes: seq<nat>, axis: nat, device: nat, localExperts: nat): nat
    requires Mesh.Mesh(sizes) && axis < |sizes| && Mesh.Product(sizes[axis + 1..]) > 0
  {
    Mesh.ExpertCoordinate(device, Mesh.Product(sizes[axis + 1..]), sizes[axis]) * localExperts
  }

  /**
    What the members of a group contribute to the all-reduce: `local(member, lo, hi)` is the
    output of a member that owns experts `[lo, hi)`.
  */
  function Contributions(
      sizes: seq<nat>, axis: nat, group: seq<int>, localExperts: nat, local: (int, int, int) -> real): int -> real
    requires Mesh.Mesh(sizes) && axis < |sizes| && Mesh.Product(sizes[axis + 1..]) > 0
  {
    member =>
      if 0 <= member < |group| && group[member] >= 0 then
        var lo := ExpertOffset(sizes, axis, group[member], localExperts);
        local(member, lo, lo + localExperts)
      else 0.0
  }

  /** Member `c` of a group owns the `c`-th slice, so a group's slices tile the experts once. */
  lemma OffsetOfMember(sizes: seq<nat>, axis: nat, root: nat, group: seq<int>, c: nat, localExperts: nat)
    requires Mesh.Mesh(sizes) && axis < |sizes| && Mesh.Root(sizes, axis, root)
    requires Mesh.GroupOf(sizes, axis, root, group)
    requires c < |group|
    ensures Mesh.Product(sizes[axis + 1..]) > 0 && group[c] >= 0
    ensures ExpertOffset(sizes, axis, group[c], localExperts) == c * localExperts
  {
    Mesh.MemberCoordinates(sizes, axis, root, c);
    Mesh.RootTest(sizes, axis, group[c]);
  }

  /** Local results that are route sums over the owned range add up to the dense sum over all experts. */
  lemma GroupTiles(
      sizes: seq<nat>, axis: nat, root: nat, group: seq<int>, localExperts: nat, local: (int, int, int) -> real,
      output: int -> real, id: int -> int, weight: int -> real, n: nat)
    requires Mesh.Mesh(sizes) && axis < |sizes| && Mesh.Root(sizes, axis, root)
    requires Mesh.GroupOf(sizes, axis, root, group)
    requires Mesh.Product(sizes[axis + 1..]) > 0
    requires forall member, lo, hi :: local(member, lo, hi) == Sum(n, Share(output, id, weight, lo, hi))
    ensures sizes[axis] * localExperts >= 0
    ensures Sum(|group|, Contributions(sizes, axis, group, localExperts, local))
            == Sum(sizes[axis] * localExperts, Weighted(output, id, weight, n))
  {
    var contributions := Contributions(sizes, axis, group, localExperts, local);
    var shards := Partial(output, id, weight, localExperts, n);
    forall c | 0 <= c < |group| ensures contributions(c) == shards(c) {
      OffsetOfMember(sizes, axis, root, group, c, localExperts);
    }
    Congruent(|group|, contributions, shards);
    ShardsAreDense(output, id, weight, localExperts, n, |group|);
  }

  /** The grouped execution of one token component on every device, each with its own storage. */
  ghost function LocalOutputs(
      x: Moe.Layer, s: Moe.Shape, plan: Schedule.Plan, blockSize: nat, storage: int -> (int, int) -> real,
      t: nat, d: int): (int, int, int) -> real
    requires blockSize > 0
  {
    (member: int, lo: int, hi: int) => Moe.GroupedOutput(x, s, plan, blockSize, lo, hi, storage(member), t, d)
  }

  /** What the all-reduce over one replica group yields for a token component. */
  ghost function AllReduced(
      x: Moe.Layer, s: Moe.Shape, plan: Schedule.Plan, blockSize: nat, sizes: seq<nat>, axis: nat, group: seq<int>,
      localExperts: nat, storage: int -> (int, int) -> real, t: nat, d: int): real
    requires blockSize > 0 && Mesh.Mesh(sizes) && axis < |sizes| && Mesh.Product(sizes[axis + 1..]) > 0
  {
    var local := LocalOutputs(x, s, plan, blockSize, storage, t, d);
    Sum(|group|, Contributions(sizes, axis, group, localExperts, local))
  }

  /** A group rooted on the mesh whose members own equal slices of the experts. */
  ghost predicate Replicas(
      s: Moe.Shape, sizes: seq<nat>, axis: nat, root: nat, group: seq<int>, localExperts: nat)
  {
    && Mesh.Mesh(sizes) && axis < |sizes| && Mesh.Root(sizes, axis, root) && Mesh.GroupOf(sizes, axis, root, group)
    && Mesh.Product(sizes[axis + 1..]) > 0 && s.experts == sizes[axis] * localExperts
  }

  /** A token served by the schedule gets the dense graph's result on every member, whatever other tokens do. */
  lemma AllReduceEqualsDense(
      x: Moe.Layer, s: Moe.Shape, ids: seq<int>, plan: Schedule.Plan, blockSize: nat, sizes: seq<nat>, axis: nat,
      root: nat, group: seq<int>, localExperts: nat, storage: int -> (int, int) -> real, t: nat, d: int)
    requires Replicas(s, sizes, axis, root, group, localExperts)
    requires |ids| == s.tokens * s.routes && Schedule.PlanFor(ids, s.experts, blockSize, plan)
    requires t < s.tokens && Moe.TokenServed(s, ids, t)
    ensures AllReduced(x, s, plan, blockSize, sizes, axis, group, localExperts, storage, t, d)
            == Moe.DenseOutput(x, s, Moe.Interleaved, ids, t, d)
  {
    var output, id := Moe.Outputs(x, s, Moe.Interleaved, t, d), Moe.RouteIds(ids, t * s.routes);
    var weight := Moe.RouteWeights(x, t * s.routes);
    var local := LocalOutputs(x, s, plan, blockSize, storage, t, d);
    Moe.PlanIsWellRouted(s, ids, blockSize, plan);
    Moe.ServedExactly(s, ids, blockSize, plan, t);
    forall member, lo, hi ensures local(member, lo, hi) == Sum(s.routes, Share(output, id, weight, lo, hi)) {
      Moe.GroupedIsRouteSum(x, s, ids, blockSize, plan, lo, hi, storage(member), t, d);
    }
    GroupTiles(sizes, axis, root, group, localExperts, local, output, id, weight, s.routes);
  }

  /**
    The masked operator over a mesh: for every batch, mask and storage an active token gets the unmasked dense
    result on every member and a masked one exactly zero.
  */
  lemma MaskedAllReduce(
      x: Moe.Layer, s: Moe.Shape, chosen: seq<int>, active: seq<bool>, plan: Schedule.Plan, blockSize: nat,
      sizes: seq<nat>, axis: nat, root: nat, group: seq<int>, localExperts: nat,
      storage: int -> (int, int) -> real, t: nat, d: int)
    requires Replicas(s, sizes, axis, root, group, localExperts)
    requires Operators.Chosen(s, chosen, active) && t < s.tokens
    requires Schedule.PlanFor(Operators.MaskedIds(s, chosen, active), s.experts, blockSize, plan)
    ensures
      var y := Operators.MaskedWeights(x, s, active);
      Operators.Select(active, t, AllReduced(y, s, plan, blockSize, sizes, axis, group, localExperts, storage, t, d))
      == Operators.Promised(x, s, chosen, active, t, d)
  {
    if active[t] {
      var y, ids := Operators.MaskedWeights(x, s, active), Operators.MaskedIds(s, chosen, active);
      Operators.ActiveIsServed(s, chosen, active, t);
      Operators.MaskedDenseIsPromised(x, s, chosen, active, t, d);
      AllReduceEqualsDense(y, s, ids, plan, blockSize, sizes, axis, root, group, localExperts, storage, t, d);
    }
  }
}
