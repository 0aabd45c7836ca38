/**
  Mixture-of-experts execution: the dense graph that runs every expert and weights it by
  the summed one-hot routing, and the grouped kernels that run scheduled assignments only.
  Tensors are index functions; only the extents named in `Shape` are meaningful.
*/
module MoeExecution {
  import opened Arithmetic
  import opened MoeSchedule
  import opened RoutingAlgebra
  import opened Sums

  datatype Shape = Shape(tokens: nat, routes: nat, experts: nat, hidden: nat, intermediate: nat)

  /** `combine` is the gated activation of one channel: its arguments are the gate and the up projection. */
  datatype Layer = Layer(
    input: (int, int) -> real,             // [tokens, hidden]
    gateUp: (int, int, int) -> real,       // [experts, 2 * intermediate, hidden]
    gateUpBias: (int, int) -> real,        // [experts, 2 * intermediate]
    down: (int, int, int) -> real,         // [experts, hidden, intermediate]
    downBias: (int, int) -> real,          // [experts, hidden]
    weights: int -> real,                  // [tokens * routes]
    combine: (real, real) -> real)

  /** Where the two rows of a gated channel sit along the doubled axis. */
  datatype Layout = Halves | Interleaved

  function GateRow(layout: Layout, intermediate: nat, c: int): int {
    match layout case Halves => c case Interleaved => 2 * c
  }

  function UpRow(layout: Layout, intermediate: nat, c: int): int {
    match layout case Halves => intermediate + c case Interleaved => 2 * c + 1
  }

  // ----- one expert -----

  function Project(x: Layer, s: Shape, e: int, row: int, t: int): real {
    Sum(s.hidden, k => x.input(t, k) * x.gateUp(e, row, k)) + x.gateUpBias(e, row)
  }

  function Channel(x: Layer, s: Shape, layout: Layout, e: int, t: int, c: int): real {
    x.combine(Project(x, s, e, GateRow(layout, s.intermediate, c), t),
              Project(x, s, e, UpRow(layout, s.intermediate, c), t))
  }

  /** The down projection of one activated row. */
  function Contract(x: Layer, s: Shape, e: int, d: int, activated: int -> real): real {
    Sum(s.intermediate, c => activated(c) * x.down(e, d, c)) + x.downBias(e, d)
  }

  lemma ContractCongruent(x: Layer, y: Layer, s: Shape, e: int, d: int, left: int -> real, right: int -> real)
    requires x.down == y.down && x.downBias == y.downBias
    requires forall c :: 0 <= c < s.intermediate ==> left(c) == right(c)
    ensures Contract(x, s, e, d, left) == Contract(y, s, e, d, right)
  {
    Congruent(s.intermediate, c => left(c) * x.down(e, d, c), c => right(c) * y.down(e, d, c));
  }

  function Channels(x: Layer, s: Shape, layout: Layout, e: int, t: int): int -> real {
    c => Channel(x, s, layout, e, t, c)
  }

  /** Component `d` of expert `e` applied to token `t`. */
  function ExpertOutput(x: Layer, s: Shape, layout: Layout, e: int, t: int, d: int): real {
    Contract(x, s, e, d, Channels(x, s, layout, e, t))
  }

  // ----- what one expert computes -----

  /** A dot product along one axis, plus a bias. */
  function Affine(n: nat, f: int -> real, g: int -> real, bias: real): real {
    Sum(n, Products(f, g)) + bias
  }

  function Products(f: int -> real, g: int -> real): int -> real { i => f(i) * g(i) }

  /** With one live component of the left factor it is one product, plus the bias. */
  lemma AffineOfOne(n: nat, f: int -> real, g: int -> real, bias: real, k: int)
    requires forall i :: 0 <= i < n && i != k ==> f(i) == 0.0
    ensures Affine(n, f, g, bias) == (if 0 <= k < n then Products(f, g)(k) else 0.0) + bias
  {
    forall i | 0 <= i < n && i != k ensures Products(f, g)(i) == 0.0 {
      ZeroTimes(g(i));
    }
    Single(n, Products(f, g), k);
  }

  /** And it is linear in the left factor. */
  lemma AffineLinear(n: nat, f: int -> real, h: int -> real, sum: int -> real, g: int -> real, bias: real, w: real)
    requires forall i :: 0 <= i < n ==> sum(i) == w * f(i) + h(i)
    ensures Affine(n, sum, g, bias) - bias == w * (Affine(n, f, g, bias) - bias) + (Affine(n, h, g, bias) - bias)
  {
    var before, rest, all := Products(f, g), Products(h, g), Products(sum, g);
    forall i | 0 <= i < n ensures all(i) == w * before(i) + rest(i) {
      LinearTerm(w, f(i), h(i), g(i), sum(i));
    }
    Linear(n, before, rest, all, w);
  }

  lemma LinearTerm(w: real, a: real, b: real, y: real, sum: real)
    requires sum == w * a + b
    ensures sum * y == w * (a * y) + b * y
  {
  }

  /** A projection is linear in the token's input, a unit component giving its weight, plus the row's bias. */
  lemma ProjectIsAffine(x: Layer, s: Shape, e: int, row: int, t: int)
    ensures Project(x, s, e, row, t)
            == Affine(s.hidden, k => x.input(t, k), k => x.gateUp(e, row, k), x.gateUpBias(e, row))
  {
    Congruent(s.hidden, k => x.input(t, k) * x.gateUp(e, row, k),
      Products(k => x.input(t, k), k => x.gateUp(e, row, k)));
  }

  /** An expert's output is linear in its activated channels, a unit channel giving its weight, plus its bias. */
  lemma ContractIsAffine(x: Layer, s: Shape, e: int, d: int, activated: int -> real)
    ensures Contract(x, s, e, d, activated)
            == Affine(s.intermediate, activated, c => x.down(e, d, c), x.downBias(e, d))
  {
    Congruent(s.intermediate, c => activated(c) * x.down(e, d, c), Products(activated, c => x.down(e, d, c)));
  }

  /** One channel is the activation of its gate and its up projection, at the rows the layout names. */
  lemma UnitChannel(x: Layer, s: Shape, e: int, t: int, c: int, k: int)
    requires 0 <= k < s.hidden && forall i :: 0 <= i < s.hidden ==> x.input(t, i) == if i == k then 1.0 else 0.0
    ensures Channel(x, s, Interleaved, e, t, c)
            == x.combine(x.gateUp(e, 2 * c, k) + x.gateUpBias(e, 2 * c),
                 x.gateUp(e, 2 * c + 1, k) + x.gateUpBias(e, 2 * c + 1))
    ensures Channel(x, s, Halves, e, t, c)
            == x.combine(x.gateUp(e, c, k) + x.gateUpBias(e, c),
                 x.gateUp(e, s.intermediate + c, k) + x.gateUpBias(e, s.intermediate + c))
  {
    UnitProject(x, s, e, 2 * c, t, k);
    UnitProject(x, s, e, 2 * c + 1, t, k);
    UnitProject(x, s, e, c, t, k);
    UnitProject(x, s, e, s.intermediate + c, t, k);
  }

  lemma UnitProject(x: Layer, s: Shape, e: int, row: int, t: int, k: int)
    requires 0 <= k < s.hidden && forall i :: 0 <= i < s.hidden ==> x.input(t, i) == if i == k then 1.0 else 0.0
    ensures Project(x, s, e, row, t) == x.gateUp(e, row, k) + x.gateUpBias(e, row)
  {
    ProjectIsAffine(x, s, e, row, t);
    AffineOfOne(s.hidden, i => x.input(t, i), i => x.gateUp(e, row, i), x.gateUpBias(e, row), k);
  }

  /** A token of zeros leaves only the biases of a row, and channels of zeros only the bias of the output. */
  lemma BiasRemains(x: Layer, s: Shape, layout: Layout, e: int, row: int, t: int, d: int)
    ensures (forall i :: 0 <= i < s.hidden ==> x.input(t, i) == 0.0) ==>
      Project(x, s, e, row, t) == x.gateUpBias(e, row)
    ensures (forall c :: 0 <= c < s.intermediate ==> Channel(x, s, layout, e, t, c) == 0.0) ==>
      ExpertOutput(x, s, layout, e, t, d) == x.downBias(e, d)
  {
    ProjectIsAffine(x, s, e, row, t);
    ContractIsAffine(x, s, e, d, Channels(x, s, layout, e, t));
    if forall i :: 0 <= i < s.hidden ==> x.input(t, i) == 0.0 {
      AffineOfOne(s.hidden, i => x.input(t, i), i => x.gateUp(e, row, i), x.gateUpBias(e, row), -1);
    }
    if forall c :: 0 <= c < s.intermediate ==> Channel(x, s, layout, e, t, c) == 0.0 {
      AffineOfOne(s.intermediate, Channels(x, s, layout, e, t), c => x.down(e, d, c), x.downBias(e, d), -1);
    }
  }

  /** An expert with one live channel gives that channel times its down weight, plus the bias. */
  lemma OneChannel(x: Layer, s: Shape, layout: Layout, e: int, t: int, d: int, c: int)
    requires 0 <= c < s.intermediate
    requires forall i :: 0 <= i < s.intermediate && i != c ==> Channel(x, s, layout, e, t, i) == 0.0
    ensures ExpertOutput(x, s, layout, e, t, d) == Channel(x, s, layout, e, t, c) * x.down(e, d, c) + x.downBias(e, d)
  {
    var activated := Channels(x, s, layout, e, t);
    ContractIsAffine(x, s, e, d, activated);
    AffineOfOne(s.intermediate, activated, i => x.down(e, d, i), x.downBias(e, d), c);
  }

  // ----- the dense graph -----

  function IdAt(ids: seq<int>, a: int): int {
    if 0 <= a < |ids| then ids[a] else -1
  }

  /** What a token is routed by, its assignments starting at `base`, and every expert's output for it. */
  function RouteIds(ids: seq<int>, base: int): int -> int { r => IdAt(ids, base + r) }

  function RouteWeights(x: Layer, base: int): int -> real { r => x.weights(base + r) }

  function Outputs(x: Layer, s: Shape, layout: Layout, t: nat, d: int): int -> real {
    e => ExpertOutput(x, s, layout, e, t, d)
  }

  /** Every expert is run; its output is weighted by its summed one-hot routing. */
  function DenseOutput(x: Layer, s: Shape, layout: Layout, ids: seq<int>, t: nat, d: int): real {
    var base := t * s.routes;
    Sum(s.experts, Weighted(Outputs(x, s, layout, t, d), RouteIds(ids, base), RouteWeights(x, base), s.routes))
  }

  // ----- the grouped kernels -----

  /** A lane of an active block that holds assignment `a`. */
  ghost predicate LaneOf(plan: Plan, blockSize: nat, a: int, p: int)
    requires blockSize > 0
  {
    0 <= p < |plan.sorted| && BlockOf(p, blockSize) < plan.activeBlocks && plan.sorted[p] == a
  }

  datatype Lane = Idle | Serves(expert: int)

  /** The expert whose block serves assignment `a`, when an active lane holds it. */
  ghost function LaneExpert(plan: Plan, blockSize: nat, a: int): Lane
    requires blockSize > 0
  {
    if exists p :: LaneOf(plan, blockSize, a, p) then
      var p :| LaneOf(plan, blockSize, a, p);
      Serves(if BlockOf(p, blockSize) < |plan.blockExperts| then plan.blockExperts[BlockOf(p, blockSize)] else -1)
    else Idle
  }

  /**
    What a grouped projection leaves in its output buffer. The row of every assignment held
    by an active lane is stored; every other row keeps what the storage held before.
  */
  ghost function KernelBuffer(
      plan: Plan, blockSize: nat, storage: (int, int) -> real, row: (int, int, int) -> real): (int, int) -> real
    requires blockSize > 0
  {
    (a: int, c: int) =>
      match LaneExpert(plan, blockSize, a)
      case Serves(e) => row(e, a, c)
      case Idle => storage(a, c)
  }

  /** Gate and up projections with their activation; an expert outside the shard leaves zero accumulators. */
  function GateUpRow(x: Layer, s: Shape, lo: int, hi: int): (int, int, int) -> real {
    (e: int, a: int, c: int) =>
      if lo <= e < hi && s.routes > 0 then Channel(x, s, Interleaved, e, a / s.routes, c) else x.combine(0.0, 0.0)
  }

  /** Down projection times the routing weight; an expert outside the shard stores zero. */
  function DownRow(x: Layer, s: Shape, lo: int, hi: int, gated: (int, int) -> real): (int, int, int) -> real {
    (e: int, a: int, d: int) =>
      if lo <= e < hi then Contract(x, s, e, d, c => gated(a, c)) * x.weights(a) else 0.0
  }

  ghost function Gated(
      x: Layer, s: Shape, plan: Plan, blockSize: nat, lo: int, hi: int, storage: (int, int) -> real): (int, int) -> real
    requires blockSize > 0
  {
    KernelBuffer(plan, blockSize, storage, GateUpRow(x, s, lo, hi))
  }

  ghost function DownBuffer(
      x: Layer, s: Shape, plan: Plan, blockSize: nat, lo: int, hi: int, storage: (int, int) -> real): (int, int) -> real
    requires blockSize > 0
  {
    KernelBuffer(plan, blockSize, storage, DownRow(x, s, lo, hi, Gated(x, s, plan, blockSize, lo, hi, storage)))
  }

  /** Component `d` of the routes of token `t` after the reshape. */
  function BufferColumn(buffer: (int, int) -> real, s: Shape, t: nat, d: int): int -> real {
    r => buffer(t * s.routes + r, d)
  }

  /** Reshape to `[tokens, routes, hidden]` and sum over routes, on the shard owning experts `[lo, hi)`. */
  ghost function GroupedOutput(
      x: Layer, s: Shape, plan: Plan, blockSize: nat, lo: int, hi: int, storage: (int, int) -> real,
      t: nat, d: int): real
    requires blockSize > 0
  {
    Sum(s.routes, BufferColumn(DownBuffer(x, s, plan, blockSize, lo, hi, storage), s, t, d))
  }

  // ----- one assignment -----

  /** The schedule serves exactly the scheduled assignments, each with its own expert. */
  ghost predicate WellRouted(s: Shape, ids: seq<int>, blockSize: nat, plan: Plan) {
    && blockSize > 0 && |ids| == s.tokens * s.routes
    && forall a :: 0 <= a < |ids| ==>
         LaneExpert(plan, blockSize, a) == if Scheduled(plan, a) then Serves(ids[a]) else Idle
  }

  lemma PlanIsWellRouted(s: Shape, ids: seq<int>, blockSize: nat, plan: Plan)
    requires |ids| == s.tokens * s.routes && blockSize > 0 && Consistent(ids, blockSize, plan)
    ensures WellRouted(s, ids, blockSize, plan)
  {
    forall a | 0 <= a < |ids|
      ensures LaneExpert(plan, blockSize, a) == if Scheduled(plan, a) then Serves(ids[a]) else Idle
    {
      LaneServesItsExpert(ids, blockSize, plan, a);
    }
  }

  lemma LaneServesItsExpert(ids: seq<int>, blockSize: nat, plan: Plan, a: nat)
    requires blockSize > 0 && Consistent(ids, blockSize, plan) && a < |ids|
    ensures LaneExpert(plan, blockSize, a) == if Scheduled(plan, a) then Serves(ids[a]) else Idle
  {
    if p :| 0 <= p < |plan.sorted| && plan.sorted[p] == a {
      assert LaneOf(plan, blockSize, a, p);
    }
  }

  /** What each route of token `t` contributes from experts in `[lo, hi)`. */
  function RouteShare(x: Layer, s: Shape, ids: seq<int>, lo: int, hi: int, t: nat, d: int): int -> real {
    Share(Outputs(x, s, Interleaved, t, d), RouteIds(ids, t * s.routes), RouteWeights(x, t * s.routes), lo, hi)
  }

  lemma AssignmentOf(s: Shape, ids: seq<int>, t: nat, r: nat)
    requires |ids| == s.tokens * s.routes && t < s.tokens && r < s.routes
    ensures 0 <= t * s.routes + r < |ids| && (t * s.routes + r) / s.routes == t
  {
    IndexBelow(t, r, s.tokens, s.routes);
    QuotientOf(t, s.routes, r);
  }

  ghost predicate ServedBy(s: Shape, ids: seq<int>, plan: Plan, lo: int, hi: int, t: nat, a: nat) {
    s.routes > 0 && a < |ids| && a / s.routes == t && Scheduled(plan, a) && lo <= ids[a] < hi
  }

  /** A served assignment's activated row is its expert's channel row. */
  lemma GatedRow(
      x: Layer, s: Shape, ids: seq<int>, blockSize: nat, plan: Plan, lo: int, hi: int, storage: (int, int) -> real,
      t: nat, a: nat, c: int)
    requires WellRouted(s, ids, blockSize, plan) && ServedBy(s, ids, plan, lo, hi, t, a)
    ensures Gated(x, s, plan, blockSize, lo, hi, storage)(a, c) == Channel(x, s, Interleaved, ids[a], t, c)
  {
  }

  /** The down projection of a served row is the expert's output times the routing weight. */
  lemma DownRowValue(
      x: Layer, s: Shape, ids: seq<int>, blockSize: nat, plan: Plan, lo: int, hi: int, gated: (int, int) -> real,
      t: nat, a: nat, d: int)
    requires ServedBy(s, ids, plan, lo, hi, t, a)
    requires forall c :: 0 <= c < s.intermediate ==> gated(a, c) == Channel(x, s, Interleaved, ids[a], t, c)
    ensures DownRow(x, s, lo, hi, gated)(ids[a], a, d) == ExpertOutput(x, s, Interleaved, ids[a], t, d) * x.weights(a)
  {
    ContractCongruent(x, x, s, ids[a], d, c => gated(a, c), Channels(x, s, Interleaved, ids[a], t));
  }

  /** What the second buffer holds for one assignment. */
  lemma DownBufferAt(
      x: Layer, s: Shape, ids: seq<int>, blockSize: nat, plan: Plan, lo: int, hi: int, storage: (int, int) -> real,
      t: nat, a: nat, d: int)
    requires WellRouted(s, ids, blockSize, plan) && s.routes > 0 && a < |ids| && a / s.routes == t
    ensures DownBuffer(x, s, plan, blockSize, lo, hi, storage)(a, d)
            == if !Scheduled(plan, a) then storage(a, d)
               else if lo <= ids[a] < hi then ExpertOutput(x, s, Interleaved, ids[a], t, d) * x.weights(a) else 0.0
  {
    if Scheduled(plan, a) && lo <= ids[a] < hi {
      var gated := Gated(x, s, plan, blockSize, lo, hi, storage);
      forall c | 0 <= c < s.intermediate ensures gated(a, c) == Channel(x, s, Interleaved, ids[a], t, c) {
        GatedRow(x, s, ids, blockSize, plan, lo, hi, storage, t, a, c);
      }
      DownRowValue(x, s, ids, blockSize, plan, lo, hi, gated, t, a, d);
    }
  }

  ghost predicate RouteScheduled(s: Shape, plan: Plan, t: nat, r: int) {
    Scheduled(plan, t * s.routes + r)
  }

  /** The same for route `r` of token `t`, against that route's share. */
  lemma BufferColumnAt(
      x: Layer, s: Shape, ids: seq<int>, blockSize: nat, plan: Plan, lo: int, hi: int, storage: (int, int) -> real,
      t: nat, r: nat, d: int)
    requires WellRouted(s, ids, blockSize, plan) && t < s.tokens && r < s.routes
    ensures BufferColumn(DownBuffer(x, s, plan, blockSize, lo, hi, storage), s, t, d)(r)
            == if RouteScheduled(s, plan, t, r) then RouteShare(x, s, ids, lo, hi, t, d)(r)
               else storage(t * s.routes + r, d)
  {
    AssignmentOf(s, ids, t, r);
    ColumnAt(x, s, ids, blockSize, plan, lo, hi, storage, t, r, t * s.routes + r, d);
  }

  lemma RouteAt(x: Layer, ids: seq<int>, base: int, r: nat, a: nat)
    requires a == base + r && a < |ids|
    ensures RouteIds(ids, base)(r) == ids[a] && RouteWeights(x, base)(r) == x.weights(a)
  {
    assert RouteIds(ids, base)(r) == IdAt(ids, base + r);
    assert RouteWeights(x, base)(r) == x.weights(base + r);
  }

  lemma ShareAt(x: Layer, s: Shape, ids: seq<int>, base: int, lo: int, hi: int, t: nat, r: nat, a: nat, d: int)
    requires a == base + r && a < |ids|
    ensures Share(Outputs(x, s, Interleaved, t, d), RouteIds(ids, base), RouteWeights(x, base), lo, hi)(r)
            == if lo <= ids[a] < hi then ExpertOutput(x, s, Interleaved, ids[a], t, d) * x.weights(a) else 0.0
  {
    RouteAt(x, ids, base, r, a);
    var output := Outputs(x, s, Interleaved, t, d);
    ShareValue(output, RouteIds(ids, base), RouteWeights(x, base), lo, hi, r, ids[a], output(ids[a]), x.weights(a));
  }

  lemma ColumnAt(
      x: Layer, s: Shape, ids: seq<int>, blockSize: nat, plan: Plan, lo: int, hi: int, storage: (int, int) -> real,
      t: nat, r: nat, a: nat, d: int)
    requires WellRouted(s, ids, blockSize, plan) && s.routes > 0
    requires a == t * s.routes + r && a < |ids| && a / s.routes == t
    ensures DownBuffer(x, s, plan, blockSize, lo, hi, storage)(a, d)
            == if Scheduled(plan, a) then RouteShare(x, s, ids, lo, hi, t, d)(r) else storage(a, d)
  {
    DownBufferAt(x, s, ids, blockSize, plan, lo, hi, storage, t, a, d);
    ShareAt(x, s, ids, t * s.routes, lo, hi, t, r, a, d);
  }

  /** With one route a token gets its expert's output times the route's weight, or nothing from no expert. */
  lemma OneRouteIsDense(x: Layer, s: Shape, layout: Layout, ids: seq<int>, t: nat, d: int)
    requires s.routes == 1 && t < |ids|
    ensures DenseOutput(x, s, layout, ids, t, d)
            == if 0 <= ids[t] < s.experts then ExpertOutput(x, s, layout, ids[t], t, d) * x.weights(t) else 0.0
  {
    RouteAt(x, ids, t, 0, t);
    OneRouteAt(x, s, layout, ids, t, d);
    var output := Outputs(x, s, layout, t, d);
    OneShare(output, RouteIds(ids, t), RouteWeights(x, t), s.experts, ids[t], output(ids[t]), x.weights(t));
  }

  lemma OneRouteAt(x: Layer, s: Shape, layout: Layout, ids: seq<int>, t: nat, d: int)
    requires s.routes == 1
    ensures DenseOutput(x, s, layout, ids, t, d)
            == Sum(s.experts, Weighted(Outputs(x, s, layout, t, d), RouteIds(ids, t), RouteWeights(x, t), 1))
  {
    assert t * s.routes == t;
  }

  // ----- grouped execution against the dense graph -----

  /** When every route of a token is scheduled, the shard's output is the sum of its routes' shares. */
  lemma GroupedIsRouteSum(
      x: Layer, s: Shape, ids: seq<int>, blockSize: nat, plan: Plan, lo: int, hi: int, storage: (int, int) -> real,
      t: nat, d: int)
    requires WellRouted(s, ids, blockSize, plan) && t < s.tokens
    requires TokenScheduled(s, plan, t)
    ensures GroupedOutput(x, s, plan, blockSize, lo, hi, storage, t, d)
      == Sum(s.routes, RouteShare(x, s, ids, lo, hi, t, d))
  {
    var share := RouteShare(x, s, ids, lo, hi, t, d);
    var row := BufferColumn(DownBuffer(x, s, plan, blockSize, lo, hi, storage), s, t, d);
    forall r | 0 <= r < s.routes ensures row(r) == share(r) {
      assert RouteScheduled(s, plan, t, r);
      BufferColumnAt(x, s, ids, blockSize, plan, lo, hi, storage, t, r, d);
    }
    Congruent(s.routes, row, share);
  }

  /** Every route of token `t` occupies a lane. */
  ghost predicate TokenScheduled(s: Shape, plan: Plan, t: nat) {
    forall r :: 0 <= r < s.routes ==> RouteScheduled(s, plan, t, r)
  }

  predicate RouteNamesExpert(s: Shape, ids: seq<int>, t: nat, r: nat) {
    0 <= IdAt(ids, t * s.routes + r) < s.experts
  }

  /** The authored schedule serves a token on the sparse path, or when all its routes name an expert. */
  predicate TokenServed(s: Shape, ids: seq<int>, t: nat) {
    |ids| <= s.experts || forall r: nat :: r < s.routes ==> RouteNamesExpert(s, ids, t, r)
  }

  /** A token whose routes all occupy lanes gets the dense graph's result, whatever the other tokens' routes do. */
  lemma ScheduledTokenIsDense(
      x: Layer, s: Shape, ids: seq<int>, blockSize: nat, plan: Plan, storage: (int, int) -> real, t: nat, d: int)
    requires WellRouted(s, ids, blockSize, plan) && t < s.tokens && TokenScheduled(s, plan, t)
    ensures GroupedOutput(x, s, plan, blockSize, 0, s.experts, storage, t, d)
            == DenseOutput(x, s, Interleaved, ids, t, d)
  {
    GroupedIsRouteSum(x, s, ids, blockSize, plan, 0, s.experts, storage, t, d);
    DenseIsRouteSum(Outputs(x, s, Interleaved, t, d), RouteIds(ids, t * s.routes), RouteWeights(x, t * s.routes),
                    s.experts, s.routes);
  }

  lemma ServedExactly(s: Shape, ids: seq<int>, blockSize: nat, plan: Plan, t: nat)
    requires |ids| == s.tokens * s.routes && PlanFor(ids, s.experts, blockSize, plan) && t < s.tokens
    ensures TokenScheduled(s, plan, t) <==> TokenServed(s, ids, t)
  {
    forall r: nat | r < s.routes
      ensures RouteScheduled(s, plan, t, r) <==> |ids| <= s.experts || RouteNamesExpert(s, ids, t, r)
    {
      AssignmentOf(s, ids, t, r);
    }
    if TokenScheduled(s, plan, t) && |ids| > s.experts {
      forall r: nat | r < s.routes ensures RouteNamesExpert(s, ids, t, r) {
        assert RouteScheduled(s, plan, t, r);
      }
    }
  }

  /** Grouped execution of a token under the authored schedule equals the dense graph, token by token. */
  lemma GroupedEqualsDense(
      x: Layer, s: Shape, ids: seq<int>, blockSize: nat, plan: Plan, storage: (int, int) -> real, t: nat, d: int)
    requires |ids| == s.tokens * s.routes && PlanFor(ids, s.experts, blockSize, plan) && t < s.tokens
    requires TokenServed(s, ids, t)
    ensures GroupedOutput(x, s, plan, blockSize, 0, s.experts, storage, t, d)
            == DenseOutput(x, s, Interleaved, ids, t, d)
  {
    PlanIsWellRouted(s, ids, blockSize, plan);
    ServedExactly(s, ids, blockSize, plan, t);
    ScheduledTokenIsDense(x, s, ids, blockSize, plan, storage, t, d);
  }

  // ----- routes the schedule leaves out -----

  /** Storage that holds `value` in the row of one assignment and zero elsewhere. */
  function Mark(assignment: int, value: real): (int, int) -> real {
    (a: int, c: int) => if a == assignment then value else 0.0
  }

  /** The summed output of a token with an unscheduled route follows what the storage held there. */
  lemma UnscheduledRouteLeaks(
      x: Layer, s: Shape, ids: seq<int>, blockSize: nat, plan: Plan, lo: int, hi: int, t: nat, r: nat, d: int)
    requires WellRouted(s, ids, blockSize, plan) && t < s.tokens && r < s.routes
    requires !RouteScheduled(s, plan, t, r)
    ensures GroupedOutput(x, s, plan, blockSize, lo, hi, Mark(t * s.routes + r, 1.0), t, d)
            == GroupedOutput(x, s, plan, blockSize, lo, hi, Mark(t * s.routes + r, 0.0), t, d) + 1.0
  {
    var a := t * s.routes + r;
    var dirty := BufferColumn(DownBuffer(x, s, plan, blockSize, lo, hi, Mark(a, 1.0)), s, t, d);
    var clean := BufferColumn(DownBuffer(x, s, plan, blockSize, lo, hi, Mark(a, 0.0)), s, t, d);
    var delta := i => if i == r then 1.0 else 0.0;
    forall i | 0 <= i < s.routes ensures dirty(i) == clean(i) + delta(i) {
      BufferColumnAt(x, s, ids, blockSize, plan, lo, hi, Mark(a, 1.0), t, i, d);
      BufferColumnAt(x, s, ids, blockSize, plan, lo, hi, Mark(a, 0.0), t, i, d);
    }
    Additive(s.routes, clean, delta, dirty);
    Single(s.routes, delta, r);
  }

  /**
    The reduced kernel buffer of one token equals the dense graph for every content of the uninitialised storage
    exactly when all routes of that token occupy lanes.
  */
  lemma ScheduledTokenExactly(x: Layer, s: Shape, ids: seq<int>, blockSize: nat, plan: Plan, t: nat)
    requires WellRouted(s, ids, blockSize, plan) && t < s.tokens
    ensures (forall storage: (int, int) -> real, d: int ::
               GroupedOutput(x, s, plan, blockSize, 0, s.experts, storage, t, d)
               == DenseOutput(x, s, Interleaved, ids, t, d))
            <==> TokenScheduled(s, plan, t)
  {
    if TokenScheduled(s, plan, t) {
      forall storage: (int, int) -> real, d: int
        ensures GroupedOutput(x, s, plan, blockSize, 0, s.experts, storage, t, d)
                == DenseOutput(x, s, Interleaved, ids, t, d)
      {
        ScheduledTokenIsDense(x, s, ids, blockSize, plan, storage, t, d);
      }
    } else {
      var r :| 0 <= r < s.routes && !RouteScheduled(s, plan, t, r);
      UnscheduledRouteLeaks(x, s, ids, blockSize, plan, 0, s.experts, t, r, 0);
    }
  }

  /** Under the authored schedule, that is: on the sparse path, or when all routes of the token name an expert. */
  lemma GroupedEqualsDenseExactly(x: Layer, s: Shape, ids: seq<int>, blockSize: nat, plan: Plan, t: nat)
    requires |ids| == s.tokens * s.routes && PlanFor(ids, s.experts, blockSize, plan) && t < s.tokens
    ensures (forall storage: (int, int) -> real, d: int ::
               GroupedOutput(x, s, plan, blockSize, 0, s.experts, storage, t, d)
               == DenseOutput(x, s, Interleaved, ids, t, d))
            <==> TokenServed(s, ids, t)
  {
    PlanIsWellRouted(s, ids, blockSize, plan);
    ServedExactly(s, ids, blockSize, plan, t);
    ScheduledTokenExactly(x, s, ids, blockSize, plan, t);
  }

  lemma TokenOf(s: Shape, ids: seq<int>, a: nat) returns (t: nat, r: nat)
    requires |ids| == s.tokens * s.routes && a < |ids|
    ensures t < s.tokens && r < s.routes && a == t * s.routes + r
  {
    assert s.routes == 0 ==> s.tokens * s.routes == 0;
    QuotientBelow(a, s.routes, s.tokens);
    Split(a, s.routes);
    t, r := a / s.routes, a % s.routes;
  }
}
