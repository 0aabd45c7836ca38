/**
  The token-to-expert schedule: a stable bucket sort of assignments by expert whose
  buckets are aligned to blocks, in a capacity that is fixed before the routes are known.
*/
module MoeSchedule {
  import opened Arithmetic

  const I32_MAX: int := 0x7FFF_FFFF

  /** `sorted[p]` is an assignment or the sentinel; lane `p` belongs to block `p / blockSize`. */
  datatype Plan = Plan(sorted: seq<int>, blockExperts: seq<int>, activeBlocks: int)

  datatype PlanResult = Planned(plan: Plan) | InvalidMoe

  // ----- counting -----

  /** How many of the first `n` assignments go to expert `e`. */
  function Rank(ids: seq<int>, e: int, n: nat): (r: nat)
    requires n <= |ids|
    ensures r <= n
  {
    if n == 0 then 0 else Rank(ids, e, n - 1) + (if ids[n - 1] == e then 1 else 0)
  }

  function Count(ids: seq<int>, e: int): nat { Rank(ids, e, |ids|) }

  /** How many of the first `n` assignments go to an expert in `[0, e)`. */
  function RankBelow(ids: seq<int>, e: nat, n: nat): (r: nat)
    requires n <= |ids|
    ensures r <= n
  {
    if n == 0 then 0 else RankBelow(ids, e, n - 1) + (if 0 <= ids[n - 1] < e then 1 else 0)
  }

  /** The block a lane belongs to. */
  function BlockOf(p: nat, blockSize: nat): nat
    requires blockSize > 0
  {
    p / blockSize
  }

  /** Blocks used by experts `0..e`. */
  function Blocks(ids: seq<int>, e: nat, blockSize: nat): nat
    requires blockSize > 0
  {
    if e == 0 then 0 else Blocks(ids, e - 1, blockSize) + CeilDiv(Count(ids, e - 1), blockSize)
  }

  function NonEmpty(ids: seq<int>, e: nat): (n: nat)
    ensures n <= e
  {
    if e == 0 then 0 else NonEmpty(ids, e - 1) + (if Count(ids, e - 1) > 0 then 1 else 0)
  }

  /** The lane an in-range assignment is written to. */
  function Position(ids: seq<int>, blockSize: nat, a: nat): nat
    requires blockSize > 0 && a < |ids| && ids[a] >= 0
  {
    Blocks(ids, ids[a], blockSize) * blockSize + Rank(ids, ids[a], a)
  }

  lemma {:induction false} RankBelowStep(ids: seq<int>, e: nat, n: nat)
    requires n <= |ids|
    ensures RankBelow(ids, e + 1, n) == RankBelow(ids, e, n) + Rank(ids, e, n)
  {
    if n > 0 {
      RankBelowStep(ids, e, n - 1);
    }
  }

  lemma {:induction false} RankMonotone(ids: seq<int>, e: int, a: nat, b: nat)
    requires a <= b <= |ids|
    ensures Rank(ids, e, a) <= Rank(ids, e, b)
    ensures a < b && ids[a] == e ==> Rank(ids, e, a) < Rank(ids, e, b)
    decreases b
  {
    if a < b {
      RankMonotone(ids, e, a, b - 1);
    }
  }

  lemma {:induction false} RankZeroBelow(ids: seq<int>, n: nat)
    requires n <= |ids|
    ensures RankBelow(ids, 0, n) == 0
  {
    if n > 0 {
      RankZeroBelow(ids, n - 1);
    }
  }

  /** Alignment costs at most one partial block per nonempty expert. */
  lemma {:induction false} PaddingBound(ids: seq<int>, e: nat, blockSize: nat)
    requires blockSize > 0
    ensures NonEmpty(ids, e) <= RankBelow(ids, e, |ids|)
    ensures Blocks(ids, e, blockSize) * blockSize <= RankBelow(ids, e, |ids|) + NonEmpty(ids, e) * (blockSize - 1)
  {
    if e == 0 {
      RankZeroBelow(ids, |ids|);
    } else {
      PaddingBound(ids, e - 1, blockSize);
      RankBelowStep(ids, e - 1, |ids|);
      var c, n, b := Count(ids, e - 1), NonEmpty(ids, e - 1), Blocks(ids, e - 1, blockSize);
      CeilDivBounds(c, blockSize);
      Distribute(b, CeilDiv(c, blockSize), blockSize);
      Distribute(n, 1, blockSize - 1);
    }
  }

  lemma {:induction false} BlocksMonotone(ids: seq<int>, e: nat, f: nat, blockSize: nat)
    requires blockSize > 0 && e <= f
    ensures Blocks(ids, e, blockSize) <= Blocks(ids, f, blockSize)
  {
    if e < f {
      BlocksMonotone(ids, e, f - 1, blockSize);
    }
  }

  // ----- the authored capacity -----

  function MaximumPadded(assignments: nat, experts: nat, blockSize: nat): nat
    requires blockSize > 0
  {
    assignments + (if assignments < experts then assignments else experts) * (blockSize - 1)
  }

  function MaximumBlocks(assignments: nat, experts: nat, blockSize: nat): nat
    requires blockSize > 0
  {
    (MaximumPadded(assignments, experts, blockSize) + (blockSize - 1)) / blockSize
  }

  /** The fixed capacity holds the aligned schedule of every routing. */
  lemma CapacitySuffices(ids: seq<int>, experts: nat, blockSize: nat)
    requires blockSize > 0
    ensures Blocks(ids, experts, blockSize) <= MaximumBlocks(|ids|, experts, blockSize)
    ensures Blocks(ids, experts, blockSize) * blockSize <= MaximumPadded(|ids|, experts, blockSize)
  {
    PaddingBound(ids, experts, blockSize);
    MulMono(NonEmpty(ids, experts), if |ids| < experts then |ids| else experts, blockSize - 1);
    CeilingAbove(Blocks(ids, experts, blockSize), MaximumPadded(|ids|, experts, blockSize), blockSize);
  }

  lemma CeilingAbove(blocks: nat, padded: nat, blockSize: nat)
    requires blockSize > 0 && blocks * blockSize <= padded
    ensures blocks <= CeilDiv(padded, blockSize)
  {
    CeilDivBounds(padded, blockSize);
    var capacity := CeilDiv(padded, blockSize);
    if capacity < blocks {
      MulMono(capacity + 1, blocks, blockSize);
      Distribute(capacity, 1, blockSize);
    }
  }

  // ----- and no more than one block is wasted -----

  /** One assignment for each expert, as far as they go, and all others for expert zero. */
  function Skewed(assignments: nat, experts: nat): (ids: seq<int>)
    ensures |ids| == assignments
  {
    seq(assignments, a => if a < experts then a else 0)
  }

  function Surplus(assignments: nat, experts: nat): nat {
    if assignments < experts then 0 else assignments - experts
  }

  lemma {:induction false} SkewedRank(assignments: nat, experts: nat, e: nat, n: nat)
    requires n <= assignments && e < experts
    ensures Rank(Skewed(assignments, experts), e, n)
            == (if e < n then 1 else 0) + (if e == 0 then Surplus(n, experts) else 0)
  {
    if n > 0 {
      SkewedRank(assignments, experts, e, n - 1);
    }
  }

  lemma {:induction false} SkewedBlocks(assignments: nat, experts: nat, e: nat, blockSize: nat)
    requires blockSize > 0 && 0 < e <= experts && assignments > 0
    ensures Blocks(Skewed(assignments, experts), e, blockSize)
            == CeilDiv(1 + Surplus(assignments, experts), blockSize) + (if e < assignments then e else assignments) - 1
  {
    var ids := Skewed(assignments, experts);
    SkewedRank(assignments, experts, e - 1, assignments);
    if e == 1 {
      assert Blocks(ids, 0, blockSize) == 0;
    } else {
      SkewedBlocks(assignments, experts, e - 1, blockSize);
      SmallCeiling(blockSize);
    }
  }

  lemma SmallCeiling(d: nat)
    requires d > 0
    ensures CeilDiv(0, d) == 0 && CeilDiv(1, d) == 1
  {
    QuotientOf(0, d, d - 1);
    QuotientOf(1, d, 0);
  }

  /** The capacity in blocks, from what exceeds one assignment for each nonempty expert. */
  lemma CapacityInBlocks(assignments: nat, experts: nat, blockSize: nat, filled: nat, surplus: nat)
    requires blockSize > 0 && filled == (if assignments < experts then assignments else experts)
    requires surplus == assignments - filled
    ensures MaximumBlocks(assignments, experts, blockSize) == filled + CeilDiv(surplus, blockSize)
  {
    Distribute(blockSize - 1, 1, filled);
    QuotientShift(filled, surplus + blockSize - 1, blockSize);
  }

  lemma QuotientShift(blocks: nat, rest: nat, d: nat)
    requires d > 0
    ensures (rest + d * blocks) / d == blocks + rest / d
  {
    var q, r := rest / d, rest % d;
    Split(rest, d);
    ShiftedSplit(blocks, q, r, d);
  }

  lemma ShiftedSplit(blocks: nat, q: nat, r: nat, d: nat)
    requires r < d
    ensures (q * d + r + d * blocks) / d == blocks + q
  {
    Distribute(blocks, q, d);
    QuotientOf(blocks + q, d, r);
  }

  lemma NextCeiling(surplus: nat, d: nat)
    requires d > 0
    ensures CeilDiv(surplus, d) <= CeilDiv(1 + surplus, d) == surplus / d + 1
    ensures surplus % d == 0 ==> CeilDiv(surplus, d) == surplus / d
    ensures CeilDiv(surplus, d) >= surplus / d
  {
    Split(surplus, d);
    CeilingOfSplit(surplus / d, surplus % d, d);
  }

  lemma CeilingOfSplit(q: nat, r: nat, d: nat)
    requires r < d
    ensures CeilDiv(1 + q * d + r, d) == q + 1 && CeilDiv(q * d + r, d) == if r == 0 then q else q + 1
  {
    Distribute(q, 1, d);
    QuotientOf(q + 1, d, r);
    if r == 0 {
      QuotientOf(q, d, d - 1);
    } else {
      QuotientOf(q + 1, d, r - 1);
    }
  }

  /**
    Some routing needs all of the capacity but at most one block, and all of it if what exceeds one assignment for each
    expert fills whole blocks.
  */
  lemma CapacityIsTight(assignments: nat, experts: nat, blockSize: nat) returns (ids: seq<int>)
    requires blockSize > 0 && experts > 0
    ensures |ids| == assignments && forall a :: 0 <= a < |ids| ==> 0 <= ids[a] < experts
    ensures Blocks(ids, experts, blockSize) + 1 >= MaximumBlocks(assignments, experts, blockSize)
    ensures assignments <= experts || (assignments - experts) % blockSize == 0 ==>
      Blocks(ids, experts, blockSize) == MaximumBlocks(assignments, experts, blockSize)
  {
    ids := Skewed(assignments, experts);
    var surplus := Surplus(assignments, experts);
    CapacityInBlocks(assignments, experts, blockSize, if assignments < experts then assignments else experts, surplus);
    NextCeiling(surplus, blockSize);
    SmallCeiling(blockSize);
    if assignments > 0 {
      SkewedBlocks(assignments, experts, experts, blockSize);
    } else {
      CapacitySuffices(ids, experts, blockSize);
    }
  }

  // ----- what a correct schedule is -----

  ghost predicate Scheduled(plan: Plan, a: int) {
    exists p :: 0 <= p < |plan.sorted| && plan.sorted[p] == a
  }

  /** Every lane holds the sentinel or an assignment whose expert owns an active block; no assignment occurs twice. */
  ghost predicate Consistent(ids: seq<int>, blockSize: nat, plan: Plan)
    requires blockSize > 0
  {
    && |plan.sorted| == |plan.blockExperts| * blockSize
    && 0 <= plan.activeBlocks <= |plan.blockExperts|
    && (forall p :: 0 <= p < |plan.sorted| ==> 0 <= plan.sorted[p] <= |ids|)
    && (forall p :: 0 <= p < |plan.sorted| && plan.sorted[p] < |ids| ==>
          BlockOf(p, blockSize) < plan.activeBlocks && plan.blockExperts[BlockOf(p, blockSize)] == ids[plan.sorted[p]])
    && (forall p, p' :: 0 <= p < p' < |plan.sorted| && plan.sorted[p] < |ids| && plan.sorted[p'] < |ids| ==>
          plan.sorted[p] != plan.sorted[p'])
  }

  /** Lanes are ordered by expert first and by assignment inside an expert. */
  ghost predicate Stable(ids: seq<int>, plan: Plan) {
    forall p, p' :: 0 <= p < p' < |plan.sorted| && 0 <= plan.sorted[p] < |ids| && 0 <= plan.sorted[p'] < |ids| ==>
      var a, a' := plan.sorted[p], plan.sorted[p'];
      ids[a] < ids[a'] || (ids[a] == ids[a'] && a < a')
  }

  ghost predicate TooLarge(assignments: nat, experts: nat, blockSize: nat) {
    blockSize == 0 || assignments > I32_MAX
    || MaximumBlocks(assignments, experts, blockSize) > I32_MAX
    || MaximumBlocks(assignments, experts, blockSize) * blockSize > I32_MAX
  }

  // ----- the dense path, expert by expert -----

  /** The schedule after experts `0..e`: exactly their assignments, each at its position. */
  ghost predicate Written(ids: seq<int>, blockSize: nat, e: nat, sorted: seq<int>)
    requires blockSize > 0
  {
    && (forall p :: 0 <= p < |sorted| && sorted[p] != |ids| ==>
          0 <= sorted[p] < |ids| && 0 <= ids[sorted[p]] < e && Position(ids, blockSize, sorted[p]) == p)
    && (forall a :: 0 <= a < |ids| && 0 <= ids[a] < e ==>
          Position(ids, blockSize, a) < |sorted| && sorted[Position(ids, blockSize, a)] == a)
  }

  /** An in-range assignment lands inside its expert's blocks. */
  lemma PositionInBucket(ids: seq<int>, blockSize: nat, a: nat)
    requires blockSize > 0 && a < |ids| && ids[a] >= 0
    ensures Blocks(ids, ids[a], blockSize) * blockSize <= Position(ids, blockSize, a)
    ensures Position(ids, blockSize, a) < Blocks(ids, ids[a] + 1, blockSize) * blockSize
    ensures Blocks(ids, ids[a], blockSize) <= BlockOf(Position(ids, blockSize, a), blockSize)
    ensures BlockOf(Position(ids, blockSize, a), blockSize) < Blocks(ids, ids[a] + 1, blockSize)
  {
    var e := ids[a];
    RankMonotone(ids, e, a, |ids|);
    CeilDivBounds(Count(ids, e), blockSize);
    Distribute(Blocks(ids, e, blockSize), CeilDiv(Count(ids, e), blockSize), blockSize);
    QuotientWithin(Position(ids, blockSize, a), blockSize, Blocks(ids, e, blockSize), Blocks(ids, e + 1, blockSize));
  }

  /** Positions order assignments by expert, then by index; in particular they never collide. */
  lemma PositionOrder(ids: seq<int>, blockSize: nat, a: nat, b: nat)
    requires blockSize > 0 && a < |ids| && b < |ids| && ids[a] >= 0 && ids[b] >= 0
    requires ids[a] < ids[b] || (ids[a] == ids[b] && a < b)
    ensures Position(ids, blockSize, a) < Position(ids, blockSize, b)
  {
    if ids[a] < ids[b] {
      PositionInBucket(ids, blockSize, a);
      PositionInBucket(ids, blockSize, b);
      BlocksMonotone(ids, ids[a] + 1, ids[b], blockSize);
      MulMono(Blocks(ids, ids[a] + 1, blockSize), Blocks(ids, ids[b], blockSize), blockSize);
    } else {
      RankMonotone(ids, ids[a], a, b);
    }
  }

  /** One expert's scatter: its assignments go to consecutive lanes, everything else is dropped. */
  method ScatterExpert(ids: seq<int>, blockSize: nat, e: nat, prefix: int, sorted: seq<int>) returns (after: seq<int>)
    requires blockSize > 0 && Written(ids, blockSize, e, sorted)
    requires prefix == Blocks(ids, e, blockSize) * blockSize
    requires Blocks(ids, e + 1, blockSize) * blockSize <= |sorted|
    ensures |after| == |sorted| && Written(ids, blockSize, e + 1, after)
  {
    after := sorted;
    for a := 0 to |ids|
      invariant |after| == |sorted| && WrittenBefore(ids, blockSize, e, a, after)
    {
      var target := if ids[a] == e then prefix + (Rank(ids, e, a + 1) - 1) else |sorted|;
      TargetIsPosition(ids, blockSize, e, a, prefix, |sorted|);
      if ids[a] == e {
        WriteNext(ids, blockSize, e, a, after);
      } else {
        SkipNext(ids, blockSize, e, a, after);
      }
      if 0 <= target < |after| {
        after := after[target := a];
      }
    }
    WrittenAll(ids, blockSize, e, after);
  }

  /** The cumulative count of an expert's assignments, offset by the padded prefix, is the next position. */
  lemma TargetIsPosition(ids: seq<int>, blockSize: nat, e: nat, a: nat, prefix: int, capacity: nat)
    requires blockSize > 0 && a < |ids| && prefix == Blocks(ids, e, blockSize) * blockSize
    requires Blocks(ids, e + 1, blockSize) * blockSize <= capacity
    ensures ids[a] == e ==> prefix + (Rank(ids, e, a + 1) - 1) == Position(ids, blockSize, a) < capacity
  {
    if ids[a] == e {
      PositionInBucket(ids, blockSize, a);
    }
  }

  lemma SkipNext(ids: seq<int>, blockSize: nat, e: nat, a: nat, sorted: seq<int>)
    requires blockSize > 0 && a < |ids| && ids[a] != e && WrittenBefore(ids, blockSize, e, a, sorted)
    ensures WrittenBefore(ids, blockSize, e, a + 1, sorted)
  {
  }

  lemma WrittenAll(ids: seq<int>, blockSize: nat, e: nat, sorted: seq<int>)
    requires blockSize > 0 && WrittenBefore(ids, blockSize, e, |ids|, sorted)
    ensures Written(ids, blockSize, e + 1, sorted)
  {
  }

  /** The schedule after experts `0..e` and the first `n` assignments of expert `e`. */
  ghost predicate WrittenBefore(ids: seq<int>, blockSize: nat, e: nat, n: nat, sorted: seq<int>)
    requires blockSize > 0
  {
    && (forall p :: 0 <= p < |sorted| && sorted[p] != |ids| ==>
          && 0 <= sorted[p] < |ids| && (0 <= ids[sorted[p]] < e || (ids[sorted[p]] == e && sorted[p] < n))
          && Position(ids, blockSize, sorted[p]) == p)
    && (forall c :: 0 <= c < |ids| && (0 <= ids[c] < e || (ids[c] == e && c < n)) ==>
          Position(ids, blockSize, c) < |sorted| && sorted[Position(ids, blockSize, c)] == c)
  }

  /** Writing the next assignment of the expert at its position displaces none before it. */
  lemma WriteNext(ids: seq<int>, blockSize: nat, e: nat, a: nat, sorted: seq<int>)
    requires blockSize > 0 && a < |ids| && ids[a] == e && WrittenBefore(ids, blockSize, e, a, sorted)
    requires Position(ids, blockSize, a) < |sorted|
    ensures WrittenBefore(ids, blockSize, e, a + 1, sorted[Position(ids, blockSize, a) := a])
  {
    forall c | 0 <= c < |ids| && (0 <= ids[c] < e || (ids[c] == e && c < a))
      ensures Position(ids, blockSize, c) < Position(ids, blockSize, a)
    {
      PositionOrder(ids, blockSize, c, a);
    }
  }

  /** Blocks `0..Blocks(e)` carry the expert whose range they lie in; later blocks carry none. */
  ghost predicate Owned(ids: seq<int>, blockSize: nat, e: nat, blockExperts: seq<int>)
    requires blockSize > 0
  {
    && (forall b :: Blocks(ids, e, blockSize) <= b < |blockExperts| ==> blockExperts[b] == -1)
    && (forall b, j: nat ::
      j < e && Blocks(ids, j, blockSize) <= b < Blocks(ids, j + 1, blockSize) && b < |blockExperts| ==>
          blockExperts[b] == j)
  }

  lemma OwnedStep(ids: seq<int>, blockSize: nat, e: nat, before: seq<int>, after: seq<int>)
    requires blockSize > 0 && Owned(ids, blockSize, e, before) && |after| == |before|
    requires forall b :: 0 <= b < |after| ==>
      after[b] == if Blocks(ids, e, blockSize) <= b < Blocks(ids, e + 1, blockSize) then e else before[b]
    ensures Owned(ids, blockSize, e + 1, after)
  {
    forall b, j: nat | j < e + 1 && Blocks(ids, j, blockSize) <= b < Blocks(ids, j + 1, blockSize) && b < |after|
      ensures after[b] == j
    {
      if j < e {
        BlocksMonotone(ids, j + 1, e, blockSize);
      }
    }
  }

  lemma LaneInBlock(ids: seq<int>, experts: nat, blockSize: nat, plan: Plan, p: nat)
    requires blockSize > 0 && Written(ids, blockSize, experts, plan.sorted)
    requires Owned(ids, blockSize, experts, plan.blockExperts)
    requires plan.activeBlocks == Blocks(ids, experts, blockSize) <= |plan.blockExperts|
    requires p < |plan.sorted| && plan.sorted[p] < |ids|
    ensures 0 <= plan.sorted[p] && BlockOf(p, blockSize) < plan.activeBlocks
    ensures plan.blockExperts[BlockOf(p, blockSize)] == ids[plan.sorted[p]]
  {
    var a := plan.sorted[p];
    WrittenLane(ids, experts, blockSize, plan.sorted, p);
    PositionOwner(ids, experts, blockSize, plan.blockExperts, a, p);
  }

  lemma PositionOwner(ids: seq<int>, experts: nat, blockSize: nat, blockExperts: seq<int>, a: nat, p: nat)
    requires blockSize > 0 && Owned(ids, blockSize, experts, blockExperts)
    requires Blocks(ids, experts, blockSize) <= |blockExperts|
    requires a < |ids| && 0 <= ids[a] < experts && p == Position(ids, blockSize, a)
    ensures BlockOf(p, blockSize) < Blocks(ids, experts, blockSize) && blockExperts[BlockOf(p, blockSize)] == ids[a]
  {
    PositionInBucket(ids, blockSize, a);
    BlocksMonotone(ids, ids[a] + 1, experts, blockSize);
    OwnedBlock(ids, blockSize, experts, blockExperts, BlockOf(p, blockSize), ids[a]);
  }

  lemma WrittenLane(ids: seq<int>, experts: nat, blockSize: nat, sorted: seq<int>, p: nat)
    requires blockSize > 0 && Written(ids, blockSize, experts, sorted) && p < |sorted| && sorted[p] < |ids|
    ensures 0 <= sorted[p] && 0 <= ids[sorted[p]] < experts && Position(ids, blockSize, sorted[p]) == p
  {
  }

  lemma OwnedBlock(ids: seq<int>, blockSize: nat, experts: nat, blockExperts: seq<int>, b: nat, e: nat)
    requires blockSize > 0 && Owned(ids, blockSize, experts, blockExperts) && e < experts && b < |blockExperts|
    requires Blocks(ids, e, blockSize) <= b < Blocks(ids, e + 1, blockSize)
    ensures blockExperts[b] == e
  {
  }

  lemma LanesOrdered(ids: seq<int>, experts: nat, blockSize: nat, sorted: seq<int>, p: nat, p': nat)
    requires blockSize > 0 && Written(ids, blockSize, experts, sorted)
    requires p < p' < |sorted| && sorted[p] < |ids| && sorted[p'] < |ids|
    ensures var a, a' := sorted[p], sorted[p'];
            0 <= a && 0 <= a' && (ids[a] < ids[a'] || (ids[a] == ids[a'] && a < a'))
  {
    var a, a' := sorted[p], sorted[p'];
    if ids[a'] < ids[a] || (ids[a'] == ids[a] && a' < a) {
      PositionOrder(ids, blockSize, a', a);
    }
  }

  lemma WrittenIsConsistent(ids: seq<int>, experts: nat, blockSize: nat, plan: Plan)
    requires blockSize > 0 && Written(ids, blockSize, experts, plan.sorted)
    requires Owned(ids, blockSize, experts, plan.blockExperts)
    requires |plan.sorted| == |plan.blockExperts| * blockSize
    requires plan.activeBlocks == Blocks(ids, experts, blockSize) <= |plan.blockExperts|
    ensures Consistent(ids, blockSize, plan)
  {
    forall p | 0 <= p < |plan.sorted| && plan.sorted[p] < |ids|
      ensures BlockOf(p, blockSize) < plan.activeBlocks
      ensures plan.blockExperts[BlockOf(p, blockSize)] == ids[plan.sorted[p]]
    {
      LaneInBlock(ids, experts, blockSize, plan, p);
    }
  }

  lemma WrittenIsStable(ids: seq<int>, experts: nat, blockSize: nat, plan: Plan)
    requires blockSize > 0 && Written(ids, blockSize, experts, plan.sorted)
    ensures Stable(ids, plan)
  {
    forall p, p' | 0 <= p < p' < |plan.sorted| && 0 <= plan.sorted[p] < |ids| && 0 <= plan.sorted[p'] < |ids|
      ensures var a, a' := plan.sorted[p], plan.sorted[p'];
              ids[a] < ids[a'] || (ids[a] == ids[a'] && a < a')
    {
      LanesOrdered(ids, experts, blockSize, plan.sorted, p, p');
    }
  }

  lemma WrittenIsScheduled(ids: seq<int>, experts: nat, blockSize: nat, plan: Plan, a: nat)
    requires blockSize > 0 && Written(ids, blockSize, experts, plan.sorted) && a < |ids|
    ensures Scheduled(plan, a) <==> 0 <= ids[a] < experts
  {
    if 0 <= ids[a] < experts {
      assert plan.sorted[Position(ids, blockSize, a)] == a;
    }
  }

  /** The prefix stays a multiple of the block size and advances by whole blocks. */
  lemma PrefixStep(ids: seq<int>, e: nat, blockSize: nat)
    requires blockSize > 0
    ensures var prefix, padded := Blocks(ids, e, blockSize) * blockSize, CeilDiv(Count(ids, e), blockSize) * blockSize;
            && prefix / blockSize == Blocks(ids, e, blockSize)
            && prefix / blockSize + padded / blockSize == Blocks(ids, e + 1, blockSize)
            && prefix + padded == Blocks(ids, e + 1, blockSize) * blockSize
  {
    QuotientOf(Blocks(ids, e, blockSize), blockSize, 0);
    QuotientOf(CeilDiv(Count(ids, e), blockSize), blockSize, 0);
    Distribute(Blocks(ids, e, blockSize), CeilDiv(Count(ids, e), blockSize), blockSize);
  }

  lemma CapacityFits(assignments: nat, e: nat, experts: nat, blockSize: nat)
    requires !TooLarge(assignments, experts, blockSize) && e <= experts < assignments
    ensures assignments + e * (blockSize - 1) <= I32_MAX
  {
    MulMono(e, experts, blockSize - 1);
    CeilDivBounds(MaximumPadded(assignments, experts, blockSize), blockSize);
  }

  /** Every value the graph computes in I32 on the way stays in range. */
  lemma IntermediatesFitI32(ids: seq<int>, experts: nat, blockSize: nat, e: nat, a: nat)
    requires !TooLarge(|ids|, experts, blockSize) && |ids| > experts > e && a < |ids|
    ensures Count(ids, e) + (blockSize - 1) <= I32_MAX
    ensures -1 <= Blocks(ids, e, blockSize) * blockSize + (Rank(ids, e, a + 1) - 1) <= I32_MAX
    ensures Blocks(ids, e + 1, blockSize) * blockSize <= I32_MAX
  {
    CapacityFits(|ids|, 1, experts, blockSize);
    RankMonotone(ids, e, 0, |ids|);
    PrefixFits(ids, experts, blockSize, e);
    LaneFits(ids, blockSize, e, a);
  }

  /** The padded prefix after any expert stays within the I32 capacity. */
  lemma PrefixFits(ids: seq<int>, experts: nat, blockSize: nat, e: nat)
    requires !TooLarge(|ids|, experts, blockSize) && |ids| > experts > e
    ensures Blocks(ids, e + 1, blockSize) * blockSize <= I32_MAX
  {
    CapacityFits(|ids|, e + 1, experts, blockSize);
    CapacitySuffices(ids, e + 1, blockSize);
  }

  lemma LaneFits(ids: seq<int>, blockSize: nat, e: nat, a: nat)
    requires blockSize > 0 && a < |ids|
    ensures Blocks(ids, e, blockSize) * blockSize >= 0
    ensures Blocks(ids, e, blockSize) * blockSize + Rank(ids, e, a + 1) <= Blocks(ids, e + 1, blockSize) * blockSize
  {
    RankMonotone(ids, e, a + 1, |ids|);
    CeilDivBounds(Count(ids, e), blockSize);
    Distribute(Blocks(ids, e, blockSize), CeilDiv(Count(ids, e), blockSize), blockSize);
    MulMono(0, Blocks(ids, e, blockSize), blockSize);
  }

  // ----- the sparse path -----

  /** Edge-high and interior padding by `blockSize - 1`: one assignment at the head of every block. */
  function PadAssignments(assignments: nat, blockSize: nat): seq<int>
    requires blockSize > 0
  {
    seq(assignments * blockSize, p requires p >= 0 => if p % blockSize == 0 then p / blockSize else assignments)
  }

  lemma PaddedLane(assignments: nat, blockSize: nat, p: nat)
    requires blockSize > 0 && p < assignments * blockSize
    ensures BlockOf(p, blockSize) < assignments
    ensures var lane := PadAssignments(assignments, blockSize)[p];
            0 <= lane <= assignments && (lane < assignments ==> lane == BlockOf(p, blockSize) && p == lane * blockSize)
  {
    QuotientBelow(p, blockSize, assignments);
    Split(p, blockSize);
  }

  lemma PaddedHead(assignments: nat, blockSize: nat, a: nat)
    requires blockSize > 0 && a < assignments
    ensures a * blockSize < assignments * blockSize && PadAssignments(assignments, blockSize)[a * blockSize] == a
  {
    IndexBelow(a, 0, assignments, blockSize);
    QuotientOf(a, blockSize, 0);
  }

  lemma SparseSchedule(ids: seq<int>, blockSize: nat, plan: Plan)
    requires blockSize > 0 && plan == Plan(PadAssignments(|ids|, blockSize), ids, |ids|)
    ensures Consistent(ids, blockSize, plan)
    ensures forall a :: 0 <= a < |ids| ==>
      Scheduled(plan, a) && a * blockSize < |plan.sorted| && plan.sorted[a * blockSize] == a
  {
    forall p | 0 <= p < |plan.sorted|
      ensures BlockOf(p, blockSize) < |ids| && 0 <= plan.sorted[p] <= |ids|
      ensures plan.sorted[p] < |ids| ==> plan.sorted[p] == BlockOf(p, blockSize) && p == plan.sorted[p] * blockSize
    {
      PaddedLane(|ids|, blockSize, p);
    }
    forall a | 0 <= a < |ids|
      ensures Scheduled(plan, a) && a * blockSize < |plan.sorted| && plan.sorted[a * blockSize] == a
    {
      PaddedHead(|ids|, blockSize, a);
    }
  }

  // ----- the authored schedule -----

  /** What authoring promises about the schedule it emits. */
  ghost predicate PlanFor(ids: seq<int>, experts: nat, blockSize: nat, plan: Plan) {
    && blockSize > 0 && Consistent(ids, blockSize, plan)
    && (forall a :: 0 <= a < |ids| ==> (Scheduled(plan, a) <==> |ids| <= experts || 0 <= ids[a] < experts))
    && (|ids| <= experts ==>
          plan.sorted == PadAssignments(|ids|, blockSize) && plan.blockExperts == ids && plan.activeBlocks == |ids|)
    && (|ids| > experts ==>
          && Written(ids, blockSize, experts, plan.sorted) && Stable(ids, plan)
          && |plan.blockExperts| == MaximumBlocks(|ids|, experts, blockSize)
          && plan.activeBlocks == Blocks(ids, experts, blockSize))
  }

  /** Every assignment sits in the first lane of its block, the only lane the small-batch kernels read. */
  ghost predicate HeadsOnly(ids: seq<int>, blockSize: nat, plan: Plan)
    requires blockSize > 0
  {
    forall p :: 0 <= p < |plan.sorted| && plan.sorted[p] != |ids| ==> p % blockSize == 0
  }

  ghost predicate NoSharedExpert(ids: seq<int>, experts: nat) {
    forall a, b :: 0 <= a < b < |ids| && 0 <= ids[a] < experts ==> ids[a] != ids[b]
  }

  /**
    Reading first lanes only reaches every scheduled assignment exactly when no expert serves two of them or the
    schedule is the sparse one.
  */
  lemma FirstLanesSuffice(ids: seq<int>, experts: nat, blockSize: nat, plan: Plan)
    requires PlanFor(ids, experts, blockSize, plan)
    ensures HeadsOnly(ids, blockSize, plan) <==> blockSize == 1 || |ids| <= experts || NoSharedExpert(ids, experts)
  {
    if blockSize == 1 {
      return;
    }
    if |ids| <= experts {
      forall p | 0 <= p < |plan.sorted| && plan.sorted[p] != |ids| ensures p % blockSize == 0 {
        PaddedOffset(|ids|, blockSize, p);
      }
    } else if NoSharedExpert(ids, experts) {
      forall p | 0 <= p < |plan.sorted| && plan.sorted[p] != |ids| ensures p % blockSize == 0 {
        RankZero(ids, ids[plan.sorted[p]], plan.sorted[p]);
        PositionOffset(ids, blockSize, plan.sorted[p]);
      }
    } else {
      SharedExpertMisses(ids, experts, blockSize, plan.sorted);
    }
  }

  lemma PaddedOffset(assignments: nat, blockSize: nat, p: nat)
    requires blockSize > 0 && p < assignments * blockSize && PadAssignments(assignments, blockSize)[p] != assignments
    ensures p % blockSize == 0
  {
    PaddedLane(assignments, blockSize, p);
    QuotientOf(p / blockSize, blockSize, 0);
  }

  /** Inside its expert's blocks an early assignment's offset is its rank. */
  lemma PositionOffset(ids: seq<int>, blockSize: nat, a: nat)
    requires a < |ids| && ids[a] >= 0 && Rank(ids, ids[a], a) < blockSize
    ensures Position(ids, blockSize, a) % blockSize == Rank(ids, ids[a], a)
  {
    QuotientOf(Blocks(ids, ids[a], blockSize), blockSize, Rank(ids, ids[a], a));
  }

  lemma SharedExpertMisses(ids: seq<int>, experts: nat, blockSize: nat, sorted: seq<int>)
    requires blockSize >= 2 && Written(ids, blockSize, experts, sorted) && !NoSharedExpert(ids, experts)
    ensures exists p :: 0 <= p < |sorted| && sorted[p] != |ids| && p % blockSize != 0
  {
    var a, b :| 0 <= a < b < |ids| && 0 <= ids[a] < experts && ids[a] == ids[b];
    var second := SecondOf(ids, ids[a], a, b);
    PositionOffset(ids, blockSize, second);
    assert sorted[Position(ids, blockSize, second)] == second;
  }

  lemma {:induction false} RankZero(ids: seq<int>, e: int, n: nat)
    requires n <= |ids| && forall a :: 0 <= a < n ==> ids[a] != e
    ensures Rank(ids, e, n) == 0
  {
    if n > 0 {
      RankZero(ids, e, n - 1);
    }
  }

  /** Among two assignments of one expert there is one of rank one. */
  lemma {:induction false} SecondOf(ids: seq<int>, e: int, a: nat, b: nat) returns (second: nat)
    requires a < b < |ids| && ids[a] == e && ids[b] == e
    ensures second < |ids| && ids[second] == e && Rank(ids, e, second) == 1
    decreases b
  {
    RankMonotone(ids, e, a, b);
    if Rank(ids, e, b) == 1 {
      second := b;
    } else {
      var c := Previous(ids, e, b);
      RankMonotone(ids, e, 0, c);
      var first := Previous(ids, e, c);
      second := SecondOf(ids, e, first, c);
    }
  }

  /** The last assignment of `e` before `n`, when there is one. */
  lemma {:induction false} Previous(ids: seq<int>, e: int, n: nat) returns (c: nat)
    requires n <= |ids| && Rank(ids, e, n) > 0
    ensures c < n && ids[c] == e && Rank(ids, e, c) == Rank(ids, e, n) - 1
  {
    if ids[n - 1] == e {
      c := n - 1;
    } else {
      c := Previous(ids, e, n - 1);
    }
  }

  method DensePlan(ids: seq<int>, experts: nat, blockSize: nat, maxBlocks: nat) returns (plan: Plan)
    requires blockSize > 0 && Blocks(ids, experts, blockSize) <= maxBlocks
    ensures Consistent(ids, blockSize, plan) && Stable(ids, plan)
    ensures Written(ids, blockSize, experts, plan.sorted)
    ensures |plan.blockExperts| == maxBlocks && plan.activeBlocks == Blocks(ids, experts, blockSize)
    ensures forall a :: 0 <= a < |ids| ==> (Scheduled(plan, a) <==> 0 <= ids[a] < experts)
  {
    var sorted := seq(maxBlocks * blockSize, _ => |ids|);
    var blockExperts := seq(maxBlocks, _ => -1);
    var prefix := 0;
    for e := 0 to experts
      invariant |sorted| == maxBlocks * blockSize && |blockExperts| == maxBlocks
      invariant prefix == Blocks(ids, e, blockSize) * blockSize
      invariant Written(ids, blockSize, e, sorted)
      invariant Owned(ids, blockSize, e, blockExperts)
    {
      BlocksMonotone(ids, e + 1, experts, blockSize);
      MulMono(Blocks(ids, e + 1, blockSize), maxBlocks, blockSize);
      sorted := ScatterExpert(ids, blockSize, e, prefix, sorted);
      var padded := (Count(ids, e) + (blockSize - 1)) / blockSize * blockSize;
      PrefixStep(ids, e, blockSize);
      blockExperts := MarkBlocks(ids, blockSize, e, blockExperts, prefix / blockSize,
        prefix / blockSize + padded / blockSize);
      prefix := prefix + padded;
    }
    QuotientOf(Blocks(ids, experts, blockSize), blockSize, 0);
    plan := Plan(sorted, blockExperts, prefix / blockSize);
    WrittenIsConsistent(ids, experts, blockSize, plan);
    WrittenIsStable(ids, experts, blockSize, plan);
    forall a | 0 <= a < |ids| ensures Scheduled(plan, a) <==> 0 <= ids[a] < experts {
      WrittenIsScheduled(ids, experts, blockSize, plan, a);
    }
  }

  /** Select the current expert on its own block range and keep every other block. */
  method MarkBlocks(
      ids: seq<int>, blockSize: nat, e: nat, blockExperts: seq<int>, blockStart: int, blockEnd: int)
    returns (after: seq<int>)
    requires blockSize > 0 && Owned(ids, blockSize, e, blockExperts)
    requires blockStart == Blocks(ids, e, blockSize) && blockEnd == Blocks(ids, e + 1, blockSize)
    ensures |after| == |blockExperts| && Owned(ids, blockSize, e + 1, after)
  {
    after := seq(|blockExperts|, b requires 0 <= b < |blockExperts| =>
      if blockStart <= b < blockEnd then e else blockExperts[b]);
    OwnedStep(ids, blockSize, e, blockExperts, after);
  }

  /** The authored schedule: a direct one for few assignments, a bucket sort otherwise. */
  method AssignmentPlan(ids: seq<int>, experts: nat, blockSize: nat) returns (result: PlanResult)
    ensures result.InvalidMoe? <==> TooLarge(|ids|, experts, blockSize)
    ensures result.Planned? ==> PlanFor(ids, experts, blockSize, result.plan)
  {
    if blockSize == 0 {
      return InvalidMoe;
    }
    var maxBlocks := MaximumBlocks(|ids|, experts, blockSize);
    if |ids| > I32_MAX || maxBlocks * blockSize > I32_MAX || maxBlocks > I32_MAX {
      return InvalidMoe;
    }
    if |ids| <= experts {
      var plan := Plan(PadAssignments(|ids|, blockSize), ids, |ids|);
      SparseSchedule(ids, blockSize, plan);
      return Planned(plan);
    }
    CapacitySuffices(ids, experts, blockSize);
    var plan := DensePlan(ids, experts, blockSize, maxBlocks);
    return Planned(plan);
  }
}
