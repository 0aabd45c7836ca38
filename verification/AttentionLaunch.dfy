/**
  Launch geometry of the accelerated paged attention: the selector's guarantees for every
  geometry it accepts, and why its grid serves every query row of every head exactly once.
*/
module AttentionLaunch {
  import opened Arithmetic

  datatype Geometry = Geometry(
    coreCount: nat, allDecode: bool, tokens: nat, queryHeads: nat, kvHeads: nat,
    headDim: nat, batch: nat, pageSize: nat, maxQueryLength: nat)

  datatype Launch =
    | TwoDimensional(blockM: nat, blockQ: nat, tileSize: nat, queryBlocks: nat,
                     grid: (nat, nat, nat), warps: nat, stages: nat)
    | SplitK(blockM: nat, blockQ: nat, tileSize: nat, queryBlocks: nat, segments: nat,
             attentionGrid: (nat, nat, nat), attentionWarps: nat, attentionStages: nat,
             reductionGrid: (nat, nat, nat), reductionWarps: nat, reductionStages: nat)

  datatype Failure = Zero | InvalidHeadRatio | Overflow
  datatype Result<T> = Ok(value: T) | Err(failure: Failure)

  const MAX_USIZE: nat := 0xFFFF_FFFF_FFFF_FFFF

  /** The largest power of two a word can hold. */
  const LARGEST_POWER: nat := 0x8000_0000_0000_0000

  // ----- powers of two -----

  function Power(k: nat): (p: nat)
    ensures p >= 1
  {
    if k == 0 then 1 else 2 * Power(k - 1)
  }

  ghost predicate IsPower(n: nat) { exists k: nat :: n == Power(k) }

  lemma {:induction false} PowerDivides(j: nat, k: nat) returns (q: nat)
    requires j <= k
    ensures Power(k) == q * Power(j) && q >= 1
  {
    if k == j {
      q := 1;
    } else {
      var p := PowerDivides(j, k - 1);
      q := 2 * p;
    }
  }

  lemma {:induction false} PowerIncreases(j: nat, k: nat)
    requires j < k
    ensures Power(j) < Power(k)
  {
    if j + 1 < k {
      PowerIncreases(j, k - 1);
    }
  }

  /** Doubling `p` until it is not below `n`. */
  function PowerFrom(p: nat, n: nat): nat
    requires p > 0
    decreases n - p
  {
    if p >= n then p else PowerFrom(2 * p, n)
  }

  function LeastPower(n: nat): nat { PowerFrom(1, n) }

  /** The least power of two that is not below `n`. */
  method NextPower(n: nat) returns (p: nat)
    requires n > 0
    ensures p == LeastPower(n) && IsPower(p) && n <= p < 2 * n
  {
    p := 1;
    ghost var k := 0;
    while p < n
      invariant p == Power(k) && p < 2 * n && PowerFrom(p, n) == LeastPower(n)
      decreases 2 * n - p
    {
      p, k := 2 * p, k + 1;
    }
  }

  /** The checked form: a result past the word size is an overflow. */
  method CheckedNextPower(n: nat) returns (p: Result<nat>)
    requires n > 0
    ensures p.Ok? <==> n <= LARGEST_POWER
    ensures p.Ok? ==> p.value == LeastPower(n) && IsPower(p.value) && n <= p.value < 2 * n
    ensures p.Err? ==> p.failure == Overflow
  {
    var q := NextPower(n);
    PowerInWord(q);
    p := if q <= MAX_USIZE then Ok(q) else Err(Overflow);
  }

  lemma LargestPower()
    ensures Power(63) == LARGEST_POWER && Power(64) == 2 * LARGEST_POWER
  {
    assert Power(3) == 8;
    PowerSum(3, 4, 8, 16);
    PowerSum(7, 7, 0x80, 0x80);
    PowerSum(14, 7, 0x4000, 0x80);
    PowerSum(21, 21, 0x20_0000, 0x20_0000);
    PowerSum(42, 21, 0x400_0000_0000, 0x20_0000);
  }

  lemma {:induction false} PowerSum(j: nat, k: nat, p: nat, q: nat)
    requires p == Power(j) && q == Power(k)
    ensures Power(j + k) == p * q
  {
    if k > 0 {
      PowerSum(j, k - 1, p, q / 2);
      Distribute(q / 2, q / 2, p);
    }
  }

  lemma PowerInWord(p: nat)
    requires IsPower(p)
    ensures p <= MAX_USIZE <==> p <= LARGEST_POWER
  {
    var k: nat :| p == Power(k);
    LargestPower();
    if k > 63 {
      PowerIncreases(63, k);
      if k > 64 {
        PowerIncreases(64, k);
      }
    } else if k < 63 {
      PowerIncreases(k, 63);
    }
  }

  // ----- selection -----

  ghost predicate ValidGeometry(g: Geometry) {
    && g.coreCount > 0 && g.tokens > 0 && g.queryHeads > 0 && g.kvHeads > 0 && g.headDim > 0
    && g.batch > 0 && g.pageSize > 0 && g.maxQueryLength > 0
    && g.queryHeads % g.kvHeads == 0
  }

  /** What every selected launch guarantees about its tiles. */
  ghost predicate SoundTiles(g: Geometry, l: Launch, padded: nat)
    requires g.kvHeads > 0
  {
    && IsPower(padded) && g.queryHeads / g.kvHeads <= padded < 2 * (g.queryHeads / g.kvHeads)
    && IsPower(l.blockM) && l.blockM >= 16 && l.blockQ > 0 && l.blockM == l.blockQ * padded
    && IsPower(l.tileSize) && l.tileSize <= 64
    && l.queryBlocks == g.tokens / l.blockQ + g.batch
    && l.blockM == Larger(PreferredRows(g, l), padded)
  }

  function Larger(a: nat, b: nat): nat { if a < b then b else a }

  /** Whether the long-query adjustment applies. */
  predicate LongQueries(g: Geometry, l: Launch) { l.TwoDimensional? && g.maxQueryLength >= 256 }

  /** Sixteen rows, or more for long queries, but never less than one head group. */
  function PreferredRows(g: Geometry, l: Launch): nat {
    if !LongQueries(g, l) then 16 else if g.headDim >= 256 then 64 else 128
  }

  /** A decode tile covers a page unless that takes more than 64 positions; other tiles are fixed. */
  ghost predicate SizedTile(g: Geometry, l: Launch) {
    if LongQueries(g, l) && g.headDim >= 256 then l.tileSize == 16
    else if !g.allDecode then l.tileSize == 64
    else DecodeTile(g, l.tileSize)
  }

  predicate DecodeTile(g: Geometry, tileSize: nat) {
    tileSize < 2 * g.pageSize && (g.pageSize <= tileSize || tileSize == 64)
  }

  /** A launch of which only the tiles are known. */
  function Tiles(blockM: nat, blockQ: nat, tileSize: nat, blocks: nat): Launch {
    SplitK(blockM, blockQ, tileSize, blocks, 0, (0, 0, 0), 0, 0, (0, 0, 0), 0, 0)
  }

  ghost predicate SoundSplit(g: Geometry, l: Launch)
    requires l.SplitK?
  {
    && LeastSegments(l.segments, l.tileSize, Programs(l.queryBlocks, g.kvHeads), 4 * g.coreCount)
    && l.attentionGrid == (l.queryBlocks, g.kvHeads, l.segments) && l.reductionGrid == (g.tokens, g.queryHeads, 1)
    && l.attentionWarps == 2 && l.attentionStages == 1 && l.reductionStages == 1
    && l.reductionWarps == (if l.tileSize > 16 && l.segments == 16 then 2 else 1)
  }

  function Programs(blocks: nat, heads: nat): nat { blocks * heads }

  /** Eight segments if the tiles are large enough for so few and they give the target program count, else sixteen. */
  predicate LeastSegments(segments: nat, tileSize: nat, programs: nat, target: nat) {
    segments == if tileSize > 16 && 8 * programs >= target then 8 else 16
  }

  ghost predicate UsesTwoDimensions(g: Geometry)
    requires g.kvHeads > 0
  {
    !g.allDecode || g.batch > 128 / g.kvHeads
  }

  ghost predicate Sound(g: Geometry, l: Launch)
    requires g.kvHeads > 0
  {
    && (exists padded: nat :: SoundTiles(g, l, padded)) && SizedTile(g, l)
    && (l.TwoDimensional? <==> UsesTwoDimensions(g))
    && (if l.TwoDimensional? then
          l.grid == (g.kvHeads, l.queryBlocks, 1) && l.warps == (if LongQueries(g, l) then 4 else 2)
          && l.stages == (if LongQueries(g, l) || !g.allDecode then 1 else if g.headDim > 128 then 2 else 3)
        else SoundSplit(g, l))
  }

  ghost predicate AnyZero(g: Geometry) {
    || g.coreCount == 0 || g.tokens == 0 || g.queryHeads == 0 || g.kvHeads == 0 || g.headDim == 0
    || g.batch == 0 || g.pageSize == 0 || g.maxQueryLength == 0
  }

  /** The query blocks of the first tile choice. */
  function FirstBlocks(g: Geometry): nat
    requires g.kvHeads > 0
  {
    var padded := LeastPower(g.queryHeads / g.kvHeads);
    if padded == 0 then 0 else QueryBlockCount(g, Larger(16, padded) / padded)
  }

  function QueryBlockCount(g: Geometry, blockQ: nat): nat {
    if blockQ == 0 then 0 else Quotient(g.tokens, blockQ) + g.batch
  }

  /** When some intermediate extent does not fit a word. */
  ghost predicate Overflows(g: Geometry)
    requires g.kvHeads > 0
  {
    || g.queryHeads / g.kvHeads > LARGEST_POWER || g.pageSize > LARGEST_POWER || FirstBlocks(g) > MAX_USIZE
    || (!UsesTwoDimensions(g) && SplitOverflows(4 * g.coreCount, Programs(FirstBlocks(g), g.kvHeads)))
  }

  ghost predicate SplitOverflows(target: nat, programs: nat) {
    target > MAX_USIZE || programs > MAX_USIZE || target > LARGEST_POWER * programs
  }

  method Validate(g: Geometry) returns (result: Result<()>)
    ensures result.Ok? <==> ValidGeometry(g)
    ensures result.Err? ==> result.failure == if AnyZero(g) then Zero else InvalidHeadRatio
  {
    var fields := [g.coreCount, g.tokens, g.queryHeads, g.kvHeads, g.headDim, g.batch, g.pageSize, g.maxQueryLength];
    for i := 0 to |fields|
      invariant forall j | 0 <= j < i :: fields[j] > 0
    {
      if fields[i] == 0 {
        return Err(Zero);
      }
    }
    assert fields[0] > 0 && fields[1] > 0 && fields[2] > 0 && fields[3] > 0;
    assert fields[4] > 0 && fields[5] > 0 && fields[6] > 0 && fields[7] > 0;
    if g.queryHeads % g.kvHeads != 0 {
      return Err(InvalidHeadRatio);
    }
    return Ok(());
  }

  lemma KnownPowers()
    ensures IsPower(16) && IsPower(64) && IsPower(128)
  {
    assert Power(4) == 16;
    assert Power(6) == 64;
    assert Power(7) == 2 * Power(6);
  }

  /** A tile of `blockM` rows is a whole number of padded head groups. */
  lemma WholeGroups(blockM: nat, padded: nat)
    requires IsPower(blockM) && IsPower(padded) && padded <= blockM
    ensures blockM / padded > 0 && blockM == blockM / padded * padded
  {
    var j: nat :| padded == Power(j);
    var k: nat :| blockM == Power(k);
    if k < j {
      PowerIncreases(k, j);
    }
    var q := PowerDivides(j, k);
    QuotientOf(q, padded, 0);
  }

  method QueryBlocks(g: Geometry, blockQ: nat) returns (blocks: Result<nat>)
    requires blockQ > 0
    ensures blocks == if QueryBlockCount(g, blockQ) <= MAX_USIZE then Ok(QueryBlockCount(g, blockQ)) else Err(Overflow)
  {
    var total := g.tokens / blockQ + g.batch;
    blocks := if total <= MAX_USIZE then Ok(total) else Err(Overflow);
  }

  lemma WholeHeads(heads: nat, kv: nat)
    requires heads > 0 && kv > 0 && heads % kv == 0
    ensures heads / kv > 0 && kv * (heads / kv) == heads
  {
    Split(heads, kv);
  }

  method SelectLaunch(g: Geometry) returns (result: Result<Launch>)
    ensures result.Ok? <==> ValidGeometry(g) && !Overflows(g)
    ensures result.Ok? ==> Sound(g, result.value)
    ensures result.Err? ==>
      result.failure == if ValidGeometry(g) then Overflow else if AnyZero(g) then Zero else InvalidHeadRatio
  {
    var valid := Validate(g);
    if valid.Err? {
      return Err(valid.failure);
    }
    WholeHeads(g.queryHeads, g.kvHeads);
    var padded := CheckedNextPower(g.queryHeads / g.kvHeads);
    if padded.Err? {
      return Err(padded.failure);
    }
    var paddedPage := CheckedNextPower(g.pageSize);
    if paddedPage.Err? {
      return Err(paddedPage.failure);
    }
    KnownPowers();
    var decodeTile := if paddedPage.value < 64 then paddedPage.value else 64;
    var blockM := if 16 < padded.value then padded.value else 16;
    WholeGroups(blockM, padded.value);
    var blockQ := blockM / padded.value;
    var blocks := QueryBlocks(g, blockQ);
    if blocks.Err? {
      return Err(blocks.failure);
    }
    if !g.allDecode || g.batch > 128 / g.kvHeads {
      result := SelectTwoDimensional(g, padded.value, decodeTile, blockM, blockQ, blocks.value);
    } else {
      result := SelectSplitK(g, padded.value, decodeTile, blockM, blockQ, blocks.value);
    }
  }

  method SelectTwoDimensional(
      g: Geometry, padded: nat, decodeTile: nat, initialM: nat, initialQ: nat, initialBlocks: nat)
    returns (result: Result<Launch>)
    requires ValidGeometry(g) && UsesTwoDimensions(g)
    requires SoundTiles(g, Tiles(initialM, initialQ, decodeTile, initialBlocks), padded) && DecodeTile(g, decodeTile)
    requires initialBlocks <= MAX_USIZE
    ensures result.Ok? && Sound(g, result.value)
  {
    KnownPowers();
    var blockM, blockQ, blocks := initialM, initialQ, initialBlocks;
    var maximumStages := if g.headDim <= 128 then 4 else 2;
    var stages, warps, tileSize := if g.allDecode then 3 else 1, 2, if g.allDecode then decodeTile else 64;
    if g.maxQueryLength >= 256 {
      var preferred := 128;
      if g.headDim >= 256 {
        tileSize := 16;
        preferred := 64;
      }
      blockM := if preferred < padded then padded else preferred;
      stages, warps := 1, 4;
      WholeGroups(blockM, padded);
      blockQ := blockM / padded;
      FewerBlocks(g, padded, initialQ, blockQ);
      var recomputed := QueryBlocks(g, blockQ);
      blocks := recomputed.value;
    }
    var launch := TwoDimensional(blockM, blockQ, tileSize, blocks, (g.kvHeads, blocks, 1), warps,
      if stages < maximumStages then stages else maximumStages);
    assert SoundTiles(g, launch, padded);
    return Ok(launch);
  }

  /** Larger tiles need no more blocks, so the long-query adjustment cannot overflow. */
  lemma FewerBlocks(g: Geometry, padded: nat, less: nat, more: nat)
    requires 0 < less && less * padded <= more * padded && padded > 0
    ensures QueryBlockCount(g, more) <= QueryBlockCount(g, less)
  {
    if more < less {
      MulMono(more + 1, less, padded);
      Distribute(more, 1, padded);
    }
    var q := Quotient(g.tokens, more);
    Split(g.tokens, more);
    Split(g.tokens, less);
    if q > Quotient(g.tokens, less) {
      MulMono(less, more, q);
      MulMono(Quotient(g.tokens, less) + 1, q, less);
      Distribute(Quotient(g.tokens, less), 1, less);
    }
  }

  method SelectSplitK(g: Geometry, padded: nat, decodeTile: nat, blockM: nat, blockQ: nat, blocks: nat)
    returns (result: Result<Launch>)
    requires ValidGeometry(g) && !UsesTwoDimensions(g)
    requires SoundTiles(g, Tiles(blockM, blockQ, decodeTile, blocks), padded) && DecodeTile(g, decodeTile)
    ensures result.Ok? <==> !SplitOverflows(4 * g.coreCount, Programs(blocks, g.kvHeads))
    ensures result.Ok? ==> Sound(g, result.value)
    ensures result.Err? ==> result.failure == Overflow
  {
    var target := 4 * g.coreCount;
    var programs := Programs(blocks, g.kvHeads);
    SomeProgram(blocks, g.kvHeads);
    if target > MAX_USIZE || programs > MAX_USIZE {
      return Err(Overflow);
    }
    var segments := Segments(target, programs, decodeTile);
    if segments.Err? {
      return Err(segments.failure);
    }
    SplitIsSound(g, padded, decodeTile, blockM, blockQ, blocks, segments.value);
    return Ok(SplitLaunch(g, decodeTile, blockM, blockQ, blocks, segments.value));
  }

  lemma SomeProgram(blocks: nat, heads: nat)
    requires blocks > 0 && heads > 0
    ensures Programs(blocks, heads) > 0
  {
  }

  function SplitLaunch(g: Geometry, tileSize: nat, blockM: nat, blockQ: nat, blocks: nat, segments: nat): Launch {
    SplitK(blockM, blockQ, tileSize, blocks, segments, (blocks, g.kvHeads, segments), 2, 1,
      (g.tokens, g.queryHeads, 1), if segments == (if tileSize <= 16 then 16 else 8) then 1 else 2, 1)
  }

  lemma SplitIsSound(g: Geometry, padded: nat, tileSize: nat, blockM: nat, blockQ: nat, blocks: nat, segments: nat)
    requires ValidGeometry(g) && !UsesTwoDimensions(g)
    requires SoundTiles(g, Tiles(blockM, blockQ, tileSize, blocks), padded) && DecodeTile(g, tileSize)
    requires LeastSegments(segments, tileSize, Programs(blocks, g.kvHeads), 4 * g.coreCount)
    ensures Sound(g, SplitLaunch(g, tileSize, blockM, blockQ, blocks, segments))
  {
    assert SoundTiles(g, SplitLaunch(g, tileSize, blockM, blockQ, blocks, segments), padded);
  }

  /** The least permitted segment count that reaches the target program count, or the cap. */
  method Segments(target: nat, programs: nat, tileSize: nat) returns (segments: Result<nat>)
    requires programs > 0 && target > 0
    ensures segments.Ok? <==> target <= LARGEST_POWER * programs
    ensures segments.Ok? ==> LeastSegments(segments.value, tileSize, programs, target)
    ensures segments.Err? ==> segments.failure == Overflow
  {
    var needed := (target + programs - 1) / programs;
    NeededReaches(target, programs);
    NeededExactly(target, programs, LARGEST_POWER);
    NeededExactly(target, programs, 8);
    var power := CheckedNextPower(needed);
    if power.Err? {
      return power;
    }
    var floor := if tileSize <= 16 then 16 else 8;
    var count := power.value;
    PowerSteps(count);
    if count > 128 {
      count := 128;
    }
    if count > 16 {
      count := 16;
    }
    if count < floor {
      count := floor;
    }
    return Ok(count);
  }

  lemma NeededReaches(target: nat, programs: nat)
    requires programs > 0 && target > 0
    ensures (target + programs - 1) / programs > 0 && (target + programs - 1) / programs * programs >= target
  {
    Split(target + programs - 1, programs);
  }

  lemma NeededExactly(target: nat, programs: nat, limit: nat)
    requires programs > 0 && target > 0
    ensures (target + programs - 1) / programs <= limit <==> target <= limit * programs
  {
    var needed := (target + programs - 1) / programs;
    Split(target + programs - 1, programs);
    if needed <= limit {
      MulMono(needed, limit, programs);
    } else {
      MulMono(limit + 1, needed, programs);
      Distribute(limit, 1, programs);
    }
  }

  /** No power of two lies strictly between eight and sixteen. */
  lemma PowerSteps(n: nat)
    requires IsPower(n)
    ensures n <= 8 || n >= 16
  {
    var k: nat :| n == Power(k);
    assert Power(3) == 8 && Power(4) == 16;
    if k < 3 {
      PowerIncreases(k, 3);
    } else if k > 4 {
      PowerIncreases(4, k);
    }
  }

  // ----- which program serves which query -----

  /** Where each sequence's query rows start; sequence `i` owns the rows from `starts[i]` to `starts[i + 1]`. */
  ghost predicate Offsets(starts: seq<nat>, batch: nat, tokens: nat) {
    && |starts| == batch + 1 && starts[0] == 0 && starts[batch] == tokens
    && forall i, j | 0 <= i <= j <= batch :: starts[i] <= starts[j]
  }

  function Quotient(n: nat, d: nat): nat
    requires d > 0
  {
    n / d
  }

  /** The first query block of a sequence, in block mode; its first query row otherwise. */
  function Boundary(starts: seq<nat>, blockQ: nat, blockMode: bool, i: nat): nat
    requires i < |starts| && blockQ > 0
  {
    if blockMode then Quotient(starts[i], blockQ) + i else starts[i]
  }

  /** `s` is the last of `count` sequences whose boundary does not exceed the target. */
  ghost predicate Found(starts: seq<nat>, blockQ: nat, blockMode: bool, count: nat, target: nat, s: int)
    requires blockQ > 0 && count <= |starts|
  {
    && -1 <= s < count
    && (forall i: nat | i <= s :: Boundary(starts, blockQ, blockMode, i) <= target)
    && (forall i: nat | s < i < count :: Boundary(starts, blockQ, blockMode, i) > target)
  }

  lemma BoundaryIncreases(starts: seq<nat>, batch: nat, tokens: nat, blockQ: nat, blockMode: bool, i: nat, j: nat)
    requires Offsets(starts, batch, tokens) && blockQ > 0 && i <= j <= batch
    ensures Boundary(starts, blockQ, blockMode, i) <= Boundary(starts, blockQ, blockMode, j)
  {
    QuotientMonotone(starts[i], starts[j], blockQ);
  }

  lemma QuotientMonotone(a: nat, b: nat, d: nat)
    requires d > 0 && a <= b
    ensures Quotient(a, d) <= Quotient(b, d)
  {
    Split(a, d);
    Split(b, d);
    if Quotient(b, d) < Quotient(a, d) {
      MulMono(Quotient(b, d) + 1, Quotient(a, d), d);
      Distribute(Quotient(b, d), 1, d);
    }
  }

  /** The binary search every kernel begins with. */
  method FindSequence(
      starts: seq<nat>, batch: nat, ghost tokens: nat, target: nat, blockQ: nat, blockMode: bool) returns (s: int)
    requires Offsets(starts, batch, tokens) && blockQ > 0
    ensures Found(starts, blockQ, blockMode, batch, target, s)
  {
    var left, right := 0, batch;
    while left < right
      invariant 0 <= left <= right <= batch
      invariant forall i: nat | i < left :: Boundary(starts, blockQ, blockMode, i) <= target
      invariant forall i: nat | right <= i < batch :: Boundary(starts, blockQ, blockMode, i) > target
    {
      var middle := (left + right) / 2;
      forall i: nat | i <= batch
        ensures i <= middle ==> Boundary(starts, blockQ, blockMode, i) <= Boundary(starts, blockQ, blockMode, middle)
        ensures middle <= i ==> Boundary(starts, blockQ, blockMode, middle) <= Boundary(starts, blockQ, blockMode, i)
      {
        if i <= middle {
          BoundaryIncreases(starts, batch, tokens, blockQ, blockMode, i, middle);
        } else {
          BoundaryIncreases(starts, batch, tokens, blockQ, blockMode, middle, i);
        }
      }
      if Boundary(starts, blockQ, blockMode, middle) <= target {
        left := middle + 1;
      } else {
        right := middle;
      }
    }
    return left - 1;
  }

  /** One row of one program: its key/value head, its query block, its row within the tile. */
  datatype Lane = Lane(kv: nat, block: nat, row: nat)

  ghost predicate InGrid(lane: Lane, kvHeads: nat, queryBlocks: nat, blockM: nat) {
    lane.kv < kvHeads && lane.block < queryBlocks && lane.row < blockM
  }

  /**
    The masks of the kernel: whether this lane computes query row `t` of head `h`, for the sequence its search found.
  */
  ghost predicate Serves(lane: Lane, starts: seq<nat>, blockQ: nat, padded: nat, group: nat, s: nat, t: nat, h: nat)
    requires blockQ > 0 && padded > 0 && s + 1 < |starts|
  {
    var length := starts[s + 1] as int - starts[s] as int;
    var local := lane.block as int - Boundary(starts, blockQ, true, s) as int;
    var slot := local * blockQ + Quotient(lane.row, padded);
    && local * blockQ < length && slot < length
    && t == starts[s] + slot && lane.row % padded < group && h == lane.kv * group + lane.row % padded
  }

  /** A sequence's query blocks end before those of the next sequence begin. */
  lemma BlocksFit(starts: seq<nat>, batch: nat, tokens: nat, blockQ: nat, s: nat, slot: nat)
    requires Offsets(starts, batch, tokens) && blockQ > 0 && s < batch && starts[s] + slot < starts[s + 1]
    ensures Boundary(starts, blockQ, true, s) + Quotient(slot, blockQ) < Boundary(starts, blockQ, true, s + 1)
  {
    QuotientsAdd(starts[s], slot, blockQ);
    QuotientMonotone(starts[s] + slot, starts[s + 1], blockQ);
  }

  lemma QuotientsAdd(a: nat, b: nat, d: nat)
    requires d > 0
    ensures Quotient(a, d) + Quotient(b, d) <= Quotient(a + b, d)
  {
    Split(a, d);
    Split(b, d);
    var sum := Quotient(a, d) + Quotient(b, d);
    Distribute(Quotient(a, d), Quotient(b, d), d);
    QuotientOf(sum, d, 0);
    QuotientMonotone(sum * d, a + b, d);
  }

  /** The sequence a query row belongs to. */
  lemma OwnerExists(starts: seq<nat>, batch: nat, tokens: nat, t: nat) returns (s: nat)
    requires Offsets(starts, batch, tokens) && t < tokens
    ensures s < batch && starts[s] <= t < starts[s + 1]
  {
    s := 0;
    while s + 1 < batch && starts[s + 1] <= t
      invariant s < batch && starts[s] <= t
    {
      s := s + 1;
    }
  }

  /** A tile of whole padded head groups, as the selector guarantees. */
  ghost predicate Tiled(blockM: nat, blockQ: nat, padded: nat, group: nat) {
    0 < group <= padded && blockQ > 0 && blockM == blockQ * padded
  }

  /**
    Every query row of every head is served: some lane of the grid finds the row's sequence and
    passes all masks for it.
  */
  lemma EveryQueryIsServed(
      starts: seq<nat>, batch: nat, tokens: nat, kvHeads: nat, group: nat, blockM: nat, blockQ: nat, padded: nat,
      t: nat, h: nat)
    returns (lane: Lane, s: nat)
    requires Offsets(starts, batch, tokens) && Tiled(blockM, blockQ, padded, group) && t < tokens && h < kvHeads * group
    ensures InGrid(lane, kvHeads, Quotient(tokens, blockQ) + batch, blockM)
    ensures s < batch && Found(starts, blockQ, true, batch, lane.block, s)
    ensures Serves(lane, starts, blockQ, padded, group, s, t, h)
  {
    s := OwnerExists(starts, batch, tokens, t);
    var slot := t - starts[s];
    var block := Boundary(starts, blockQ, true, s) + Quotient(slot, blockQ);
    var row := slot % blockQ * padded + h % group;
    lane := Lane(h / group, block, row);
    BlocksFit(starts, batch, tokens, blockQ, s, slot);
    BlockFindsOwner(starts, batch, tokens, blockQ, s, block);
    QuotientBelow(h, group, kvHeads);
    Split(h, group);
    Split(slot, blockQ);
    IndexBelow(slot % blockQ, h % group, blockQ, padded);
    QuotientOf(slot % blockQ, padded, h % group);
  }

  /** A block between a sequence's boundary and the next lies in the grid and finds that sequence. */
  lemma BlockFindsOwner(starts: seq<nat>, batch: nat, tokens: nat, blockQ: nat, s: nat, block: nat)
    requires Offsets(starts, batch, tokens) && blockQ > 0 && s < batch
    requires Boundary(starts, blockQ, true, s) <= block < Boundary(starts, blockQ, true, s + 1)
    ensures Found(starts, blockQ, true, batch, block, s) && block < Quotient(tokens, blockQ) + batch
  {
    BoundaryIncreases(starts, batch, tokens, blockQ, true, s + 1, batch);
    forall i: nat | i <= s ensures Boundary(starts, blockQ, true, i) <= block {
      BoundaryIncreases(starts, batch, tokens, blockQ, true, i, s);
    }
    forall i: nat | s < i < batch ensures Boundary(starts, blockQ, true, i) > block {
      BoundaryIncreases(starts, batch, tokens, blockQ, true, s + 1, i);
    }
  }

  /** No query row of a head is served twice. */
  lemma ServedOnce(
      starts: seq<nat>, batch: nat, tokens: nat, blockQ: nat, padded: nat, group: nat, blockM: nat, t: nat, h: nat,
      a: Lane, b: Lane, s: nat, u: nat)
    requires Offsets(starts, batch, tokens) && Tiled(blockM, blockQ, padded, group) && a.row < blockM && b.row < blockM
    requires s < batch && Found(starts, blockQ, true, batch, a.block, s)
    requires Serves(a, starts, blockQ, padded, group, s, t, h)
    requires u < batch && Found(starts, blockQ, true, batch, b.block, u)
    requires Serves(b, starts, blockQ, padded, group, u, t, h)
    ensures a == b
  {
    ServedBySequence(starts, batch, tokens, blockQ, padded, group, blockM, t, h, a, s);
    ServedBySequence(starts, batch, tokens, blockQ, padded, group, blockM, t, h, b, u);
    OneOwner(starts, batch, tokens, t, s, u);
    Split(a.row, padded);
    Split(b.row, padded);
  }

  lemma OneOwner(starts: seq<nat>, batch: nat, tokens: nat, t: nat, s: nat, u: nat)
    requires Offsets(starts, batch, tokens) && s < batch && u < batch
    requires starts[s] <= t < starts[s + 1] && starts[u] <= t < starts[u + 1]
    ensures s == u
  {
    NextStart(starts, batch, tokens, s, u);
    NextStart(starts, batch, tokens, u, s);
  }

  lemma NextStart(starts: seq<nat>, batch: nat, tokens: nat, s: nat, u: nat)
    requires Offsets(starts, batch, tokens) && s < batch && u < batch
    ensures s < u ==> starts[s + 1] <= starts[u]
  {
  }

  /** A serving lane is determined by its row and head. */
  lemma ServedBySequence(
      starts: seq<nat>, batch: nat, tokens: nat, blockQ: nat, padded: nat, group: nat, blockM: nat, t: nat, h: nat,
      lane: Lane, s: nat)
    requires Offsets(starts, batch, tokens) && Tiled(blockM, blockQ, padded, group) && lane.row < blockM
    requires s < batch && Found(starts, blockQ, true, batch, lane.block, s)
    requires Serves(lane, starts, blockQ, padded, group, s, t, h)
    ensures starts[s] <= t < starts[s + 1]
    ensures lane.block == Boundary(starts, blockQ, true, s) + Quotient(t - starts[s], blockQ)
    ensures lane.row / padded == (t - starts[s]) % blockQ && lane.row % padded == h % group && lane.kv == h / group
  {
    var local: nat := lane.block - Boundary(starts, blockQ, true, s);
    QuotientBelow(lane.row, padded, blockQ);
    QuotientOf(local, blockQ, lane.row / padded);
    QuotientOf(lane.kv, group, lane.row % padded);
  }

  // ----- the grid of a selected launch -----

  /** A row of a program the launch starts; a split launch starts it once for each segment. */
  predicate Launched(l: Launch, lane: Lane) {
    && lane.row < l.blockM
    && match l
       case TwoDimensional(_, _, _, _, grid, _, _) => lane.kv < grid.0 && lane.block < grid.1
       case SplitK(_, _, _, _, segments, grid, _, _, _, _, _) =>
         lane.block < grid.0 && lane.kv < grid.1 && segments == grid.2
  }

  /** The head groups a tile holds, as the kernel derives them. */
  function PaddedOf(l: Launch): nat
    requires l.blockQ > 0
  {
    l.blockM / l.blockQ
  }

  ghost predicate ServesLaunch(g: Geometry, l: Launch, starts: seq<nat>, lane: Lane, s: nat, t: nat, h: nat)
    requires ValidGeometry(g) && l.blockQ > 0 && |starts| == g.batch + 1
  {
    && Launched(l, lane) && s < g.batch && Found(starts, l.blockQ, true, g.batch, lane.block, s)
    && PaddedOf(l) > 0 && Serves(lane, starts, l.blockQ, PaddedOf(l), g.queryHeads / g.kvHeads, s, t, h)
  }

  lemma SelectedTiles(g: Geometry, l: Launch)
    requires ValidGeometry(g) && Sound(g, l)
    ensures l.blockQ > 0 && Tiled(l.blockM, l.blockQ, PaddedOf(l), g.queryHeads / g.kvHeads)
    ensures l.queryBlocks == Quotient(g.tokens, l.blockQ) + g.batch
    ensures g.kvHeads * (g.queryHeads / g.kvHeads) == g.queryHeads
  {
    var padded: nat :| SoundTiles(g, l, padded);
    WholeHeads(g.queryHeads, g.kvHeads);
    WholeTile(l.blockM, l.blockQ, padded);
  }

  lemma WholeTile(blockM: nat, blockQ: nat, padded: nat)
    requires blockQ > 0 && blockM == blockQ * padded
    ensures blockM / blockQ == padded
  {
    Commute(padded, blockQ);
    QuotientOf(padded, blockQ, 0);
    assert blockM == padded * blockQ + 0;
  }

  lemma Commute(a: nat, b: nat)
    ensures a * b == b * a
  {
  }

  /**
    However the tokens are split into sequences, the grid the selector chose serves every query row of every head,
    and with one row of one program.
  */
  lemma SelectedGridServes(g: Geometry, l: Launch, starts: seq<nat>, t: nat, h: nat) returns (lane: Lane, s: nat)
    requires ValidGeometry(g) && Sound(g, l) && Offsets(starts, g.batch, g.tokens) && t < g.tokens && h < g.queryHeads
    ensures l.blockQ > 0 && ServesLaunch(g, l, starts, lane, s, t, h)
    ensures forall other: Lane, u: nat :: ServesLaunch(g, l, starts, other, u, t, h) ==> other == lane
  {
    var group := g.queryHeads / g.kvHeads;
    SelectedTiles(g, l);
    lane, s := EveryQueryIsServed(
      starts, g.batch, g.tokens, g.kvHeads, group, l.blockM, l.blockQ, PaddedOf(l), t, h);
    forall other: Lane, u: nat | ServesLaunch(g, l, starts, other, u, t, h) ensures other == lane {
      ServedOnce(starts, g.batch, g.tokens, l.blockQ, PaddedOf(l), group, l.blockM, t, h, lane, other, s, u);
    }
  }
}
