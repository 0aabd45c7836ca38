/** Appending to the paged caches and then attending, against dense attention over the logical sequences. */
module CachedAttention {
  import opened Wrappers
  import opened Arithmetic
  import opened Exponentials
  import Cache = PagedCache
  import Dense = OrdinaryAttention
  import Paged = PagedAttention

  lemma SlotIsRead(x: Paged.Inputs, g: Paged.Geometry, cache: Dense.Tensor4, b: nat, k: nat)
    requires Paged.Valid(x, g) && b < |x.query| && Paged.Allocated(x, g, b) && k < Paged.Limit(x, g, b)
    requires cache == x.keyCache || cache == x.valueCache
    ensures Cache.Shaped(cache, g.pageSize) && Cache.Mapped(x.pageTable, |cache|, g.pageSize, b, k)
    ensures Paged.Slot(x, g, cache, b, k) == Cache.Read(cache, x.pageTable, g.pageSize, b, k)
  {
  }

  /** The run backs the page of position `k` throughout and leaves `row` at that logical position. */
  ghost predicate Appended(
      x: Paged.Inputs, g: Paged.Geometry, query: nat, b: nat, pages: Dense.Tensor4,
      steps: seq<Cache.Step<Dense.Tensor2>>, k: nat, row: Dense.Tensor2)
    requires Cache.Shaped(pages, g.pageSize) && Cache.ValidRun(steps, query, g.logicalPages)
  {
    && Cache.Mapped(x.pageTable, |pages|, g.pageSize, b, k)
    && Cache.BacksRun(steps, query, g.logicalPages, |pages|, g.pageSize, x.pageTable[b][k / g.pageSize], b,
                      k / g.pageSize)
    && row == Cache.LogicalRun(Cache.Read(pages, x.pageTable, g.pageSize, b, k), steps, query, g.logicalPages, b, k)
  }

  lemma AppendedIsRead(
      x: Paged.Inputs, g: Paged.Geometry, query: nat, b: nat, pages: Dense.Tensor4,
      steps: seq<Cache.Step<Dense.Tensor2>>, k: nat, row: Dense.Tensor2)
    requires Cache.Shaped(pages, g.pageSize) && Cache.ValidRun(steps, query, g.logicalPages)
    requires Appended(x, g, query, b, pages, steps, k, row)
    ensures Cache.Read(Cache.Run(pages, steps, query, g.logicalPages, g.pageSize), x.pageTable, g.pageSize, b, k)
            == row
  {
    Cache.RunRefinesLogical(pages, steps, query, g.logicalPages, x.pageTable, g.pageSize, b, k);
  }

  /**
    After any runs of key and value updates that back the row's pages, blockwise attention through the table
    is dense attention whose keys and values are the logical sequences those runs built.
  */
  lemma AttentionAfterRuns(
      exp: real -> real, x: Paged.Inputs, g: Paged.Geometry, lane: Paged.Lane, query: nat,
      keyPages: Dense.Tensor4, keySteps: seq<Cache.Step<Dense.Tensor2>>,
      valuePages: Dense.Tensor4, valueSteps: seq<Cache.Step<Dense.Tensor2>>,
      keys: Dense.Tensor3, values: Dense.Tensor3)
    requires IsExponential(exp) && Paged.Valid(x, g) && Paged.InRange(x, g, lane)
    requires Paged.Allocated(x, g, lane.b)
    requires Cache.Shaped(keyPages, g.pageSize) && Cache.Shaped(valuePages, g.pageSize)
    requires Cache.ValidRun(keySteps, query, g.logicalPages) && Cache.ValidRun(valueSteps, query, g.logicalPages)
    requires x.keyCache == Cache.Run(keyPages, keySteps, query, g.logicalPages, g.pageSize)
    requires x.valueCache == Cache.Run(valuePages, valueSteps, query, g.logicalPages, g.pageSize)
    requires |keys| == |values| == Paged.Limit(x, g, lane.b)
    requires forall k: nat :: k < |keys| ==> Appended(x, g, query, lane.b, keyPages, keySteps, k, keys[k])
    requires forall k: nat :: k < |keys| ==> Appended(x, g, query, lane.b, valuePages, valueSteps, k, values[k])
    ensures var dense := Paged.DenseRow(x, g, lane.b).(key := [keys], value := [values]);
            && Dense.Valid(dense, g.heads, |keys|) && Paged.HeadOf(g, lane) < g.heads.queryHeads
            && Paged.LaneOutput(exp, x, g, lane)
              == Dense.Lower(exp, dense, g.heads, |keys|, 0, lane.q, Paged.HeadOf(g, lane))
  {
    Paged.LoopResult(exp, x, g, lane);
    var row := Paged.DenseRow(x, g, lane.b);
    forall k: nat | k < |keys| ensures row.key[0][k] == keys[k] && row.value[0][k] == values[k] {
      SlotIsRead(x, g, x.keyCache, lane.b, k);
      SlotIsRead(x, g, x.valueCache, lane.b, k);
      AppendedIsRead(x, g, query, lane.b, keyPages, keySteps, k, keys[k]);
      AppendedIsRead(x, g, query, lane.b, valuePages, valueSteps, k, values[k]);
    }
    assert row.key[0] == keys && row.value[0] == values;
    assert row == row.(key := [keys], value := [values]);
  }
}
