/**
  One token's routing as plain arithmetic: `id(r)` and `weight(r)` are the expert and the
  weight of route `r`, `output(e)` is what expert `e` yields for the token.
*/
module RoutingAlgebra {
  import opened Arithmetic
  import opened Sums

  /** The weight of route `r` where it selects expert `e`, zero elsewhere. */
  function Selected(id: int -> int, weight: int -> real, e: int): int -> real {
    r => if id(r) == e then weight(r) else 0.0
  }

  /** Every expert's output times its one-hot routing summed over the first `n` routes. */
  function Weighted(output: int -> real, id: int -> int, weight: int -> real, n: nat): int -> real {
    e => output(e) * Sum(n, Selected(id, weight, e))
  }

  /** Equal outputs are weighted equally. */
  lemma WeightedCongruent(
      output: int -> real, other: int -> real, id: int -> int, weight: int -> real, experts: nat, n: nat)
    requires forall e :: 0 <= e < experts ==> output(e) == other(e)
    ensures Sum(experts, Weighted(output, id, weight, n)) == Sum(experts, Weighted(other, id, weight, n))
  {
    Congruent(experts, Weighted(output, id, weight, n), Weighted(other, id, weight, n));
  }

  /** What each route contributes when its expert lies in `[lo, hi)`. */
  function Share(output: int -> real, id: int -> int, weight: int -> real, lo: int, hi: int): int -> real {
    r => if lo <= id(r) < hi then output(id(r)) * weight(r) else 0.0
  }

  lemma ShareValue(
      output: int -> real, id: int -> int, weight: int -> real, lo: int, hi: int, r: int, e: int, y: real, w: real)
    requires id(r) == e && weight(r) == w && output(e) == y
    ensures Share(output, id, weight, lo, hi)(r) == if lo <= e < hi then y * w else 0.0
  {
  }

  /** What route `r` contributes through expert `e`. */
  function Term(output: int -> real, id: int -> int, weight: int -> real): (int, int) -> real {
    (e: int, r: int) => if id(r) == e then output(e) * weight(r) else 0.0
  }

  /** Weighting an expert by its summed one-hot routing distributes over the routes. */
  lemma {:induction false} WeightedIsRow(output: int -> real, id: int -> int, weight: int -> real, n: nat, e: int)
    ensures Weighted(output, id, weight, n)(e) == Sum(n, Row(Term(output, id, weight), e))
  {
    if n == 0 {
      ZeroTimes(output(e));
    } else {
      WeightedIsRow(output, id, weight, n - 1, e);
      DistributeTerm(output(e), Sum(n - 1, Selected(id, weight, e)), Selected(id, weight, e)(n - 1));
    }
  }

  lemma DistributeTerm(y: real, before: real, step: real)
    ensures y * (before + step) == y * before + y * step
  {
  }

  lemma WeightedAreRows(output: int -> real, id: int -> int, weight: int -> real, experts: nat, n: nat)
    ensures Sum(experts, Weighted(output, id, weight, n)) == Sum(experts, RowSums(Term(output, id, weight), n))
  {
    forall e | 0 <= e < experts
      ensures Weighted(output, id, weight, n)(e) == RowSums(Term(output, id, weight), n)(e)
    {
      WeightedIsRow(output, id, weight, n, e);
    }
    Congruent(experts, Weighted(output, id, weight, n), RowSums(Term(output, id, weight), n));
  }

  /** A route contributes through the one expert it selects. */
  lemma ColumnIsShare(output: int -> real, id: int -> int, weight: int -> real, experts: nat, r: int)
    ensures ColumnSums(Term(output, id, weight), experts)(r) == Share(output, id, weight, 0, experts)(r)
  {
    Single(experts, Column(Term(output, id, weight), r), id(r));
  }

  lemma ColumnsAreShares(output: int -> real, id: int -> int, weight: int -> real, experts: nat, n: nat)
    ensures Sum(n, ColumnSums(Term(output, id, weight), experts)) == Sum(n, Share(output, id, weight, 0, experts))
  {
    forall r | 0 <= r < n
      ensures ColumnSums(Term(output, id, weight), experts)(r) == Share(output, id, weight, 0, experts)(r)
    {
      ColumnIsShare(output, id, weight, experts, r);
    }
    Congruent(n, ColumnSums(Term(output, id, weight), experts), Share(output, id, weight, 0, experts));
  }

  /** Weighting every expert by its summed one-hot routing is summing over routes. */
  lemma DenseIsRouteSum(output: int -> real, id: int -> int, weight: int -> real, experts: nat, n: nat)
    ensures Sum(experts, Weighted(output, id, weight, n)) == Sum(n, Share(output, id, weight, 0, experts))
  {
    WeightedAreRows(output, id, weight, experts, n);
    Exchange(experts, n, Term(output, id, weight));
    ColumnsAreShares(output, id, weight, experts, n);
  }

  /** One route contributes its expert's output times its weight. */
  lemma OneShare(
      output: int -> real, id: int -> int, weight: int -> real, experts: nat, e: int, y: real, w: real)
    requires id(0) == e && weight(0) == w && output(e) == y
    ensures Sum(experts, Weighted(output, id, weight, 1)) == if 0 <= e < experts then y * w else 0.0
  {
    DenseIsRouteSum(output, id, weight, experts, 1);
    Single(1, Share(output, id, weight, 0, experts), 0);
    ShareValue(output, id, weight, 0, experts, 0, e, y, w);
  }

  /** Terms that are `y` or zero sum to a multiple of `y`. */
  lemma {:induction false} SumOfEqual(n: nat, f: int -> real, y: real, r: nat) returns (k: nat)
    requires forall i :: 0 <= i < n ==> f(i) == y || f(i) == 0.0
    requires r < n ==> f(r) == y
    ensures Sum(n, f) == Copies(k, y) && (r < n ==> k > 0)
  {
    k := 0;
    if n > 0 {
      k := SumOfEqual(n - 1, f, y, r);
      if f(n - 1) == y {
        k := k + 1;
      }
    }
  }

  function Copies(k: nat, y: real): real {
    if k == 0 then 0.0 else Copies(k - 1, y) + y
  }

  lemma {:induction false} CopiesNonzero(k: nat, y: real)
    requires k > 0 && y != 0.0
    ensures Copies(k, y) != 0.0 && (Copies(k, y) > 0.0 <==> y > 0.0)
  {
    if k > 1 {
      CopiesNonzero(k - 1, y);
    } else {
      assert Copies(1, y) == Copies(0, y) + y;
    }
  }

  /** With equal nonzero outputs and equal positive weights, a token with a route to an expert gets something. */
  lemma UniformShares(
      output: int -> real, id: int -> int, weight: int -> real, experts: nat, n: nat, a: real, w: real, r: nat)
    requires forall e :: 0 <= e < experts ==> output(e) == a
    requires forall i :: 0 <= i < n ==> weight(i) == w
    requires a != 0.0 && w > 0.0 && r < n && 0 <= id(r) < experts
    ensures Sum(n, Share(output, id, weight, 0, experts)) != 0.0
  {
    var y := NonzeroProduct(a, w);
    forall i | 0 <= i < n
      ensures Share(output, id, weight, 0, experts)(i) == if 0 <= id(i) < experts then y else 0.0
    {
      UniformShareAt(output, id, weight, experts, a, w, i, y);
    }
    MarkedSum(n, Share(output, id, weight, 0, experts), y, r);
  }

  lemma UniformShareAt(
      output: int -> real, id: int -> int, weight: int -> real, experts: nat, a: real, w: real, i: int, y: real)
    requires forall e :: 0 <= e < experts ==> output(e) == a
    requires weight(i) == w && y == a * w
    ensures Share(output, id, weight, 0, experts)(i) == if 0 <= id(i) < experts then y else 0.0
  {
    if 0 <= id(i) < experts {
      ShareValue(output, id, weight, 0, experts, i, id(i), a, w);
    }
  }

  lemma MarkedSum(n: nat, f: int -> real, y: real, r: nat)
    requires forall i :: 0 <= i < n ==> f(i) == y || f(i) == 0.0
    requires r < n && f(r) == y && y != 0.0
    ensures Sum(n, f) != 0.0
  {
    var k := SumOfEqual(n, f, y, r);
    CopiesNonzero(k, y);
  }

  lemma NonzeroProduct(a: real, w: real) returns (y: real)
    requires a != 0.0 && w > 0.0
    ensures y == a * w && y != 0.0
  {
    y := a * w;
  }

  /** The partial result of each shard, shards owning consecutive ranges of `size` experts. */
  function Partial(output: int -> real, id: int -> int, weight: int -> real, size: nat, n: nat): int -> real {
    shard => Sum(n, Share(output, id, weight, shard * size, shard * size + size))
  }

  lemma ShareSplit(output: int -> real, id: int -> int, weight: int -> real, done: nat, size: nat, n: nat)
    ensures Sum(n, Share(output, id, weight, 0, done + size))
            == Sum(n, Share(output, id, weight, 0, done)) + Sum(n, Share(output, id, weight, done, done + size))
  {
    var low, high, all := Share(output, id, weight, 0, done), Share(output, id, weight, done, done + size),
      Share(output, id, weight, 0, done + size);
    forall r | 0 <= r < n ensures all(r) == low(r) + high(r) {
      ShareSplitAt(output, id, weight, done, size, r);
    }
    Additive(n, low, high, all);
  }

  lemma ShareSplitAt(output: int -> real, id: int -> int, weight: int -> real, done: nat, size: nat, r: int)
    ensures Share(output, id, weight, 0, done + size)(r)
            == Share(output, id, weight, 0, done)(r) + Share(output, id, weight, done, done + size)(r)
  {
  }

  lemma NoShards(output: int -> real, id: int -> int, weight: int -> real, n: nat)
    ensures Sum(n, Share(output, id, weight, 0, 0)) == 0.0
  {
    Zeros(n, Share(output, id, weight, 0, 0));
  }

  lemma AddRange(output: int -> real, id: int -> int, weight: int -> real, from: nat, to: nat, size: nat, n: nat)
    requires to == from + size
    ensures Sum(n, Share(output, id, weight, 0, to))
            == Sum(n, Share(output, id, weight, 0, from)) + Sum(n, Share(output, id, weight, from, from + size))
  {
    ShareSplit(output, id, weight, from, size, n);
  }

  lemma PartialAt(output: int -> real, id: int -> int, weight: int -> real, size: nat, n: nat, shard: nat, from: nat)
    requires from == Times(shard, size)
    ensures Partial(output, id, weight, size, n)(shard) == Sum(n, Share(output, id, weight, from, from + size))
  {
    TimesIsProduct(shard, size);
  }

  /** What the first `shards` ranges yield together. */
  function Covered(output: int -> real, id: int -> int, weight: int -> real, size: nat, n: nat): int -> real {
    shards => if shards < 0 then 0.0 else Sum(n, Share(output, id, weight, 0, Times(shards, size)))
  }

  lemma AddShard(output: int -> real, id: int -> int, weight: int -> real, size: nat, n: nat, shard: nat)
    ensures Covered(output, id, weight, size, n)(shard + 1)
            == Covered(output, id, weight, size, n)(shard) + Partial(output, id, weight, size, n)(shard)
  {
    var from := Times(shard, size);
    PartialAt(output, id, weight, size, n, shard, from);
    AddRange(output, id, weight, from, Times(shard + 1, size), size, n);
  }

  /** Summing the partial results of consecutive shards covers exactly their combined range. */
  lemma ShardsTile(
      output: int -> real, id: int -> int, weight: int -> real, size: nat, n: nat, shards: nat, total: nat)
    requires total == Times(shards, size)
    ensures Sum(shards, Partial(output, id, weight, size, n)) == Sum(n, Share(output, id, weight, 0, total))
  {
    var partial, covered := Partial(output, id, weight, size, n), Covered(output, id, weight, size, n);
    forall shard | 0 <= shard < shards ensures covered(shard + 1) == covered(shard) + partial(shard) {
      AddShard(output, id, weight, size, n, shard);
    }
    Telescope(shards, partial, covered);
    NoShards(output, id, weight, n);
  }

  /** Sharded route sums add up to the dense sum over all experts. */
  lemma ShardsAreDense(output: int -> real, id: int -> int, weight: int -> real, size: nat, n: nat, shards: nat)
    ensures shards * size >= 0
    ensures Sum(shards, Partial(output, id, weight, size, n)) == Sum(shards * size, Weighted(output, id, weight, n))
  {
    TimesIsProduct(shards, size);
    ShardsTile(output, id, weight, size, n, shards, shards * size);
    DenseIsRouteSum(output, id, weight, shards * size, n);
  }
}
