/** The staging estimate of the loader: the sum of the largest records, and what it bounds. */
module Staging {

  // ----- the authored estimate: sort descending, take, add -----

  function InsertDescending(x: nat, sorted: seq<nat>): (r: seq<nat>)
    ensures |r| == |sorted| + 1
  {
    if sorted == [] then [x]
    else if x >= sorted[0] then [x] + sorted
    else [sorted[0]] + InsertDescending(x, sorted[1..])
  }

  function SortDescending(bytes: seq<nat>): (r: seq<nat>)
    ensures |r| == |bytes|
  {
    if bytes == [] then [] else InsertDescending(bytes[|bytes| - 1], SortDescending(bytes[..|bytes| - 1]))
  }

  function TakeSum(sorted: seq<nat>, count: nat): nat {
    if sorted == [] || count == 0 then 0 else sorted[0] + TakeSum(sorted[1..], count - 1)
  }

  function PeakStaging(bytes: seq<nat>, workers: nat): nat {
    TakeSum(SortDescending(bytes), workers)
  }

  // ----- the largest total of a bounded choice -----

  function Max(a: nat, b: nat): nat { if a < b then b else a }

  /** The largest sum of at most `count` distinct records. */
  function Best(bytes: seq<nat>, count: nat): nat {
    if bytes == [] || count == 0 then 0
    else Max(Best(bytes[..|bytes| - 1], count), bytes[|bytes| - 1] + Best(bytes[..|bytes| - 1], count - 1))
  }

  ghost predicate Descending(s: seq<nat>) {
    forall i, j :: 0 <= i < j < |s| ==> s[i] >= s[j]
  }

  lemma {:induction false} InsertKeepsOrder(x: nat, sorted: seq<nat>)
    requires Descending(sorted)
    ensures Descending(InsertDescending(x, sorted))
    ensures forall y :: y in InsertDescending(x, sorted) ==> y == x || y in sorted
  {
    if sorted != [] && x < sorted[0] {
      var rest := InsertDescending(x, sorted[1..]);
      InsertKeepsOrder(x, sorted[1..]);
      forall j | 0 <= j < |rest| ensures sorted[0] >= rest[j] {
        assert rest[j] == x || rest[j] in sorted[1..];
      }
    }
  }

  lemma {:induction false} SortIsDescending(bytes: seq<nat>)
    ensures Descending(SortDescending(bytes))
  {
    if bytes != [] {
      SortIsDescending(bytes[..|bytes| - 1]);
      InsertKeepsOrder(bytes[|bytes| - 1], SortDescending(bytes[..|bytes| - 1]));
    }
  }

  lemma {:induction false} TakeSumShift(sorted: seq<nat>, x: nat, count: nat)
    requires Descending(sorted) && (sorted != [] ==> x >= sorted[0])
    ensures TakeSum(sorted, count + 1) <= x + TakeSum(sorted, count)
  {
    if sorted != [] && count > 0 {
      TakeSumShift(sorted[1..], x, count - 1);
    }
  }

  /** Inserting a record either leaves the top choice or joins it. */
  lemma {:induction false} InsertTop(x: nat, sorted: seq<nat>, count: nat)
    requires Descending(sorted) && count > 0
    ensures TakeSum(InsertDescending(x, sorted), count) == Max(TakeSum(sorted, count), x + TakeSum(sorted, count - 1))
  {
    if sorted == [] {
    } else if x >= sorted[0] {
      assert ([x] + sorted)[1..] == sorted;
      TakeSumShift(sorted, x, count - 1);
    } else {
      var rest := InsertDescending(x, sorted[1..]);
      assert ([sorted[0]] + rest)[1..] == rest;
      if count > 1 {
        InsertTop(x, sorted[1..], count - 1);
      } else {
        assert TakeSum(rest, 0) == 0 && TakeSum(sorted[1..], 0) == 0;
      }
    }
  }

  /** The authored estimate is the largest sum of that many distinct records. */
  lemma {:induction false} PeakIsBest(bytes: seq<nat>, workers: nat)
    ensures PeakStaging(bytes, workers) == Best(bytes, workers)
  {
    if bytes != [] && workers > 0 {
      var init := bytes[..|bytes| - 1];
      PeakIsBest(init, workers);
      PeakIsBest(init, workers - 1);
      SortIsDescending(init);
      InsertTop(bytes[|bytes| - 1], SortDescending(init), workers);
    }
  }

  // ----- sums over lists of record indices -----

  ghost predicate Distinct(indices: seq<nat>) {
    forall i, j :: 0 <= i < j < |indices| ==> indices[i] != indices[j]
  }

  ghost predicate Below(indices: seq<nat>, n: nat) {
    forall i :: 0 <= i < |indices| ==> indices[i] < n
  }

  function SumAt(values: seq<nat>, indices: seq<nat>): nat
    requires Below(indices, |values|)
  {
    if indices == [] then 0 else SumAt(values, indices[..|indices| - 1]) + values[indices[|indices| - 1]]
  }

  function Without(indices: seq<nat>, k: nat): seq<nat>
    requires k < |indices|
  {
    indices[..k] + indices[k + 1..]
  }

  lemma WithoutDistinct(indices: seq<nat>, k: nat)
    requires k < |indices| && Distinct(indices)
    ensures Distinct(Without(indices, k))
    ensures forall i :: 0 <= i < |Without(indices, k)| ==>
      Without(indices, k)[i] != indices[k] && Without(indices, k)[i] in indices
  {
  }

  lemma {:induction false} SumWithout(values: seq<nat>, indices: seq<nat>, k: nat)
    requires Below(indices, |values|) && k < |indices|
    ensures Below(Without(indices, k), |values|)
    ensures SumAt(values, indices) == values[indices[k]] + SumAt(values, Without(indices, k))
  {
    var last := |indices| - 1;
    if k == last {
      assert Without(indices, k) == indices[..last];
    } else {
      SumWithout(values, indices[..last], k);
      var rest := Without(indices, k);
      assert rest[..|rest| - 1] == Without(indices[..last], k);
    }
  }

  lemma {:induction false} SumOfPrefix(values: seq<nat>, n: nat, indices: seq<nat>)
    requires n <= |values| && Below(indices, n)
    ensures SumAt(values[..n], indices) == SumAt(values, indices)
  {
    if indices != [] {
      SumOfPrefix(values, n, indices[..|indices| - 1]);
    }
  }

  /** Distinct indices never sum to more than the best choice of that many records. */
  lemma {:induction false} SumAtMostBest(bytes: seq<nat>, indices: seq<nat>, count: nat)
    requires Below(indices, |bytes|) && Distinct(indices) && |indices| <= count
    ensures SumAt(bytes, indices) <= Best(bytes, count)
    decreases |bytes|
  {
    if bytes != [] && indices != [] {
      var n := |bytes| - 1;
      if k :| 0 <= k < |indices| && indices[k] == n {
        SumWithout(bytes, indices, k);
        var rest := Without(indices, k);
        SumAtMostBest(bytes[..n], rest, count - 1);
        SumOfPrefix(bytes, n, rest);
      } else {
        SumAtMostBest(bytes[..n], indices, count);
        SumOfPrefix(bytes, n, indices);
      }
    }
  }

  function Total(values: seq<nat>): nat {
    if values == [] then 0 else Total(values[..|values| - 1]) + values[|values| - 1]
  }

  /** A list of all indices, each once, sums to the total. */
  lemma {:induction false} SumOfAll(values: seq<nat>, indices: seq<nat>)
    requires Below(indices, |values|) && Distinct(indices) && |indices| == |values|
    ensures SumAt(values, indices) == Total(values)
    decreases |values|
  {
    if values != [] {
      var n := |values| - 1;
      AllPresent(indices, |values|, n);
      var k :| 0 <= k < |indices| && indices[k] == n;
      SumWithout(values, indices, k);
      WithoutDistinct(indices, k);
      SumOfAll(values[..n], Without(indices, k));
      SumOfPrefix(values, n, Without(indices, k));
    }
  }

  /** Pigeonhole: `n` distinct indices below `n` include every index. */
  lemma {:induction false} AllPresent(indices: seq<nat>, n: nat, i: nat)
    requires Below(indices, n) && Distinct(indices) && |indices| == n && i < n
    ensures i in indices
  {
    if i !in indices {
      AtMost(indices, n, i);
    }
  }

  lemma {:induction false} AtMost(indices: seq<nat>, n: nat, missing: nat)
    requires Below(indices, n) && Distinct(indices) && missing < n && missing !in indices
    ensures |indices| < n
    decreases n
  {
    if k :| 0 <= k < |indices| && indices[k] == n - 1 {
      var rest := Without(indices, k);
      AtMost(rest, n - 1, missing);
    } else if missing < n - 1 {
      AtMost(indices, n - 1, missing);
    } else {
      Few(indices, n - 1);
    }
  }

  lemma NothingBelowZero(indices: seq<nat>)
    ensures indices != [] ==> !Below(indices, 0)
  {
    if indices != [] {
      assert indices[0] >= 0;
    }
  }

  lemma {:induction false} Few(indices: seq<nat>, n: nat)
    requires Below(indices, n) && Distinct(indices)
    ensures |indices| <= n
    decreases n
  {
    if k :| 0 <= k < |indices| && indices[k] == n - 1 {
      Few(Without(indices, k), n - 1);
    } else if n > 0 {
      Few(indices, n - 1);
    } else {
      NothingBelowZero(indices);
    }
  }
}
