/**
  Overwriting disjoint ranges of a vector with one sorted, duplicate-free scatter: which patch
  lists are accepted, and that the scatter equals applying the patches one by one in any order.
*/
module Patch1d {
  import opened Wrappers

  datatype Patch<T> = Patch(offset: int, update: seq<T>)

  function End<T>(p: Patch<T>): int { p.offset + |p.update| }

  predicate Covers<T>(p: Patch<T>, i: int) { p.offset <= i < End(p) }

  predicate Disjoint<T>(p: Patch<T>, q: Patch<T>) { End(p) <= q.offset || End(q) <= p.offset }

  const MAX_I32: int := 0x7FFF_FFFF

  /** A nonempty range inside the input whose positions fit a 32-bit index. */
  predicate Fits<T>(p: Patch<T>, extent: nat) {
    0 <= p.offset && |p.update| > 0 && End(p) <= extent && End(p) - 1 <= MAX_I32
  }

  ghost predicate Separate<T>(ps: seq<Patch<T>>) {
    forall i, j | 0 <= i < j < |ps| :: Disjoint(ps[i], ps[j])
  }

  ghost predicate AllFit<T>(ps: seq<Patch<T>>, extent: nat) {
    forall i | 0 <= i < |ps| :: Fits(ps[i], extent)
  }

  /** What callers must supply. */
  ghost predicate Acceptable<T>(ps: seq<Patch<T>>, extent: nat) {
    ps != [] && AllFit(ps, extent) && Separate(ps)
  }

  // ----- sorting by offset -----

  function Insert<T>(p: Patch<T>, ps: seq<Patch<T>>): (r: seq<Patch<T>>)
    ensures multiset(r) == multiset(ps) + multiset{p}
  {
    if ps == [] then [p]
    else if ps[|ps| - 1].offset <= p.offset then ps + [p]
    else assert ps == ps[..|ps| - 1] + [ps[|ps| - 1]]; Insert(p, ps[..|ps| - 1]) + [ps[|ps| - 1]]
  }

  /** A stable sort by offset. */
  function ByOffset<T>(ps: seq<Patch<T>>): (r: seq<Patch<T>>)
    ensures multiset(r) == multiset(ps)
  {
    if ps == [] then []
    else
      assert ps == ps[..|ps| - 1] + [ps[|ps| - 1]];
      Insert(ps[|ps| - 1], ByOffset(ps[..|ps| - 1]))
  }

  ghost predicate Ascending<T>(ps: seq<Patch<T>>) {
    forall i, j | 0 <= i < j < |ps| :: ps[i].offset <= ps[j].offset
  }

  lemma {:induction false} InsertKeepsAscending<T>(p: Patch<T>, ps: seq<Patch<T>>)
    requires Ascending(ps)
    ensures Ascending(Insert(p, ps))
  {
    if ps != [] && ps[|ps| - 1].offset > p.offset {
      var front := ps[..|ps| - 1];
      InsertKeepsAscending(p, front);
      var inserted := Insert(p, front);
      forall i | 0 <= i < |inserted| ensures inserted[i].offset <= ps[|ps| - 1].offset {
        assert inserted[i] in multiset(front) + multiset{p};
      }
    }
  }

  lemma {:induction false} ByOffsetAscends<T>(ps: seq<Patch<T>>)
    ensures Ascending(ByOffset(ps))
  {
    if ps != [] {
      ByOffsetAscends(ps[..|ps| - 1]);
      InsertKeepsAscending(ps[|ps| - 1], ByOffset(ps[..|ps| - 1]));
    }
  }

  // ----- rearranging -----

  lemma SameMembers<T>(ps: seq<Patch<T>>, qs: seq<Patch<T>>, extent: nat)
    requires multiset(ps) == multiset(qs) && AllFit(ps, extent)
    ensures AllFit(qs, extent)
  {
    forall i | 0 <= i < |qs| ensures Fits(qs[i], extent) {
      assert qs[i] in multiset(ps);
    }
  }

  lemma {:induction false} OccursOnce<T>(ps: seq<Patch<T>>, p: Patch<T>)
    requires Separate(ps) && |p.update| > 0
    ensures multiset(ps)[p] <= 1
  {
    if ps != [] {
      var front, last := ps[..|ps| - 1], ps[|ps| - 1];
      assert ps == front + [last];
      OccursOnce(front, p);
      assert forall i | 0 <= i < |front| :: front[i] == ps[i] && Disjoint(ps[i], ps[|ps| - 1]);
      assert last == p ==> p !in front;
    }
  }

  lemma OccursTwice<T>(ps: seq<T>, i: nat, j: nat)
    requires i < j < |ps| && ps[i] == ps[j]
    ensures multiset(ps)[ps[i]] >= 2
  {
    assert ps == ps[..j] + ps[j..];
    assert ps[..j][i] in multiset(ps[..j]) && ps[j..][0] in multiset(ps[j..]);
  }

  /** Whether patches overlap does not depend on the order they are listed in. */
  lemma SeparateIsOrderFree<T>(ps: seq<Patch<T>>, qs: seq<Patch<T>>, extent: nat)
    requires multiset(ps) == multiset(qs) && AllFit(ps, extent) && Separate(ps)
    ensures Separate(qs)
  {
    forall i, j | 0 <= i < j < |qs| ensures Disjoint(qs[i], qs[j]) {
      assert qs[i] in multiset(ps) && qs[j] in multiset(ps);
      var a :| 0 <= a < |ps| && ps[a] == qs[i];
      var b :| 0 <= b < |ps| && ps[b] == qs[j];
      if a == b {
        OccursTwice(qs, i, j);
        OccursOnce(ps, ps[a]);
      }
    }
  }

  // ----- one by one -----

  function Apply<T>(input: seq<T>, p: Patch<T>): (r: seq<T>)
    requires Fits(p, |input|)
    ensures |r| == |input|
  {
    input[..p.offset] + p.update + input[End(p)..]
  }

  function ApplyAll<T>(input: seq<T>, ps: seq<Patch<T>>): (r: seq<T>)
    requires AllFit(ps, |input|)
    ensures |r| == |input|
  {
    if ps == [] then input else Apply(ApplyAll(input, ps[..|ps| - 1]), ps[|ps| - 1])
  }

  /** `result` holds each patch at its place and the input everywhere else. */
  ghost predicate Overwritten<T>(input: seq<T>, ps: seq<Patch<T>>, result: seq<T>) {
    && |result| == |input|
    && (forall j, i: int | 0 <= j < |ps| && Covers(ps[j], i) && 0 <= i < |result| ::
      result[i] == ps[j].update[i - ps[j].offset])
    && (forall i: int | 0 <= i < |input| && (forall j | 0 <= j < |ps| :: !Covers(ps[j], i)) :: result[i] == input[i])
  }

  lemma {:induction false} ApplyAllOverwrites<T>(input: seq<T>, ps: seq<Patch<T>>)
    requires AllFit(ps, |input|) && Separate(ps)
    ensures Overwritten(input, ps, ApplyAll(input, ps))
  {
    if ps != [] {
      var front, last := ps[..|ps| - 1], ps[|ps| - 1];
      ApplyAllOverwrites(input, front);
      var before, after := ApplyAll(input, front), ApplyAll(input, ps);
      forall j, i: int | 0 <= j < |ps| && Covers(ps[j], i) && 0 <= i < |after|
        ensures after[i] == ps[j].update[i - ps[j].offset]
      {
        if j < |front| {
          assert Disjoint(ps[j], last) && front[j] == ps[j];
        }
      }
      forall i: int | 0 <= i < |input| && (forall j | 0 <= j < |ps| :: !Covers(ps[j], i)) ensures after[i] == input[i] {
        assert !Covers(last, i);
        assert forall j | 0 <= j < |front| :: front[j] == ps[j];
      }
    }
  }

  /** The overwritten vector is unique, and listing the patches differently does not change it. */
  lemma OverwrittenIsUnique<T>(input: seq<T>, ps: seq<Patch<T>>, qs: seq<Patch<T>>, a: seq<T>, b: seq<T>)
    requires multiset(ps) == multiset(qs) && Overwritten(input, ps, a) && Overwritten(input, qs, b)
    ensures a == b
  {
    forall i: int | 0 <= i < |input| ensures a[i] == b[i] {
      if j :| 0 <= j < |ps| && Covers(ps[j], i) {
        assert ps[j] in multiset(qs);
        var k :| 0 <= k < |qs| && qs[k] == ps[j];
        assert Covers(qs[k], i);
      } else {
        forall k | 0 <= k < |qs| ensures !Covers(qs[k], i) {
          assert qs[k] in multiset(ps);
        }
      }
    }
  }

  // ----- the scatter -----

  function Span(from: int, count: nat): (r: seq<int>)
    ensures |r| == count
  {
    seq(count, t requires 0 <= t < count => from + t)
  }

  function Indices<T>(ps: seq<Patch<T>>): seq<int> {
    if ps == [] then [] else Indices(ps[..|ps| - 1]) + Span(ps[|ps| - 1].offset, |ps[|ps| - 1].update|)
  }

  function Updates<T>(ps: seq<Patch<T>>): seq<T> {
    if ps == [] then [] else Updates(ps[..|ps| - 1]) + ps[|ps| - 1].update
  }

  ghost predicate StrictlyIncreasing(indices: seq<int>, low: int, high: int) {
    && (forall i, j | 0 <= i < j < |indices| :: indices[i] < indices[j])
    && (forall i | 0 <= i < |indices| :: low <= indices[i] < high)
  }

  /** `order` visits every update once. */
  ghost predicate Visits(order: seq<nat>, count: nat) {
    && (forall i, j | 0 <= i < j < |order| :: order[i] != order[j])
    && (forall i | 0 <= i < |order| :: order[i] < count)
    && (forall k: nat | k < count :: k in order)
  }

  /** A one-dimensional scatter whose updates land in the given order; an index outside the vector is dropped. */
  function Scatter<T>(input: seq<T>, indices: seq<int>, updates: seq<T>, order: seq<nat>): (r: seq<T>)
    requires |indices| == |updates| && forall i | 0 <= i < |order| :: order[i] < |indices|
    ensures |r| == |input|
  {
    if order == [] then input
    else
      var before, k := Scatter(input, indices, updates, order[..|order| - 1]), order[|order| - 1];
      if 0 <= indices[k] < |input| then before[indices[k] := updates[k]] else before
  }

  lemma {:induction false} ScatterAt<T>(input: seq<T>, indices: seq<int>, updates: seq<T>, order: seq<nat>)
    requires |indices| == |updates| && StrictlyIncreasing(indices, 0, |input|)
    requires forall i | 0 <= i < |order| :: order[i] < |indices|
    ensures forall k | k in order :: Scatter(input, indices, updates, order)[indices[k]] == updates[k]
    ensures forall i: int | 0 <= i < |input| && (forall k | k in order :: indices[k] != i) ::
      Scatter(input, indices, updates, order)[i] == input[i]
  {
    if order != [] {
      var front, last := order[..|order| - 1], order[|order| - 1];
      ScatterAt(input, indices, updates, front);
      assert order == front + [last];
      assert forall k | k in front :: indices[k] == indices[last] ==> k == last;
    }
  }

  /** Some update writes `v` at `i`. */
  ghost predicate Writes<T>(indices: seq<int>, updates: seq<T>, i: int, v: T) {
    |indices| == |updates| && exists k :: 0 <= k < |indices| && indices[k] == i && updates[k] == v
  }

  ghost predicate Covered<T>(ps: seq<Patch<T>>, i: int) {
    exists j :: 0 <= j < |ps| && Covers(ps[j], i)
  }

  /** Where each update of a rendered patch list goes. */
  ghost predicate Renders<T>(ps: seq<Patch<T>>, indices: seq<int>, updates: seq<T>) {
    && |indices| == |updates|
    && (forall j, i: int | 0 <= j < |ps| && Covers(ps[j], i) ::
      Writes(indices, updates, i, ps[j].update[i - ps[j].offset]))
    && (forall k | 0 <= k < |indices| :: Covered(ps, indices[k]))
  }

  lemma {:induction false} Rendered<T>(ps: seq<Patch<T>>)
    ensures Renders(ps, Indices(ps), Updates(ps))
  {
    if ps != [] {
      var front, last := ps[..|ps| - 1], ps[|ps| - 1];
      Rendered(front);
      RenderedOneMore(ps, front, last, Indices(front), Updates(front));
    }
  }

  lemma RenderedOneMore<T>(ps: seq<Patch<T>>, front: seq<Patch<T>>, last: Patch<T>, indices: seq<int>, updates: seq<T>)
    requires ps == front + [last] && Renders(front, indices, updates)
    ensures Renders(ps, indices + Span(last.offset, |last.update|), updates + last.update)
  {
    var span := Span(last.offset, |last.update|);
    forall j, i: int | 0 <= j < |ps| && Covers(ps[j], i)
      ensures Writes(indices + span, updates + last.update, i, ps[j].update[i - ps[j].offset])
    {
      if j < |front| {
        assert front[j] == ps[j];
        WritesEarlier(indices, updates, span, last.update, i, ps[j].update[i - ps[j].offset]);
      } else {
        assert (indices + span)[|indices| + (i - last.offset)] == i;
      }
    }
    forall k | 0 <= k < |indices + span| ensures Covered(ps, (indices + span)[k]) {
      if k < |indices| {
        CoveredEarlier(front, last, indices[k]);
      } else {
        assert Covers(ps[|ps| - 1], (indices + span)[k]);
      }
    }
  }

  lemma WritesEarlier<T>(indices: seq<int>, updates: seq<T>, more: seq<int>, moreUpdates: seq<T>, i: int, v: T)
    requires Writes(indices, updates, i, v) && |more| == |moreUpdates|
    ensures Writes(indices + more, updates + moreUpdates, i, v)
  {
    var k :| 0 <= k < |indices| && indices[k] == i && updates[k] == v;
    assert (indices + more)[k] == i && (updates + moreUpdates)[k] == v;
  }

  lemma CoveredEarlier<T>(front: seq<Patch<T>>, last: Patch<T>, i: int)
    requires Covered(front, i)
    ensures Covered(front + [last], i)
  {
    var j :| 0 <= j < |front| && Covers(front[j], i);
    assert Covers((front + [last])[j], i);
  }

  /** Scattering a rendered patch list overwrites its ranges, whatever order the updates land in. */
  lemma ScatterOverwrites<T>(input: seq<T>, ps: seq<Patch<T>>, indices: seq<int>, updates: seq<T>, order: seq<nat>)
    requires Renders(ps, indices, updates) && StrictlyIncreasing(indices, 0, |input|) && Visits(order, |indices|)
    ensures Overwritten(input, ps, Scatter(input, indices, updates, order))
  {
    var result := Scatter(input, indices, updates, order);
    forall j, i: int | 0 <= j < |ps| && Covers(ps[j], i) && 0 <= i < |result|
      ensures result[i] == ps[j].update[i - ps[j].offset]
    {
      ScatterWrites(input, indices, updates, order, i, ps[j].update[i - ps[j].offset]);
    }
    forall i: int | 0 <= i < |input| && (forall j | 0 <= j < |ps| :: !Covers(ps[j], i)) ensures result[i] == input[i] {
      assert !Covered(ps, i);
      ScatterKeeps(input, indices, updates, order, i);
    }
  }

  lemma ScatterWrites<T>(input: seq<T>, indices: seq<int>, updates: seq<T>, order: seq<nat>, i: int, v: T)
    requires Writes(indices, updates, i, v) && StrictlyIncreasing(indices, 0, |input|) && Visits(order, |indices|)
    requires 0 <= i < |input|
    ensures Scatter(input, indices, updates, order)[i] == v
  {
    var k :| 0 <= k < |indices| && indices[k] == i && updates[k] == v;
    ScatterAt(input, indices, updates, order);
    assert k in order;
  }

  lemma ScatterKeeps<T>(input: seq<T>, indices: seq<int>, updates: seq<T>, order: seq<nat>, i: int)
    requires |indices| == |updates| && StrictlyIncreasing(indices, 0, |input|) && Visits(order, |indices|)
    requires 0 <= i < |input|
    requires forall k | 0 <= k < |indices| :: indices[k] != i
    ensures Scatter(input, indices, updates, order)[i] == input[i]
  {
    ScatterAt(input, indices, updates, order);
  }

  // ----- the operation -----

  /**
    Sorts, checks and renders; refuses an empty list, a range outside the input, an overlap, or an index past 32 bits.
  */
  method Plan<T>(extent: nat, patches: seq<Patch<T>>) returns (plan: Option<(seq<int>, seq<T>)>)
    ensures plan.Some? <==> Acceptable(patches, extent)
    ensures plan.Some? ==>
      StrictlyIncreasing(plan.value.0, 0, extent) && StrictlyIncreasing(plan.value.0, 0, MAX_I32 + 1)
    ensures plan.Some? ==> plan.value == (Indices(ByOffset(patches)), Updates(ByOffset(patches)))
  {
    if patches == [] {
      return None;
    }
    ByOffsetAscends(patches);
    Arranged(patches, ByOffset(patches), extent);
    plan := Render(extent, ByOffset(patches));
  }

  /** Checks the sorted patches against the end of the previous one and lists their indices and updates. */
  method Render<T>(extent: nat, ordered: seq<Patch<T>>) returns (plan: Option<(seq<int>, seq<T>)>)
    requires Ascending(ordered)
    ensures plan.Some? <==> AllFit(ordered, extent) && Separate(ordered)
    ensures plan.Some? ==>
      StrictlyIncreasing(plan.value.0, 0, extent) && StrictlyIncreasing(plan.value.0, 0, MAX_I32 + 1)
    ensures plan.Some? ==> plan.value == (Indices(ordered), Updates(ordered))
  {
    var previousEnd := 0;
    var indices, updates := [], [];
    for n := 0 to |ordered|
      invariant Checked(ordered, n, extent, previousEnd)
      invariant indices == Indices(ordered[..n]) && updates == Updates(ordered[..n])
    {
      var p := ordered[n];
      if p.offset < 0 || |p.update| == 0 || End(p) > extent || End(p) - 1 > MAX_I32 || p.offset < previousEnd {
        Refused(ordered, extent, n, previousEnd);
        return None;
      }
      OneMoreChecked(ordered, n, extent, previousEnd);
      indices := indices + Span(p.offset, |p.update|);
      updates := updates + p.update;
      previousEnd := End(p);
    }
    assert ordered[..|ordered|] == ordered;
    Increasing(ordered, extent);
    return Some((indices, updates));
  }

  lemma OneMoreChecked<T>(ordered: seq<Patch<T>>, n: nat, extent: nat, previousEnd: int)
    requires n < |ordered| && Checked(ordered, n, extent, previousEnd) && Fits(ordered[n], extent)
    requires previousEnd <= ordered[n].offset
    ensures Checked(ordered, n + 1, extent, End(ordered[n])) && ordered[..n + 1][..n] == ordered[..n]
  {
    assert ordered[..n + 1] == ordered[..n] + [ordered[n]];
  }

  /** The first `n` patches are in range and follow one another without overlap. */
  ghost predicate Checked<T>(ordered: seq<Patch<T>>, n: nat, extent: nat, previousEnd: int)
    requires n <= |ordered|
  {
    && AllFit(ordered[..n], extent) && Separate(ordered[..n])
    && previousEnd == (if n > 0 then End(ordered[n - 1]) else 0)
    && forall i | 0 <= i < n :: End(ordered[i]) <= previousEnd
  }

  /** The indices of separate patches in offset order increase strictly: both scatter promises hold. */
  lemma {:induction false} Increasing<T>(ordered: seq<Patch<T>>, extent: nat)
    requires Ascending(ordered) && AllFit(ordered, extent) && Separate(ordered)
    ensures StrictlyIncreasing(Indices(ordered), 0, if ordered == [] then 0 else End(ordered[|ordered| - 1]))
  {
    if ordered != [] {
      var front, last := ordered[..|ordered| - 1], ordered[|ordered| - 1];
      Increasing(front, extent);
      if front != [] {
        assert front[|front| - 1] == ordered[|front| - 1];
        assert Disjoint(ordered[|front| - 1], last) && Fits(last, extent);
      }
    }
  }

  lemma Refused<T>(ordered: seq<Patch<T>>, extent: nat, n: nat, previousEnd: int)
    requires n < |ordered| && Ascending(ordered) && Checked(ordered, n, extent, previousEnd)
    requires !Fits(ordered[n], extent) || ordered[n].offset < previousEnd
    ensures !(AllFit(ordered, extent) && Separate(ordered))
  {
    assert n > 0 ==> ordered[..n][n - 1] == ordered[n - 1];
    assert n > 0 && ordered[n].offset < End(ordered[n - 1]) && Fits(ordered[n], extent) ==>
      !Disjoint(ordered[n - 1], ordered[n]);
  }

  lemma Arranged<T>(patches: seq<Patch<T>>, ordered: seq<Patch<T>>, extent: nat)
    requires multiset(patches) == multiset(ordered)
    ensures AllFit(patches, extent) && Separate(patches) <==> AllFit(ordered, extent) && Separate(ordered)
  {
    if AllFit(patches, extent) && Separate(patches) {
      SameMembers(patches, ordered, extent);
      SeparateIsOrderFree(patches, ordered, extent);
    }
    if AllFit(ordered, extent) && Separate(ordered) {
      SameMembers(ordered, patches, extent);
      SeparateIsOrderFree(ordered, patches, extent);
    }
  }

  /**
    One scatter of an accepted patch list, its updates landing in any order, equals applying the
    patches one at a time in any order.
  */
  lemma PatchIsSequential<T>(input: seq<T>, patches: seq<Patch<T>>, listed: seq<Patch<T>>, order: seq<nat>)
    requires Acceptable(patches, |input|) && multiset(listed) == multiset(patches)
    requires Visits(order, |Indices(ByOffset(patches))|)
    ensures |Indices(ByOffset(patches))| == |Updates(ByOffset(patches))| && AllFit(listed, |input|)
    ensures Scatter(input, Indices(ByOffset(patches)), Updates(ByOffset(patches)), order) == ApplyAll(input, listed)
  {
    var ordered := ByOffset(patches);
    Rendered(ordered);
    ByOffsetAscends(patches);
    SameMembers(patches, ordered, |input|);
    SeparateIsOrderFree(patches, ordered, |input|);
    Increasing(ordered, |input|);
    ScatterOverwrites(input, ordered, Indices(ordered), Updates(ordered), order);
    SameMembers(patches, listed, |input|);
    SeparateIsOrderFree(patches, listed, |input|);
    ApplyAllOverwrites(input, listed);
    OverwrittenIsUnique(input, ordered, listed, Scatter(input, Indices(ordered), Updates(ordered), order),
      ApplyAll(input, listed));
  }
}
