/**
  Comparing floating values with NaN and infinities: the comparator every sort carries, the list
  it determines, and the reduction that finds a row's first maximum whatever the reduction tree.
*/
module Ordering {

  /** A floating value; finite ones are exact. */
  datatype Number = NaN | MinusInfinity | Finite(value: real) | PlusInfinity

  predicate Greater(a: Number, b: Number) {
    match (a, b)
    case (NaN, _) => false
    case (_, NaN) => false
    case (MinusInfinity, _) => false
    case (PlusInfinity, _) => !b.PlusInfinity?
    case (Finite(x), Finite(y)) => x > y
    case (Finite(_), MinusInfinity) => true
    case (Finite(_), PlusInfinity) => false
  }

  predicate Equal(a: Number, b: Number) { !a.NaN? && a == b }

  /** The number lies at or above a real bound: every bound for one infinity, none for the other. */
  predicate AtLeast(a: Number, bound: real) {
    a.PlusInfinity? || (a.Finite? && a.value >= bound)
  }

  /** One number is greater than another exactly if neither is NaN and some real bound separates them. */
  lemma GreaterIsSeparated(a: Number, b: Number)
    ensures Greater(a, b) <==> !a.NaN? && !b.NaN? && exists bound :: AtLeast(a, bound) && !AtLeast(b, bound)
  {
    if Greater(a, b) {
      var bound := if a.Finite? then a.value else if b.Finite? then b.value + 1.0 else 0.0;
      assert AtLeast(a, bound) && !AtLeast(b, bound);
    }
  }

  /** A value and where it came from. */
  datatype Entry = Entry(value: Number, index: int)

  // ----- sorting -----

  /** The sort comparator: NaN first when descending and last when ascending, ties by original index. */
  predicate Precedes(left: Entry, right: Entry, descending: bool) {
    var byValue := if descending then Greater(left.value, right.value) else Greater(right.value, left.value);
    var byNan := if descending then left.value.NaN? && !right.value.NaN? else !left.value.NaN? && right.value.NaN?;
    var lowerIndex := left.index < right.index;
    var ties := (Equal(left.value, right.value) && lowerIndex) || (left.value.NaN? && right.value.NaN? && lowerIndex);
    byValue || byNan || ties
  }

  /** The comparator is a strict total order on entries with different indices. */
  lemma PrecedesIsTotalOrder(a: Entry, b: Entry, c: Entry, descending: bool)
    ensures !Precedes(a, a, descending)
    ensures Precedes(a, b, descending) && Precedes(b, c, descending) ==> Precedes(a, c, descending)
    ensures a.index != b.index ==> (Precedes(a, b, descending) <==> !Precedes(b, a, descending))
  {
  }

  /**
    What the comparator decides: NaN precedes every number when descending and follows it when ascending, numbers
    follow their order, and equal ones keep their places.
  */
  lemma PrecedesExactly(a: Entry, b: Entry, descending: bool)
    ensures a.value.NaN? && !b.value.NaN? ==> (Precedes(a, b, descending) <==> descending)
    ensures b.value.NaN? && !a.value.NaN? ==> (Precedes(a, b, descending) <==> !descending)
    ensures !a.value.NaN? && !b.value.NaN? && a.value != b.value ==>
      (Precedes(a, b, descending) <==> (Greater(a.value, b.value) <==> descending))
    ensures a.value == b.value ==> (Precedes(a, b, descending) <==> a.index < b.index)
  {
  }

  ghost predicate Sorted(s: seq<Entry>, descending: bool) {
    forall i, j | 0 <= i < j < |s| :: Precedes(s[i], s[j], descending)
  }

  ghost predicate DistinctIndices(s: seq<Entry>) {
    forall i, j | 0 <= i < j < |s| :: s[i].index != s[j].index
  }

  /** Two sorted arrangements of the same entries are the same list, so stability is irrelevant. */
  lemma {:induction false} SortedIsUnique(s: seq<Entry>, t: seq<Entry>, descending: bool)
    requires multiset(s) == multiset(t) && Sorted(s, descending) && Sorted(t, descending)
    ensures s == t
  {
    SameLength(s, t);
    if s != [] {
      FirstIsLeast(s, t, descending);
      RestOf(s);
      RestOf(t);
      SortedIsUnique(s[1..], t[1..], descending);
    }
  }

  lemma RestOf(s: seq<Entry>)
    requires |s| > 0
    ensures s == [s[0]] + s[1..] && multiset(s[1..]) == multiset(s) - multiset{s[0]}
  {
    assert s == [s[0]] + s[1..];
  }

  lemma SameLength<T>(s: seq<T>, t: seq<T>)
    requires multiset(s) == multiset(t)
    ensures |s| == |t|
  {
    assert |s| == |multiset(s)| && |t| == |multiset(t)|;
  }

  lemma FirstIsLeast(s: seq<Entry>, t: seq<Entry>, descending: bool)
    requires multiset(s) == multiset(t) && |s| == |t| > 0 && Sorted(s, descending) && Sorted(t, descending)
    ensures s[0] == t[0]
  {
    assert s[0] in multiset(t) && t[0] in multiset(s);
    var i :| 0 <= i < |t| && t[i] == s[0];
    var j :| 0 <= j < |s| && s[j] == t[0];
    PrecedesIsTotalOrder(s[0], t[0], s[0], descending);
  }

  /** A row with its positions. */
  function Enumerated(row: seq<Number>): (s: seq<Entry>)
    ensures |s| == |row|
  {
    seq(|row|, i requires 0 <= i < |row| => Entry(row[i], i))
  }

  function Insert(e: Entry, s: seq<Entry>, descending: bool): (r: seq<Entry>)
    ensures multiset(r) == multiset(s) + multiset{e}
  {
    if s == [] then [e]
    else if Precedes(e, s[0], descending) then [e] + s
    else assert s == [s[0]] + s[1..]; [s[0]] + Insert(e, s[1..], descending)
  }

  function Sort(s: seq<Entry>, descending: bool): (r: seq<Entry>)
    ensures multiset(r) == multiset(s)
  {
    if s == [] then []
    else
      assert s == s[..|s| - 1] + [s[|s| - 1]];
      Insert(s[|s| - 1], Sort(s[..|s| - 1], descending), descending)
  }

  lemma {:induction false} InsertKeepsSorted(e: Entry, s: seq<Entry>, descending: bool)
    requires Sorted(s, descending) && forall i | 0 <= i < |s| :: s[i].index != e.index
    ensures Sorted(Insert(e, s, descending), descending)
  {
    if s != [] {
      if Precedes(e, s[0], descending) {
        forall j | 0 <= j < |s| ensures Precedes(e, s[j], descending) {
          PrecedesIsTotalOrder(e, s[0], s[j], descending);
        }
      } else {
        InsertKeepsSorted(e, s[1..], descending);
        var tail := Insert(e, s[1..], descending);
        PrecedesIsTotalOrder(e, s[0], e, descending);
        forall j | 0 <= j < |tail| ensures Precedes(s[0], tail[j], descending) {
          assert tail[j] in multiset(s[1..]) + multiset{e};
        }
      }
    }
  }

  /** Sorting a row yields the one sorted arrangement of its entries. */
  lemma {:induction false} SortSorts(s: seq<Entry>, descending: bool)
    requires DistinctIndices(s)
    ensures Sorted(Sort(s, descending), descending)
  {
    if s != [] {
      var front := s[..|s| - 1];
      SortSorts(front, descending);
      forall i | 0 <= i < |front| ensures Sort(front, descending)[i].index != s[|s| - 1].index {
        assert Sort(front, descending)[i] in multiset(front);
      }
      SameLength(Sort(front, descending), front);
      InsertKeepsSorted(s[|s| - 1], Sort(front, descending), descending);
    }
  }

  // ----- the first maximum -----

  /** One step of the reduction over value and index. */
  function Keep(left: Entry, right: Entry): Entry {
    var keepValue := Greater(left.value, right.value) || left.value.NaN?;
    var keepIndex := keepValue || (Equal(left.value, right.value) && left.index < right.index);
    Entry(if keepValue then left.value else right.value, if keepIndex then left.index else right.index)
  }

  /** A reduction tree over positions; the initial value may appear at any leaf. */
  datatype Tree = Initial | Leaf(position: nat) | Node(left: Tree, right: Tree)

  function Reduce(row: seq<Number>, tree: Tree): Entry
    requires Within(tree, |row|)
  {
    match tree
    case Initial => Entry(MinusInfinity, 0)
    case Leaf(i) => Entry(row[i], i)
    case Node(l, r) => Keep(Reduce(row, l), Reduce(row, r))
  }

  predicate Within(tree: Tree, n: nat) {
    match tree
    case Initial => true
    case Leaf(i) => i < n
    case Node(l, r) => Within(l, n) && Within(r, n)
  }

  /** The positions at the leaves, left to right. */
  function Positions(tree: Tree): seq<nat> {
    match tree
    case Initial => []
    case Leaf(i) => [i]
    case Node(l, r) => Positions(l) + Positions(r)
  }

  /** Whether `e` is the first maximum among the given positions, NaN counting as largest. */
  ghost predicate FirstMaximum(row: seq<Number>, positions: set<nat>, e: Entry) {
    && 0 <= e.index < |row| && e.index in positions && row[e.index] == e.value
    && forall j: nat | j in positions && j < |row| && j != e.index :: Precedes(e, Entry(row[j], j), true)
  }

  /** The result over a subtree: its first maximum, or the initial value when nothing exceeds it. */
  ghost predicate Summary(row: seq<Number>, positions: set<nat>, e: Entry) {
    || FirstMaximum(row, positions, e)
    || (e == Entry(MinusInfinity, 0) && forall j: nat | j in positions && j < |row| :: row[j] == MinusInfinity)
  }

  ghost predicate Ordered(positions: seq<nat>) {
    forall i, j | 0 <= i < j < |positions| :: positions[i] < positions[j]
  }

  function Elements(positions: seq<nat>): (s: set<nat>)
    ensures forall k :: k in s <==> k in positions
  {
    set k | k in positions
  }

  lemma {:induction false} ReduceSummary(row: seq<Number>, tree: Tree)
    requires Within(tree, |row|) && Ordered(Positions(tree))
    ensures Summary(row, Elements(Positions(tree)), Reduce(row, tree))
  {
    match tree
    case Initial =>
    case Leaf(i) =>
    case Node(l, r) =>
      var a, b := Positions(l), Positions(r);
      OrderedParts(a, b);
      ReduceSummary(row, l);
      ReduceSummary(row, r);
      KeepSummary(row, Elements(a), Elements(b), Elements(a + b), Reduce(row, l), Reduce(row, r));
  }

  lemma OrderedParts(a: seq<nat>, b: seq<nat>)
    requires Ordered(a + b)
    ensures Ordered(a) && Ordered(b) && forall x, y | x in a && y in b :: x < y
  {
    assert forall i | 0 <= i < |a| :: (a + b)[i] == a[i];
    assert forall i | 0 <= i < |b| :: (a + b)[|a| + i] == b[i];
  }

  lemma KeepSummary(row: seq<Number>, a: set<nat>, b: set<nat>, all: set<nat>, left: Entry, right: Entry)
    requires Summary(row, a, left) && Summary(row, b, right)
    requires (forall k: nat :: k in all <==> k in a || k in b) && forall x: nat, y: nat | x in a && y in b :: x < y
    ensures Summary(row, all, Keep(left, right))
  {
  }

  /** An in-order reduction over a whole row, with initial values anywhere. */
  ghost predicate Covers(tree: Tree, n: nat) {
    Within(tree, n) && Ordered(Positions(tree)) && forall i: nat | i < n :: i in Positions(tree)
  }

  /** Every in-order reduction tree over a whole row finds its first maximum. */
  lemma ArgMaxOfAnyTree(row: seq<Number>, tree: Tree)
    requires Covers(tree, |row|) && |row| > 0
    ensures IsArgMax(row, Reduce(row, tree))
  {
    ReduceSummary(row, tree);
  }

  ghost predicate IsArgMax(row: seq<Number>, e: Entry) {
    && 0 <= e.index < |row| && row[e.index] == e.value
    && forall j: nat | j < |row| && j != e.index :: Precedes(e, Entry(row[j], j), true)
  }

  /** The reduction from left to right. */
  function Chain(n: nat): (tree: Tree)
    ensures Within(tree, n)
  {
    if n == 0 then Initial else WithinMore(Chain(n - 1), n - 1, n); Node(Chain(n - 1), Leaf(n - 1))
  }

  lemma {:induction false} WithinMore(tree: Tree, m: nat, n: nat)
    requires Within(tree, m) && m <= n
    ensures Within(tree, n)
  {
    if tree.Node? {
      WithinMore(tree.left, m, n);
      WithinMore(tree.right, m, n);
    }
  }

  lemma {:induction false} ChainPositions(n: nat)
    ensures |Positions(Chain(n))| == n && forall i: nat | i < n :: Positions(Chain(n))[i] == i
    ensures Covers(Chain(n), n)
  {
    if n > 0 {
      ChainPositions(n - 1);
    }
    forall i: nat | i < n ensures i in Positions(Chain(n)) {
      assert Positions(Chain(n))[i] == i;
    }
  }

  function ArgMax(row: seq<Number>): Entry { Reduce(row, Chain(|row|)) }

  lemma ArgMaxIsFirst(row: seq<Number>)
    requires |row| > 0
    ensures IsArgMax(row, ArgMax(row))
  {
    ChainPositions(|row|);
    ArgMaxOfAnyTree(row, Chain(|row|));
  }

  /** The reduction order never shows in the result. */
  lemma TreesAgree(row: seq<Number>, tree: Tree)
    requires Covers(tree, |row|) && |row| > 0
    ensures Reduce(row, tree) == ArgMax(row)
  {
    ArgMaxOfAnyTree(row, tree);
    ArgMaxIsFirst(row);
    PrecedesIsTotalOrder(Reduce(row, tree), ArgMax(row), ArgMax(row), true);
  }

  lemma SortedRow(row: seq<Number>)
    ensures Sorted(Sort(Enumerated(row), true), true) && |Sort(Enumerated(row), true)| == |row|
    ensures forall i | 0 <= i < |row| ::
      var e := Sort(Enumerated(row), true)[i]; 0 <= e.index < |row| && row[e.index] == e.value
  {
    var sorted := Sort(Enumerated(row), true);
    SortSorts(Enumerated(row), true);
    SameLength(sorted, Enumerated(row));
    forall i | 0 <= i < |row| ensures 0 <= sorted[i].index < |row| && row[sorted[i].index] == sorted[i].value {
      assert sorted[i] in multiset(Enumerated(row));
    }
  }

  /** The first entry of a descending sort is the first maximum, so the top candidate is the greedy choice. */
  lemma TopIsArgMax(row: seq<Number>)
    requires |row| > 0
    ensures |Sort(Enumerated(row), true)| == |row| && Sort(Enumerated(row), true)[0] == ArgMax(row)
  {
    var best := ArgMax(row);
    var sorted := Sort(Enumerated(row), true);
    ArgMaxIsFirst(row);
    SortedRow(row);
    assert Enumerated(row)[best.index] == best;
    assert best in multiset(sorted);
    var i :| 0 <= i < |row| && sorted[i] == best;
    PrecedesIsTotalOrder(best, sorted[0], best, true);
  }
}
