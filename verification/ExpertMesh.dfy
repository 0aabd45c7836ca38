/**
  Splitting experts over one axis of a device mesh: which devices reduce together, and the
  expert coordinate each device computes from its partition id.
*/
module ExpertMesh {
  import opened Arithmetic

  const I64_MAX: int := 0x7FFF_FFFF_FFFF_FFFF

  datatype Groups = Groups(groups: seq<seq<int>>) | MeshTooLarge

  ghost predicate Mesh(sizes: seq<nat>) {
    forall i :: 0 <= i < |sizes| ==> sizes[i] > 0
  }

  /** Device ids enumerate the mesh with the last axis fastest. */
  function Product(sizes: seq<nat>): nat {
    if sizes == [] then 1 else sizes[0] * Product(sizes[1..])
  }

  lemma {:induction false} ProductPositive(sizes: seq<nat>)
    requires Mesh(sizes)
    ensures Product(sizes) > 0
  {
    if sizes != [] {
      ProductPositive(sizes[1..]);
    }
  }

  lemma {:induction false} ProductSplit(sizes: seq<nat>, axis: nat)
    requires axis < |sizes|
    ensures Product(sizes) == Product(sizes[..axis]) * (sizes[axis] * Product(sizes[axis + 1..]))
  {
    if axis == 0 {
      assert sizes[..0] == [];
    } else {
      ProductSplit(sizes[1..], axis - 1);
      assert sizes[1..][..axis - 1] == sizes[..axis][1..];
      assert sizes[1..][axis..] == sizes[axis + 1..];
      Associate(sizes[0], Product(sizes[..axis][1..]), sizes[axis] * Product(sizes[axis + 1..]));
    }
  }

  lemma Associate(a: nat, b: nat, c: nat)
    ensures a * (b * c) == (a * b) * c
  {
  }

  /** A device's coordinates on every axis are within the axis sizes. */
  ghost predicate Within(sizes: seq<nat>, coordinates: seq<nat>) {
    |coordinates| == |sizes| && forall i :: 0 <= i < |sizes| ==> coordinates[i] < sizes[i]
  }

  /** The device id at given coordinates. */
  function Id(sizes: seq<nat>, coordinates: seq<nat>): nat
    requires |coordinates| == |sizes|
  {
    if sizes == [] then 0 else coordinates[0] * Product(sizes[1..]) + Id(sizes[1..], coordinates[1..])
  }

  /** The coordinates of a device id. */
  function Coordinates(sizes: seq<nat>, id: nat): (r: seq<nat>)
    requires Mesh(sizes)
    ensures |r| == |sizes|
    decreases |sizes|
  {
    if sizes == [] then []
    else
      ProductPositive(sizes[1..]);
      [id / Product(sizes[1..])] + Coordinates(sizes[1..], id % Product(sizes[1..]))
  }

  lemma {:induction false} IdBelow(sizes: seq<nat>, coordinates: seq<nat>)
    requires Within(sizes, coordinates)
    ensures Id(sizes, coordinates) < Product(sizes)
  {
    if sizes != [] {
      IdBelow(sizes[1..], coordinates[1..]);
      IndexBelow(coordinates[0], Id(sizes[1..], coordinates[1..]), sizes[0], Product(sizes[1..]));
    }
  }

  /** Ids below the device count and coordinates within the axis sizes name each other. */
  lemma {:induction false} CoordinatesOfId(sizes: seq<nat>, coordinates: seq<nat>)
    requires Mesh(sizes) && Within(sizes, coordinates)
    ensures Coordinates(sizes, Id(sizes, coordinates)) == coordinates
  {
    if sizes != [] {
      IdBelow(sizes[1..], coordinates[1..]);
      QuotientOf(coordinates[0], Product(sizes[1..]), Id(sizes[1..], coordinates[1..]));
      CoordinatesOfId(sizes[1..], coordinates[1..]);
    }
  }

  lemma {:induction false} IdOfCoordinates(sizes: seq<nat>, id: nat)
    requires Mesh(sizes) && id < Product(sizes)
    ensures Within(sizes, Coordinates(sizes, id)) && Id(sizes, Coordinates(sizes, id)) == id
  {
    if sizes != [] {
      ProductPositive(sizes[1..]);
      var later := Product(sizes[1..]);
      Split(id, later);
      QuotientBelow(id, later, sizes[0]);
      IdOfCoordinates(sizes[1..], id % later);
    }
  }

  /** Changing the coordinate on one axis moves the id by multiples of the product of the later axes. */
  lemma {:induction false} IdStride(sizes: seq<nat>, coordinates: seq<nat>, axis: nat, c: nat)
    requires |coordinates| == |sizes| && axis < |sizes|
    ensures Id(sizes, coordinates[axis := c])
            == Id(sizes, coordinates[axis := 0]) + c * Product(sizes[axis + 1..])
  {
    if axis == 0 {
      assert coordinates[0 := c][1..] == coordinates[0 := 0][1..] == coordinates[1..];
    } else {
      IdStride(sizes[1..], coordinates[1..], axis - 1, c);
      assert coordinates[axis := c][1..] == coordinates[1..][axis - 1 := c];
      assert coordinates[axis := 0][1..] == coordinates[1..][axis - 1 := 0];
      assert sizes[1..][axis..] == sizes[axis + 1..];
    }
  }

  /** The arithmetic emitted on every device: divide by the stride, then take the remainder. */
  function ExpertCoordinate(id: nat, later: nat, partitions: nat): nat
    requires later > 0 && partitions > 0
  {
    id / later % partitions
  }

  lemma CoordinateOf(upper: nat, c: nat, rest: nat, later: nat, partitions: nat)
    requires rest < later && c < partitions
    ensures ExpertCoordinate((upper * partitions + c) * later + rest, later, partitions) == c
  {
    QuotientOf(upper * partitions + c, later, rest);
    QuotientOf(upper, partitions, c);
  }

  /** The emitted arithmetic recovers the coordinate on the expert axis, for a mesh of any rank. */
  lemma {:induction false} ExpertCoordinateIsAxis(sizes: seq<nat>, coordinates: seq<nat>, axis: nat, upper: nat)
    requires Mesh(sizes) && Within(sizes, coordinates) && axis < |sizes|
    ensures Product(sizes[axis + 1..]) > 0
    ensures ExpertCoordinate(upper * Product(sizes) + Id(sizes, coordinates), Product(sizes[axis + 1..]), sizes[axis])
      == coordinates[axis]
  {
    ProductPositive(sizes[axis + 1..]);
    var tail, rest := Product(sizes[1..]), Id(sizes[1..], coordinates[1..]);
    Regroup(upper, sizes[0], coordinates[0], tail, rest);
    if axis == 0 {
      IdBelow(sizes[1..], coordinates[1..]);
      CoordinateOf(upper, coordinates[0], rest, tail, sizes[0]);
    } else {
      ExpertCoordinateIsAxis(sizes[1..], coordinates[1..], axis - 1, upper * sizes[0] + coordinates[0]);
      assert sizes[1..][axis..] == sizes[axis + 1..];
    }
  }

  lemma Regroup(upper: nat, size: nat, c: nat, tail: nat, rest: nat)
    ensures upper * (size * tail) + (c * tail + rest) == (upper * size + c) * tail + rest
  {
    Distribute(upper * size, c, tail);
    assert upper * size * tail == upper * (size * tail);
  }

  // ----- replica groups -----

  /** Member `c` of the group rooted at `root`. */
  function Member(sizes: seq<nat>, axis: nat, root: nat, c: nat): nat
    requires axis < |sizes|
  {
    root + c * Product(sizes[axis + 1..])
  }

  ghost predicate Root(sizes: seq<nat>, axis: nat, id: nat)
    requires Mesh(sizes) && axis < |sizes|
  {
    id < Product(sizes) && Coordinates(sizes, id)[axis] == 0
  }

  /** The emitted test selects exactly the devices whose expert coordinate is zero. */
  lemma RootTest(sizes: seq<nat>, axis: nat, id: nat)
    requires Mesh(sizes) && axis < |sizes| && id < Product(sizes)
    ensures Product(sizes[axis + 1..]) > 0
    ensures ExpertCoordinate(id, Product(sizes[axis + 1..]), sizes[axis]) == Coordinates(sizes, id)[axis]
  {
    IdOfCoordinates(sizes, id);
    ExpertCoordinateIsAxis(sizes, Coordinates(sizes, id), axis, 0);
  }

  /** Members of a group differ from the root in the expert coordinate only. */
  lemma MemberCoordinates(sizes: seq<nat>, axis: nat, root: nat, c: nat)
    requires Mesh(sizes) && axis < |sizes| && Root(sizes, axis, root) && c < sizes[axis]
    ensures Member(sizes, axis, root, c) < Product(sizes)
    ensures Coordinates(sizes, Member(sizes, axis, root, c)) == Coordinates(sizes, root)[axis := c]
  {
    var coordinates := Coordinates(sizes, root);
    IdOfCoordinates(sizes, root);
    assert coordinates[axis := 0] == coordinates;
    IdStride(sizes, coordinates, axis, c);
    SetCoordinate(sizes, coordinates, axis, c);
  }

  /** Coordinates with one of them replaced are those of a device. */
  lemma SetCoordinate(sizes: seq<nat>, coordinates: seq<nat>, axis: nat, c: nat)
    requires Mesh(sizes) && Within(sizes, coordinates) && axis < |sizes| && c < sizes[axis]
    ensures Within(sizes, coordinates[axis := c]) && Id(sizes, coordinates[axis := c]) < Product(sizes)
    ensures Coordinates(sizes, Id(sizes, coordinates[axis := c])) == coordinates[axis := c]
  {
    IdBelow(sizes, coordinates[axis := c]);
    CoordinatesOfId(sizes, coordinates[axis := c]);
  }

  /** Every device belongs to the group of the device with its expert coordinate cleared. */
  lemma MemberOf(sizes: seq<nat>, axis: nat, id: nat)
    requires Mesh(sizes) && axis < |sizes| && id < Product(sizes)
    ensures var coordinates := Coordinates(sizes, id);
            var root := Id(sizes, coordinates[axis := 0]);
            && Root(sizes, axis, root) && coordinates[axis] < sizes[axis]
            && Member(sizes, axis, root, coordinates[axis]) == id
  {
    var coordinates := Coordinates(sizes, id);
    IdOfCoordinates(sizes, id);
    SetCoordinate(sizes, coordinates, axis, 0);
    IdStride(sizes, coordinates, axis, coordinates[axis]);
    assert coordinates[axis := coordinates[axis]] == coordinates;
  }

  ghost predicate GroupOf(sizes: seq<nat>, axis: nat, root: nat, group: seq<int>)
    requires axis < |sizes|
  {
    |group| == sizes[axis] && forall c :: 0 <= c < |group| ==> group[c] == Member(sizes, axis, root, c)
  }

  /** `groups` lists the group of every root below `limit`, once each, in increasing root order. */
  ghost predicate GroupsBelow(sizes: seq<nat>, axis: nat, limit: nat, roots: seq<nat>, groups: seq<seq<int>>)
    requires Mesh(sizes) && axis < |sizes|
  {
    && |roots| == |groups|
    && (forall i :: 0 <= i < |roots| ==>
      roots[i] < limit && Root(sizes, axis, roots[i]) && GroupOf(sizes, axis, roots[i], groups[i]))
    && (forall i, j :: 0 <= i < j < |roots| ==> roots[i] < roots[j])
    && (forall root: nat :: root < limit && Root(sizes, axis, root) ==> root in roots)
  }

  /** The numbers below `limit` that pass a test, in increasing order. */
  ghost function Filter(test: nat -> bool, limit: nat): seq<nat> {
    if limit == 0 then [] else Filter(test, limit - 1) + if test(limit - 1) then [limit - 1] else []
  }

  lemma {:induction false} FilterMembers(test: nat -> bool, limit: nat)
    ensures forall i :: 0 <= i < |Filter(test, limit)| ==>
      Filter(test, limit)[i] < limit && test(Filter(test, limit)[i])
    ensures forall i, j :: 0 <= i < j < |Filter(test, limit)| ==> Filter(test, limit)[i] < Filter(test, limit)[j]
    ensures forall r: nat :: r < limit && test(r) ==> r in Filter(test, limit)
  {
    if limit > 0 {
      FilterMembers(test, limit - 1);
      var before := Filter(test, limit - 1);
      assert test(limit - 1) ==> (before + [limit - 1])[|before|] == limit - 1;
    }
  }

  ghost function RootTests(sizes: seq<nat>, axis: nat): nat -> bool
    requires Mesh(sizes) && axis < |sizes|
  {
    (root: nat) => Root(sizes, axis, root)
  }

  function GroupAt(size: nat, later: nat, root: nat): seq<int> {
    seq(size, c => root + c * later)
  }

  function GroupsAt(size: nat, later: nat, roots: seq<nat>): (groups: seq<seq<int>>)
    ensures |groups| == |roots|
  {
    if roots == [] then [] else GroupsAt(size, later, roots[..|roots| - 1]) + [GroupAt(size, later, roots[|roots| - 1])]
  }

  lemma {:induction false} GroupsAtIndex(size: nat, later: nat, roots: seq<nat>, i: nat)
    requires i < |roots|
    ensures GroupsAt(size, later, roots)[i] == GroupAt(size, later, roots[i])
  {
    if i < |roots| - 1 {
      GroupsAtIndex(size, later, roots[..|roots| - 1], i);
    }
  }

  lemma ListedGroups(sizes: seq<nat>, axis: nat, roots: seq<nat>, groups: seq<seq<int>>)
    requires Mesh(sizes) && axis < |sizes| && roots == Filter(RootTests(sizes, axis), Product(sizes))
    requires groups == GroupsAt(sizes[axis], Product(sizes[axis + 1..]), roots)
    ensures GroupsBelow(sizes, axis, Product(sizes), roots, groups)
  {
    FilterMembers(RootTests(sizes, axis), Product(sizes));
    forall i | 0 <= i < |roots| ensures GroupOf(sizes, axis, roots[i], groups[i]) {
      GroupsAtIndex(sizes[axis], Product(sizes[axis + 1..]), roots, i);
    }
  }

  lemma GroupsPush(size: nat, later: nat, roots: seq<nat>, root: nat)
    ensures GroupsAt(size, later, roots + [root]) == GroupsAt(size, later, roots) + [GroupAt(size, later, root)]
  {
    assert (roots + [root])[..|roots|] == roots;
  }

  /** One candidate: the emitted test decides whether it joins the roots. */
  lemma NextRoot(sizes: seq<nat>, axis: nat, root: nat)
    requires Mesh(sizes) && axis < |sizes| && root < Product(sizes)
    ensures Product(sizes[axis + 1..]) > 0
    ensures
      var before := Filter(RootTests(sizes, axis), root);
      Filter(RootTests(sizes, axis), root + 1)
      == if ExpertCoordinate(root, Product(sizes[axis + 1..]), sizes[axis]) == 0 then before + [root] else before
  {
    RootTest(sizes, axis, root);
  }

  /** The loop over candidate roots. */
  method ExpertReplicaGroups(sizes: seq<nat>, axis: nat) returns (result: Groups, ghost roots: seq<nat>)
    requires Mesh(sizes) && axis < |sizes|
    ensures result.MeshTooLarge? <==> Product(sizes) - 1 > I64_MAX
    ensures result.Groups? ==> GroupsBelow(sizes, axis, Product(sizes), roots, result.groups)
  {
    var total := Product(sizes);
    roots := [];
    if total - 1 > I64_MAX {
      return MeshTooLarge, roots;
    }
    ProductPositive(sizes[axis + 1..]);
    var later := Product(sizes[axis + 1..]);
    ghost var isRoot := RootTests(sizes, axis);
    var groups: seq<seq<int>> := [];
    for root := 0 to total
      invariant roots == Filter(isRoot, root) && groups == GroupsAt(sizes[axis], later, roots)
    {
      NextRoot(sizes, axis, root);
      if root / later % sizes[axis] == 0 {
        GroupsPush(sizes[axis], later, roots, root);
        groups, roots := groups + [GroupAt(sizes[axis], later, root)], roots + [root];
      }
    }
    ListedGroups(sizes, axis, roots, groups);
    return Groups(groups), roots;
  }

  /** The groups partition the devices: every device is in exactly one group, at its expert coordinate. */
  lemma GroupsPartition(sizes: seq<nat>, axis: nat, roots: seq<nat>, groups: seq<seq<int>>, id: nat)
    requires Mesh(sizes) && axis < |sizes| && GroupsBelow(sizes, axis, Product(sizes), roots, groups)
    requires id < Product(sizes)
    ensures exists i :: 0 <= i < |groups| && id in groups[i]
    ensures forall i, c :: 0 <= i < |groups| && 0 <= c < |groups[i]| && groups[i][c] == id ==>
      c == Coordinates(sizes, id)[axis] && Coordinates(sizes, roots[i]) == Coordinates(sizes, id)[axis := 0]
    ensures forall i, j :: 0 <= i < |groups| && 0 <= j < |groups| && id in groups[i] && id in groups[j] ==> i == j
  {
    MemberOf(sizes, axis, id);
    var coordinates := Coordinates(sizes, id);
    var root := Id(sizes, coordinates[axis := 0]);
    var k :| 0 <= k < |roots| && roots[k] == root;
    assert groups[k][coordinates[axis]] == id;
    forall i, c | 0 <= i < |groups| && 0 <= c < |groups[i]| && groups[i][c] == id
      ensures c == coordinates[axis] && Coordinates(sizes, roots[i]) == coordinates[axis := 0] && roots[i] == root
    {
      OwningGroup(sizes, axis, roots[i], groups[i], c);
    }
  }

  lemma OwningGroup(sizes: seq<nat>, axis: nat, root: nat, group: seq<int>, c: nat)
    requires Mesh(sizes) && axis < |sizes| && Root(sizes, axis, root) && GroupOf(sizes, axis, root, group)
    requires c < |group|
    ensures 0 <= group[c] < Product(sizes)
    ensures var coordinates := Coordinates(sizes, group[c]);
      && c == coordinates[axis] && Coordinates(sizes, root) == coordinates[axis := 0]
      && root == Id(sizes, coordinates[axis := 0])
  {
    MemberCoordinates(sizes, axis, root, c);
    IdOfCoordinates(sizes, root);
    assert Coordinates(sizes, root) == Coordinates(sizes, root)[axis := c][axis := 0];
  }

  // ----- how many groups there are -----

  function Elements(s: seq<int>): set<int> { set x | x in s }

  function Ids(groups: seq<seq<int>>): set<int> {
    if groups == [] then {} else Ids(groups[..|groups| - 1]) + Elements(groups[|groups| - 1])
  }

  lemma {:induction false} IdsContains(groups: seq<seq<int>>, x: int)
    ensures x in Ids(groups) <==> exists i :: 0 <= i < |groups| && x in groups[i]
  {
    if groups != [] {
      var init := groups[..|groups| - 1];
      IdsContains(init, x);
      if i :| 0 <= i < |groups| && x in groups[i] {
        assert i < |init| ==> x in init[i];
      }
      if i :| 0 <= i < |init| && x in init[i] {
        assert x in groups[i];
      }
    }
  }

  lemma {:induction false} DistinctSize(s: seq<int>)
    requires forall i, j :: 0 <= i < j < |s| ==> s[i] != s[j]
    ensures |Elements(s)| == |s|
  {
    if s != [] {
      var init := s[..|s| - 1];
      DistinctSize(init);
      assert Elements(s) == Elements(init) + {s[|s| - 1]};
    }
  }

  lemma {:induction false} DisjointSize(groups: seq<seq<int>>, width: nat)
    requires forall i :: 0 <= i < |groups| ==>
      |groups[i]| == width && forall a, b :: 0 <= a < b < width ==> groups[i][a] != groups[i][b]
    requires forall i, j, x :: 0 <= i < |groups| && 0 <= j < |groups| && x in groups[i] && x in groups[j] ==> i == j
    ensures |Ids(groups)| == |groups| * width
  {
    if groups != [] {
      var init, last := groups[..|groups| - 1], groups[|groups| - 1];
      DisjointSize(init, width);
      DistinctSize(last);
      forall x | x in Ids(init) ensures x !in last {
        IdsContains(init, x);
        var i :| 0 <= i < |init| && x in init[i];
        assert x in groups[i];
      }
      assert Ids(init) * Elements(last) == {};
      Distribute(|init|, 1, width);
    }
  }

  function Range(n: nat): set<int> {
    if n == 0 then {} else Range(n - 1) + {n - 1}
  }

  lemma {:induction false} RangeSize(n: nat)
    ensures |Range(n)| == n && forall x :: x in Range(n) <==> 0 <= x < n
  {
    if n > 0 {
      RangeSize(n - 1);
    }
  }

  lemma DistinctMembers(sizes: seq<nat>, axis: nat, root: nat, group: seq<int>)
    requires Mesh(sizes) && axis < |sizes| && Root(sizes, axis, root) && GroupOf(sizes, axis, root, group)
    ensures forall a, b :: 0 <= a < b < |group| ==> group[a] != group[b]
    ensures forall x :: x in group ==> 0 <= x < Product(sizes)
  {
    forall c | 0 <= c < |group|
      ensures 0 <= group[c] < Product(sizes) && Coordinates(sizes, group[c])[axis] == c
    {
      MemberCoordinates(sizes, axis, root, c);
    }
  }

  lemma GroupsCoverRange(sizes: seq<nat>, axis: nat, roots: seq<nat>, groups: seq<seq<int>>)
    requires Mesh(sizes) && axis < |sizes| && GroupsBelow(sizes, axis, Product(sizes), roots, groups)
    ensures Ids(groups) == Range(Product(sizes))
  {
    RangeSize(Product(sizes));
    forall x ensures x in Ids(groups) <==> x in Range(Product(sizes)) {
      IdsContains(groups, x);
      if i :| 0 <= i < |groups| && x in groups[i] {
        DistinctMembers(sizes, axis, roots[i], groups[i]);
      }
      if 0 <= x < Product(sizes) {
        GroupsPartition(sizes, axis, roots, groups, x);
      }
    }
  }

  lemma GroupsDisjoint(sizes: seq<nat>, axis: nat, roots: seq<nat>, groups: seq<seq<int>>)
    requires Mesh(sizes) && axis < |sizes| && GroupsBelow(sizes, axis, Product(sizes), roots, groups)
    ensures |Ids(groups)| == |groups| * sizes[axis]
  {
    forall i | 0 <= i < |groups|
      ensures |groups[i]| == sizes[axis] && forall a, b :: 0 <= a < b < sizes[axis] ==> groups[i][a] != groups[i][b]
    {
      DistinctMembers(sizes, axis, roots[i], groups[i]);
    }
    forall i, j, x | 0 <= i < |groups| && 0 <= j < |groups| && x in groups[i] && x in groups[j] ensures i == j {
      DistinctMembers(sizes, axis, roots[i], groups[i]);
      GroupsPartition(sizes, axis, roots, groups, x);
    }
    DisjointSize(groups, sizes[axis]);
  }

  /** There are exactly as many groups as devices per expert coordinate. */
  lemma GroupCount(sizes: seq<nat>, axis: nat, roots: seq<nat>, groups: seq<seq<int>>)
    requires Mesh(sizes) && axis < |sizes| && GroupsBelow(sizes, axis, Product(sizes), roots, groups)
    ensures |groups| == Product(sizes) / sizes[axis] && Product(sizes) % sizes[axis] == 0
  {
    GroupSizes(sizes, axis, roots, groups);
    WholeQuotient(|groups|, sizes[axis], Product(sizes));
  }

  lemma GroupSizes(sizes: seq<nat>, axis: nat, roots: seq<nat>, groups: seq<seq<int>>)
    requires Mesh(sizes) && axis < |sizes| && GroupsBelow(sizes, axis, Product(sizes), roots, groups)
    ensures sizes[axis] > 0 && Product(sizes) == |groups| * sizes[axis]
  {
    GroupsCoverRange(sizes, axis, roots, groups);
    GroupsDisjoint(sizes, axis, roots, groups);
    RangeSize(Product(sizes));
  }

  lemma WholeQuotient(q: nat, d: nat, total: nat)
    requires d > 0 && total == q * d
    ensures q == total / d && total % d == 0
  {
    QuotientOf(q, d, 0);
  }
}
