/** The nodes of the tree, the flat arena that holds them, and what it means
    for a stretch of that arena to hold a k-d subtree built from a given slice.

    Nodes refer to points by their index into the tree's `data` and to other
    nodes by their position in the arena. A subtree is also described as a
    recursive value, a `Shape`, which `Stored` ties to the arena positions
    that hold it.
 */
module Nodes {
  import opened Geometry

  /** A node of the arena. A `Stem` holds the split axis, the median point and
      the arena positions of its two children; a `Leaf` holds its points in
      slice order and the per-dimension extents computed for them. */
  datatype Node =
    | Stem(splitDim: nat, point: nat, left: nat, right: nat)
    | Leaf(points: seq<nat>, lower: seq<Extent>, upper: seq<Extent>)
  {
    /** Whether the node is a stem rather than a leaf. */
    predicate IsStem(): (b: bool)
      ensures b <==> this.Stem?
      ensures !b <==> this.Leaf?
    {
      match this
      case Stem(_, _, _, _) => true
      case Leaf(_, _, _) => false
    }
  }

  /** A subtree as a value: a leaf as stored, or a stem with its two subtrees. */
  datatype Shape =
    | LeafShape(points: seq<nat>, lower: seq<Extent>, upper: seq<Extent>)
    | StemShape(splitDim: nat, point: nat, left: Shape, right: Shape)

  /** The points of a subtree in order: a leaf's points, or the left
      subtree's points, the median, the right subtree's. */
  function Points(t: Shape): seq<nat> {
    match t
    case LeafShape(ps, _, _) => ps
    case StemShape(_, p, l, r) => Points(l) + [p] + Points(r)
  }

  /** The number of nodes of a subtree. */
  function NodeCount(t: Shape): nat {
    match t
    case LeafShape(_, _, _) => 1
    case StemShape(_, _, l, r) => NodeCount(l) + NodeCount(r) + 1
  }

  /** The number of leaves of a subtree. */
  function Leaves(t: Shape): nat {
    match t
    case LeafShape(_, _, _) => 1
    case StemShape(_, _, l, r) => Leaves(l) + Leaves(r)
  }

  /** Arena positions `base` to `i` hold `t` in post-order: its left subtree,
      then its right subtree, then its root at `i`. */
  ghost predicate Stored(nodes: seq<Node>, t: Shape, base: nat, i: nat) {
    i < |nodes| &&
    match t
    case LeafShape(ps, lower, upper) => base == i && nodes[i] == Leaf(ps, lower, upper)
    case StemShape(d, p, l, r) =>
      && nodes[i].Stem? && nodes[i].splitDim == d && nodes[i].point == p
      && base <= nodes[i].left < nodes[i].right && nodes[i].right + 1 == i
      && Stored(nodes, l, base, nodes[i].left)
      && Stored(nodes, r, nodes[i].left + 1, nodes[i].right)
  }

  /** The running minimum of coordinate `dim` over `ps`, from the `Top`
      sentinel, in the order the builder's inner loop visits the points. */
  function MinCoord(data: seq<Point>, ps: seq<nat>, dim: nat): Extent
    requires forall k :: 0 <= k < |ps| ==> ps[k] < |data| && dim < |data[ps[k]]|
  {
    if ps == [] then Top
    else Min(MinCoord(data, ps[..|ps| - 1], dim), At(data[ps[|ps| - 1]][dim]))
  }

  /** The extents a leaf over `ps` is given: `lower` the running minimum per
      dimension, and `upper` left at its `Bottom` sentinel, since the builder
      reduces it with `min` as well. */
  ghost predicate LeafExtents(data: seq<Point>, dims: nat, ps: seq<nat>, lower: seq<Extent>, upper: seq<Extent>)
    requires ValidData(data, dims) && forall k :: 0 <= k < |ps| ==> ps[k] < |data|
  {
    |lower| == dims && |upper| == dims &&
    forall i :: 0 <= i < dims ==> lower[i] == MinCoord(data, ps, i) && upper[i] == Bottom
  }

  /** Every point of `qs` has coordinate `dim` at most `v`. */
  ghost predicate AllAtMost(data: seq<Point>, dim: nat, qs: seq<nat>, v: int) {
    forall q <- qs :: q < |data| && dim < |data[q]| && data[q][dim] <= v
  }

  /** Every point of `qs` has coordinate `dim` at least `v`. */
  ghost predicate AllAtLeast(data: seq<Point>, dim: nat, qs: seq<nat>, v: int) {
    forall q <- qs :: q < |data| && dim < |data[q]| && v <= data[q][dim]
  }

  /** `t` is the subtree a builder call with incoming split level `level`
      produces: a leaf for at most `leafsize` points, with its extents;
      otherwise a stem that splits on axis `(level + 1) % dims`, whose left
      subtree holds `n / 2` of its `n` points, none above the median on that
      axis, and whose right subtree holds the rest, none below it. */
  ghost predicate KdShape(data: seq<Point>, dims: nat, leafsize: nat, t: Shape, level: nat)
    requires dims >= 1 && ValidData(data, dims)
  {
    match t
    case LeafShape(ps, lower, upper) =>
      && |ps| <= leafsize
      && (forall k :: 0 <= k < |ps| ==> ps[k] < |data|)
      && LeafExtents(data, dims, ps, lower, upper)
    case StemShape(dim, p, l, r) =>
      && dim == (level + 1) % dims
      && p < |data|
      && KdShape(data, dims, leafsize, l, level + 1)
      && KdShape(data, dims, leafsize, r, level + 1)
      && |Points(l)| + 1 + |Points(r)| > leafsize
      && |Points(l)| == (|Points(l)| + 1 + |Points(r)|) / 2
      && AllAtMost(data, dim, Points(l), data[p][dim])
      && AllAtLeast(data, dim, Points(r), data[p][dim])
  }

  /** Children are stored before their parent, the left child before the right. */
  predicate PostOrder(nodes: seq<Node>) {
    forall i :: 0 <= i < |nodes| && nodes[i].Stem? ==> nodes[i].left < nodes[i].right < i
  }

  /** Position `j` is the left or right child of the stem at position `s`. */
  predicate ChildOf(nodes: seq<Node>, j: nat, s: nat) {
    s < |nodes| && nodes[s].Stem? && (nodes[s].left == j || nodes[s].right == j)
  }

  /** Some stem after position `j`, at most at position `i`, has `j` as a child. */
  ghost predicate HasParent(nodes: seq<Node>, j: nat, i: nat) {
    exists s :: j < s <= i && ChildOf(nodes, j, s)
  }

  /** The number of leaves at arena positions `lo` to `hi - 1`. */
  function LeafCount(nodes: seq<Node>, lo: nat, hi: nat): nat
    requires lo <= hi <= |nodes|
    decreases hi
  {
    if lo == hi then 0
    else LeafCount(nodes, lo, hi - 1) + (if nodes[hi - 1].IsStem() then 0 else 1)
  }

  /** The points a node holds itself: a leaf's points, or a stem's median. */
  function NodePoints(node: Node): multiset<nat> {
    match node
    case Stem(_, p, _, _) => multiset{p}
    case Leaf(ps, _, _) => multiset(ps)
  }

  /** All points held by the nodes at arena positions `lo` to `hi - 1`,
      with multiplicity. */
  function Placed(nodes: seq<Node>, lo: nat, hi: nat): multiset<nat>
    requires lo <= hi <= |nodes|
    decreases hi
  {
    if lo == hi then multiset{}
    else Placed(nodes, lo, hi - 1) + NodePoints(nodes[hi - 1])
  }

  /** `MinCoord` is at most coordinate `dim` of every point of `ps`. */
  lemma {:induction false} MinCoordBelow(data: seq<Point>, ps: seq<nat>, dim: nat)
    requires forall k :: 0 <= k < |ps| ==> ps[k] < |data| && dim < |data[ps[k]]|
    ensures forall k :: 0 <= k < |ps| ==> Le(MinCoord(data, ps, dim), At(data[ps[k]][dim]))
  {
    if ps != [] {
      var init := ps[..|ps| - 1];
      MinCoordBelow(data, init, dim);
      var m, mp := MinCoord(data, init, dim), MinCoord(data, ps, dim);
      forall k | 0 <= k < |ps| ensures Le(mp, At(data[ps[k]][dim])) {
        if k < |ps| - 1 {
          assert init[k] == ps[k];
          LeTransitive(mp, m, At(data[ps[k]][dim]));
        }
      }
    }
  }

  /** `MinCoord` is the `Top` sentinel for no points, and otherwise
      coordinate `dim` of one of them. */
  lemma {:induction false} MinCoordAttained(data: seq<Point>, ps: seq<nat>, dim: nat)
    requires forall k :: 0 <= k < |ps| ==> ps[k] < |data| && dim < |data[ps[k]]|
    ensures ps == [] ==> MinCoord(data, ps, dim) == Top
    ensures ps != [] ==> exists k :: 0 <= k < |ps| && MinCoord(data, ps, dim) == At(data[ps[k]][dim])
  {
    if ps != [] {
      var init, n := ps[..|ps| - 1], |ps| - 1;
      MinCoordAttained(data, init, dim);
      var m, x := MinCoord(data, init, dim), At(data[ps[n]][dim]);
      if init == [] || !Le(m, x) {
        assert MinCoord(data, ps, dim) == x;
      } else {
        var k :| 0 <= k < n && m == At(data[init[k]][dim]);
        assert init[k] == ps[k];
        assert MinCoord(data, ps, dim) == At(data[ps[k]][dim]);
      }
    }
  }

  /** A subtree with `n` leaves has `2 * n - 1` nodes, since every stem has
      exactly two children. */
  lemma {:induction false} NodesOfLeaves(t: Shape)
    ensures NodeCount(t) == 2 * Leaves(t) - 1
  {
    match t
    case LeafShape(_, _, _) =>
    case StemShape(_, _, l, r) =>
      NodesOfLeaves(l);
      NodesOfLeaves(r);
  }

  /** A subtree whose points fit in one leaf is that leaf. */
  lemma OneLeafWhenFits(data: seq<Point>, dims: nat, leafsize: nat, t: Shape, level: nat)
    requires dims >= 1 && ValidData(data, dims) && KdShape(data, dims, leafsize, t, level)
    requires |Points(t)| <= leafsize
    ensures t.LeafShape? && t.points == Points(t)
  {
  }

  /** With `leafsize >= 4`, a subtree built from at least one point is a
      leaf of between 1 and `leafsize` points, or a stem both of whose halves
      keep at least 2 points: a split slice has more than 4. */
  lemma LeafSizes(data: seq<Point>, dims: nat, leafsize: nat, t: Shape, level: nat)
    requires dims >= 1 && ValidData(data, dims) && KdShape(data, dims, leafsize, t, level)
    requires leafsize >= 4 && |Points(t)| >= 1
    ensures t.LeafShape? ==> 1 <= |t.points| <= leafsize
    ensures t.StemShape? ==> |Points(t.left)| >= 2 && |Points(t.right)| >= 2
  {
  }

  /** Appending nodes to the arena leaves a stored subtree where it was. */
  lemma {:induction false} StoredExtends(nodes: seq<Node>, more: seq<Node>, t: Shape, base: nat, i: nat)
    requires nodes <= more && Stored(nodes, t, base, i)
    ensures Stored(more, t, base, i)
  {
    assert more[i] == nodes[i];
    match t
    case LeafShape(_, _, _) =>
    case StemShape(_, _, l, r) =>
      StoredExtends(nodes, more, l, base, nodes[i].left);
      StoredExtends(nodes, more, r, nodes[i].left + 1, nodes[i].right);
  }

  /** A stored subtree of `n` nodes occupies exactly the `n` positions from
      `base` to its root. */
  lemma {:induction false} StoredSpan(nodes: seq<Node>, t: Shape, base: nat, i: nat)
    requires Stored(nodes, t, base, i)
    ensures base <= i && i - base + 1 == NodeCount(t)
  {
    match t
    case LeafShape(_, _, _) =>
    case StemShape(_, _, l, r) =>
      StoredSpan(nodes, l, base, nodes[i].left);
      StoredSpan(nodes, r, nodes[i].left + 1, nodes[i].right);
  }

  lemma {:induction false} LeafCountSplit(nodes: seq<Node>, lo: nat, mid: nat, hi: nat)
    requires lo <= mid <= hi <= |nodes|
    ensures LeafCount(nodes, lo, hi) == LeafCount(nodes, lo, mid) + LeafCount(nodes, mid, hi)
    decreases hi
  {
    if mid < hi {
      LeafCountSplit(nodes, lo, mid, hi - 1);
    }
  }

  lemma {:induction false} PlacedSplit(nodes: seq<Node>, lo: nat, mid: nat, hi: nat)
    requires lo <= mid <= hi <= |nodes|
    ensures Placed(nodes, lo, hi) == Placed(nodes, lo, mid) + Placed(nodes, mid, hi)
    decreases hi
  {
    if mid < hi {
      PlacedSplit(nodes, lo, mid, hi - 1);
    }
  }

  /** The arena positions of a stored subtree hold exactly as many leaves as
      the subtree has. */
  lemma {:induction false} StoredLeaves(nodes: seq<Node>, t: Shape, base: nat, i: nat)
    requires Stored(nodes, t, base, i)
    ensures base <= i && LeafCount(nodes, base, i + 1) == Leaves(t)
  {
    match t
    case LeafShape(_, _, _) =>
    case StemShape(_, _, l, r) =>
      var left := nodes[i].left;
      StoredLeaves(nodes, l, base, left);
      StoredLeaves(nodes, r, left + 1, nodes[i].right);
      LeafCountSplit(nodes, base, left + 1, i);
  }

  /** The points held by the nodes of a stored subtree, leaves' points and
      stems' medians, are exactly the subtree's points, each as often as it
      lists them. */
  lemma {:induction false} StoredPlaced(nodes: seq<Node>, t: Shape, base: nat, i: nat)
    requires Stored(nodes, t, base, i)
    ensures base <= i && Placed(nodes, base, i + 1) == multiset(Points(t))
  {
    match t
    case LeafShape(ps, _, _) =>
      assert Placed(nodes, i, i + 1) == multiset{} + multiset(ps);
    case StemShape(_, p, l, r) =>
      var left := nodes[i].left;
      StoredPlaced(nodes, l, base, left);
      StoredPlaced(nodes, r, left + 1, nodes[i].right);
      PlacedStem(nodes, base, left, i, p, multiset(Points(l)), multiset(Points(r)));
      assert multiset(Points(t)) == multiset(Points(l)) + multiset{p} + multiset(Points(r));
  }

  /** An arena that holds one stored subtree, root last, places exactly the
      points of that subtree, here named `m`. */
  lemma ArenaPlaced(nodes: seq<Node>, t: Shape, i: nat, m: multiset<nat>)
    requires Stored(nodes, t, 0, i) && i + 1 == |nodes| && multiset(Points(t)) == m
    ensures Placed(nodes, 0, |nodes|) == m
  {
    StoredPlaced(nodes, t, 0, i);
  }

  /** The step of `StoredPlaced` at a stem at position `i` with median `p`,
      whose left subtree occupies positions `base` to `l` and whose right
      subtree the positions after `l` up to `i`. */
  lemma PlacedStem(nodes: seq<Node>, base: nat, l: nat, i: nat, p: nat, x: multiset<nat>, y: multiset<nat>)
    requires base <= l < i < |nodes| && NodePoints(nodes[i]) == multiset{p}
    requires Placed(nodes, base, l + 1) == x && Placed(nodes, l + 1, i) == y
    ensures Placed(nodes, base, i + 1) == x + multiset{p} + y
  {
    PlacedSplit(nodes, base, l + 1, i + 1);
    PlacedLast(nodes, l + 1, i + 1);
    UnionStep(Placed(nodes, base, i + 1), Placed(nodes, base, l + 1), Placed(nodes, l + 1, i + 1),
              Placed(nodes, l + 1, i), NodePoints(nodes[i]), x, y, multiset{p});
  }

  /** `Placed` over a non-empty range: the last node's points join the rest. */
  lemma PlacedLast(nodes: seq<Node>, lo: nat, hi: nat)
    requires lo < hi <= |nodes|
    ensures Placed(nodes, lo, hi) == Placed(nodes, lo, hi - 1) + NodePoints(nodes[hi - 1])
  {
  }

  /** Multiset union regrouped: `a` splits into `b` and `c`, and `c` into
      `c0` and `d`; with each part named again, `a` is `x + z + y`. */
  lemma UnionStep(a: multiset<nat>, b: multiset<nat>, c: multiset<nat>, c0: multiset<nat>, d: multiset<nat>,
                  x: multiset<nat>, y: multiset<nat>, z: multiset<nat>)
    requires a == b + c && c == c0 + d && b == x && c0 == y && d == z
    ensures a == x + z + y
  {
    forall v ensures a[v] == (x + z + y)[v] {
    }
  }

  /** Within a stored subtree every stem's children come before it, the left
      before the right. */
  lemma {:induction false} StoredPostOrder(nodes: seq<Node>, t: Shape, base: nat, i: nat)
    requires Stored(nodes, t, base, i)
    ensures forall j :: base <= j <= i && nodes[j].Stem? ==> nodes[j].left < nodes[j].right < j
  {
    match t
    case LeafShape(_, _, _) =>
    case StemShape(_, _, l, r) =>
      var left, right := nodes[i].left, nodes[i].right;
      StoredPostOrder(nodes, l, base, left);
      StoredPostOrder(nodes, r, left + 1, right);
  }

  /** Within a stored subtree every node but its root is the left or right
      child of a stem stored after it: the subtree's root is its last node. */
  lemma {:induction false} EveryOtherNodeHasAParent(nodes: seq<Node>, t: Shape, base: nat, i: nat)
    requires Stored(nodes, t, base, i)
    ensures forall j :: base <= j < i ==> HasParent(nodes, j, i)
  {
    match t
    case LeafShape(_, _, _) =>
    case StemShape(_, _, l, r) =>
      var left, right := nodes[i].left, nodes[i].right;
      StoredSpan(nodes, l, base, left);
      StoredSpan(nodes, r, left + 1, right);
      EveryOtherNodeHasAParent(nodes, l, base, left);
      EveryOtherNodeHasAParent(nodes, r, left + 1, right);
      forall j | base <= j < i
        ensures HasParent(nodes, j, i)
      {
        if j == left || j == right {
          assert ChildOf(nodes, j, i);
        } else if j < left {
          assert HasParent(nodes, j, left);
        } else {
          assert HasParent(nodes, j, right);
        }
      }
  }

  /** With `leafsize >= 4`, every leaf stored for a subtree built from at
      least one point holds between 1 and `leafsize` points. */
  lemma {:induction false} StoredLeafSizes(data: seq<Point>, dims: nat, leafsize: nat, nodes: seq<Node>,
                                           t: Shape, base: nat, i: nat, level: nat)
    requires dims >= 1 && ValidData(data, dims) && KdShape(data, dims, leafsize, t, level)
    requires Stored(nodes, t, base, i) && leafsize >= 4 && |Points(t)| >= 1
    ensures forall j :: base <= j <= i && nodes[j].Leaf? ==> 1 <= |nodes[j].points| <= leafsize
  {
    LeafSizes(data, dims, leafsize, t, level);
    match t
    case LeafShape(_, _, _) =>
    case StemShape(_, _, l, r) =>
      StoredSpan(nodes, l, base, nodes[i].left);
      StoredLeafSizes(data, dims, leafsize, nodes, l, base, nodes[i].left, level + 1);
      StoredLeafSizes(data, dims, leafsize, nodes, r, nodes[i].left + 1, nodes[i].right, level + 1);
  }

  /** A positive multiple of `d` is at least `d`. */
  lemma {:induction false} MulAtLeast(k: nat, d: nat)
    requires k >= 1
    ensures k * d >= d
  {
    if k > 1 {
      MulAtLeast(k - 1, d);
      assert k * d == (k - 1) * d + d;
    }
  }

  /** Adding the modulus does not change the remainder. */
  lemma ModStep(x: nat, d: nat)
    requires d >= 1
    ensures (x + d) % d == x % d
  {
    var q, r := x / d, x % d;
    var q2, r2 := (x + d) / d, (x + d) % d;
    assert (q2 - q - 1) * d == r - r2;
    if q2 - q - 1 >= 1 {
      MulAtLeast(q2 - q - 1, d);
    } else if q + 1 - q2 >= 1 {
      MulAtLeast(q + 1 - q2, d);
    }
  }

  /** Stepping one axis on from `a % d` is stepping from `a`. */
  lemma {:induction false} NextAxis(a: nat, d: nat)
    requires d >= 1
    ensures (a % d + 1) % d == (a + 1) % d
    decreases a
  {
    if a >= d {
      NextAxis(a - d, d);
      ModStep(a - d, d);
      ModStep(a + 1 - d, d);
    } else {
      assert a % d == a;
    }
  }

  /** A stem whose child is a stem as well splits the child on the next axis. */
  ghost predicate AxesAlternate(nodes: seq<Node>, dims: nat, j: nat)
    requires j < |nodes| && dims >= 1
  {
    nodes[j].Stem? ==>
      && (nodes[j].left < |nodes| && nodes[nodes[j].left].Stem? ==>
            nodes[nodes[j].left].splitDim == (nodes[j].splitDim + 1) % dims)
      && (nodes[j].right < |nodes| && nodes[nodes[j].right].Stem? ==>
            nodes[nodes[j].right].splitDim == (nodes[j].splitDim + 1) % dims)
  }

  /** The root of a stored k-d subtree built at split level `level` splits
      on axis `(level + 1) % dims`, and below it every stem's stem children
      split on the axis after their parent's. */
  lemma {:induction false} StoredAxes(data: seq<Point>, dims: nat, leafsize: nat, nodes: seq<Node>,
                                      t: Shape, base: nat, i: nat, level: nat)
    requires dims >= 1 && ValidData(data, dims) && KdShape(data, dims, leafsize, t, level)
    requires Stored(nodes, t, base, i)
    ensures nodes[i].Stem? ==> nodes[i].splitDim == (level + 1) % dims
    ensures forall j :: base <= j <= i ==> AxesAlternate(nodes, dims, j)
  {
    match t
    case LeafShape(_, _, _) =>
    case StemShape(_, _, l, r) =>
      var left, right := nodes[i].left, nodes[i].right;
      StoredAxes(data, dims, leafsize, nodes, l, base, left, level + 1);
      StoredAxes(data, dims, leafsize, nodes, r, left + 1, right, level + 1);
      NextAxis(level + 1, dims);
  }
}
