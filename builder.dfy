/** The recursive builder: a slice of point indices is split at its median
    on one axis per level, and every node is appended to a shared arena.

    The slice the builder works on is the range `[lo, hi)` of one array of
    point indices, which it reorders in place; the arena is an object whose
    node sequence only ever grows.
 */
module Builder {
  import opened Geometry
  import opened Nodes
  import opened Selection

  /** The growable vector of nodes the builder appends to. */
  class NodeArena {
    var nodes: seq<Node>

    constructor()
      ensures nodes == []
    {
      nodes := [];
    }

    /** Appends `node` and returns the position it was stored at, which is
        the arena's length before the push. */
    method Push(node: Node) returns (index: nat)
      modifies this
      ensures nodes == old(nodes) + [node]
      ensures index == old(|nodes|)
    {
      index := |nodes|;
      nodes := nodes + [node];
    }
  }

  /** The extents of a leaf over `subset[lo..hi]`: for every dimension, the
      running `min` of `lower` from the `Top` sentinel and the running `min`
      of `upper` from the `Bottom` sentinel, over the leaf's points in order. */
  method ComputeExtents(data: seq<Point>, dims: nat, subset: array<nat>, lo: nat, hi: nat)
    returns (lower: seq<Extent>, upper: seq<Extent>)
    requires ValidData(data, dims)
    requires lo <= hi <= subset.Length
    requires forall j :: lo <= j < hi ==> subset[j] < |data|
    ensures LeafExtents(data, dims, subset[lo..hi], lower, upper)
  {
    var ps := subset[lo..hi];
    assert forall k :: 0 <= k < |ps| ==> ps[k] < |data| && |data[ps[k]]| == dims;
    var lows := new Extent[dims](_ => Top);
    var ups := new Extent[dims](_ => Bottom);
    for i := 0 to dims
      invariant forall d :: 0 <= d < i ==> lows[d] == MinCoord(data, ps, d) && ups[d] == Bottom
      invariant forall d :: i <= d < dims ==> lows[d] == Top && ups[d] == Bottom
    {
      for p := 0 to hi - lo
        invariant lows[i] == MinCoord(data, ps[..p], i) && ups[i] == Bottom
        invariant forall d :: 0 <= d < i ==> lows[d] == MinCoord(data, ps, d) && ups[d] == Bottom
        invariant forall d :: i < d < dims ==> lows[d] == Top && ups[d] == Bottom
      {
        assert ps[..p + 1][..p] == ps[..p];
        lows[i] := Min(lows[i], At(data[ps[p]][i]));
        ups[i] := Min(ups[i], At(data[ps[p]][i]));
      }
      assert ps[..hi - lo] == ps;
    }
    lower, upper := lows[..], ups[..];
  }

  /** A lower bound on coordinate `dim` survives reordering. */
  lemma AllAtMostPermuted(data: seq<Point>, dim: nat, s: seq<nat>, t: seq<nat>, v: int)
    requires multiset(s) == multiset(t) && AllAtMost(data, dim, s, v)
    ensures AllAtMost(data, dim, t, v)
  {
    forall q <- t ensures q < |data| && dim < |data[q]| && data[q][dim] <= v {
      assert q in multiset(s);
      assert q in s;
    }
  }

  /** An upper bound on coordinate `dim` survives reordering. */
  lemma AllAtLeastPermuted(data: seq<Point>, dim: nat, s: seq<nat>, t: seq<nat>, v: int)
    requires multiset(s) == multiset(t) && AllAtLeast(data, dim, s, v)
    ensures AllAtLeast(data, dim, t, v)
  {
    forall q <- t ensures q < |data| && dim < |data[q]| && v <= data[q][dim] {
      assert q in multiset(s);
      assert q in s;
    }
  }

  /** What the selection leaves around the middle index, stated on the
      points before and after it. */
  lemma SelectedBounds(data: seq<Point>, dim: nat, s: seq<nat>, lo: nat, mid: nat, hi: nat)
    requires lo <= mid < hi <= |s|
    requires SplitAt(data, dim, s, lo, mid, hi)
    ensures AllAtMost(data, dim, s[lo..mid], data[s[mid]][dim])
    ensures AllAtLeast(data, dim, s[mid + 1..hi], data[s[mid]][dim])
  {
    var key := data[s[mid]][dim];
    forall q <- s[lo..mid] ensures q < |data| && dim < |data[q]| && data[q][dim] <= key {
      var j :| lo <= j < mid && s[j] == q;
    }
    forall q <- s[mid + 1..hi] ensures q < |data| && dim < |data[q]| && key <= data[q][dim] {
      var j :| mid + 1 <= j < hi && s[j] == q;
    }
  }

  /** The selection half of the stem case of `BuildNodes`: `selected` is the
      array after the selection, `afterLeft` after the left part is built and
      `final` after the right part. The two parts still lie on their sides of
      the median. */
  lemma SidesKept(data: seq<Point>, dim: nat, lo: nat, mid: nat, hi: nat,
                  selected: seq<nat>, afterLeft: seq<nat>, final: seq<nat>)
    requires lo <= mid < hi <= |selected|
    requires SplitAt(data, dim, selected, lo, mid, hi)
    requires Permuted(selected, afterLeft, lo, mid) && Permuted(afterLeft, final, mid + 1, hi)
    ensures final[mid] == selected[mid]
    ensures final[lo..mid] == afterLeft[lo..mid]
    ensures AllAtMost(data, dim, final[lo..mid], data[selected[mid]][dim])
    ensures AllAtLeast(data, dim, final[mid + 1..hi], data[selected[mid]][dim])
  {
    var key := data[selected[mid]][dim];
    SelectedBounds(data, dim, selected, lo, mid, hi);
    PrefixKept(afterLeft, final, mid + 1, hi, lo, mid);
    PrefixKept(afterLeft, final, mid + 1, hi, mid, mid + 1);
    SuffixKept(selected, afterLeft, lo, mid, mid, hi);
    SuffixKept(selected, afterLeft, lo, mid, mid + 1, hi);
    AllAtMostPermuted(data, dim, selected[lo..mid], final[lo..mid], key);
    AllAtLeastPermuted(data, dim, selected[mid + 1..hi], final[mid + 1..hi], key);
  }

  /** What one call of the builder achieves. Called on the range `[lo, hi)`
      of an index array holding `before`, with the arena holding
      `nodesBefore`, it leaves the array holding `after` and the arena holding
      `nodesAfter`: the arena was only appended to, the appended positions
      hold `shape` in post-order with its root at `index`, the last position,
      `shape` is a k-d subtree for incoming split level `level`, the array was
      only reordered inside the range, and the range now lists the subtree's
      points in order. */
  ghost predicate Built(data: seq<Point>, dims: nat, leafsize: nat, level: nat, lo: nat, hi: nat,
                        before: seq<nat>, after: seq<nat>, nodesBefore: seq<Node>, nodesAfter: seq<Node>,
                        index: nat, shape: Shape)
    requires dims >= 1 && ValidData(data, dims)
  {
    && nodesBefore <= nodesAfter
    && |nodesBefore| <= index && index + 1 == |nodesAfter|
    && Stored(nodesAfter, shape, |nodesBefore|, index)
    && KdShape(data, dims, leafsize, shape, level)
    && Permuted(before, after, lo, hi)
    && Points(shape) == after[lo..hi]
  }

  /** The arena facts of the stem case: the stem appended after the two
      subtrees stores the stem shape from the first subtree's base. */
  lemma StemStored(base: seq<Node>, leftNodes: seq<Node>, rightNodes: seq<Node>, nodes: seq<Node>,
                   left: nat, right: nat, dim: nat, median: nat, leftShape: Shape, rightShape: Shape)
    requires base <= leftNodes <= rightNodes
    requires |base| <= left && left + 1 == |leftNodes| && Stored(leftNodes, leftShape, |base|, left)
    requires |leftNodes| <= right && right + 1 == |rightNodes| && Stored(rightNodes, rightShape, |leftNodes|, right)
    requires nodes == rightNodes + [Stem(dim, median, left, right)]
    ensures base <= nodes
    ensures Stored(nodes, StemShape(dim, median, leftShape, rightShape), |base|, |rightNodes|)
  {
    StoredExtends(leftNodes, nodes, leftShape, |base|, left);
    StoredExtends(rightNodes, nodes, rightShape, left + 1, right);
  }

  /** The k-d half of the stem case: a range longer than `leafsize`,
      selected at its middle index on the level's axis, whose left part and
      then right part were built into `leftShape` and `rightShape`, forms a
      k-d stem whose points are the range in its final order. */
  lemma StemKd(data: seq<Point>, dims: nat, leafsize: nat, splitLevel: nat, lo: nat, mid: nat, hi: nat,
               selected: seq<nat>, afterLeft: seq<nat>, final: seq<nat>, leftShape: Shape, rightShape: Shape)
    requires dims >= 1 && ValidData(data, dims)
    requires hi - lo > leafsize && mid == lo + (hi - lo) / 2 && hi <= |selected|
    requires SplitAt(data, (splitLevel + 1) % dims, selected, lo, mid, hi)
    requires Permuted(selected, afterLeft, lo, mid) && Permuted(afterLeft, final, mid + 1, hi)
    requires KdShape(data, dims, leafsize, leftShape, splitLevel + 1) && Points(leftShape) == afterLeft[lo..mid]
    requires KdShape(data, dims, leafsize, rightShape, splitLevel + 1) && Points(rightShape) == final[mid + 1..hi]
    ensures KdShape(data, dims, leafsize, StemShape((splitLevel + 1) % dims, selected[mid], leftShape, rightShape),
                    splitLevel)
    ensures Points(StemShape((splitLevel + 1) % dims, selected[mid], leftShape, rightShape)) == final[lo..hi]
  {
    var dim, median := (splitLevel + 1) % dims, selected[mid];
    SidesKept(data, dim, lo, mid, hi, selected, afterLeft, final);
    assert final[lo..hi] == final[lo..mid] + [median] + final[mid + 1..hi];
  }

  /** The stem case of the builder: a range longer than `leafsize`, selected
      at its middle index on the level's axis, whose left and right parts were
      then built in turn, is built once the stem is appended. */
  lemma StemBuilt(data: seq<Point>, dims: nat, leafsize: nat, splitLevel: nat, lo: nat, mid: nat, hi: nat,
                  start: seq<nat>, selected: seq<nat>, afterLeft: seq<nat>, final: seq<nat>,
                  base: seq<Node>, leftNodes: seq<Node>, rightNodes: seq<Node>, nodes: seq<Node>,
                  left: nat, right: nat, leftShape: Shape, rightShape: Shape)
    requires dims >= 1 && ValidData(data, dims)
    requires hi - lo > leafsize && mid == lo + (hi - lo) / 2 && hi <= |selected|
    requires SplitAt(data, (splitLevel + 1) % dims, selected, lo, mid, hi)
    requires Permuted(start, selected, lo, hi)
    requires Built(data, dims, leafsize, splitLevel + 1, lo, mid, selected, afterLeft, base, leftNodes, left, leftShape)
    requires Built(data, dims, leafsize, splitLevel + 1, mid + 1, hi, afterLeft, final, leftNodes, rightNodes, right, rightShape)
    requires nodes == rightNodes + [Stem((splitLevel + 1) % dims, selected[mid], left, right)]
    ensures Built(data, dims, leafsize, splitLevel, lo, hi, start, final, base, nodes, |rightNodes|,
                  StemShape((splitLevel + 1) % dims, selected[mid], leftShape, rightShape))
  {
    var dim, median := (splitLevel + 1) % dims, selected[mid];
    StemStored(base, leftNodes, rightNodes, nodes, left, right, dim, median, leftShape, rightShape);
    StemKd(data, dims, leafsize, splitLevel, lo, mid, hi, selected, afterLeft, final, leftShape, rightShape);
    PermutedTrans(start, selected, afterLeft, lo, hi, lo, mid);
    PermutedTrans(start, afterLeft, final, lo, hi, mid + 1, hi);
  }

  /** The leaf case of `BuildNodes`: the points of `subset[lo..hi]`, in
      order, become one leaf with their extents. */
  method BuildLeaf(data: seq<Point>, dims: nat, subset: array<nat>, lo: nat, hi: nat,
                   splitLevel: nat, leafsize: nat, arena: NodeArena)
    returns (index: nat, ghost shape: Shape)
    requires dims >= 1 && ValidData(data, dims)
    requires lo <= hi <= subset.Length && hi - lo <= leafsize
    requires forall j :: lo <= j < hi ==> subset[j] < |data|
    modifies arena
    ensures Built(data, dims, leafsize, splitLevel, lo, hi, subset[..], subset[..],
                  old(arena.nodes), arena.nodes, index, shape)
  {
    var lower, upper := ComputeExtents(data, dims, subset, lo, hi);
    index := arena.Push(Leaf(subset[lo..hi], lower, upper));
    shape := LeafShape(subset[lo..hi], lower, upper);
  }

  /** Builds the subtree for `subset[lo..hi]` at incoming split level
      `splitLevel`, appends its nodes to `arena` in post-order and returns
      the position of its root, along with the subtree as a value. A range
      of at most `leafsize` points becomes one leaf; a longer one is split
      around the element selected at its middle index on axis
      `(splitLevel + 1) % dims`, its left part and then its right part are
      built, and the stem is appended last. */
  method BuildNodes(data: seq<Point>, dims: nat, subset: array<nat>, lo: nat, hi: nat,
                    splitLevel: nat, leafsize: nat, arena: NodeArena)
    returns (index: nat, ghost shape: Shape)
    requires dims >= 1 && ValidData(data, dims)
    requires lo <= hi <= subset.Length
    requires forall j :: lo <= j < hi ==> subset[j] < |data|
    modifies subset, arena
    decreases hi - lo, 1
    ensures Built(data, dims, leafsize, splitLevel, lo, hi, old(subset[..]), subset[..],
                  old(arena.nodes), arena.nodes, index, shape)
    ensures hi - lo <= leafsize ==> subset[..] == old(subset[..])
  {
    if hi - lo <= leafsize {
      index, shape := BuildLeaf(data, dims, subset, lo, hi, splitLevel, leafsize, arena);
    } else {
      index, shape := BuildStem(data, dims, subset, lo, hi, splitLevel, leafsize, arena);
    }
  }

  /** The stem case of `BuildNodes`: selects the middle element of
      `subset[lo..hi]` on the split axis, builds the left part and then the
      right part, and appends the stem over them. */
  method BuildStem(data: seq<Point>, dims: nat, subset: array<nat>, lo: nat, hi: nat,
                   splitLevel: nat, leafsize: nat, arena: NodeArena)
    returns (index: nat, ghost shape: Shape)
    requires dims >= 1 && ValidData(data, dims)
    requires lo <= hi <= subset.Length && hi - lo > leafsize
    requires forall j :: lo <= j < hi ==> subset[j] < |data|
    modifies subset, arena
    decreases hi - lo, 0
    ensures Built(data, dims, leafsize, splitLevel, lo, hi, old(subset[..]), subset[..],
                  old(arena.nodes), arena.nodes, index, shape)
  {
    var level := splitLevel + 1;
    var splitDim := level % dims;
    var mid := lo + (hi - lo) / 2;
    ghost var start, base := subset[..], arena.nodes;
    SelectNth(data, splitDim, subset, lo, hi, mid);
    var median := subset[mid];
    ghost var selected := subset[..];
    var left, leftShape := BuildNodes(data, dims, subset, lo, mid, level, leafsize, arena);
    ghost var afterLeft, leftNodes := subset[..], arena.nodes;
    SuffixKept(selected, afterLeft, lo, mid, mid + 1, hi);
    var right, rightShape := BuildNodes(data, dims, subset, mid + 1, hi, level, leafsize, arena);
    ghost var final, rightNodes := subset[..], arena.nodes;
    index := arena.Push(Stem(splitDim, median, left, right));
    shape := StemShape(splitDim, median, leftShape, rightShape);
    StemBuilt(data, dims, leafsize, splitLevel, lo, mid, hi, start, selected, afterLeft, final,
              base, leftNodes, rightNodes, arena.nodes, left, right, leftShape, rightShape);
  }
}
