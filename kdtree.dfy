/** The tree as a whole: construction from a slice of points and a leaf
    size, with its two error cases, and what a constructed tree guarantees. */
module KdTree {
  import opened Geometry
  import opened Nodes
  import opened Selection
  import opened Builder

  /** The outcome of a construction: a tree, or the error message. */
  datatype Result<T> = Ok(value: T) | Err(msg: string)

  /** The indices `0, 1, …, n - 1` in order: the initial slice of point
      references the builder starts from. */
  function Indices(n: nat): (s: seq<nat>)
    ensures |s| == n && forall i :: 0 <= i < n ==> s[i] == i
  {
    seq(n, i => i)
  }

  /** Each index below `n` occurs once in `Indices(n)`, and no other does. */
  lemma {:induction false} IndicesCount(n: nat, q: nat)
    ensures multiset(Indices(n))[q] == if q < n then 1 else 0
  {
    if n > 0 {
      IndicesCount(n - 1, q);
      assert Indices(n) == Indices(n - 1) + [n - 1];
    }
  }

  /** A k-d tree over `data`, whose points all have `dims` coordinates, with
      its nodes in a flat arena. */
  datatype Tree = Tree(dims: nat, data: seq<Point>, leafsize: nat, nodes: seq<Node>)
  {
    /** The number of nodes in the arena. */
    function Size(): nat {
      |nodes|
    }

    /** The arena position of the root: the last one. */
    function Root(): nat
      requires |nodes| >= 1
    {
      |nodes| - 1
    }

    /** The arena holds, root last, the k-d subtree `t` built at split level
        zero from all of `data`. */
    ghost predicate Holds(t: Shape)
      requires dims >= 1 && ValidData(data, dims)
    {
      && |nodes| >= 1
      && Stored(nodes, t, 0, Root())
      && KdShape(data, dims, leafsize, t, 0)
      && multiset(Points(t)) == multiset(Indices(|data|))
    }

    /** What a successful construction yields: non-empty data, a leaf size
        of at least 4, and an arena holding a k-d tree over all the points. */
    ghost predicate Valid() {
      && dims >= 1 && ValidData(data, dims)
      && |data| > 0 && leafsize >= 4 && |nodes| >= 1
      && exists t :: Holds(t)
    }
  }

  /** The whole-tree conclusion of a top-level build over the identity
      slice. */
  lemma BuiltTreeValid(tree: Tree, initial: seq<nat>, final: seq<nat>, index: nat, shape: Shape)
    requires tree.dims >= 1 && ValidData(tree.data, tree.dims)
    requires |tree.data| > 0 && tree.leafsize >= 4
    requires initial == Indices(|tree.data|)
    requires Built(tree.data, tree.dims, tree.leafsize, 0, 0, |tree.data|, initial, final,
                   [], tree.nodes, index, shape)
    requires |tree.data| <= tree.leafsize ==> final == initial
    ensures tree.Valid()
    ensures |tree.data| <= tree.leafsize ==>
      |tree.nodes| == 1 && tree.nodes[0].Leaf? && tree.nodes[0].points == Indices(|tree.data|)
  {
    assert initial[0..|tree.data|] == initial;
    assert tree.Holds(shape);
    if |tree.data| <= tree.leafsize {
      OneLeafWhenFits(tree.data, tree.dims, tree.leafsize, shape, 0);
      StoredSpan(tree.nodes, shape, 0, index);
    }
  }

  /** Builds a tree over `data` with the given leaf size: fails on empty
      data, then on a leaf size below 4; otherwise builds the nodes from the
      slice of all points, in data order, at split level zero. */
  method New(data: seq<Point>, dims: nat, leafsize: nat) returns (r: Result<Tree>)
    requires ValidData(data, dims)
    requires |data| > 0 && leafsize >= 4 ==> dims >= 1
    ensures |data| == 0 ==> r == Err("data has zero length")
    ensures |data| > 0 && leafsize < 4 ==> r == Err("Choose a leafsize >= 4")
    ensures |data| > 0 && leafsize >= 4 ==>
      && r.Ok? && r.value.Valid()
      && r.value.dims == dims && r.value.data == data && r.value.leafsize == leafsize
    ensures r.Ok? && |data| <= leafsize ==>
      |r.value.nodes| == 1 && r.value.nodes[0].Leaf? && r.value.nodes[0].points == Indices(|data|)
  {
    if |data| == 0 {
      return Err("data has zero length");
    }
    if leafsize < 4 {
      return Err("Choose a leafsize >= 4");
    }
    var subset := new nat[|data|](q => q);
    ghost var initial := subset[..];
    assert initial == Indices(|data|);
    var arena := new NodeArena();
    var index, shape := BuildNodes(data, dims, subset, 0, |data|, 0, leafsize, arena);
    var tree := Tree(dims, data, leafsize, arena.nodes);
    BuiltTreeValid(tree, initial, subset[..], index, shape);
    r := Ok(tree);
  }

  /** Every point index below `|data|` is held exactly once across the
      leaves and the stem medians, and no other index is held. */
  lemma EveryPointPlacedOnce(tree: Tree, q: nat)
    requires tree.Valid()
    ensures Placed(tree.nodes, 0, |tree.nodes|)[q] == if q < |tree.data| then 1 else 0
  {
    var t :| tree.Holds(t);
    ArenaPlaced(tree.nodes, t, tree.Root(), multiset(Indices(|tree.data|)));
    IndicesCount(|tree.data|, q);
  }

  /** The arena holds one node fewer than twice its leaves. */
  lemma SizeFromLeaves(tree: Tree)
    requires tree.Valid()
    ensures tree.Size() == 2 * LeafCount(tree.nodes, 0, |tree.nodes|) - 1
  {
    var t :| tree.Holds(t);
    StoredLeaves(tree.nodes, t, 0, tree.Root());
    StoredSpan(tree.nodes, t, 0, tree.Root());
    NodesOfLeaves(t);
  }

  /** Every leaf holds between 1 and `leafsize` points. */
  lemma LeavesBounded(tree: Tree)
    requires tree.Valid()
    ensures forall j :: 0 <= j < |tree.nodes| && tree.nodes[j].Leaf? ==>
      1 <= |tree.nodes[j].points| <= tree.leafsize
  {
    var t :| tree.Holds(t);
    assert |multiset(Points(t))| == |tree.data|;
    StoredLeafSizes(tree.data, tree.dims, tree.leafsize, tree.nodes, t, 0, tree.Root(), 0);
  }

  /** Children come before their parent, left before right, and every node
      but the last, the root, is a child of some stem. */
  lemma RootLast(tree: Tree)
    requires tree.Valid()
    ensures PostOrder(tree.nodes)
    ensures forall j :: 0 <= j < tree.Root() ==> HasParent(tree.nodes, j, tree.Root())
  {
    var t :| tree.Holds(t);
    StoredPostOrder(tree.nodes, t, 0, tree.Root());
    EveryOtherNodeHasAParent(tree.nodes, t, 0, tree.Root());
  }

  /** The root splits on axis `1 % dims`, the axis after split level zero,
      and every stem's stem children split on the axis after their parent's. */
  lemma SplitAxes(tree: Tree)
    requires tree.Valid()
    ensures tree.nodes[tree.Root()].Stem? ==> tree.nodes[tree.Root()].splitDim == 1 % tree.dims
    ensures forall j :: 0 <= j < |tree.nodes| ==> AxesAlternate(tree.nodes, tree.dims, j)
  {
    var t :| tree.Holds(t);
    StoredAxes(tree.data, tree.dims, tree.leafsize, tree.nodes, t, 0, tree.Root(), 0);
  }

  /** Data that fits in one leaf gives a tree of size 1. */
  lemma SizeOneWhenFits(tree: Tree)
    requires tree.Valid() && |tree.data| <= tree.leafsize
    ensures tree.Size() == 1 && tree.nodes[0].Leaf?
  {
    var t :| tree.Holds(t);
    assert |multiset(Points(t))| == |tree.data|;
    OneLeafWhenFits(tree.data, tree.dims, tree.leafsize, t, 0);
    StoredSpan(tree.nodes, t, 0, tree.Root());
  }

  /** Data too large for one leaf, whose two halves around the median each
      fit in one, gives a tree of size 3: a stem over two leaves. */
  lemma SizeThreeWhenHalvesFit(tree: Tree)
    requires tree.Valid() && tree.leafsize < |tree.data| <= 2 * tree.leafsize + 1
    ensures tree.Size() == 3 && tree.nodes[2].Stem?
  {
    var t :| tree.Holds(t);
    assert |multiset(Points(t))| == |tree.data|;
    OneLeafWhenFits(tree.data, tree.dims, tree.leafsize, t.left, 1);
    OneLeafWhenFits(tree.data, tree.dims, tree.leafsize, t.right, 1);
    StoredSpan(tree.nodes, t, 0, tree.Root());
  }

  /** The first unit test's data: `n` points whose every coordinate is their
      position. */
  function DiagonalData(n: nat, dims: nat): (data: seq<Point>)
    ensures |data| == n && ValidData(data, dims)
  {
    seq(n, x => seq(dims, _ => x))
  }

  /** The unit tests of sizes 1: sixteen diagonal points in any number of
      dimensions from 1 to 256, with leaf size 16, make a tree of size 1. */
  lemma SixteenPointsMakeOneNode(tree: Tree)
    requires tree.Valid() && 1 <= tree.dims <= 256
    requires tree.data == DiagonalData(16, tree.dims) && tree.leafsize == 16
    ensures tree.Size() == 1
  {
    SizeOneWhenFits(tree);
  }

  /** The second unit test's data, in tenths: 32 points at 0.1, one at 0.5
      and 32 at 0.9, on one axis. */
  function ClusteredData(): (data: seq<Point>)
    ensures |data| == 65 && ValidData(data, 1)
  {
    seq(32, _ => [1]) + [[5]] + seq(32, _ => [9])
  }

  /** The unit test of size 3: the clustered data with leaf size 32 makes a
      stem over two leaves. */
  lemma ClusteredDataMakesThreeNodes(tree: Tree)
    requires tree.Valid() && tree.data == ClusteredData() && tree.leafsize == 32
    ensures tree.Size() == 3
  {
    SizeThreeWhenHalvesFit(tree);
  }
}
