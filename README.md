# k-d tree construction (fnstw)

This project models how the `fnstw` crate builds its k-d tree (`src/lib.rs`), and proves properties of that model.

`Tree::new` takes a slice of `D`-dimensional points and a leaf size. It
rejects empty data and leaf sizes below 4. Otherwise it collects
references to all the points into a slice and calls the recursive
`build_nodes`. That function increments the split level and picks the
split axis `split_level % D`. A slice of at most `leafsize` points
becomes a leaf, which gets per-dimension `lower` and `upper` extents. A
longer slice is reordered by `select_nth_unstable_by` around its middle
index on the split axis. Its left part and then its right part are built
recursively, and a stem holding the median is pushed after them. Every
node goes into one growable vector, so the vector holds the tree in
post-order with the root last.

The model has five modules, one per file:

- `Geometry` (`geometry.dfy`): points as sequences of integer
  coordinates, the extents a leaf holds (a coordinate, or one of the two
  float sentinels), and `min`.
- `Selection` (`selection.dfy`): an in-place quickselect over a range of
  an index array, proved to be a reordering of that range that leaves the
  element of the requested rank at its index with the others on their
  sides.
- `Nodes` (`nodes.dfy`): the `Node` enum, a value form of a subtree
  (`Shape`), what it means for a stretch of the arena to hold a subtree
  (`Stored`), and what a built subtree satisfies (`KdShape`). It also
  holds the counting, placement, ordering and axis lemmas about stored
  subtrees.
- `Builder` (`builder.dfy`): the node vector as a class with `Push`, the
  extents loop, and the recursive builder, which works in place on the
  index array and the arena.
- `KdTree` (`kdtree.dfy`): `Tree::new` with its two errors, the tree it
  returns, and the whole-tree consequences, including the two unit tests.

## Model

| member | source | states |
|---|---|---|
| Geometry.Min | src/lib.rs:189-190 | `min` returns one of its two arguments, and the result is at most both |
| Nodes.Node.IsStem | src/lib.rs:46-51 | true exactly for a stem, and false exactly for a leaf |
| Nodes.MinCoordBelow | src/lib.rs:180-193 | the running `min` from the `MAX` sentinel over a leaf's points is at most that coordinate of every point |
| Nodes.MinCoordAttained | src/lib.rs:180-193 | that running `min` stays the `MAX` sentinel for no points, and otherwise equals the coordinate of one of the points (finite coordinates) |
| Builder.ComputeExtents | src/lib.rs:180-193 | the nested loops leave `lower[i]` equal to the running minimum of coordinate `i` over the leaf's points in slice order; `upper[i]` stays at the `MIN` sentinel for finite coordinates, because the code reduces it with `min` as well |
| Builder.NodeArena.Push | src/lib.rs:206-207 | the node is appended and nothing else changes; the returned index is the vector's length before the push |
| Selection.Partition | src/lib.rs:223-225 | the range `[l, r)` is only reordered, and its keys stay within the bounds they had; at the returned position, keys before it in the range are at most its key and keys after it at least |
| Selection.RankReached | src/lib.rs:223-225 | once the selection window has shrunk to the requested index, that index splits the range: keys before it are at most its key and keys after it at least |
| Selection.SelectNth | src/lib.rs:218-225 | the range `[lo, hi)` is reordered in place (same multiset, nothing outside it touched); afterwards the element at index `k` has every key before it at most its own on the axis and every key after it at least |
| Selection.PermutedTrans | src/lib.rs:223-233 | reordering a range and then reordering part of it is still a reordering of the range |
| Builder.SidesKept | src/lib.rs:223-233 | building the left part and then the right part keeps the median in place, and every point on each side stays on its side of the median |
| Builder.StemStored | src/lib.rs:236-246 | pushing the stem after the two subtrees stores the whole stem subtree, root last, from the left subtree's first position |
| Builder.StemKd | src/lib.rs:215-241 | a range longer than `leafsize`, split at index `len / 2` on the level's axis, with its two parts built in turn, forms a k-d stem: the median splits the points, the left part holds `len / 2` points none above the median, the right part the rest none below it, and the stem's points are the range in its final order |
| Builder.StemBuilt | src/lib.rs:215-253 | the stem case composed: selection plus the two recursive builds plus the push give a k-d subtree over a reordering of the whole range |
| Builder.BuildLeaf | src/lib.rs:176-213 | a range of at most `leafsize` points becomes one leaf holding those points in slice order, with their extents, pushed at the returned index; the slice is untouched |
| Builder.BuildStem | src/lib.rs:215-253 | a longer range is split at index `len / 2` on axis `(split_level + 1) % D`; its subtree is stored root last at the returned index, and the range now lists the subtree's points in order |
| Builder.BuildNodes | src/lib.rs:159-255 | the arena is only appended to; the appended positions hold a k-d subtree in post-order with its root at the returned last index; the slice is only reordered within its range, and left as it was when it fits in a leaf |
| Nodes.NodesOfLeaves | src/lib.rs:232-246 | a subtree with `n` leaves has `2n - 1` nodes, because every stem has exactly two children |
| Nodes.OneLeafWhenFits | src/lib.rs:173-213 | a subtree whose points fit in `leafsize` is a single leaf holding them in order |
| Nodes.LeafSizes | src/lib.rs:173-233 | with `leafsize >= 4` and at least one point, a leaf holds 1 to `leafsize` points, and both halves of a stem hold at least 2 |
| Nodes.StoredSpan | src/lib.rs:232-246 | a stored subtree of `n` nodes occupies exactly `n` consecutive positions, ending at its root |
| Nodes.StoredExtends | src/lib.rs:232-246 | later pushes leave an already stored subtree where it was |
| Nodes.StoredLeaves | src/lib.rs:194-246 | the arena positions of a stored subtree hold exactly as many leaves as the subtree has |
| Nodes.StoredPlaced | src/lib.rs:194-246 | the leaves' points and the stems' medians in a stored subtree's positions are, with multiplicity, the subtree's points |
| Nodes.ArenaPlaced | src/lib.rs:101-107 | an arena holding one stored tree, root last, places exactly that tree's points |
| Nodes.StoredPostOrder | src/lib.rs:232-246 | within a stored subtree, every stem's left child comes before its right child, and both come before the stem |
| Nodes.EveryOtherNodeHasAParent | src/lib.rs:232-246 | every position of a stored subtree other than its root is the left or right child of a later stem |
| Nodes.StoredLeafSizes | src/lib.rs:173-233 | every leaf stored for a subtree built from at least one point, with `leafsize >= 4`, holds 1 to `leafsize` points |
| Nodes.NextAxis | src/lib.rs:167-170 | taking the axis modulo `D` and then advancing by one gives the axis of the next level: `(a % D + 1) % D == (a + 1) % D` |
| Nodes.StoredAxes | src/lib.rs:167-170 | a stored subtree built at incoming level `l` splits its root on axis `(l + 1) % D`, and every stem child of a stem splits on the axis after its parent's |
| KdTree.Indices | src/lib.rs:101 | the initial slice references points `0` to `n - 1` in data order |
| KdTree.New | src/lib.rs:80-155 | `Err("data has zero length")` for empty data; otherwise `Err("Choose a leafsize >= 4")` for a leaf size below 4; otherwise `Ok` with the given data and leaf size and a valid tree; data that fits one leaf gives a single leaf over all points in order |
| KdTree.BuiltTreeValid | src/lib.rs:98-107 | a top-level build over the whole slice at split level 0 yields a valid tree |
| KdTree.EveryPointPlacedOnce | src/lib.rs:101-107 | across the leaves and the stem medians, every point of the data is held exactly once and nothing else is held |
| KdTree.SizeFromLeaves | src/lib.rs:257-259 | `size()` is one less than twice the number of leaves |
| KdTree.LeavesBounded | src/lib.rs:93-95 | every leaf holds at least 1 and at most `leafsize` points |
| KdTree.RootLast | src/lib.rs:245-252 | the node vector is in post-order (left child, then right child, then the stem), and every node but the last, the root, is a child of some stem |
| KdTree.SplitAxes | src/lib.rs:167-170 | the root splits on axis `1 % D`, and each stem child splits on the axis after its parent's |
| KdTree.SizeOneWhenFits | src/lib.rs:257-259 | data of at most `leafsize` points gives `size() == 1`, a single leaf |
| KdTree.SizeThreeWhenHalvesFit | src/lib.rs:257-259 | data of more than `leafsize` and at most `2 * leafsize + 1` points gives `size() == 3` with a stem at the root |
| KdTree.DiagonalData | src/lib.rs:279-281 | the first unit test's data has `n` points with `D` coordinates each |
| KdTree.SixteenPointsMakeOneNode | src/lib.rs:270-294 | sixteen diagonal points in 1 to 256 dimensions with leaf size 16 give `size() == 1` |
| KdTree.ClusteredData | src/lib.rs:300-304 | the second unit test's data has 65 one-dimensional points |
| KdTree.ClusteredDataMakesThreeNodes | src/lib.rs:297-313 | 32 points at 0.1, one at 0.5 and 32 at 0.9 with leaf size 32 give `size() == 3` |

## Left out

- Timing instrumentation: the `timing` feature's clocks, atomics and printing are omitted.
- `Node::iter`, in both its double-reference and `single_ref` forms: an iterator over a leaf's points, kept as a performance experiment between the two reference styles. Nothing in the builder calls it.
- Floats: `NotNan<f64>` coordinates are modelled as finite integers, because the builder only compares them and takes `min`. Infinite coordinates are not modelled.
- The `f64::MAX` and `f64::MIN` extent sentinels are modelled as the symbolic `Top` and `Bottom`, which lie above and below every coordinate. That holds only for finite coordinates. `NotNan` admits infinities, and the model differs from the source in two cases:
  - a leaf point whose coordinate `i` is negative infinity makes the source's `upper[i]` negative infinity, where the model keeps `Bottom`;
  - a leaf whose points are all positive infinity on axis `i` keeps the source's `lower[i]` at `f64::MAX`, which is none of its coordinates. The model's `MinCoordAttained` promises a point's coordinate there.
- Point references: points are indices into `data`, and the slice of references is a range of an index array.
- The unsafe unchecked indexing is modelled as ordinary indexing. Every index it uses is proved in bounds.
- Selection.SelectNth: proved against the contract of the standard library's `select_nth_unstable_by`, not its algorithm, which is not part of this model. The order it leaves within each side may differ from the library's, and the tree's shape claims depend only on the contract.
- KdTree.New: requires `D >= 1` when the data is non-empty and the leaf size is at least 4. With `D == 0` the source panics on `split_level % D`, and the model does not represent the panic.
- Builder.BuildNodes: `split_level` is unbounded here. The source's `usize` would overflow only at a recursion depth that no slice can reach.
- Builder.ComputeExtents: `upper` is reduced with `min` from the `MIN` sentinel, as the source does, so for finite coordinates it stays at that sentinel. The model does not compute a per-dimension maximum, and for infinite coordinates see the sentinel line above.
- `Tree::size` has no contract of its own. `KdTree.SizeFromLeaves`, `KdTree.SizeOneWhenFits` and `KdTree.SizeThreeWhenHalvesFit` state what it returns.
- Nearest-neighbour queries, distance functions, parallel code, and the crate's benches, examples and integration tests are not part of this model.
