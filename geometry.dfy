/** Points and the coordinate values the k-d tree builder compares.

    The source wraps every coordinate in an ordered, NaN-free float; the builder
    only ever compares coordinates and takes minima, so a coordinate is an `int`
    here. A leaf's per-dimension extents start from the two float sentinels (the
    largest and the smallest finite value), which become the symbolic `Top` and
    `Bottom` of `Extent`.
 */
module Geometry {

  /** A point: one coordinate per dimension. */
  type Point = seq<int>

  /** Every point of `data` has exactly `dims` coordinates (the source's
      fixed-size `[_; D]` arrays). */
  predicate ValidData(data: seq<Point>, dims: nat) {
    forall q :: 0 <= q < |data| ==> |data[q]| == dims
  }


  /** A coordinate as a leaf's extents hold it: a finite value, or one of the
      sentinels the extents start from. */
  datatype Extent = Bottom | At(value: int) | Top

  /** The total order on extents: `Bottom` below every coordinate, `Top` above. */
  predicate Le(a: Extent, b: Extent) {
    a.Bottom? || b.Top? || (a.At? && b.At? && a.value <= b.value)
  }

  /** `Ord::min`: the first argument unless the second is strictly smaller. */
  function Min(a: Extent, b: Extent): (m: Extent)
    ensures Le(m, a) && Le(m, b)
    ensures m == a || m == b
  {
    if Le(a, b) then a else b
  }

  /** `Le` is transitive. */
  lemma LeTransitive(a: Extent, b: Extent, c: Extent)
    requires Le(a, b) && Le(b, c)
    ensures Le(a, c)
  {
  }
}
