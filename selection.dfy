/** In-place selection of the element of a given rank, by one coordinate.

    The builder calls the standard library's `select_nth_unstable_by` on a
    slice of point references, comparing them on the split axis. That routine
    is not part of the repository; what the builder relies on is its contract:
    the slice is permuted, the element at the requested index is the one of
    that rank, everything before it compares less or equal and everything
    after it greater or equal. `SelectNth` is a quickselect with that contract.
    Slices are modelled as ranges `[lo, hi)` of one array of point indices.
 */
module Selection {
  import opened Geometry

  /** Every element of `s[lo..hi]` refers to a point with a coordinate on
      axis `dim`, and that coordinate lies between `lb` and `ub`. */
  ghost predicate KeysWithin(data: seq<Point>, dim: nat, s: seq<nat>, lo: nat, hi: nat, lb: Extent, ub: Extent)
    requires lo <= hi <= |s|
  {
    forall j :: lo <= j < hi ==>
      s[j] < |data| && dim < |data[s[j]]| && Le(lb, At(data[s[j]][dim])) && Le(At(data[s[j]][dim]), ub)
  }

  /** `t` is `s` with at most the elements in `[lo, hi)` reordered among
      themselves. */
  ghost predicate Permuted(s: seq<nat>, t: seq<nat>, lo: nat, hi: nat) {
    && |s| == |t| && lo <= hi <= |s|
    && t[..lo] == s[..lo] && t[hi..] == s[hi..]
    && multiset(t[lo..hi]) == multiset(s[lo..hi])
  }

  /** A reordering of `[lo, hi)` keeps every entry before `lo`. */
  lemma PrefixKept(s: seq<nat>, t: seq<nat>, lo: nat, hi: nat, a: nat, b: nat)
    requires Permuted(s, t, lo, hi) && a <= b <= lo
    ensures t[a..b] == s[a..b]
    ensures forall j :: a <= j < b ==> t[j] == s[j]
  {
    assert t[a..b] == t[..lo][a..b];
    assert s[a..b] == s[..lo][a..b];
  }

  /** A reordering of `[lo, hi)` keeps every entry from `hi` on. */
  lemma SuffixKept(s: seq<nat>, t: seq<nat>, lo: nat, hi: nat, a: nat, b: nat)
    requires Permuted(s, t, lo, hi) && hi <= a <= b <= |s|
    ensures t[a..b] == s[a..b]
    ensures forall j :: a <= j < b ==> t[j] == s[j]
  {
    forall j | a <= j < b ensures t[j] == s[j] {
      assert t[j] == t[hi..][j - hi] && s[j] == s[hi..][j - hi];
    }
    assert t[a..b] == s[a..b];
  }

  /** A reordering of `[lo, hi)` keeps every entry outside it. */
  lemma PermutedOutside(s: seq<nat>, t: seq<nat>, lo: nat, hi: nat)
    requires Permuted(s, t, lo, hi)
    ensures forall j :: 0 <= j < |s| && !(lo <= j < hi) ==> t[j] == s[j]
  {
    PrefixKept(s, t, lo, hi, 0, lo);
    SuffixKept(s, t, lo, hi, hi, |s|);
  }

  /** Reordering a part `[a, b)` of a range `[lo, hi)` and leaving the rest
      alone keeps the range's multiset. */
  lemma InnerPermutation(t: seq<nat>, s: seq<nat>, lo: nat, a: nat, b: nat, hi: nat)
    requires lo <= a <= b <= hi <= |s| && Permuted(t, s, a, b)
    ensures multiset(s[lo..hi]) == multiset(t[lo..hi])
  {
    PrefixKept(t, s, a, b, lo, a);
    SuffixKept(t, s, a, b, b, hi);
    assert s[lo..hi] == s[lo..a] + s[a..b] + s[b..hi];
    assert t[lo..hi] == t[lo..a] + t[a..b] + t[b..hi];
  }

  /** A reordering of `[lo, hi)` followed by one of a part of it is a
      reordering of `[lo, hi)`. */
  lemma PermutedTrans(s: seq<nat>, t: seq<nat>, u: seq<nat>, lo: nat, hi: nat, l: nat, r: nat)
    requires Permuted(s, t, lo, hi) && Permuted(t, u, l, r) && lo <= l && r <= hi
    ensures Permuted(s, u, lo, hi)
  {
    PrefixKept(t, u, l, r, 0, lo);
    SuffixKept(t, u, l, r, hi, |t|);
    InnerPermutation(t, u, lo, l, r, hi);
  }

  /** Exchanging two entries of `[lo, hi)` is a reordering of `[lo, hi)`. */
  lemma SwapPermuted(s: seq<nat>, i: nat, j: nat, lo: nat, hi: nat)
    requires lo <= i <= j < hi <= |s|
    ensures Permuted(s, s[i := s[j]][j := s[i]], lo, hi)
  {
    var t := s[i := s[j]][j := s[i]];
    assert t[..lo] == s[..lo];
    assert t[hi..] == s[hi..];
    assert t[lo..hi] == s[lo..hi][i - lo := s[j]][j - lo := s[i]];
  }

  /** The bounds on the keys of a range survive reordering the range. */
  lemma PermutedKeepsBounds(data: seq<Point>, dim: nat, s: seq<nat>, t: seq<nat>,
                            lo: nat, hi: nat, lb: Extent, ub: Extent)
    requires Permuted(s, t, lo, hi) && KeysWithin(data, dim, s, lo, hi, lb, ub)
    ensures KeysWithin(data, dim, t, lo, hi, lb, ub)
  {
    forall j | lo <= j < hi
      ensures t[j] < |data| && dim < |data[t[j]]| && Le(lb, At(data[t[j]][dim])) && Le(At(data[t[j]][dim]), ub)
    {
      assert t[j] == t[lo..hi][j - lo];
      assert t[j] in multiset(s[lo..hi]);
      var i :| 0 <= i < hi - lo && s[lo..hi][i] == t[j];
      assert s[lo + i] == t[j];
    }
  }

  /** Reordering nothing is a reordering. */
  lemma PermutedRefl(s: seq<nat>, lo: nat, hi: nat)
    requires lo <= hi <= |s|
    ensures Permuted(s, s, lo, hi)
  {
  }

  /** The state of a Lomuto partition of `[l, r)` around the key `pivot` of
      its last element, after scanning `[l, j)`: `s` is the start `s0`
      reordered inside the range, keys in `[l, i)` are below the pivot and
      keys in `[i, j)` are not. */
  ghost predicate Scanned(data: seq<Point>, dim: nat, s0: seq<nat>, s: seq<nat>, l: nat, r: nat,
                          i: nat, j: nat, lb: Extent, ub: Extent, pivot: int)
  {
    && l <= i <= j < r <= |s|
    && KeysWithin(data, dim, s, l, r, lb, ub)
    && data[s[r - 1]][dim] == pivot
    && (forall x :: l <= x < i ==> data[s[x]][dim] < pivot)
    && (forall x :: i <= x < j ==> pivot <= data[s[x]][dim])
    && Permuted(s0, s, l, r)
  }

  /** Swapping an element below the pivot at `j` with the first element of
      the upper part at `i` grows the lower part by one. */
  lemma LowerGrows(data: seq<Point>, dim: nat, s: seq<nat>, t: seq<nat>, l: nat, r: nat,
                   i: nat, j: nat, pivot: int)
    requires l <= i <= j < r - 1 && r <= |s| && t == s[i := s[j]][j := s[i]]
    requires forall x :: l <= x < r ==> s[x] < |data| && dim < |data[s[x]]|
    requires data[s[r - 1]][dim] == pivot && data[s[j]][dim] < pivot
    requires forall x :: l <= x < i ==> data[s[x]][dim] < pivot
    requires forall x :: i <= x < j ==> pivot <= data[s[x]][dim]
    ensures data[t[r - 1]][dim] == pivot
    ensures forall x :: l <= x < i + 1 ==> data[t[x]][dim] < pivot
    ensures forall x :: i + 1 <= x < j + 1 ==> pivot <= data[t[x]][dim]
  {
  }

  /** One step of the scan: an element below the pivot is swapped to the
      end of the lower part, any other one stays. */
  lemma ScanStep(data: seq<Point>, dim: nat, s0: seq<nat>, s: seq<nat>, l: nat, r: nat,
                 i: nat, j: nat, lb: Extent, ub: Extent, pivot: int)
    requires Scanned(data, dim, s0, s, l, r, i, j, lb, ub, pivot) && j < r - 1
    ensures data[s[j]][dim] < pivot ==>
      Scanned(data, dim, s0, s[i := s[j]][j := s[i]], l, r, i + 1, j + 1, lb, ub, pivot)
    ensures pivot <= data[s[j]][dim] ==> Scanned(data, dim, s0, s, l, r, i, j + 1, lb, ub, pivot)
  {
    if data[s[j]][dim] < pivot {
      var t := s[i := s[j]][j := s[i]];
      SwapPermuted(s, i, j, l, r);
      PermutedKeepsBounds(data, dim, s, t, l, r, lb, ub);
      PermutedTrans(s0, s, t, l, r, l, r);
      LowerGrows(data, dim, s, t, l, r, i, j, pivot);
    }
  }

  /** Swapping the pivot from the end of `[l, r)` to `i`, the end of the
      part below it, puts it between the two parts. */
  lemma PivotPlaced(data: seq<Point>, dim: nat, s: seq<nat>, t: seq<nat>, l: nat, r: nat, i: nat, pivot: int)
    requires l <= i < r <= |s| && t == s[i := s[r - 1]][r - 1 := s[i]]
    requires forall x :: l <= x < r ==> s[x] < |data| && dim < |data[s[x]]|
    requires data[s[r - 1]][dim] == pivot
    requires forall x :: l <= x < i ==> data[s[x]][dim] < pivot
    requires forall x :: i <= x < r - 1 ==> pivot <= data[s[x]][dim]
    ensures forall x :: l <= x < i ==> data[t[x]][dim] <= data[t[i]][dim]
    ensures forall x :: i < x < r ==> data[t[i]][dim] <= data[t[x]][dim]
  {
  }

  /** The end of the scan: swapping the pivot into place at `i` leaves it
      between the two parts. */
  lemma ScanDone(data: seq<Point>, dim: nat, s0: seq<nat>, s: seq<nat>, t: seq<nat>, l: nat, r: nat,
                 i: nat, lb: Extent, ub: Extent, pivot: int)
    requires 0 < r && Scanned(data, dim, s0, s, l, r, i, r - 1, lb, ub, pivot)
    requires t == s[i := s[r - 1]][r - 1 := s[i]]
    ensures KeysWithin(data, dim, t, l, r, lb, ub)
    ensures forall x :: l <= x < i ==> data[t[x]][dim] <= data[t[i]][dim]
    ensures forall x :: i < x < r ==> data[t[i]][dim] <= data[t[x]][dim]
    ensures Permuted(s0, t, l, r)
  {
    SwapPermuted(s, i, r - 1, l, r);
    PermutedKeepsBounds(data, dim, s, t, l, r, lb, ub);
    PermutedTrans(s0, s, t, l, r, l, r);
    PivotPlaced(data, dim, s, t, l, r, i, pivot);
  }

  /** Exchanges `a[i]` and `a[j]`. */
  method Swap(a: array<nat>, i: nat, j: nat, ghost s: seq<nat>)
    requires i < a.Length && j < a.Length && a[..] == s
    modifies a
    ensures a[..] == s[i := s[j]][j := s[i]]
  {
    a[i], a[j] := a[j], a[i];
  }

  /** The body of the partition loop: looks at `a[j]` and, when its key is
      below the pivot, swaps it to position `i` and grows the lower part. */
  method ScanOne(data: seq<Point>, dim: nat, a: array<nat>, l: nat, r: nat, i: nat, j: nat,
                 ghost lb: Extent, ghost ub: Extent, pivot: int, ghost s0: seq<nat>)
    returns (i': nat)
    requires r <= a.Length && j < r - 1 && Scanned(data, dim, s0, a[..], l, r, i, j, lb, ub, pivot)
    modifies a
    ensures Scanned(data, dim, s0, a[..], l, r, i', j + 1, lb, ub, pivot)
  {
    ghost var s := a[..];
    ScanStep(data, dim, s0, s, l, r, i, j, lb, ub, pivot);
    i' := i;
    if data[a[j]][dim] < pivot {
      Swap(a, i, j, s);
      i' := i + 1;
    }
  }

  /** Lomuto partition of `a[l..r]` around its last element. Returns the
      position the pivot ends at; smaller keys are before it, the others after. */
  method Partition(data: seq<Point>, dim: nat, a: array<nat>, l: nat, r: nat, ghost lb: Extent, ghost ub: Extent)
    returns (p: nat)
    requires l < r <= a.Length
    requires KeysWithin(data, dim, a[..], l, r, lb, ub)
    modifies a
    ensures l <= p < r
    ensures KeysWithin(data, dim, a[..], l, r, lb, ub)
    ensures forall j :: l <= j < p ==> data[a[j]][dim] <= data[a[p]][dim]
    ensures forall j :: p < j < r ==> data[a[p]][dim] <= data[a[j]][dim]
    ensures Permuted(old(a[..]), a[..], l, r)
  {
    ghost var s0 := a[..];
    var pivot := data[a[r - 1]][dim];
    var i: nat := l;
    PermutedRefl(s0, l, r);
    for j: nat := l to r - 1
      invariant Scanned(data, dim, s0, a[..], l, r, i, j, lb, ub, pivot)
    {
      i := ScanOne(data, dim, a, l, r, i, j, lb, ub, pivot, s0);
    }
    ghost var s := a[..];
    Swap(a, i, r - 1, s);
    ScanDone(data, dim, s0, s, a[..], l, r, i, lb, ub, pivot);
    p := i;
  }

  /** `s[k]` splits `s[lo..hi]` on axis `dim`: every entry of the range
      indexes a point of `data` with that axis, the keys before position `k`
      are at most its key and the keys after it at least. */
  ghost predicate SplitAt(data: seq<Point>, dim: nat, s: seq<nat>, lo: nat, k: nat, hi: nat)
    requires lo <= k < hi <= |s|
  {
    && (forall j :: lo <= j < hi ==> s[j] < |data| && dim < |data[s[j]]|)
    && (forall j :: lo <= j < k ==> data[s[j]][dim] <= data[s[k]][dim])
    && (forall j :: k < j < hi ==> data[s[k]][dim] <= data[s[j]][dim])
  }

  /** Once the window around `k` has shrunk to `k` alone, everything before
      `k` is at most its key and everything after at least. */
  lemma RankReached(data: seq<Point>, dim: nat, s: seq<nat>, lo: nat, k: nat, hi: nat, lb: Extent, ub: Extent)
    requires lo <= k < hi <= |s|
    requires forall j :: lo <= j < hi ==> s[j] < |data| && dim < |data[s[j]]|
    requires Le(lb, At(data[s[k]][dim])) && Le(At(data[s[k]][dim]), ub)
    requires forall j :: lo <= j < k ==> Le(At(data[s[j]][dim]), lb)
    requires forall j :: k < j < hi ==> Le(ub, At(data[s[j]][dim]))
    ensures SplitAt(data, dim, s, lo, k, hi)
  {
  }

  /** The state of the selection of rank `k` in `[lo, hi)`: `s` is the start
      `s0` reordered inside the range, the window `[l, r)` still holds `k`,
      its keys lie between `lb` and `ub`, keys before it are at most `lb` and
      keys after it at least `ub`. */
  ghost predicate Narrowed(data: seq<Point>, dim: nat, s0: seq<nat>, s: seq<nat>, lo: nat, hi: nat, k: nat,
                           l: nat, r: nat, lb: Extent, ub: Extent)
  {
    && lo <= l <= k < r <= hi <= |s|
    && KeysWithin(data, dim, s, lo, hi, Bottom, Top)
    && KeysWithin(data, dim, s, l, r, lb, ub)
    && (forall j :: lo <= j < l ==> Le(At(data[s[j]][dim]), lb))
    && (forall j :: r <= j < hi ==> Le(ub, At(data[s[j]][dim])))
    && Permuted(s0, s, lo, hi)
  }

  /** The window of a round: keys inside it lie between the new bounds. */
  lemma WindowBounds(data: seq<Point>, dim: nat, t: seq<nat>, l: nat, r: nat, p: nat,
                     nl: nat, nr: nat, lb: Extent, ub: Extent, nlb: Extent, nub: Extent)
    requires l <= nl <= nr <= r <= |t| && l <= p < r
    requires KeysWithin(data, dim, t, l, r, lb, ub)
    requires forall j :: l <= j < p ==> data[t[j]][dim] <= data[t[p]][dim]
    requires forall j :: p < j < r ==> data[t[p]][dim] <= data[t[j]][dim]
    requires nlb == lb || (nlb == At(data[t[p]][dim]) && p <= nl)
    requires nub == ub || (nub == At(data[t[p]][dim]) && nr <= p + 1)
    ensures KeysWithin(data, dim, t, nl, nr, nlb, nub)
  {
  }

  /** The parts a round cuts off: keys before the new window are at most its
      lower bound and keys after it at least its upper bound. */
  lemma CutOff(data: seq<Point>, dim: nat, s: seq<nat>, t: seq<nat>, lo: nat, hi: nat,
               l: nat, r: nat, lb: Extent, ub: Extent, p: nat, nl: nat, nr: nat, nlb: Extent, nub: Extent)
    requires lo <= l <= p < r <= hi <= |s| == |t|
    requires forall j :: lo <= j < hi && !(l <= j < r) ==> t[j] == s[j]
    requires KeysWithin(data, dim, t, l, r, lb, ub)
    requires forall j :: lo <= j < hi ==> s[j] < |data| && dim < |data[s[j]]|
    requires forall j :: lo <= j < l ==> Le(At(data[s[j]][dim]), lb)
    requires forall j :: r <= j < hi ==> Le(ub, At(data[s[j]][dim]))
    requires forall j :: l <= j < p ==> data[t[j]][dim] <= data[t[p]][dim]
    requires forall j :: p < j < r ==> data[t[p]][dim] <= data[t[j]][dim]
    requires (nl == l && nlb == lb) || (nlb == At(data[t[p]][dim]) && l <= nl <= p + 1)
    requires (nr == r && nub == ub) || (nub == At(data[t[p]][dim]) && p <= nr <= r)
    ensures forall j :: lo <= j < nl ==> Le(At(data[t[j]][dim]), nlb)
    ensures forall j :: nr <= j < hi ==> Le(nub, At(data[t[j]][dim]))
  {
    var kp := At(data[t[p]][dim]);
    forall j | lo <= j < nl ensures Le(At(data[t[j]][dim]), nlb) {
      if j < l && nlb != lb {
        LeTransitive(At(data[t[j]][dim]), lb, kp);
      }
    }
    forall j | nr <= j < hi ensures Le(nub, At(data[t[j]][dim])) {
      if r <= j && nub != ub {
        LeTransitive(kp, ub, At(data[t[j]][dim]));
      }
    }
  }

  /** One round of the selection: after `[l, r)` of `s` is partitioned into
      `t` with the pivot at `p`, the window shrinks to the side holding `k`,
      or to `k` itself. */
  lemma NarrowStep(data: seq<Point>, dim: nat, s0: seq<nat>, s: seq<nat>, t: seq<nat>, lo: nat, hi: nat,
                   k: nat, l: nat, r: nat, lb: Extent, ub: Extent, p: nat)
    requires Narrowed(data, dim, s0, s, lo, hi, k, l, r, lb, ub)
    requires l <= p < r
    requires Permuted(s, t, l, r)
    requires KeysWithin(data, dim, t, l, r, lb, ub)
    requires forall j :: l <= j < p ==> data[t[j]][dim] <= data[t[p]][dim]
    requires forall j :: p < j < r ==> data[t[p]][dim] <= data[t[j]][dim]
    ensures k < p ==> Narrowed(data, dim, s0, t, lo, hi, k, l, p, lb, At(data[t[p]][dim]))
    ensures p < k ==> Narrowed(data, dim, s0, t, lo, hi, k, p + 1, r, At(data[t[p]][dim]), ub)
    ensures p == k ==> Narrowed(data, dim, s0, t, lo, hi, k, p, p + 1, At(data[t[p]][dim]), At(data[t[p]][dim]))
  {
    var kp := At(data[t[p]][dim]);
    PermutedOutside(s, t, l, r);
    PermutedTrans(s0, s, t, lo, hi, l, r);
    PermutedKeepsBounds(data, dim, s, t, lo, hi, Bottom, Top);
    var nl, nr, nlb, nub := l, r, lb, ub;
    if k < p {
      nr, nub := p, kp;
    } else if p < k {
      nl, nlb := p + 1, kp;
    } else {
      nl, nr, nlb, nub := p, p + 1, kp, kp;
    }
    WindowBounds(data, dim, t, l, r, p, nl, nr, lb, ub, nlb, nub);
    CutOff(data, dim, s, t, lo, hi, l, r, lb, ub, p, nl, nr, nlb, nub);
  }

  /** Reorders `a[lo..hi]` so that `a[k]` holds the element of rank `k - lo`
      by coordinate `dim`: the model of `select_nth_unstable_by`. */
  method SelectNth(data: seq<Point>, dim: nat, a: array<nat>, lo: nat, hi: nat, k: nat)
    requires lo <= k < hi <= a.Length
    requires forall j :: lo <= j < hi ==> a[j] < |data| && dim < |data[a[j]]|
    modifies a
    ensures SplitAt(data, dim, a[..], lo, k, hi)
    ensures Permuted(old(a[..]), a[..], lo, hi)
  {
    ghost var s0 := a[..];
    var l: nat, r: nat := lo, hi;
    ghost var lb, ub := Bottom, Top;
    PermutedRefl(s0, lo, hi);
    while r - l > 1
      invariant Narrowed(data, dim, s0, a[..], lo, hi, k, l, r, lb, ub)
      decreases r - l
    {
      ghost var s := a[..];
      var p := Partition(data, dim, a, l, r, lb, ub);
      NarrowStep(data, dim, s0, s, a[..], lo, hi, k, l, r, lb, ub, p);
      ghost var kp := At(data[a[p]][dim]);
      if k < p {
        r, ub := p, kp;
      } else if p < k {
        l, lb := p + 1, kp;
      } else {
        l, r, lb, ub := p, p + 1, kp, kp;
      }
    }
    RankReached(data, dim, a[..], lo, k, hi, lb, ub);
  }
}
