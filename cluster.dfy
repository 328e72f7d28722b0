/** The cluster of a6cluster.py: a centroid plus an ordered, duplicate-free
    list of dataset indices, with the distance, radius and mean-centroid
    computations over the member points. */
module Clusters {
  import opened Datasets

  // ---------------------------------------------------------------------
  // Geometry of points

  /** The squared Euclidean distance between `a` and `b`, summed over the
      coordinates in increasing order, as `distance` accumulates it. */
  function SqDist(a: seq<real>, b: seq<real>): (d: real)
    requires |a| == |b|
    ensures d >= 0.0
    decreases |a|
  {
    if |a| == 0 then 0.0
    else
      var diff := a[|a| - 1] - b[|b| - 1];
      SqDist(a[..|a| - 1], b[..|b| - 1]) + diff * diff
  }

  /** A point is at distance zero from itself. */
  lemma {:induction false} SqDistSelf(a: seq<real>)
    ensures SqDist(a, a) == 0.0
    decreases |a|
  {
    if |a| > 0 {
      SqDistSelf(a[..|a| - 1]);
    }
  }

  /** The square of a non-zero real is positive. */
  lemma SquarePositive(d: real)
    requires d != 0.0
    ensures d * d > 0.0
  {
  }

  /** Points that differ are at a positive squared distance. */
  lemma {:induction false} SqDistPositive(a: seq<real>, b: seq<real>)
    requires |a| == |b|
    requires a != b
    ensures SqDist(a, b) > 0.0
    decreases |a|
  {
    var n := |a| - 1;
    var diff := a[n] - b[n];
    if diff != 0.0 {
      calc {
        SqDist(a, b);
      ==
        SqDist(a[..n], b[..n]) + diff * diff;
      >=
        diff * diff;
      >  { SquarePositive(diff); }
        0.0;
      }
    } else {
      assert a == a[..n] + [a[n]] && b == b[..n] + [b[n]];
      SqDistPositive(a[..n], b[..n]);
    }
  }

  /** Squared distance zero means the points coincide. */
  lemma SqDistZero(a: seq<real>, b: seq<real>)
    requires |a| == |b|
    requires SqDist(a, b) == 0.0
    ensures a == b
  {
    if a != b {
      SqDistPositive(a, b);
    }
  }

  /** The squared distance does not depend on which point is the centroid. */
  lemma {:induction false} SqDistSymmetric(a: seq<real>, b: seq<real>)
    requires |a| == |b|
    ensures SqDist(a, b) == SqDist(b, a)
    decreases |a|
  {
    if |a| > 0 {
      var n := |a| - 1;
      SqDistSymmetric(a[..n], b[..n]);
      assert (a[n] - b[n]) * (a[n] - b[n]) == (b[n] - a[n]) * (b[n] - a[n]);
    }
  }

  /** The squared distance is additive over a split of the coordinates. */
  lemma {:induction false} SqDistAppend(a1: seq<real>, a2: seq<real>, b1: seq<real>, b2: seq<real>)
    requires |a1| == |b1| && |a2| == |b2|
    ensures SqDist(a1 + a2, b1 + b2) == SqDist(a1, b1) + SqDist(a2, b2)
    decreases |a2|
  {
    if |a2| == 0 {
      assert a1 + a2 == a1 && b1 + b2 == b1;
    } else {
      var n := |a2| - 1;
      assert (a1 + a2)[..|a1| + n] == a1 + a2[..n];
      assert (b1 + b2)[..|b1| + n] == b1 + b2[..n];
      SqDistAppend(a1, a2[..n], b1, b2[..n]);
    }
  }

  /** Exchanging coordinates `p` and `q` in both points keeps the squared
      distance. Transpositions generate every permutation, so any one
      reordering of the coordinates, applied to both points, keeps it too. */
  lemma SqDistSwap(a: seq<real>, b: seq<real>, p: nat, q: nat)
    requires |a| == |b| && p < q < |a|
    ensures SqDist(a[p := a[q]][q := a[p]], b[p := b[q]][q := b[p]]) == SqDist(a, b)
  {
    var a' := a[p := a[q]][q := a[p]];
    var b' := b[p := b[q]][q := b[p]];
    assert a == a[..p] + [a[p]] + a[p + 1..q] + [a[q]] + a[q + 1..];
    assert b == b[..p] + [b[p]] + b[p + 1..q] + [b[q]] + b[q + 1..];
    assert a' == a[..p] + [a[q]] + a[p + 1..q] + [a[p]] + a[q + 1..];
    assert b' == b[..p] + [b[q]] + b[p + 1..q] + [b[p]] + b[q + 1..];
    SqDistAppend(a[..p] + [a[p]] + a[p + 1..q] + [a[q]], a[q + 1..], b[..p] + [b[p]] + b[p + 1..q] + [b[q]], b[q + 1..]);
    SqDistAppend(a[..p] + [a[p]] + a[p + 1..q], [a[q]], b[..p] + [b[p]] + b[p + 1..q], [b[q]]);
    SqDistAppend(a[..p] + [a[p]], a[p + 1..q], b[..p] + [b[p]], b[p + 1..q]);
    SqDistAppend(a[..p], [a[p]], b[..p], [b[p]]);
    SqDistAppend(a[..p] + [a[q]] + a[p + 1..q] + [a[p]], a[q + 1..], b[..p] + [b[q]] + b[p + 1..q] + [b[p]], b[q + 1..]);
    SqDistAppend(a[..p] + [a[q]] + a[p + 1..q], [a[p]], b[..p] + [b[q]] + b[p + 1..q], [b[p]]);
    SqDistAppend(a[..p] + [a[q]], a[p + 1..q], b[..p] + [b[q]], b[p + 1..q]);
    SqDistAppend(a[..p], [a[q]], b[..p], [b[q]]);
  }

  /** Every sequence in `pts` has `dim` coordinates. */
  ghost predicate AllOfDimension(pts: seq<seq<real>>, dim: nat) {
    forall j :: 0 <= j < |pts| ==> |pts[j]| == dim
  }

  /** Sum of coordinate `i` over the first `m` points. */
  function ColumnSum(pts: seq<seq<real>>, i: nat, m: nat): real
    requires m <= |pts|
    requires forall j :: 0 <= j < m ==> i < |pts[j]|
  {
    if m == 0 then 0.0 else ColumnSum(pts, i, m - 1) + pts[m - 1][i]
  }

  /** The coordinate-wise arithmetic mean of a non-empty list of points. */
  function Mean(pts: seq<seq<real>>, dim: nat): (m: seq<real>)
    requires |pts| > 0 && AllOfDimension(pts, dim)
    ensures |m| == dim
  {
    seq(dim, i requires 0 <= i < dim => ColumnSum(pts, i, |pts|) / (|pts| as real))
  }

  lemma {:induction false} ColumnSumBounds(pts: seq<seq<real>>, i: nat, m: nat, lo: real, hi: real)
    requires m <= |pts|
    requires forall j :: 0 <= j < m ==> i < |pts[j]| && lo <= pts[j][i] <= hi
    ensures (m as real) * lo <= ColumnSum(pts, i, m) <= (m as real) * hi
  {
    if m > 0 {
      ColumnSumBounds(pts, i, m - 1, lo, hi);
      assert (m as real) * lo == ((m - 1) as real) * lo + lo;
      assert (m as real) * hi == ((m - 1) as real) * hi + hi;
    }
  }

  /** Each coordinate of the mean lies between the smallest and largest value
      that coordinate takes among the points. */
  lemma MeanWithinBounds(pts: seq<seq<real>>, dim: nat, i: nat, lo: real, hi: real)
    requires |pts| > 0 && AllOfDimension(pts, dim) && i < dim
    requires forall j :: 0 <= j < |pts| ==> lo <= pts[j][i] <= hi
    ensures lo <= Mean(pts, dim)[i] <= hi
  {
    ColumnSumBounds(pts, i, |pts|, lo, hi);
    var n := |pts| as real;
    var s := ColumnSum(pts, i, |pts|);
    assert n * lo <= s <= n * hi;
    assert Mean(pts, dim)[i] == s / n;
    assert s / n * n == s;
  }

  /** The mean of copies of one point is that point: a cluster whose members
      all sit on one spot has its centroid there. */
  lemma MeanOfCopies(pts: seq<seq<real>>, x: seq<real>)
    requires |pts| > 0 && forall j :: 0 <= j < |pts| ==> pts[j] == x
    ensures Mean(pts, |x|) == x
  {
    forall i | 0 <= i < |x|
      ensures Mean(pts, |x|)[i] == x[i]
    {
      MeanWithinBounds(pts, |x|, i, x[i], x[i]);
    }
  }

  /** `numpy.isclose` with its default tolerances, for one coordinate:
      `|a - b| <= atol + rtol * |b|` with `atol = 1e-8` and `rtol = 1e-5`.
      Equal values are close, so are values within the absolute tolerance,
      and next to `b == 0` only the absolute tolerance applies. */
  function Close(a: real, b: real): (r: bool)
    ensures a == b ==> r
    ensures -1.0 / 100000000.0 <= a - b <= 1.0 / 100000000.0 ==> r
    ensures b == 0.0 ==> (r <==> -1.0 / 100000000.0 <= a <= 1.0 / 100000000.0)
  {
    var diff := if a >= b then a - b else b - a;
    var mag := if b >= 0.0 then b else -b;
    diff <= 1.0 / 100000000.0 + mag / 100000.0
  }

  /** The tolerance scales with the second argument only, so `Close` is not
      symmetric. */
  lemma CloseNotSymmetric()
    ensures Close(0.0, 1000005.0 / 100000000000000.0)
    ensures !Close(1000005.0 / 100000000000000.0, 0.0)
  {
  }

  /** `numpy.allclose(a, b)` on two points of the same length: every
      coordinate is close. A point is close to itself, and points of
      different lengths are never close. */
  function AllClose(a: seq<real>, b: seq<real>): (r: bool)
    ensures a == b ==> r
    ensures r ==> |a| == |b|
  {
    |a| == |b| && forall i :: 0 <= i < |a| ==> Close(a[i], b[i])
  }

  /** The member points of a cluster: element j is the point at `indices[j]`. */
  function Members(pts: seq<seq<real>>, indices: seq<int>): (ms: seq<seq<real>>)
    requires forall j :: 0 <= j < |indices| ==> 0 <= indices[j] < |pts|
    ensures |ms| == |indices|
    ensures forall j :: 0 <= j < |ms| ==> ms[j] == pts[indices[j]]
  {
    seq(|indices|, j requires 0 <= j < |indices| => pts[indices[j]])
  }

  /** The centroid after `update`: the mean of the members, or the old
      centroid when there are none. */
  function NewCentroid(centroid: seq<real>, ms: seq<seq<real>>): (c: seq<real>)
    requires AllOfDimension(ms, |centroid|)
    ensures |c| == |centroid|
  {
    if |ms| == 0 then centroid else Mean(ms, |centroid|)
  }

  /** The flag `update` returns: true on an empty cluster, otherwise whether
      the new centroid is close to the old one. Either way it says that the
      update moves the centroid to a point close to where it was. */
  function IsStable(centroid: seq<real>, ms: seq<seq<real>>): (r: bool)
    requires AllOfDimension(ms, |centroid|)
    ensures r <==> AllClose(centroid, NewCentroid(centroid, ms))
    ensures |ms| == 0 ==> r
  {
    |ms| == 0 || AllClose(centroid, Mean(ms, |centroid|))
  }

  /** A second update with the same members keeps the centroid and reports stability. */
  lemma UpdateTwiceIsStable(centroid: seq<real>, ms: seq<seq<real>>)
    requires AllOfDimension(ms, |centroid|)
    ensures NewCentroid(NewCentroid(centroid, ms), ms) == NewCentroid(centroid, ms)
    ensures IsStable(NewCentroid(centroid, ms), ms)
  {
  }

  /** Python's `x in s` on a list of ints: some element equals `x`. */
  predicate Contains(s: seq<int>, x: int)
    decreases |s|
  {
    |s| > 0 && (s[|s| - 1] == x || Contains(s[..|s| - 1], x))
  }

  /** `Contains` is sequence membership. */
  lemma {:induction false} ContainsIsIn(s: seq<int>, x: int)
    ensures Contains(s, x) <==> x in s
    decreases |s|
  {
    if |s| > 0 {
      var n := |s| - 1;
      ContainsIsIn(s[..n], x);
      assert s == s[..n] + [s[n]];
    }
  }

  /** A list whose elements are all below `x` does not contain `x`. */
  lemma {:induction false} NotContainsAbove(s: seq<int>, x: int)
    requires forall p :: 0 <= p < |s| ==> s[p] < x
    ensures !Contains(s, x)
    decreases |s|
  {
    if |s| > 0 {
      NotContainsAbove(s[..|s| - 1], x);
    }
  }

  /** No element occurs twice. */
  ghost predicate NoDuplicates(s: seq<int>)
    decreases |s|
  {
    |s| == 0 || (!Contains(s[..|s| - 1], s[|s| - 1]) && NoDuplicates(s[..|s| - 1]))
  }

  /** `NoDuplicates` means that no two positions hold the same value. */
  lemma {:induction false} NoDuplicatesPairwise(s: seq<int>)
    ensures NoDuplicates(s) <==> forall p, q :: 0 <= p < q < |s| ==> s[p] != s[q]
    decreases |s|
  {
    if |s| > 0 {
      var n := |s| - 1;
      NoDuplicatesPairwise(s[..n]);
      ContainsIsIn(s[..n], s[n]);
      assert forall p :: 0 <= p < n ==> s[..n][p] == s[p];
      if NoDuplicates(s) {
        forall p, q | 0 <= p < q < |s| ensures s[p] != s[q] {
          if q == n {
            assert s[p] in s[..n];
          }
        }
      }
    }
  }

  // ---------------------------------------------------------------------
  // The cluster

  class Cluster {
    /** The dataset this cluster draws its points from (shared, not owned). */
    const dataset: Dataset
    /** The member indices, in insertion order. */
    var indices: seq<int>
    var centroid: seq<real>

    /** The class invariant: the centroid has the dataset's dimension and the
        indices are positions of the dataset. That they are also distinct is
        kept by `AddIndex` and `Clear` and stated there. */
    ghost predicate Valid()
      reads this, dataset
    {
      dataset.Valid() &&
      |centroid| == dataset.dimension &&
      (forall j :: 0 <= j < |indices| ==> 0 <= indices[j] < |dataset.contents|)
    }

    /** The member points, as `getContents` lists them. */
    ghost function Points(): seq<seq<real>>
      reads this, dataset
      requires Valid()
    {
      Members(dataset.contents, indices)
    }

    constructor (dset: Dataset, c: seq<real>)
      requires dset.Valid() && |c| == dset.dimension
      ensures Valid()
      ensures dataset == dset && indices == [] && centroid == c
      ensures NoDuplicates(indices)
    {
      dataset := dset;
      indices := [];
      centroid := c;
    }

    function GetIndices(): (s: seq<int>)
      reads this, dataset
      requires Valid()
      ensures s == indices
      ensures forall j :: 0 <= j < |s| ==> 0 <= s[j] < dataset.GetSize()
    {
      indices
    }

    function GetCentroid(): (c: seq<real>)
      reads this, dataset
      requires Valid()
      ensures |c| == dataset.GetDimension() && c == centroid
    {
      centroid
    }

    /** `addIndex`: append `index` unless it is already a member. */
    method AddIndex(index: int)
      requires Valid()
      requires 0 <= index < dataset.GetSize()
      modifies this`indices
      ensures Valid()
      ensures old(Contains(indices, index)) ==> indices == old(indices)
      ensures old(!Contains(indices, index)) ==> indices == old(indices) + [index]
      ensures old(NoDuplicates(indices)) ==> NoDuplicates(indices)
    {
      if !Contains(indices, index) {
        indices := indices + [index];
      }
    }

    /** `clear`: no members; the centroid is untouched. */
    method Clear()
      requires Valid()
      modifies this`indices
      ensures Valid()
      ensures indices == [] && NoDuplicates(indices)
    {
      indices := [];
    }

    /** `getContents`: one point per member, in index-list order. */
    method GetContents() returns (contents: seq<seq<real>>)
      requires Valid()
      ensures |contents| == |indices|
      ensures forall j :: 0 <= j < |contents| ==> contents[j] == dataset.contents[indices[j]]
    {
      contents := [];
      for j := 0 to |indices|
        invariant |contents| == j
        invariant forall q :: 0 <= q < j ==> contents[q] == dataset.contents[indices[q]]
      {
        var point := dataset.GetPoint(indices[j]);
        contents := contents + [point];
      }
    }

    /** `distance`, squared: the sum of the squared coordinate differences
        between the centroid and `point`. */
    method Distance(point: seq<real>) returns (sum: real)
      requires |point| == |centroid|
      ensures sum == SqDist(centroid, point)
      ensures sum >= 0.0
      ensures sum == 0.0 <==> point == centroid
    {
      var cent := centroid;
      sum := 0.0;
      for i := 0 to |point|
        invariant sum == SqDist(cent[..i], point[..i])
      {
        assert cent[..i + 1][..i] == cent[..i] && point[..i + 1][..i] == point[..i];
        var temp := cent[i] - point[i];
        temp := temp * temp;
        sum := sum + temp;
      }
      assert cent[..|point|] == cent && point[..|point|] == point;
      SqDistSelf(cent);
      if sum == 0.0 {
        SqDistZero(cent, point);
      }
    }

    /** `getRadius`, squared: the largest member distance, or 0 with no members. */
    method GetRadius() returns (max: real)
      requires Valid()
      ensures forall j :: 0 <= j < |indices| ==> SqDist(centroid, dataset.contents[indices[j]]) <= max
      ensures |indices| == 0 ==> max == 0.0
      ensures |indices| > 0 ==> exists j :: 0 <= j < |indices| && max == SqDist(centroid, dataset.contents[indices[j]])
    {
      max := 0.0;
      var contents := GetContents();
      for i := 0 to |contents|
        invariant forall j :: 0 <= j < i ==> SqDist(centroid, contents[j]) <= max
        invariant i == 0 ==> max == 0.0
        invariant i > 0 ==> exists j :: 0 <= j < i && max == SqDist(centroid, contents[j])
      {
        var temp := Distance(contents[i]);
        if temp > max {
          max := temp;
        }
      }
    }

    /** `update`: move the centroid to the mean of the members (kept when there
        are none) and report whether it stayed close to where it was. */
    method Update() returns (stable: bool)
      requires Valid()
      modifies this`centroid
      ensures Valid()
      ensures centroid == NewCentroid(old(centroid), Points())
      ensures stable == IsStable(old(centroid), Points())
    {
      var oldCentroid := centroid;
      var dim := |oldCentroid|;
      var newCentroid := seq(dim, _ => 0.0);
      var ind := indices;
      ghost var ms := Points();
      if ind == [] {
        return true;
      }
      for i := 0 to dim
        invariant |newCentroid| == dim
        invariant forall q :: 0 <= q < i ==> newCentroid[q] == ColumnSum(ms, q, |ms|) / (|ms| as real)
      {
        var total := 0.0;
        for j := 0 to |ind|
          invariant total == ColumnSum(ms, i, j)
        {
          var point := dataset.GetPoint(ind[j]);
          total := total + point[i];
        }
        newCentroid := newCentroid[i := total / (|ind| as real)];
      }
      assert newCentroid == Mean(ms, dim);
      centroid := newCentroid;
      stable := AllClose(oldCentroid, newCentroid);
    }
  }
}
