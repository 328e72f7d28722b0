/** The k-means driver of a6algorithm.py: seed validation, nearest-cluster
    assignment, the partition of the dataset among the clusters, the centroid
    update, and the step/run loop. The pure functions below say what one
    round computes; the class `Algorithm` is proved to compute exactly that. */
module Algorithms {
  import opened Values
  import opened Datasets
  import opened Clusters

  // ---------------------------------------------------------------------
  // Seed validation

  /** Python's `n == v` for an int `n`: true for an int or a float of the same
      value, false for a string, a list or None. */
  function IntEquals(n: int, v: Value): (r: bool)
    ensures r <==> IsNumber(v) && AsReal(v) == n as real
    ensures v.VStr? || v.VList? || v.VNone? ==> !r
  {
    (v.VInt? && v.i == n) || (v.VFloat? && v.f == n as real)
  }

  /** The inner duplicate scan of `valid_seeds`: no element from position `j`
      on compares equal to `n`. */
  function NoRepeatFrom(s: seq<Value>, n: int, j: nat): (b: bool)
    requires j <= |s|
    ensures b <==> forall q :: j <= q < |s| ==> !IntEquals(n, s[q])
    decreases |s| - j
  {
    if j == |s| then true
    else if IntEquals(n, s[j]) then false
    else NoRepeatFrom(s, n, j + 1)
  }

  /** The outer scan of `valid_seeds` from position `i`: each element is an
      int in `[0, size-1]` equal to none of the elements after it. */
  function SeedsFrom(s: seq<Value>, i: nat, size: int): (b: bool)
    requires i <= |s|
    ensures b <==>
      (forall q :: i <= q < |s| ==> s[q].VInt? && 0 <= s[q].i < size) &&
      (forall q, r :: i <= q < r < |s| ==> s[q] != s[r])
    decreases |s| - i
  {
    if i == |s| then true
    else if !s[i].VInt? then false
    else if s[i].i < 0 || s[i].i > size - 1 then false
    else if !NoRepeatFrom(s, s[i].i, i + 1) then false
    else SeedsFrom(s, i + 1, size)
  }

  /** `valid_seeds(value, size)`: a list of distinct ints, each a position of
      a dataset of `size` points. */
  function ValidSeeds(value: Value, size: int): (b: bool)
    requires size > 0
    ensures b <==>
      value.VList? &&
      (forall q :: 0 <= q < |value.elems| ==>
         value.elems[q].VInt? && 0 <= value.elems[q].i < size) &&
      (forall q, r :: 0 <= q < r < |value.elems| ==> value.elems[q] != value.elems[r])
  {
    value.VList? && SeedsFrom(value.elems, 0, size)
  }

  /** The seed list [0, 1, ..., n-1] is valid for any dataset of at least n
      points. */
  lemma FirstSeedsValid(n: nat, size: int)
    requires 0 < size && n <= size
    ensures ValidSeeds(VList(seq(n, i => VInt(i))), size)
  {
  }

  /** Instances: [0, 1] is valid for a dataset of two or more points; a seed
      repeated as a float, a seed past the end and a non-list are not. */
  lemma SeedExamples(size: int)
    requires size >= 2
    ensures ValidSeeds(VList([VInt(0), VInt(1)]), size)
    ensures !ValidSeeds(VList([VInt(1), VFloat(1.0)]), size)
    ensures !ValidSeeds(VList([VInt(0), VInt(size)]), size)
    ensures !ValidSeeds(VInt(0), size)
  {
    assert IntEquals(1, VFloat(1.0));
  }

  // ---------------------------------------------------------------------
  // One round of k-means, as functions of the centroids

  /** At least one centroid, and every centroid and every point has as many
      coordinates as the first centroid. */
  ghost predicate Fits(cents: seq<seq<real>>, pts: seq<seq<real>>) {
    |cents| > 0 && forall j, i :: 0 <= j < |cents| && 0 <= i < |pts| ==> |cents[j]| == |pts[i]|
  }

  /** The index `_nearest` settles on among the first `n` centroids, scanning
      them in order and moving on only to a strictly smaller distance. */
  function NearestIn(cents: seq<seq<real>>, p: seq<real>, n: nat): (r: nat)
    requires 0 < n <= |cents|
    requires forall j :: 0 <= j < |cents| ==> |cents[j]| == |p|
    ensures r < n
  {
    if n == 1 then 0
    else
      var r := NearestIn(cents, p, n - 1);
      if SqDist(cents[r], p) > SqDist(cents[n - 1], p) then n - 1 else r
  }

  /** The scan finds the first centroid at the least distance from `p`: none
      is closer, and every earlier one is strictly farther. */
  lemma {:induction false} NearestIsFirstMinimum(cents: seq<seq<real>>, p: seq<real>, n: nat)
    requires 0 < n <= |cents|
    requires forall j :: 0 <= j < |cents| ==> |cents[j]| == |p|
    ensures forall j :: 0 <= j < n ==> SqDist(cents[NearestIn(cents, p, n)], p) <= SqDist(cents[j], p)
    ensures forall j :: 0 <= j < NearestIn(cents, p, n) ==>
      SqDist(cents[NearestIn(cents, p, n)], p) < SqDist(cents[j], p)
  {
    if n > 1 {
      NearestIsFirstMinimum(cents, p, n - 1);
    }
  }

  /** The first least-distance index is unique, so it is what the scan returns. */
  lemma NearestUnique(cents: seq<seq<real>>, p: seq<real>, n: nat, r: nat)
    requires 0 < n <= |cents|
    requires forall j :: 0 <= j < |cents| ==> |cents[j]| == |p|
    requires r < n
    requires forall j :: 0 <= j < n ==> SqDist(cents[r], p) <= SqDist(cents[j], p)
    requires forall j :: 0 <= j < r ==> SqDist(cents[r], p) < SqDist(cents[j], p)
    ensures r == NearestIn(cents, p, n)
  {
    NearestIsFirstMinimum(cents, p, n);
  }

  /** The cluster each point joins: `assign[i]` is the nearest centroid of point i. */
  function Assignment(cents: seq<seq<real>>, pts: seq<seq<real>>): (assign: seq<nat>)
    requires Fits(cents, pts)
    ensures |assign| == |pts|
    ensures forall i :: 0 <= i < |pts| ==> assign[i] == NearestIn(cents, pts[i], |cents|)
  {
    seq(|pts|, i requires 0 <= i < |pts| => NearestIn(cents, pts[i], |cents|))
  }

  /** The positions below `m` assigned to cluster `j`, in increasing order: the
      order in which `_partition` appends them. */
  function IndicesOf(assign: seq<nat>, j: nat, m: nat): (s: seq<int>)
    requires m <= |assign|
    ensures forall p :: 0 <= p < |s| ==> 0 <= s[p] < m && assign[s[p]] == j
  {
    if m == 0 then []
    else IndicesOf(assign, j, m - 1) + (if assign[m - 1] == j then [m - 1] else [])
  }

  /** The listed positions increase strictly. */
  lemma {:induction false} IndicesOfSorted(assign: seq<nat>, j: nat, m: nat)
    requires m <= |assign|
    ensures forall p, q :: 0 <= p < q < |IndicesOf(assign, j, m)| ==>
      IndicesOf(assign, j, m)[p] < IndicesOf(assign, j, m)[q]
  {
    if m > 0 {
      IndicesOfSorted(assign, j, m - 1);
    }
  }

  /** Position `m` itself is not yet listed among the positions below it. */
  lemma IndicesOfBelow(assign: seq<nat>, j: nat, m: nat)
    requires m <= |assign|
    ensures !Contains(IndicesOf(assign, j, m), m)
  {
    NotContainsAbove(IndicesOf(assign, j, m), m);
  }

  /** Every position below `m` assigned to `j` is listed. */
  lemma {:induction false} IndicesOfComplete(assign: seq<nat>, j: nat, m: nat, i: int)
    requires m <= |assign|
    requires 0 <= i < m && assign[i] == j
    ensures i in IndicesOf(assign, j, m)
  {
    if i < m - 1 {
      IndicesOfComplete(assign, j, m - 1, i);
    }
  }

  /** A cluster no position below `m` is assigned to lists nothing. */
  lemma {:induction false} IndicesOfNone(assign: seq<nat>, j: nat, m: nat)
    requires m <= |assign|
    requires forall i :: 0 <= i < m ==> assign[i] != j
    ensures IndicesOf(assign, j, m) == []
  {
    if m > 0 {
      IndicesOfNone(assign, j, m - 1);
    }
  }

  /** The member lists `_partition` leaves behind, one per centroid. */
  function PartitionOf(cents: seq<seq<real>>, pts: seq<seq<real>>): (ps: seq<seq<int>>)
    requires Fits(cents, pts)
    ensures |ps| == |cents| && InRange(ps, pts)
  {
    var assign := Assignment(cents, pts);
    seq(|cents|, j requires 0 <= j < |cents| => IndicesOf(assign, j, |pts|))
  }

  /** Point `i` is in the member list of cluster `j` exactly when centroid `j`
      is the first nearest to it. */
  lemma PartitionMembers(cents: seq<seq<real>>, pts: seq<seq<real>>, j: int, i: int)
    requires Fits(cents, pts) && 0 <= j < |cents|
    ensures i in PartitionOf(cents, pts)[j] <==> 0 <= i < |pts| && NearestIn(cents, pts[i], |cents|) == j
  {
    var assign := Assignment(cents, pts);
    assert PartitionOf(cents, pts)[j] == IndicesOf(assign, j, |pts|);
    if 0 <= i < |pts| && NearestIn(cents, pts[i], |cents|) == j {
      IndicesOfComplete(assign, j, |pts|, i);
    }
  }

  /** The partition covers the dataset: every point is in exactly one cluster,
      and each cluster lists its points in increasing order, without repeats. */
  lemma PartitionCovers(cents: seq<seq<real>>, pts: seq<seq<real>>, i: int)
    requires Fits(cents, pts)
    requires 0 <= i < |pts|
    ensures exists j :: 0 <= j < |cents| && i in PartitionOf(cents, pts)[j]
    ensures forall j, k :: 0 <= j < k < |cents| ==>
      !(i in PartitionOf(cents, pts)[j] && i in PartitionOf(cents, pts)[k])
    ensures forall j :: 0 <= j < |cents| ==> forall p, q :: 0 <= p < q < |PartitionOf(cents, pts)[j]| ==>
      PartitionOf(cents, pts)[j][p] < PartitionOf(cents, pts)[j][q]
  {
    var ps := PartitionOf(cents, pts);
    PartitionMembers(cents, pts, NearestIn(cents, pts[i], |cents|), i);
    forall j, k | 0 <= j < k < |cents| ensures !(i in ps[j] && i in ps[k]) {
      PartitionMembers(cents, pts, j, i);
      PartitionMembers(cents, pts, k, i);
    }
    forall j | 0 <= j < |cents| ensures forall p, q :: 0 <= p < q < |ps[j]| ==> ps[j][p] < ps[j][q] {
      assert ps[j] == IndicesOf(Assignment(cents, pts), j, |pts|);
      IndicesOfSorted(Assignment(cents, pts), j, |pts|);
    }
  }

  /** A member of a cluster is at least as close to its own centroid as to any other. */
  lemma MembersAreNearest(cents: seq<seq<real>>, pts: seq<seq<real>>, j: int, i: int, k: int)
    requires Fits(cents, pts)
    requires 0 <= j < |cents| && 0 <= k < |cents|
    requires i in PartitionOf(cents, pts)[j]
    ensures 0 <= i < |pts|
    ensures SqDist(cents[j], pts[i]) <= SqDist(cents[k], pts[i])
  {
    PartitionMembers(cents, pts, j, i);
    NearestIsFirstMinimum(cents, pts[i], |cents|);
  }

  /** Every member list holds positions of `pts`. */
  ghost predicate InRange(memb: seq<seq<int>>, pts: seq<seq<real>>) {
    forall j, q :: 0 <= j < |memb| && 0 <= q < |memb[j]| ==> 0 <= memb[j][q] < |pts|
  }

  /** The centroids after `_update`: each cluster's `update` applied to its members. */
  function NewCentroids(cents: seq<seq<real>>, memb: seq<seq<int>>, pts: seq<seq<real>>): (r: seq<seq<real>>)
    requires |memb| == |cents| && InRange(memb, pts) && Fits(cents, pts)
    ensures |r| == |cents|
    ensures forall j :: 0 <= j < |r| ==> |r[j]| == |cents[j]|
    ensures forall j :: 0 <= j < |r| && |memb[j]| == 0 ==> r[j] == cents[j]
  {
    seq(|cents|, j requires 0 <= j < |cents| => NewCentroid(cents[j], Members(pts, memb[j])))
  }

  /** Centroids that agree with `NewCentroid` cluster by cluster are `NewCentroids`. */
  lemma NewCentroidsOf(cents: seq<seq<real>>, memb: seq<seq<int>>, pts: seq<seq<real>>, cs: seq<seq<real>>)
    requires |memb| == |cents| && InRange(memb, pts) && Fits(cents, pts)
    requires |cs| == |cents|
    requires forall q :: 0 <= q < |cs| ==> cs[q] == NewCentroid(cents[q], Members(pts, memb[q]))
    ensures cs == NewCentroids(cents, memb, pts)
  {
  }

  /** One `step`: partition by the current centroids, then update them. */
  function StepCentroids(cents: seq<seq<real>>, pts: seq<seq<real>>): (r: seq<seq<real>>)
    requires Fits(cents, pts)
    ensures |r| == |cents| && Fits(r, pts)
    ensures forall j :: 0 <= j < |r| ==> |r[j]| == |cents[j]|
  {
    NewCentroids(cents, PartitionOf(cents, pts), pts)
  }

  /** One step where it is defined, and no change where it is not. */
  ghost function Advance(cents: seq<seq<real>>, pts: seq<seq<real>>): seq<seq<real>> {
    if Fits(cents, pts) then StepCentroids(cents, pts) else cents
  }

  /** The centroids after `n` steps. */
  ghost function Iterate(cents: seq<seq<real>>, pts: seq<seq<real>>, n: nat): seq<seq<real>> {
    if n == 0 then cents else Advance(Iterate(cents, pts, n - 1), pts)
  }

  /** Stepping keeps the centroids fitting the dataset, so every step after
      the start is a real `StepCentroids`. */
  lemma {:induction false} IterateFits(cents: seq<seq<real>>, pts: seq<seq<real>>, n: nat)
    requires Fits(cents, pts)
    ensures Fits(Iterate(cents, pts, n), pts)
    ensures Iterate(cents, pts, n + 1) == StepCentroids(Iterate(cents, pts, n), pts)
  {
    if n > 0 {
      IterateFits(cents, pts, n - 1);
    }
  }

  /** Centroids that one step leaves in place stay in place for any number of steps. */
  lemma {:induction false} FixedPointPersists(cents: seq<seq<real>>, pts: seq<seq<real>>, n: nat)
    requires Advance(cents, pts) == cents
    ensures Iterate(cents, pts, n) == cents
  {
    if n > 0 {
      FixedPointPersists(cents, pts, n - 1);
    }
  }

  /** A cluster that gained no points keeps its centroid through a step. */
  lemma EmptyClusterStays(cents: seq<seq<real>>, pts: seq<seq<real>>, j: int)
    requires Fits(cents, pts) && 0 <= j < |cents|
    requires forall i :: 0 <= i < |pts| ==> NearestIn(cents, pts[i], |cents|) != j
    ensures StepCentroids(cents, pts)[j] == cents[j]
  {
    var assign := Assignment(cents, pts);
    IndicesOfNone(assign, j, |pts|);
    assert PartitionOf(cents, pts)[j] == [];
  }

  /** In one dimension, with centroids at 1 and 10, the point 0 is nearest to
      the first centroid and the point 10 to the second. */
  lemma ExampleNearest()
    ensures NearestIn([[1.0], [10.0]], [0.0], 2) == 0
    ensures NearestIn([[1.0], [10.0]], [10.0], 2) == 1
  {
    assert SqDist([1.0], [0.0]) == 1.0;
    assert SqDist([10.0], [0.0]) == 100.0;
    assert SqDist([1.0], [10.0]) == 81.0;
    assert SqDist([10.0], [10.0]) == 0.0;
  }

  /** So each of the two points forms a cluster on its own. */
  lemma ExamplePartition()
    ensures PartitionOf([[1.0], [10.0]], [[0.0], [10.0]]) == [[0], [1]]
  {
    var cents := [[1.0], [10.0]];
    var pts := [[0.0], [10.0]];
    ExampleNearest();
    var assign := Assignment(cents, pts);
    assert assign == [0, 1];
    assert IndicesOf(assign, 0, 1) == [0] && IndicesOf(assign, 1, 1) == [];
    assert IndicesOf(assign, 0, 2) == [0] && IndicesOf(assign, 1, 2) == [1];
    var ps := PartitionOf(cents, pts);
    assert ps[0] == [0] && ps[1] == [1];
  }

  /** The centroid 1 with the single member 0 moves; the centroid 10 with the
      single member 10 stays. */
  lemma ExampleStability()
    ensures !IsStable([1.0], [[0.0]])
    ensures IsStable([10.0], [[10.0]])
  {
    assert Mean([[0.0]], 1)[0] == ColumnSum([[0.0]], 0, 1) / 1.0 == 0.0;
    assert Mean([[10.0]], 1)[0] == ColumnSum([[10.0]], 0, 1) / 1.0 == 10.0;
  }

  /** The flag `_update` returns is the last cluster's alone: here the first
      cluster moves from 1 to 0 while the last one stays at 10, so the flag is
      true although a centroid changed. */
  lemma LastFlagOnly()
    ensures var cents := [[1.0], [10.0]];
            var pts := [[0.0], [10.0]];
            var memb := PartitionOf(cents, pts);
            memb == [[0], [1]] &&
            !IsStable(cents[0], Members(pts, memb[0])) &&
            IsStable(cents[1], Members(pts, memb[1]))
  {
    var pts := [[0.0], [10.0]];
    ExamplePartition();
    ExampleStability();
    assert Members(pts, [0]) == [[0.0]];
    assert Members(pts, [1]) == [[10.0]];
  }

  // ---------------------------------------------------------------------
  // The algorithm object

  class Algorithm {
    const dataset: Dataset
    /** The clusters, in creation order; `getClusters` hands out this very list. */
    const clusters: seq<Cluster>
    /** Where each cluster sits in `clusters`; that it is a function makes the
        list free of repeats. */
    ghost const position: map<Cluster, int>

    /** The class invariant: at least one cluster, all over this dataset, each
        valid, no cluster listed twice. */
    ghost predicate Valid()
      reads this, dataset, clusters
    {
      dataset.Valid() &&
      |clusters| > 0 &&
      (forall j :: 0 <= j < |clusters| ==> clusters[j].dataset == dataset && clusters[j].Valid()) &&
      (forall j :: 0 <= j < |clusters| ==> clusters[j] in position && position[clusters[j]] == j)
    }

    /** The centroids of the clusters, in order. */
    ghost function Centroids(): (cs: seq<seq<real>>)
      reads this, clusters
    {
      seq(|clusters|, j reads clusters requires 0 <= j < |clusters| => clusters[j].centroid)
    }

    /** The member lists of the clusters, in order. */
    ghost function Memberships(): (ms: seq<seq<int>>)
      reads this, clusters
    {
      seq(|clusters|, j reads clusters requires 0 <= j < |clusters| => clusters[j].indices)
    }

    /** `__init__`: one empty cluster per seed, centred on the seed's point. When
        no seeds are given, `draw` stands for the positions `random.sample` picks. */
    constructor (dset: Dataset, k: int, seeds: Option<Value>, draw: seq<int>)
      requires dset.Valid()
      requires 0 < k <= dset.GetSize()
      requires seeds.Some? ==> ValidSeeds(seeds.value, dset.GetSize()) && k <= |seeds.value.elems|
      requires seeds.None? ==> |draw| == k
      requires seeds.None? ==> forall q :: 0 <= q < k ==> 0 <= draw[q] < dset.GetSize()
      ensures Valid()
      ensures dataset == dset && |clusters| == k
      ensures forall j :: 0 <= j < k ==> fresh(clusters[j]) && clusters[j].indices == []
      ensures fresh(position.Keys)
      ensures seeds.Some? ==> forall j :: 0 <= j < k ==>
        clusters[j].centroid == dset.contents[seeds.value.elems[j].i]
      ensures seeds.None? ==> forall j :: 0 <= j < k ==> clusters[j].centroid == dset.contents[draw[j]]
    {
      var cent: seq<seq<real>> := [];
      for i := 0 to k
        invariant |cent| == i
        invariant forall q :: 0 <= q < i ==> |cent[q]| == dset.dimension
        invariant seeds.Some? ==> forall q :: 0 <= q < i ==> cent[q] == dset.contents[seeds.value.elems[q].i]
        invariant seeds.None? ==> forall q :: 0 <= q < i ==> cent[q] == dset.contents[draw[q]]
      {
        var index := if seeds.Some? then seeds.value.elems[i].i else draw[i];
        var point := dset.GetPoint(index);
        cent := cent + [point];
      }
      var clust: seq<Cluster> := [];
      ghost var pos: map<Cluster, int> := map[];
      for i := 0 to k
        invariant |clust| == i
        invariant forall q :: 0 <= q < i ==>
          fresh(clust[q]) && clust[q].dataset == dset && clust[q].Valid() &&
          clust[q].indices == [] && clust[q].centroid == cent[q]
        invariant forall q :: 0 <= q < i ==> clust[q] in pos && pos[clust[q]] == q
        invariant forall c :: c in pos ==> fresh(c)
      {
        var c := new Cluster(dset, cent[i]);
        clust := clust + [c];
        pos := pos[c := i];
      }
      dataset := dset;
      clusters := clust;
      position := pos;
    }

    /** The centroids fit the dataset and the member lists index it. */
    lemma StateFits()
      requires Valid()
      ensures Fits(Centroids(), dataset.contents) && InRange(Memberships(), dataset.contents)
    {
    }

    /** Centroids that agree with the clusters' one by one are `Centroids()`. */
    lemma CentroidsAre(cs: seq<seq<real>>)
      requires |cs| == |clusters|
      requires forall q :: 0 <= q < |clusters| ==> clusters[q].centroid == cs[q]
      ensures Centroids() == cs
    {
    }

    /** Member lists that agree with the clusters' one by one are `Memberships()`. */
    lemma MembershipsAre(ms: seq<seq<int>>)
      requires |ms| == |clusters|
      requires forall q :: 0 <= q < |clusters| ==> clusters[q].indices == ms[q]
      ensures Memberships() == ms
    {
    }

    /** Every centroid has the dimension of the dataset, and `Centroids()`
        lists them in order. */
    lemma CentroidsOfDimension()
      requires Valid()
      ensures |Centroids()| == |clusters|
      ensures forall j :: 0 <= j < |clusters| ==> Centroids()[j] == clusters[j].centroid
      ensures forall j :: 0 <= j < |clusters| ==> |Centroids()[j]| == dataset.dimension
    {
    }

    /** `getClusters`: the list itself, not a copy. */
    function GetClusters(): (cs: seq<Cluster>)
      reads this, dataset, clusters
      requires Valid()
      ensures |cs| > 0 && cs == clusters
      ensures forall j :: 0 <= j < |cs| ==> cs[j].dataset == dataset
    {
      clusters
    }

    /** `_nearest`: the first cluster whose centroid is closest to `point`. */
    method Nearest(point: seq<real>) returns (c: Cluster)
      requires Valid()
      requires |point| == dataset.GetDimension()
      ensures c == clusters[NearestIn(Centroids(), point, |clusters|)]
    {
      CentroidsOfDimension();
      var clust := GetClusters();
      var index := Scan(clust, point, Centroids());
      c := clust[index];
    }

    /** The loop of `_nearest`: compare the distances from `point` to the
        centroids of `clust` in order, keeping the first least one. */
    static method Scan(clust: seq<Cluster>, point: seq<real>, ghost cents: seq<seq<real>>) returns (index: nat)
      requires 0 < |clust| == |cents|
      requires forall j :: 0 <= j < |clust| ==> clust[j].centroid == cents[j]
      requires forall j :: 0 <= j < |cents| ==> |cents[j]| == |point|
      ensures index == NearestIn(cents, point, |cents|)
    {
      var min := clust[0].Distance(point);
      index := 0;
      for i := 1 to |clust|
        invariant index == NearestIn(cents, point, i)
        invariant min == SqDist(cents[index], point)
      {
        var dis := clust[i].Distance(point);
        if min > dis {
          index := i;
          min := dis;
        }
      }
    }

    /** `_partition`: empty every cluster, then hand each point, in order, to
        its nearest cluster. The centroids do not move. */
    method Partition()
      requires Valid()
      modifies position.Keys
      ensures Valid()
      ensures Centroids() == old(Centroids())
      ensures Memberships() == PartitionOf(Centroids(), dataset.contents)
    {
      ghost var cents := Centroids();
      StateFits();
      ClearAll();
      ghost var pts := dataset.contents;
      ghost var assign := Assignment(cents, pts);
      var dset := dataset;
      for i := 0 to dset.GetSize()
        invariant Valid()
        invariant forall q :: 0 <= q < |clusters| ==> clusters[q].centroid == cents[q]
        invariant forall q :: 0 <= q < |clusters| ==> clusters[q].indices == IndicesOf(assign, q, i)
      {
        assert assign[i] == NearestIn(cents, pts[i], |cents|);
        AssignPoint(i, cents, assign);
      }
      CentroidsAre(cents);
      MembershipsAre(PartitionOf(cents, pts));
    }

    /** The first loop of `_partition`: every cluster loses its members and
        keeps its centroid. */
    method ClearAll()
      requires Valid()
      modifies position.Keys
      ensures Valid()
      ensures forall q :: 0 <= q < |clusters| ==> clusters[q].centroid == old(clusters[q].centroid)
      ensures forall q :: 0 <= q < |clusters| ==> clusters[q].indices == []
    {
      var clust := GetClusters();
      for j := 0 to |clust|
        invariant Valid()
        invariant forall q :: 0 <= q < |clusters| ==> clusters[q].centroid == old(clusters[q].centroid)
        invariant forall q :: 0 <= q < j ==> clusters[q].indices == []
      {
        clust[j].Clear();
      }
    }

    /** The body of the second loop of `_partition`: point `i` joins the
        cluster nearest to it, so the member lists grow from the positions
        below `i` to those below `i + 1`. */
    method AssignPoint(i: int, ghost cents: seq<seq<real>>, ghost assign: seq<nat>)
      requires Valid()
      requires 0 <= i < |dataset.contents| <= |assign|
      requires |cents| == |clusters|
      requires forall q :: 0 <= q < |clusters| ==> clusters[q].centroid == cents[q]
      requires assign[i] == NearestIn(cents, dataset.contents[i], |cents|)
      requires forall q :: 0 <= q < |clusters| ==> clusters[q].indices == IndicesOf(assign, q, i)
      modifies position.Keys
      ensures Valid()
      ensures forall q :: 0 <= q < |clusters| ==> clusters[q].centroid == cents[q]
      ensures forall q :: 0 <= q < |clusters| ==> clusters[q].indices == IndicesOf(assign, q, i + 1)
    {
      var point := dataset.GetPoint(i);
      assert Centroids() == cents;
      var c := Nearest(point);
      assert c == clusters[assign[i]];
      Join(c, i, assign);
    }

    /** `c.addIndex(i)` for the cluster `c` that point `i` is assigned to: its
        member list gains `i`, and nothing else changes. */
    method Join(c: Cluster, i: int, ghost assign: seq<nat>)
      requires Valid()
      requires 0 <= i < |dataset.contents| <= |assign|
      requires assign[i] < |clusters| && c == clusters[assign[i]]
      requires forall q :: 0 <= q < |clusters| ==> clusters[q].indices == IndicesOf(assign, q, i)
      modifies c`indices
      ensures Valid()
      ensures forall q :: 0 <= q < |clusters| ==> clusters[q].indices == IndicesOf(assign, q, i + 1)
    {
      IndicesOfBelow(assign, assign[i], i);
      c.AddIndex(i);
      forall q | 0 <= q < |clusters| ensures clusters[q].indices == IndicesOf(assign, q, i + 1) {
        if q != assign[i] {
          assert position[clusters[q]] != position[c];
        }
      }
    }

    /** `_update`: update every cluster in order and return the flag of the
        last one. The member lists do not change. */
    method Update() returns (change: bool)
      requires Valid()
      modifies position.Keys
      ensures Valid()
      ensures Memberships() == old(Memberships())
      ensures InRange(Memberships(), dataset.contents) && Fits(old(Centroids()), dataset.contents)
      ensures Centroids() == NewCentroids(old(Centroids()), Memberships(), dataset.contents)
      ensures change == IsStable(old(Centroids())[|clusters| - 1],
                                 Members(dataset.contents, Memberships()[|clusters| - 1]))
    {
      ghost var cents := Centroids();
      ghost var memb := Memberships();
      ghost var pts := dataset.contents;
      StateFits();
      change := UpdateEach(cents, memb);
      assert Memberships() == memb;
      NewCentroidsOf(cents, memb, pts, Centroids());
      assert old(Centroids())[|clusters| - 1] == cents[|clusters| - 1];
    }

    /** The loop of `_update`: each cluster in turn moves its centroid to the
        mean of its members; the flag is the one the last cluster reports. */
    method UpdateEach(ghost cents: seq<seq<real>>, ghost memb: seq<seq<int>>) returns (change: bool)
      requires Valid()
      requires |cents| == |clusters| && |memb| == |clusters|
      requires Fits(cents, dataset.contents) && InRange(memb, dataset.contents)
      requires forall q :: 0 <= q < |clusters| ==> clusters[q].centroid == cents[q]
      requires forall q :: 0 <= q < |clusters| ==> clusters[q].indices == memb[q]
      modifies position.Keys
      ensures Valid()
      ensures forall q :: 0 <= q < |clusters| ==> clusters[q].indices == memb[q]
      ensures forall q :: 0 <= q < |clusters| ==>
        clusters[q].centroid == NewCentroid(cents[q], Members(dataset.contents, memb[q]))
      ensures change == IsStable(cents[|clusters| - 1], Members(dataset.contents, memb[|clusters| - 1]))
    {
      ghost var pts := dataset.contents;
      change := true;
      var clust := GetClusters();
      for j := 0 to |clust|
        invariant Valid()
        invariant forall q :: 0 <= q < |clusters| ==> clusters[q].indices == memb[q]
        invariant forall q :: 0 <= q < j ==> clusters[q].centroid == NewCentroid(cents[q], Members(pts, memb[q]))
        invariant forall q :: j <= q < |clusters| ==> clusters[q].centroid == cents[q]
        invariant j > 0 ==> change == IsStable(cents[j - 1], Members(pts, memb[j - 1]))
      {
        assert clust[j].Points() == Members(pts, memb[j]);
        change := UpdateCluster(j);
      }
    }

    /** The body of the loop of `_update`: cluster `j` moves its centroid and
        no other cluster changes. */
    method UpdateCluster(j: int) returns (stable: bool)
      requires Valid() && 0 <= j < |clusters|
      modifies position.Keys
      ensures Valid()
      ensures clusters[j].centroid == NewCentroid(old(clusters[j].centroid), old(clusters[j].Points()))
      ensures stable == IsStable(old(clusters[j].centroid), old(clusters[j].Points()))
      ensures forall q :: 0 <= q < |clusters| ==> clusters[q].indices == old(clusters[q].indices)
      ensures forall q :: 0 <= q < |clusters| && q != j ==> clusters[q].centroid == old(clusters[q].centroid)
    {
      var c := clusters[j];
      stable := c.Update();
      forall q | 0 <= q < |clusters| && q != j ensures clusters[q].centroid == old(clusters[q].centroid) {
        assert position[clusters[q]] != position[c];
      }
    }

    /** `step`: one partition followed by one update; the update's flag is
        dropped, so nothing is returned. */
    method Step()
      requires Valid()
      modifies position.Keys
      ensures Valid()
      ensures Fits(old(Centroids()), dataset.contents)
      ensures Memberships() == PartitionOf(old(Centroids()), dataset.contents)
      ensures Centroids() == StepCentroids(old(Centroids()), dataset.contents)
    {
      Partition();
      var _ := Update();
    }

    /** `run`: exactly `maxstep` steps, because `step` never reports convergence. */
    method Run(maxstep: int)
      requires Valid()
      requires maxstep >= 0
      modifies position.Keys
      ensures Valid()
      ensures Fits(old(Centroids()), dataset.contents)
      ensures Centroids() == Iterate(old(Centroids()), dataset.contents, maxstep)
      ensures maxstep > 0 ==> Fits(Iterate(old(Centroids()), dataset.contents, maxstep - 1), dataset.contents)
      ensures maxstep > 0 ==>
        Memberships() == PartitionOf(Iterate(old(Centroids()), dataset.contents, maxstep - 1), dataset.contents)
      ensures maxstep == 0 ==> Memberships() == old(Memberships())
    {
      assert Fits(Centroids(), dataset.contents);
      if maxstep == 0 {
        // `range(0)` is empty: no step is taken.
        return;
      }
      for i := 0 to maxstep
        invariant Valid()
        invariant Centroids() == Iterate(old(Centroids()), dataset.contents, i)
        invariant i > 0 ==> Fits(Iterate(old(Centroids()), dataset.contents, i - 1), dataset.contents)
        invariant i > 0 ==>
          Memberships() == PartitionOf(Iterate(old(Centroids()), dataset.contents, i - 1), dataset.contents)
      {
        StepOf(old(Centroids()), i);
      }
    }

    /** One pass of the loop in `run`: the step taken after `i` steps from
        `start` leaves the centroids `i + 1` steps on. */
    method StepOf(ghost start: seq<seq<real>>, ghost i: nat)
      requires Valid() && Fits(start, dataset.contents)
      requires Centroids() == Iterate(start, dataset.contents, i)
      modifies position.Keys
      ensures Valid()
      ensures Centroids() == Iterate(start, dataset.contents, i + 1)
      ensures Fits(Iterate(start, dataset.contents, i), dataset.contents)
      ensures Memberships() == PartitionOf(Iterate(start, dataset.contents, i), dataset.contents)
    {
      IterateFits(start, dataset.contents, i);
      Step();
    }
  }
}
