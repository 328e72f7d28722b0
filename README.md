# k-means clustering engine, modelled in Dafny

This project models the k-means engine of a small Python course project: the
dataset of points, the cluster, and the driver that repeatedly assigns each
point to its nearest centroid and moves each centroid to the mean of its
members. It proves that model against the properties the code and its
doc-comments promise.

The Dafny modules follow the Python modules:

- `values.dfy`, module `Values`. The part of Python's value space that the
  validators tell apart: ints, floats, strings, lists and None. Also `Option`
  and `Result`, where `Result` carries the one exception a validator raises
  by itself (`IndexError`).
- `dataset.dfy`, module `Datasets` (a6dataset.py). Contains:
  - the validators `is_point` and `is_point_list`;
  - class `Dataset`, an append-only table of points of one fixed dimension;
  - the `__str__` rendering, with a specification of its line structure.
- `cluster.dfy`, module `Clusters` (a6cluster.py). Contains:
  - the squared distance, the coordinate-wise mean and `numpy.allclose`, as
    pure functions;
  - class `Cluster`: a centroid plus an ordered list of dataset indices.
- `algorithm.dfy`, module `Algorithms` (a6algorithm.py). Contains:
  - `valid_seeds`;
  - pure functions that define one k-means round: the nearest-centroid scan,
    the partition, the centroid update, one step, and `n` steps;
  - class `Algorithm`, whose methods are proved to compute those functions.

Each imperative source method is modelled as a Dafny method with the same
loops. Its contract ties the new state to the pure functions. Properties of
those functions are separate lemmas: coverage and uniqueness of the
partition, first-minimum tie-breaking, bounds of the mean, fixed points, and
the rendering's line structure.

Some loop bodies of the source are separate helper methods in the model, so
that each proof stays small. These are:

- `Scan`, the loop of `_nearest`;
- `ClearAll`, the first loop of `_partition`;
- `AssignPoint` and `Join`, the body of the second loop of `_partition`;
- `UpdateEach` and `UpdateCluster`, the loop of `_update` and its body;
- `StepOf`, the body of the loop in `run`;
- `RenderCoordinates`, the inner loop of `__str__`.

Every helper runs the same statements, in the same order, as the source loop
it stands for. `Run` returns at once when `maxstep` is 0, as the loop over
`range(0)` does.

Modelling choices:

- Coordinates are exact `real`s.
- `distance` and `getRadius` return squared distances (no `math.sqrt`). The
  square root is monotone, so the nearest cluster, the first-minimum
  tie-breaking and the maximum are the same.
- `numpy.allclose` is written out with its default tolerances: each
  coordinate satisfies `|a - b| <= 1e-8 + 1e-5 * |b|`, where `b` is the new
  centroid.
- `str(float(x))` in `Dataset.__str__` is a parameter `format`. Its results
  are `Numeral`s: strings without a newline.
- `random.sample` in `Algorithm.__init__` is the parameter `draw`: any `k`
  positions of the dataset.
- A Python `assert` on a documented precondition is a `requires`. The one
  exception is `addPoint`: there the model returns `false` and leaves the
  table unchanged where the code raises.

### Code and documentation disagree

The model follows the code. The differences are:

- `_update` returns the flag of the last cluster only
  (a6algorithm.py:183-192), not the conjunction its doc-comment describes
  (a6algorithm.py:175-180). `Algorithms.Algorithm.Update` states the
  last-cluster flag. `Algorithms.LastFlagOnly` exhibits two clusters where
  one centroid moves and the flag is still true.
- `step` drops the result of `_update` and returns `None`
  (a6algorithm.py:204-207). So the early exit in `run`
  (a6algorithm.py:230-231) never fires: `Algorithms.Algorithm.Run` performs
  exactly `maxstep` steps.
- `Dataset.getContents` returns a shallow copy (a6dataset.py:103), although
  its doc-comment says it returns the list itself (a6dataset.py:96-99).
  Dafny sequences are values, so the model returns an equal table.
- The `Dataset` constructor only checks `is_point_list` (a6dataset.py:126).
  It never checks that the column count equals `dim`, which its
  documentation requires (a6dataset.py:118-120).
- `getPoint` only checks `i < getSize()` (a6dataset.py:152), so a negative
  `i` reads from the end of the table. Its documentation asks for
  `0 <= i`.

## Model

| member | source | states |
|---|---|---|
| Datasets.AllNumbersFrom | a6dataset.py:24-26 | the scan from position `i` succeeds exactly when every element from `i` on is an int or a float |
| Datasets.IsPoint | a6dataset.py:13-27 | true exactly when the value is a list whose elements are all ints or floats |
| Datasets.AllPointsFrom | a6dataset.py:43-45 | the scan from position `i` succeeds exactly when every element from `i` on is a point |
| Datasets.SameLengthFrom | a6dataset.py:49-51 | the scan from position `i` succeeds exactly when every list from `i` on has length `n` |
| Datasets.IsPointList | a6dataset.py:29-52 | IndexError exactly on the empty list; true exactly on a non-empty list of points that all have the first point's length |
| Datasets.ToPoint | a6dataset.py:173 | the stored copy of a point has its length, and coordinate `j` is the numeric value of element `j` |
| Datasets.ToTable | a6dataset.py:133 | the stored copy of a point list has one row per element, and row `j` is the copy of point `j` |
| Datasets.PointRoundTrip | a6dataset.py:13-27 | a list of floats is a point, and storing it gives back the same coordinates |
| Datasets.PointListOfTable | a6dataset.py:29-52 | on a table of reals, `is_point_list` raises exactly on the empty table and otherwise says whether all rows have the first row's length; storing an accepted table gives it back |
| Datasets.NatToString | a6dataset.py:214 | `str(i + 1)` is a non-empty string of decimal digits, so it holds no newline; the digits denote the number, and there is no leading zero except in `"0"` |
| Datasets.RenderedLines | a6dataset.py:202-214 | the rendering is empty exactly when the table is; otherwise splitting it at '\n' gives exactly one line per point, and line `i` is `"i: ["`, the comma-joined formatted coordinates and `"]"` |
| Datasets.Dataset.constructor | a6dataset.py:105-133 | the dimension is `dim`; the contents are empty when no rows are given, and otherwise the given table, one row per element; the invariant holds |
| Datasets.Dataset.GetDimension | a6dataset.py:78-82 | the fixed, positive point dimension |
| Datasets.Dataset.GetSize | a6dataset.py:84-90 | the number of stored points |
| Datasets.Dataset.GetContents | a6dataset.py:92-103 | a table of the dataset's size whose rows equal the stored rows and have the dataset's dimension |
| Datasets.Dataset.GetPoint | a6dataset.py:135-156 | the point stored at position `i`, of the dataset's dimension |
| Datasets.Dataset.AddPoint | a6dataset.py:158-175 | succeeds exactly when the argument is a point of the dataset's dimension; then the table grows by that point at the end and nothing else changes; otherwise the table is unchanged |
| Datasets.Dataset.RenderCoordinates | a6dataset.py:207-211 | the formatted coordinates of one point, separated by commas without spaces |
| Datasets.Dataset.Render | a6dataset.py:178-215 | the text of `__str__`: the lines of all points joined by single newlines, or the empty string for an empty table |
| Clusters.SqDist | a6cluster.py:104-109 | the squared distance between two points of equal length is never negative |
| Clusters.SqDistSelf | a6cluster.py:104-109 | a point is at squared distance zero from itself |
| Clusters.SqDistAppend | a6cluster.py:104-109 | the squared distance over a split of the coordinates is the sum of the squared distances of the two parts |
| Clusters.SqDistSwap | a6cluster.py:104-109 | exchanging two coordinates in both the point and the centroid keeps the squared distance; transpositions generate all permutations, so any one reordering applied to both keeps it |
| Clusters.SqDistSymmetric | a6cluster.py:104-109 | the squared distance is the same in both directions |
| Clusters.SqDistPositive | a6cluster.py:104-110 | points of equal length that differ are at a positive squared distance |
| Clusters.SqDistZero | a6cluster.py:104-110 | squared distance zero means the two points are equal |
| Clusters.Mean | a6cluster.py:147-153 | the mean of points of dimension `dim` has `dim` coordinates |
| Clusters.MeanWithinBounds | a6cluster.py:147-153 | each coordinate of the mean lies between any lower and upper bound of that coordinate over the points |
| Clusters.MeanOfCopies | a6cluster.py:147-153 | the mean of copies of one point is that point |
| Clusters.Close | a6cluster.py:157 | `numpy.isclose` for one coordinate: equal values are close, values within the absolute tolerance 1e-8 are close, and next to 0 only that absolute tolerance applies |
| Clusters.CloseNotSymmetric | a6cluster.py:157 | the tolerance scales with the new centroid only: there are two values where the first is close to the second but not the other way round |
| Clusters.AllClose | a6cluster.py:157 | `numpy.allclose`: a point is close to itself, and points of different lengths are never close |
| Clusters.Members | a6cluster.py:88-91 | one point per index, in index-list order: element `j` is the dataset point at `indices[j]` |
| Clusters.NewCentroid | a6cluster.py:143-156 | the centroid after `update` keeps the old centroid's dimension |
| Clusters.IsStable | a6cluster.py:143-157 | the flag of `update` is true exactly when the centroid after the update is close to the old one; in particular it is true on an empty cluster |
| Clusters.UpdateTwiceIsStable | a6cluster.py:128-157 | a second `update` with the same members keeps the centroid and returns true |
| Clusters.ContainsIsIn | a6cluster.py:72 | the membership test of `addIndex` is Python's `in` on the index list |
| Clusters.NoDuplicatesPairwise | a6cluster.py:65-73 | a list without duplicates is one where no two positions hold the same index |
| Clusters.Cluster.constructor | a6cluster.py:44-59 | a new cluster over `dset` has no members and the given centroid, whose length is the dataset's dimension; its index list has no duplicates |
| Clusters.Cluster.GetIndices | a6cluster.py:26-33 | the index list itself; every index is a position of the dataset |
| Clusters.Cluster.GetCentroid | a6cluster.py:35-42 | the centroid, of the dataset's dimension |
| Clusters.Cluster.AddIndex | a6cluster.py:61-73 | an index already present changes nothing; any other index is appended at the end; a list without duplicates stays without duplicates |
| Clusters.Cluster.Clear | a6cluster.py:75-79 | the index list becomes empty (so it has no duplicates) and the centroid is untouched |
| Clusters.Cluster.GetContents | a6cluster.py:81-91 | one point per member index, in index-list order: element `j` is the dataset point at `indices[j]` |
| Clusters.Cluster.Distance | a6cluster.py:94-110 | the squared Euclidean distance between the centroid and `point`; never negative, and zero exactly when `point` is the centroid |
| Clusters.Cluster.GetRadius | a6cluster.py:112-126 | at least the distance of every member; equal to some member's distance when there are members; 0 when there are none |
| Clusters.Cluster.Update | a6cluster.py:128-157 | the centroid becomes the mean of the member points, or stays when there are none; the result is true on an empty cluster and otherwise says whether the old centroid is close to the new one |
| Algorithms.IntEquals | a6algorithm.py:50 | Python's `n == v` for an int `n`: true exactly when `v` is an int or a float with the value of `n`; false for a string, a list or None |
| Algorithms.NoRepeatFrom | a6algorithm.py:49-51 | the inner scan succeeds exactly when no later element compares equal to the int `n` |
| Algorithms.SeedsFrom | a6algorithm.py:44-51 | the outer scan from `i` succeeds exactly when every element from `i` on is an int in `[0, size-1]` and no two of them are equal |
| Algorithms.ValidSeeds | a6algorithm.py:19-53 | true exactly when the value is a list of pairwise distinct ints, each in `[0, size-1]` |
| Algorithms.FirstSeedsValid | a6algorithm.py:19-53 | the seed list `[0, 1, ..., n-1]` is valid for every dataset of at least `n` points |
| Algorithms.SeedExamples | a6algorithm.py:19-53 | `[0, 1]` is valid; a repeated seed (also when written as a float), a seed out of range and a non-list are not |
| Algorithms.NearestIn | a6algorithm.py:138-147 | the scan over the first `n` centroids ends on one of them |
| Algorithms.NearestIsFirstMinimum | a6algorithm.py:142-147 | the index the scan ends on is at least as close as every centroid, and strictly closer than every earlier one |
| Algorithms.NearestUnique | a6algorithm.py:142-147 | any first least-distance index is the one the scan ends on |
| Algorithms.Assignment | a6algorithm.py:167-170 | point `i` goes to the centroid the scan picks for it |
| Algorithms.IndicesOf | a6algorithm.py:167-170 | the index list of cluster `j` after `m` points holds only positions below `m` assigned to `j` |
| Algorithms.IndicesOfSorted | a6algorithm.py:167-170 | that index list is strictly increasing |
| Algorithms.IndicesOfBelow | a6algorithm.py:170 | position `m` is not yet in it, so `addIndex(m)` appends |
| Algorithms.IndicesOfComplete | a6algorithm.py:167-170 | every position below `m` assigned to `j` is in it |
| Algorithms.IndicesOfNone | a6algorithm.py:167-170 | a cluster that no position below `m` is assigned to has an empty index list |
| Algorithms.PartitionOf | a6algorithm.py:158-170 | one index list per centroid, each holding positions of the dataset |
| Algorithms.PartitionMembers | a6algorithm.py:158-170 | point `i` is in the list of cluster `j` exactly when it is a point of the dataset and `_nearest` picks cluster `j` for it |
| Algorithms.PartitionCovers | a6algorithm.py:158-170 | every point lies in exactly one cluster, and each cluster's list is strictly increasing |
| Algorithms.MembersAreNearest | a6algorithm.py:158-170 | a member of a cluster is at least as close to that cluster's centroid as to any other |
| Algorithms.NewCentroids | a6algorithm.py:186-189 | one new centroid per cluster, of the old centroid's dimension; a cluster without members keeps its centroid |
| Algorithms.NewCentroidsOf | a6algorithm.py:186-189 | centroids that agree cluster by cluster with each cluster's `update` are the result of `_update` |
| Algorithms.StepCentroids | a6algorithm.py:194-207 | a step keeps the number of centroids and their dimension |
| Algorithms.IterateFits | a6algorithm.py:225-227 | after any number of steps the centroids still fit the dataset, and the next step is one more `StepCentroids` |
| Algorithms.FixedPointPersists | a6algorithm.py:225-231 | centroids that one step leaves in place stay in place for any number of steps |
| Algorithms.EmptyClusterStays | a6algorithm.py:194-207 | a cluster that no point is nearest to keeps its centroid through a step |
| Algorithms.ExampleNearest | a6algorithm.py:142-147 | with centroids 1 and 10, point 0 is nearest to the first and point 10 to the second |
| Algorithms.ExamplePartition | a6algorithm.py:158-170 | so the points 0 and 10 are partitioned as `[[0], [1]]` |
| Algorithms.ExampleStability | a6cluster.py:155-157 | the centroid 1 over the member 0 is not stable; the centroid 10 over the member 10 is |
| Algorithms.LastFlagOnly | a6algorithm.py:183-192 | in that example the first cluster moves and the last does not, so `_update`'s flag is true although a centroid changed |
| Algorithms.Algorithm.constructor | a6algorithm.py:82-116 | exactly `k` new clusters over the dataset, all empty; cluster `j` is centred on the point at `seeds[j]`, or at `draw[j]` when no seeds are given |
| Algorithms.Algorithm.GetClusters | a6algorithm.py:70-80 | the cluster list itself: non-empty, all over this dataset |
| Algorithms.Algorithm.Nearest | a6algorithm.py:119-149 | the cluster at the index the first-minimum scan picks among all centroids |
| Algorithms.Algorithm.Scan | a6algorithm.py:138-147 | the loop of `_nearest` ends on the index the scan specification picks |
| Algorithms.Algorithm.Partition | a6algorithm.py:151-170 | the centroids do not move, and the member lists become the partition by those centroids |
| Algorithms.Algorithm.ClearAll | a6algorithm.py:161-162 | every cluster loses its members and keeps its centroid |
| Algorithms.Algorithm.AssignPoint | a6algorithm.py:167-170 | after point `i` is handed out, each cluster lists exactly its assigned positions below `i + 1`; no centroid moves |
| Algorithms.Algorithm.Join | a6algorithm.py:170 | `addIndex(i)` on the assigned cluster leaves every cluster listing its assigned positions below `i + 1` |
| Algorithms.Algorithm.Update | a6algorithm.py:173-192 | the member lists do not change; the centroids become the ones each cluster's `update` computes; the result is the last cluster's stability flag |
| Algorithms.Algorithm.UpdateEach | a6algorithm.py:183-189 | each cluster in turn moves to the mean of its members; the flag is the last cluster's |
| Algorithms.Algorithm.UpdateCluster | a6algorithm.py:186-189 | cluster `j` moves its centroid as `update` does and returns its flag; no other centroid and no member list changes |
| Algorithms.Algorithm.Step | a6algorithm.py:194-207 | one partition by the current centroids followed by one update, with no result |
| Algorithms.Algorithm.StepOf | a6algorithm.py:225-227 | one pass of the loop in `run`: after `i` steps from the start, one more `step` leaves the centroids `i + 1` steps on and the member lists the partition by the centroids after `i` steps |
| Algorithms.Algorithm.Run | a6algorithm.py:209-234 | exactly `maxstep` steps; afterwards the member lists are the partition made by the centroids of the last step; `run(0)` changes nothing; there are still `k` clusters |

## Left out

- a6test.py, the test harness, is not part of this model.
- Floating point is not modelled. Coordinates are exact reals. The `float()`
  casts, IEEE rounding of the mean and of the distances are left out.
- Clusters.Cluster.Distance: the model returns the squared distance.
  `math.sqrt` is not modelled, since it changes neither the ordering nor
  the maximum.
- Clusters.Cluster.GetRadius: the model returns the squared radius, for the
  same reason.
- `numpy.allclose` is written out with its default tolerances; NaN and
  infinity handling is left out, since reals have neither.
- Datasets.Dataset.Render: `str(float(x))` is the parameter `format`. Only
  the structure is modelled: line indices, the colon, brackets, commas and
  newlines. The digits of Python's float formatting are not.
- Algorithms.Algorithm.constructor: `random.sample` is the parameter `draw`.
  It may be any `k` positions of the dataset. That `random.sample` picks
  distinct positions at random is not modelled.
- Algorithms.Algorithm.constructor: a seed list shorter than `k` makes the
  code raise IndexError at a6algorithm.py:106. The model excludes it with a
  `requires`.
- Datasets.Dataset.constructor: requires the documented column count `dim`.
  The code does not check it; a table of another width would break the
  class invariant, and that object is not modelled.
- Datasets.Dataset.GetPoint: requires `0 <= i`. Python's negative indexing
  from the end is not modelled.
- Clusters.Cluster.Valid: the absence of duplicate member indices is not
  part of the cluster invariant. It is stated where it is kept:
  - `AddIndex` preserves it;
  - `Clear` and the constructor establish it;
  - after `_partition`, every list is strictly increasing (`PartitionCovers`).
- `Cluster.__str__` and `Cluster.__repr__` (a6cluster.py:160-170) are
  debugging output and are not modelled.
- Aliasing is not modelled: the shallow copies of `getContents`,
  `getPoint`, `getCentroid` and the constructors, and the list that
  `getClusters` and `getIndices` hand out. Dafny sequences are values, so
  a caller cannot change the stored state through a returned list.
- Python's `bool` is a subclass of `int`, so all three validators accept
  booleans as ints: `is_point([True])` and `is_point_list([[True]])` hold
  (a6dataset.py:25), and so does `valid_seeds([True], 2)`
  (a6algorithm.py:45). `Value` has no booleans, so these cases are not
  modelled.
- `isinstance` checks on internal arguments are left out: the dataset
  argument of the `Cluster` and `Algorithm` constructors, the int checks
  on `k`, `index` and `maxstep`, and `is_point` on points that come from
  the dataset. Those arguments are typed in the model.
- Algorithms.Algorithm.Partition: idempotence is not a lemma of its own.
  It follows from the contract: the centroids do not move, and the member
  lists are a function of the centroids and the dataset.
