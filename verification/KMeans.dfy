/** Fork/join k-means over the reals: the forked tasks compute what one sequential pass computes, and an
    iteration never raises the clustering cost. */
module KMeans {

  /** A `Double[]`: its identity and its coordinates. */
  datatype Vector = Vector(id: nat, coords: seq<real>)

  type Clustering = map<Vector, seq<Vector>>

  ghost predicate AllOf(vectors: seq<Vector>, dim: nat) {
    forall v :: v in vectors ==> |v.coords| == dim
  }

  // ---------- sums and distances ----------

  function Square(x: real): real { x * x }

  /** The squared distance in the first `k` coordinates. */
  function Distance(x: seq<real>, y: seq<real>, k: nat): real
    requires k <= |x| && k <= |y|
  {
    if k == 0 then 0.0 else Distance(x, y, k - 1) + Square(x[k - 1] - y[k - 1])
  }

  function CoordinateSum(vectors: seq<Vector>, i: nat): real
    requires forall v :: v in vectors ==> i < |v.coords|
  {
    if vectors == [] then 0.0
    else CoordinateSum(vectors[..|vectors| - 1], i) + vectors[|vectors| - 1].coords[i]
  }

  // ---------- assignment: the meaning ----------

  /** The first of the nearest centroids. */
  function NearestIndex(p: seq<real>, centroids: seq<Vector>): (r: nat)
    requires centroids != [] && AllOf(centroids, |p|)
    ensures r < |centroids|
  {
    var last := |centroids| - 1;
    if last == 0 then 0
    else
      var k := NearestIndex(p, centroids[..last]);
      if Distance(p, centroids[last].coords, |p|) < Distance(p, centroids[k].coords, |p|) then last else k
  }

  lemma {:induction false} NearestIsMinimal(p: seq<real>, centroids: seq<Vector>, j: nat)
    requires AllOf(centroids, |p|) && j < |centroids|
    ensures var k := NearestIndex(p, centroids);
      && Distance(p, centroids[k].coords, |p|) <= Distance(p, centroids[j].coords, |p|)
      && (j < k ==> Distance(p, centroids[k].coords, |p|) < Distance(p, centroids[j].coords, |p|))
  {
    if |centroids| > 1 {
      NearestIsMinimal(p, centroids[..|centroids| - 1], if j < |centroids| - 1 then j else 0);
      if j == |centroids| - 1 {
        NearestIsMinimal(p, centroids[..j], NearestIndex(p, centroids[..j]));
      }
    }
  }

  function Nearest(v: Vector, centroids: seq<Vector>): Vector
    requires centroids != [] && AllOf(centroids, |v.coords|)
  {
    centroids[NearestIndex(v.coords, centroids)]
  }

  ghost predicate Points(data: seq<Vector>, centroids: seq<Vector>, dim: nat) {
    AllOf(data, dim) && AllOf(centroids, dim) && centroids != []
  }

  /** The data points whose nearest centroid is `c`, in data order. */
  ghost function Members(data: seq<Vector>, centroids: seq<Vector>, c: Vector, dim: nat): seq<Vector>
    requires Points(data, centroids, dim)
  {
    if data == [] then []
    else
      var last := data[|data| - 1];
      Members(data[..|data| - 1], centroids, c, dim) + if Nearest(last, centroids) == c then [last] else []
  }

  ghost function UsedCentroids(data: seq<Vector>, centroids: seq<Vector>, dim: nat): set<Vector>
    requires Points(data, centroids, dim)
  {
    set i | 0 <= i < |data| :: Nearest(data[i], centroids)
  }

  /** What one direct pass over `data` yields. */
  ghost function Clusters(data: seq<Vector>, centroids: seq<Vector>, dim: nat): Clustering
    requires Points(data, centroids, dim)
  {
    map c | c in UsedCentroids(data, centroids, dim) :: Members(data, centroids, c, dim)
  }

  ghost function Merged(left: Clustering, right: Clustering): Clustering {
    map c | c in left.Keys + right.Keys ::
      (if c in left then left[c] else []) + (if c in right then right[c] else [])
  }

  lemma {:induction false} MembersConcat(a: seq<Vector>, b: seq<Vector>, centroids: seq<Vector>, c: Vector, dim: nat)
    requires Points(a, centroids, dim) && Points(b, centroids, dim) && Points(a + b, centroids, dim)
    ensures Members(a + b, centroids, c, dim) == Members(a, centroids, c, dim) + Members(b, centroids, c, dim)
  {
    if b == [] {
      assert a + b == a;
    } else {
      assert (a + b)[..|a + b| - 1] == a + b[..|b| - 1];
      MembersConcat(a, b[..|b| - 1], centroids, c, dim);
    }
  }

  lemma {:induction false} UnusedHasNoMembers(data: seq<Vector>, centroids: seq<Vector>, c: Vector, dim: nat)
    requires Points(data, centroids, dim)
    ensures Members(data, centroids, c, dim) == [] <==> c !in UsedCentroids(data, centroids, dim)
  {
    if data != [] {
      var init := data[..|data| - 1];
      UnusedHasNoMembers(init, centroids, c, dim);
      assert forall i :: 0 <= i < |init| ==> init[i] == data[i];
      if Nearest(data[|data| - 1], centroids) == c {
        assert c in UsedCentroids(data, centroids, dim);
      }
    }
  }

  /** Merging the clusterings of two halves is the clustering of the whole, lists in data order. */
  lemma MergedClusters(a: seq<Vector>, b: seq<Vector>, centroids: seq<Vector>, dim: nat)
    requires Points(a, centroids, dim) && Points(b, centroids, dim) && Points(a + b, centroids, dim)
    ensures Merged(Clusters(a, centroids, dim), Clusters(b, centroids, dim)) == Clusters(a + b, centroids, dim)
  {
    hide Members, UsedCentroids, Nearest, AllOf;
    var m, all := Merged(Clusters(a, centroids, dim), Clusters(b, centroids, dim)), Clusters(a + b, centroids, dim);
    forall c
      ensures c in m <==> c in all
      ensures c in m ==> m[c] == all[c]
    {
      MembersConcat(a, b, centroids, c, dim);
      UnusedHasNoMembers(a, centroids, c, dim);
      UnusedHasNoMembers(b, centroids, c, dim);
      UnusedHasNoMembers(a + b, centroids, c, dim);
    }
  }

  // ---------- assignment: the tasks ----------

  method ComputeDistance(x: seq<real>, y: seq<real>) returns (result: real)
    requires |x| == |y|
    ensures result == Distance(x, y, |x|)
  {
    result := 0.0;
    for i := 0 to |x|
      invariant result == Distance(x, y, i)
    {
      var diff := x[i] - y[i];
      result := result + diff * diff;
    }
  }

  datatype Option<T> = None | Some(value: T)

  /** The inner loop of `findNearestCentroid`; `Double.MAX_VALUE` is the minimum of no distances. */
  method FindNearestTo(element: Vector, centroids: seq<Vector>) returns (result: nat)
    requires centroids != [] && AllOf(centroids, |element.coords|)
    ensures result == NearestIndex(element.coords, centroids)
  {
    var min: Option<real> := None;
    result := 0;
    for i := 0 to |centroids|
      invariant min == None <==> i == 0
      invariant i > 0 ==> result == NearestIndex(element.coords, centroids[..i])
      invariant i > 0 ==> min == Some(Distance(element.coords, centroids[result].coords, |element.coords|))
    {
      assert centroids[i] in centroids;
      var distance := ComputeDistance(element.coords, centroids[i].coords);
      assert centroids[..i + 1][..i] == centroids[..i];
      if min.None? || distance < min.value {
        result := i;
        min := Some(distance);
      }
    }
    assert centroids[..|centroids|] == centroids;
  }

  method FindNearestCentroid(data: seq<Vector>, centroids: seq<Vector>, from: nat, to: nat, ghost dim: nat)
    returns (result: array<nat>)
    requires from <= to <= |data| && Points(data, centroids, dim)
    ensures fresh(result) && result.Length == to - from
    ensures forall i :: from <= i < to ==> result[i - from] == NearestIndex(data[i].coords, centroids)
  {
    result := new nat[to - from];
    for i := from to to
      invariant forall j :: from <= j < i ==> result[j - from] == NearestIndex(data[j].coords, centroids)
    {
      result[i - from] := FindNearestTo(data[i], centroids);
    }
  }

  method CollectClusters(
      data: seq<Vector>, centroids: seq<Vector>, indices: array<nat>, from: nat, to: nat, ghost dim: nat)
    returns (result: Clustering)
    requires from <= to <= |data| && Points(data, centroids, dim) && indices.Length == to - from
    requires forall i :: from <= i < to ==> indices[i - from] == NearestIndex(data[i].coords, centroids)
    ensures result == Clusters(data[from..to], centroids, dim)
  {
    hide Clusters;
    NothingClustered(data, from, centroids, dim);
    result := map[];
    for i := from to to
      invariant result == Clusters(data[from..i], centroids, dim)
    {
      AddToCluster(data, from, i, centroids, dim);
      var centroid, element := centroids[indices[i - from]], data[i];
      result := result[centroid := if centroid in result then result[centroid] + [element] else [element]];
    }
  }

  ghost function Put(clusters: Clustering, c: Vector, element: Vector): Clustering {
    clusters[c := if c in clusters then clusters[c] + [element] else [element]]
  }

  lemma NothingClustered(data: seq<Vector>, from: nat, centroids: seq<Vector>, dim: nat)
    requires from <= |data| && Points(data, centroids, dim)
    ensures Points(data[from..from], centroids, dim) && Clusters(data[from..from], centroids, dim) == map[]
  {
  }

  lemma MembersAdd(data: seq<Vector>, element: Vector, centroids: seq<Vector>, c: Vector, dim: nat)
    requires Points(data + [element], centroids, dim) && Points(data, centroids, dim) && |element.coords| == dim
    ensures var all, mine := data + [element], Nearest(element, centroids) == c;
      && Members(all, centroids, c, dim) == Members(data, centroids, c, dim) + (if mine then [element] else [])
      && (c in UsedCentroids(all, centroids, dim) <==> c in UsedCentroids(data, centroids, dim) || mine)
  {
    var all := data + [element];
    assert all[..|all| - 1] == data && all[|all| - 1] == element;
    UnusedHasNoMembers(data, centroids, c, dim);
    UnusedHasNoMembers(all, centroids, c, dim);
  }

  lemma ClustersAdd(data: seq<Vector>, element: Vector, centroids: seq<Vector>, dim: nat)
    requires Points(data + [element], centroids, dim) && Points(data, centroids, dim) && |element.coords| == dim
    ensures Clusters(data + [element], centroids, dim) ==
            Put(Clusters(data, centroids, dim), Nearest(element, centroids), element)
  {
    hide Members, UsedCentroids, Nearest, AllOf;
    var after := Clusters(data + [element], centroids, dim);
    var expected := Put(Clusters(data, centroids, dim), Nearest(element, centroids), element);
    forall c
      ensures c in after <==> c in expected
      ensures c in after ==> after[c] == expected[c]
    {
      MembersAdd(data, element, centroids, c, dim);
      UnusedHasNoMembers(data, centroids, c, dim);
    }
  }

  lemma AddToCluster(data: seq<Vector>, from: nat, i: nat, centroids: seq<Vector>, dim: nat)
    requires from <= i < |data| && Points(data, centroids, dim)
    ensures AllOf(data[from..i], dim) && AllOf(data[from..i + 1], dim) && |data[i].coords| == dim
    ensures Clusters(data[from..i + 1], centroids, dim) ==
            Put(Clusters(data[from..i], centroids, dim), Nearest(data[i], centroids), data[i])
  {
    assert data[i] in data && data[from..i + 1] == data[from..i] + [data[i]];
    ClustersAdd(data[from..i], data[i], centroids, dim);
  }

  /** `merge`: the keys of the right map are visited in any order. */
  method Merge(left: Clustering, right: Clustering) returns (result: Clustering)
    ensures result == Merged(left, right)
  {
    result := left;
    var keys := right.Keys;
    while keys != {}
      invariant keys <= right.Keys
      invariant result.Keys == left.Keys + (right.Keys - keys)
      invariant forall c :: c in result ==>
        result[c] == (if c in left then left[c] else []) + (if c in right && c !in keys then right[c] else [])
      decreases keys
    {
      var key :| key in keys;
      result := result[key := if key in result then result[key] + right[key] else right[key]];
      keys := keys - {key};
    }
  }

  /** `AssignmentTask.compute`: however the range is forked, the result is that of one direct pass. */
  method AssignmentTask(data: seq<Vector>, centroids: seq<Vector>, from: nat, to: nat, threshold: int, ghost dim: nat)
    returns (result: Clustering)
    requires from <= to <= |data| && Points(data, centroids, dim) && threshold >= 2
    ensures result == Clusters(data[from..to], centroids, dim)
    decreases |data| - from, to
  {
    if to - from < threshold {
      var indices := FindNearestCentroid(data, centroids, from, to, dim);
      result := CollectClusters(data, centroids, indices, from, to, dim);
    } else {
      var middle := from + (to - from) / 2;
      var left := AssignmentTask(data, centroids, from, middle, threshold, dim);
      var right := AssignmentTask(data, centroids, middle, to, threshold, dim);
      result := Merge(left, right);
      assert data[from..middle] + data[middle..to] == data[from..to];
      MergedClusters(data[from..middle], data[middle..to], centroids, dim);
    }
  }

  // ---------- when forking terminates ----------

  /** `forkThreshold(dimension, sizeLimit)`: an element takes 12 + 8 bytes per coordinate for its array and 16
      per boxed coordinate, and 8 for the pointer to it. */
  function ForkThreshold(dimension: nat, sizeLimit: nat): int {
    sizeLimit / ((8 + 4 + dimension * 8) + dimension * 16 + 8)
  }

  const SIZE_LIMIT: nat := 256 / 2 * 1024

  /** `compute` on a range of `size` elements finishes within `depth` nested forks. */
  ghost predicate Finishes(size: nat, threshold: int, depth: nat) {
    depth > 0 && (size < threshold ||
      (Finishes(size / 2, threshold, depth - 1) && Finishes(size - size / 2, threshold, depth - 1)))
  }

  lemma {:induction false} FinishesFrom(size: nat, threshold: int, depth: nat)
    requires threshold >= 2 && depth > size
    ensures Finishes(size, threshold, depth)
  {
    if size >= threshold {
      FinishesFrom(size / 2, threshold, depth - 1);
      FinishesFrom(size - size / 2, threshold, depth - 1);
    }
  }

  lemma {:induction false} NeverFinishes(size: nat, threshold: int, depth: nat)
    requires threshold < 2 && size >= threshold
    ensures !Finishes(size, threshold, depth)
  {
    if depth > 0 {
      NeverFinishes(size - size / 2, threshold, depth - 1);
    }
  }

  lemma SmallFinishes(size: nat, threshold: int, depth: nat)
    requires size < threshold && depth > 0
    ensures Finishes(size, threshold, depth)
  {
  }

  /** Forking a range terminates if and only if the threshold is at least 2 or the range is below it. */
  lemma ForkingTerminatesIff(size: nat, threshold: int)
    ensures (exists depth: nat :: Finishes(size, threshold, depth)) <==> threshold >= 2 || size < threshold
  {
    if threshold >= 2 {
      FinishesFrom(size, threshold, size + 1);
      assert exists depth: nat :: Finishes(size, threshold, depth);
    } else if size < threshold {
      SmallFinishes(size, threshold, size + 1);
      assert exists depth: nat :: Finishes(size, threshold, depth);
    } else {
      forall depth: nat
        ensures !Finishes(size, threshold, depth)
      {
        NeverFinishes(size, threshold, depth);
      }
    }
  }

  /** For the constructor's threshold that means: on non-empty data, at most 2729 dimensions. */
  lemma DimensionLimit(dimension: nat, size: nat)
    requires size > 0
    ensures (exists depth: nat :: Finishes(size, ForkThreshold(dimension, SIZE_LIMIT), depth)) <==> dimension <= 2729
  {
    ForkingTerminatesIff(size, ForkThreshold(dimension, SIZE_LIMIT));
    ThresholdAtLeastTwo(SIZE_LIMIT, 20 + 24 * dimension);
  }

  /** One dimension more than the limit, and a single point. */
  lemma OneDimensionTooMany(depth: nat)
    ensures !Finishes(1, ForkThreshold(2730, SIZE_LIMIT), depth)
  {
    DimensionLimit(2730, 1);
  }

  lemma ThresholdAtLeastTwo(limit: nat, element: nat)
    requires element > 0
    ensures limit / element >= 2 <==> 2 * element <= limit
  {
    var q := limit / element;
    assert limit == q * element + limit % element;
    if q >= 2 {
      assert q * element >= 2 * element;
    } else {
      assert q * element <= element;
    }
  }
}
