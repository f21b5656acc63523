/** The update step of k-means, and why an iteration never raises the cost of the clustering. */
module Lloyd {
  import opened KMeans

  // ---------- the update tasks ----------

  ghost function Mean(vectors: seq<Vector>, dim: nat): seq<real>
    requires vectors != [] && AllOf(vectors, dim)
  {
    seq(dim, i requires 0 <= i < dim => CoordinateSum(vectors, i) / |vectors| as real)
  }

  lemma {:induction false} CoordinateSumConcat(a: seq<Vector>, b: seq<Vector>, i: nat)
    requires forall v :: v in a + b ==> i < |v.coords|
    ensures (forall v :: v in a ==> i < |v.coords|) && (forall v :: v in b ==> i < |v.coords|)
    ensures CoordinateSum(a + b, i) == CoordinateSum(a, i) + CoordinateSum(b, i)
  {
    assert forall v :: v in a ==> v in a + b;
    assert forall v :: v in b ==> v in a + b;
    if b == [] {
      assert a + b == a;
    } else {
      assert (a + b)[..|a + b| - 1] == a + b[..|b| - 1];
      CoordinateSumConcat(a, b[..|b| - 1], i);
    }
  }

  ghost predicate SumsTo(sums: seq<real>, vectors: seq<Vector>, dim: nat) {
    AllOf(vectors, dim) && |sums| == dim && forall k :: 0 <= k < dim ==> sums[k] == CoordinateSum(vectors, k)
  }

  lemma SumsToOne(sums: seq<real>, vectors: seq<Vector>, v: Vector, sums': seq<real>, dim: nat)
    requires SumsTo(sums, vectors, dim) && |v.coords| == dim && |sums'| == dim
    requires forall k :: 0 <= k < dim ==> sums'[k] == sums[k] + v.coords[k]
    ensures SumsTo(sums', vectors + [v], dim)
  {
    assert (vectors + [v])[..|vectors|] == vectors;
  }

  method Accumulate(val: seq<real>, acc: array<real>)
    requires |val| == acc.Length
    modifies acc
    ensures forall k :: 0 <= k < |val| ==> acc[k] == old(acc[k]) + val[k]
  {
    for i := 0 to |val|
      invariant forall k :: 0 <= k < i ==> acc[k] == old(acc[k]) + val[k]
      invariant forall k :: i <= k < |val| ==> acc[k] == old(acc[k])
    {
      acc[i] := acc[i] + val[i];
    }
  }

  method VectorSum(data: seq<Vector>, from: nat, to: nat, dim: nat) returns (result: array<real>)
    requires from <= to <= |data| && AllOf(data, dim)
    ensures fresh(result) && SumsTo(result[..], data[from..to], dim)
  {
    result := new real[dim](_ => 0.0);
    for i := from to to
      invariant SumsTo(result[..], data[from..i], dim)
    {
      ghost var before := result[..];
      Accumulate(data[i].coords, result);
      assert data[from..i + 1] == data[from..i] + [data[i]];
      SumsToOne(before, data[from..i], data[i], result[..], dim);
    }
  }

  method Add(x: array<real>, y: array<real>, dim: nat) returns (result: array<real>)
    requires x.Length == y.Length == dim
    ensures fresh(result) && result.Length == dim && forall k :: 0 <= k < dim ==> result[k] == x[k] + y[k]
  {
    result := new real[dim];
    for i := 0 to dim
      invariant forall k :: 0 <= k < i ==> result[k] == x[k] + y[k]
    {
      result[i] := x[i] + y[i];
    }
  }

  lemma SumsToBoth(x: seq<real>, a: seq<Vector>, y: seq<real>, b: seq<Vector>, sums: seq<real>, dim: nat)
    requires SumsTo(x, a, dim) && SumsTo(y, b, dim) && |sums| == dim
    requires forall k :: 0 <= k < dim ==> sums[k] == x[k] + y[k]
    ensures SumsTo(sums, a + b, dim)
  {
    forall k | 0 <= k < dim
      ensures sums[k] == CoordinateSum(a + b, k)
    {
      CoordinateSumConcat(a, b, k);
    }
  }

  /** `VectorSumTask.compute`: the forked sum is the sequential one. */
  method VectorSumTask(data: seq<Vector>, from: nat, to: nat, threshold: int, dim: nat) returns (result: array<real>)
    requires from <= to <= |data| && AllOf(data, dim) && threshold >= 2
    ensures fresh(result) && SumsTo(result[..], data[from..to], dim)
    decreases |data| - from, to
  {
    if to - from < threshold {
      result := VectorSum(data, from, to, dim);
    } else {
      var middle := from + (to - from) / 2;
      var left := VectorSumTask(data, from, middle, threshold, dim);
      var right := VectorSumTask(data, middle, to, threshold, dim);
      result := Add(left, right, dim);
      assert data[from..middle] + data[middle..to] == data[from..to];
      SumsToBoth(left[..], data[from..middle], right[..], data[middle..to], result[..], dim);
    }
  }

  method Average(elements: seq<Vector>, threshold: int, dim: nat) returns (result: seq<real>)
    requires elements != [] && AllOf(elements, dim) && threshold >= 2
    ensures result == Mean(elements, dim)
  {
    var sums := VectorSumTask(elements, 0, |elements|, threshold, dim);
    assert elements[0..|elements|] == elements;
    var values := new real[dim];
    for i := 0 to dim
      invariant SumsTo(sums[..], elements, dim)
      invariant forall k :: 0 <= k < i ==> values[k] == CoordinateSum(elements, k) / |elements| as real
    {
      assert sums[i] == sums[..][i];
      values[i] := sums[i] / |elements| as real;
    }
    result := values[..];
  }

  ghost predicate NonEmptyClusters(clusters: seq<seq<Vector>>, dim: nat) {
    forall i :: 0 <= i < |clusters| ==> clusters[i] != [] && AllOf(clusters[i], dim)
  }

  /** The averages of the clusters `from` to `to`, as new vectors, each with its cluster. */
  ghost function Averages(clusters: seq<seq<Vector>>, from: nat, to: nat, firstId: nat, dim: nat): Clustering
    requires from <= to <= |clusters| && NonEmptyClusters(clusters, dim)
  {
    map i | from <= i < to :: Vector(firstId + i, Mean(clusters[i], dim)) := clusters[i]
  }

  method ComputeClusterAverages(
      clusters: seq<seq<Vector>>, from: nat, to: nat, firstId: nat, threshold: int, dim: nat)
    returns (result: Clustering)
    requires from <= to <= |clusters| && NonEmptyClusters(clusters, dim) && threshold >= 2
    ensures result == Averages(clusters, from, to, firstId, dim)
  {
    hide Mean, AllOf, Averages;
    NoAverages(clusters, from, firstId, dim);
    result := map[];
    for i := from to to
      invariant result == Averages(clusters, from, i, firstId, dim)
    {
      OneAverageMore(clusters, from, i, firstId, dim);
      var average := Average(clusters[i], threshold, dim);
      result := result[Vector(firstId + i, average) := clusters[i]];
    }
  }

  lemma AveragesAt(clusters: seq<seq<Vector>>, from: nat, to: nat, firstId: nat, dim: nat, c: Vector)
    requires from <= to <= |clusters| && NonEmptyClusters(clusters, dim)
    ensures var all := Averages(clusters, from, to, firstId, dim);
      && (c in all <==> from <= c.id - firstId < to && c.coords == Mean(clusters[c.id - firstId], dim))
      && (c in all ==> all[c] == clusters[c.id - firstId])
  {
    if from <= c.id - firstId < to && c.coords == Mean(clusters[c.id - firstId], dim) {
      var i := c.id - firstId;
      assert c == Vector(firstId + i, Mean(clusters[i], dim));
    }
  }

  lemma NoAverages(clusters: seq<seq<Vector>>, from: nat, firstId: nat, dim: nat)
    requires from <= |clusters| && NonEmptyClusters(clusters, dim)
    ensures Averages(clusters, from, from, firstId, dim) == map[]
  {
  }

  lemma OneAverageMore(clusters: seq<seq<Vector>>, from: nat, i: nat, firstId: nat, dim: nat)
    requires from <= i < |clusters| && NonEmptyClusters(clusters, dim)
    ensures Averages(clusters, from, i + 1, firstId, dim) ==
            Averages(clusters, from, i, firstId, dim)[Vector(firstId + i, Mean(clusters[i], dim)) := clusters[i]]
  {
    hide Averages, Mean, AllOf;
    var before, after := Averages(clusters, from, i, firstId, dim), Averages(clusters, from, i + 1, firstId, dim);
    var average := Vector(firstId + i, Mean(clusters[i], dim));
    forall c
      ensures c in after <==> c in before || c == average
      ensures c in after ==> after[c] == if c == average then clusters[i] else before[c]
    {
      AveragesAt(clusters, from, i, firstId, dim, c);
      AveragesAt(clusters, from, i + 1, firstId, dim, c);
    }
  }

  lemma AveragesMerge(clusters: seq<seq<Vector>>, from: nat, middle: nat, to: nat, firstId: nat, dim: nat)
    requires from <= middle <= to <= |clusters| && NonEmptyClusters(clusters, dim)
    ensures Merged(Averages(clusters, from, middle, firstId, dim), Averages(clusters, middle, to, firstId, dim)) ==
            Averages(clusters, from, to, firstId, dim)
  {
    var l, r := Averages(clusters, from, middle, firstId, dim), Averages(clusters, middle, to, firstId, dim);
    var all := Averages(clusters, from, to, firstId, dim);
    forall c
      ensures c in all <==> c in l || c in r
      ensures c in l ==> c !in r && all[c] == l[c]
      ensures c in r ==> all[c] == r[c]
    {
      AveragesAt(clusters, from, middle, firstId, dim, c);
      AveragesAt(clusters, middle, to, firstId, dim, c);
      AveragesAt(clusters, from, to, firstId, dim, c);
    }
    MergedDisjoint(l, r, all);
  }

  lemma MergedDisjoint(l: Clustering, r: Clustering, all: Clustering)
    requires forall c :: c in all <==> c in l || c in r
    requires forall c :: c in l ==> c !in r && all[c] == l[c]
    requires forall c :: c in r ==> all[c] == r[c]
    ensures Merged(l, r) == all
  {
    forall c | c in all
      ensures Merged(l, r)[c] == all[c]
    {
    }
  }

  /** `UpdateTask.compute`, whose own fork threshold is 2; every average is a vector of its own. */
  method UpdateTask(clusters: seq<seq<Vector>>, from: nat, to: nat, firstId: nat, threshold: int, dim: nat)
    returns (result: Clustering)
    requires from <= to <= |clusters| && NonEmptyClusters(clusters, dim) && threshold >= 2
    ensures result == Averages(clusters, from, to, firstId, dim)
    decreases |clusters| - from, to
  {
    if to - from < 2 {
      result := ComputeClusterAverages(clusters, from, to, firstId, threshold, dim);
    } else {
      var middle := from + (to - from) / 2;
      var left := UpdateTask(clusters, from, middle, firstId, threshold, dim);
      var right := UpdateTask(clusters, middle, to, firstId, threshold, dim);
      result := Merge(left, right);
      AveragesMerge(clusters, from, middle, to, firstId, dim);
    }
  }

  // ---------- the cost of a clustering ----------

  function Sum(vectors: seq<Vector>, f: Vector -> real): real {
    if vectors == [] then 0.0 else Sum(vectors[..|vectors| - 1], f) + f(vectors[|vectors| - 1])
  }

  ghost function DistanceTo(v: Vector, y: seq<real>): real {
    if |v.coords| == |y| then Distance(v.coords, y, |y|) else 0.0
  }

  ghost function NearestOrSelf(v: Vector, centroids: seq<Vector>): Vector {
    if centroids != [] && AllOf(centroids, |v.coords|) then Nearest(v, centroids) else v
  }

  /** The sum over all points of the squared distance to the nearest centroid. */
  ghost function Cost(data: seq<Vector>, centroids: seq<Vector>): real {
    Sum(data, ToNearest(centroids))
  }

  ghost function ToNearest(centroids: seq<Vector>): Vector -> real {
    v => DistanceTo(v, NearestOrSelf(v, centroids).coords)
  }

  lemma {:induction false} SumMonotone(vectors: seq<Vector>, f: Vector -> real, g: Vector -> real)
    requires forall v :: v in vectors ==> f(v) <= g(v)
    ensures Sum(vectors, f) <= Sum(vectors, g)
  {
    if vectors != [] {
      SumMonotone(vectors[..|vectors| - 1], f, g);
    }
  }

  // ---------- the mean minimises the spread ----------

  /** The sum of the squared distances in the first `k` coordinates. */
  ghost function SpreadUpTo(vectors: seq<Vector>, y: seq<real>, k: nat): real
    requires k <= |y| && forall v :: v in vectors ==> k <= |v.coords|
  {
    if vectors == [] then 0.0
    else SpreadUpTo(vectors[..|vectors| - 1], y, k) + Distance(vectors[|vectors| - 1].coords, y, k)
  }

  /** The sum of the squared differences in one coordinate. */
  ghost function CoordinateSpread(vectors: seq<Vector>, y: real, i: nat): real
    requires forall v :: v in vectors ==> i < |v.coords|
  {
    if vectors == [] then 0.0
    else CoordinateSpread(vectors[..|vectors| - 1], y, i) + Square(vectors[|vectors| - 1].coords[i] - y)
  }

  lemma {:induction false} SpreadByCoordinate(vectors: seq<Vector>, y: seq<real>, k: nat)
    requires 0 < k <= |y| && forall v :: v in vectors ==> k <= |v.coords|
    ensures SpreadUpTo(vectors, y, k) == SpreadUpTo(vectors, y, k - 1) + CoordinateSpread(vectors, y[k - 1], k - 1)
  {
    if vectors != [] {
      SpreadByCoordinate(vectors[..|vectors| - 1], y, k);
    }
  }

  lemma ShiftSquare(x: real, y: real, m: real)
    ensures Square(x - y) == Square(x - m) + 2.0 * ((m - y) * (x - m)) + Square(m - y)
  {
  }

  lemma Distribute(d: real, a: real, b: real)
    ensures d * (a + b) == d * a + d * b
  {
  }

  /** One more point: `a` is how far the earlier ones lie from `m` together, and `b` the new one. */
  lemma ShiftStep(atY: real, atM: real, n: real, a: real, x: real, y: real, m: real)
    requires atY == atM + 2.0 * ((m - y) * a) + n * Square(m - y)
    ensures atY + Square(x - y) == atM + Square(x - m) + 2.0 * ((m - y) * (a + (x - m))) + (n + 1.0) * Square(m - y)
  {
    ShiftSquare(x, y, m);
    var q := Square(m - y);
    Distribute(m - y, a, x - m);
    Distribute(q, n, 1.0);
    hide Square;
  }

  /** The same with the sum `s` of the coordinates in place of the distance. */
  lemma ShiftSum(atY: real, atM: real, n: real, s: real, x: real, y: real, m: real)
    requires atY == atM + 2.0 * ((m - y) * (s - n * m)) + n * Square(m - y)
    ensures atY + Square(x - y) ==
      (atM + Square(x - m)) + 2.0 * ((m - y) * ((s + x) - (n + 1.0) * m)) + (n + 1.0) * Square(m - y)
  {
    hide Square;
    ShiftStep(atY, atM, n, s - n * m, x, y, m);
    Distribute(m, n, 1.0);
    assert (s + x) - (n + 1.0) * m == (s - n * m) + (x - m);
  }

  /** Moving the reference point from `m` to `y`. */
  lemma {:induction false} ShiftSpread(vectors: seq<Vector>, y: real, m: real, i: nat)
    requires forall v :: v in vectors ==> i < |v.coords|
    ensures CoordinateSpread(vectors, y, i) ==
      CoordinateSpread(vectors, m, i) + 2.0 * ((m - y) * (CoordinateSum(vectors, i) - |vectors| as real * m))
      + |vectors| as real * Square(m - y)
  {
    hide Square;
    var k := |vectors| as real;
    if vectors == [] {
      NothingToShift(y, m);
    } else {
      var init, x := vectors[..|vectors| - 1], vectors[|vectors| - 1].coords[i];
      var n := |init| as real;
      ShiftSpread(init, y, m, i);
      ShiftSum(CoordinateSpread(init, y, i), CoordinateSpread(init, m, i), n, CoordinateSum(init, i), x, y, m);
      assert k == n + 1.0;
      assert CoordinateSum(vectors, i) == CoordinateSum(init, i) + x;
    }
  }

  lemma NothingToShift(y: real, m: real)
    ensures 0.0 == 0.0 + 2.0 * ((m - y) * (0.0 - 0.0 * m)) + 0.0 * Square(m - y)
  {
  }

  lemma ShiftToMean(atY: real, atM: real, n: real, s: real, m: real, y: real)
    requires n > 0.0 && n * m == s
    requires atY == atM + 2.0 * ((m - y) * (s - n * m)) + n * Square(m - y)
    ensures atM <= atY
  {
    assert (m - y) * (s - n * m) == 0.0;
    assert Square(m - y) >= 0.0;
  }

  lemma MeanTimesCount(s: real, n: real)
    requires n > 0.0
    ensures n * (s / n) == s
  {
  }

  lemma MeanMinimisesCoordinate(vectors: seq<Vector>, y: real, m: real, i: nat)
    requires vectors != [] && forall v :: v in vectors ==> i < |v.coords|
    requires m == CoordinateSum(vectors, i) / |vectors| as real
    ensures CoordinateSpread(vectors, m, i) <= CoordinateSpread(vectors, y, i)
  {
    hide Square, CoordinateSpread, CoordinateSum;
    var atY, atM, n := CoordinateSpread(vectors, y, i), CoordinateSpread(vectors, m, i), |vectors| as real;
    var s := CoordinateSum(vectors, i);
    MeanTimesCount(s, n);
    ShiftSpread(vectors, y, m, i);
    ShiftToMean(atY, atM, n, s, m, y);
  }

  lemma {:induction false} MeanMinimisesUpTo(vectors: seq<Vector>, y: seq<real>, dim: nat, k: nat)
    requires vectors != [] && AllOf(vectors, dim) && |y| == dim && k <= dim
    ensures SpreadUpTo(vectors, Mean(vectors, dim), k) <= SpreadUpTo(vectors, y, k)
  {
    if k > 0 {
      MeanMinimisesUpTo(vectors, y, dim, k - 1);
      SpreadByCoordinate(vectors, y, k);
      SpreadByCoordinate(vectors, Mean(vectors, dim), k);
      MeanMinimisesCoordinate(vectors, y[k - 1], Mean(vectors, dim)[k - 1], k - 1);
    } else {
      NoSpread(vectors, y);
      NoSpread(vectors, Mean(vectors, dim));
    }
  }

  lemma {:induction false} NoSpread(vectors: seq<Vector>, y: seq<real>)
    ensures SpreadUpTo(vectors, y, 0) == 0.0
  {
    if vectors != [] {
      NoSpread(vectors[..|vectors| - 1], y);
    }
  }

  lemma {:induction false} SpreadIsSum(vectors: seq<Vector>, y: seq<real>, f: Vector -> real)
    requires AllOf(vectors, |y|) && forall v :: v in vectors ==> f(v) == DistanceTo(v, y)
    ensures Sum(vectors, f) == SpreadUpTo(vectors, y, |y|)
  {
    if vectors != [] {
      SpreadIsSum(vectors[..|vectors| - 1], y, f);
    }
  }

  // ---------- summing cluster by cluster ----------

  lemma {:induction false} MembersAre(data: seq<Vector>, centroids: seq<Vector>, c: Vector, dim: nat, v: Vector)
    requires Points(data, centroids, dim)
    ensures v in Members(data, centroids, c, dim) <==> v in data && Nearest(v, centroids) == c
  {
    if data != [] {
      assert v in data <==> v in data[..|data| - 1] || v == data[|data| - 1];
      MembersAre(data[..|data| - 1], centroids, c, dim, v);
    }
  }

  /** The sum over the points whose nearest centroid is in `ks`. */
  ghost function SumIn(data: seq<Vector>, centroids: seq<Vector>, ks: set<Vector>, f: Vector -> real): real {
    Sum(data, v => if NearestOrSelf(v, centroids) in ks then f(v) else 0.0)
  }

  lemma {:induction false} SumInSplit(
      data: seq<Vector>, centroids: seq<Vector>, ks: set<Vector>, c: Vector, f: Vector -> real, dim: nat)
    requires Points(data, centroids, dim) && c in ks
    ensures SumIn(data, centroids, ks, f) ==
            SumIn(data, centroids, ks - {c}, f) + Sum(Members(data, centroids, c, dim), f)
  {
    if data != [] {
      SumInSplit(data[..|data| - 1], centroids, ks, c, f, dim);
      SumInInit(data, centroids, ks, f);
      SumInInit(data, centroids, ks - {c}, f);
      var last, ms := data[|data| - 1], Members(data[..|data| - 1], centroids, c, dim);
      if Nearest(last, centroids) == c {
        assert (ms + [last])[..|ms|] == ms;
      } else {
        assert ms + [] == ms;
      }
    }
  }

  lemma SumInInit(data: seq<Vector>, centroids: seq<Vector>, ks: set<Vector>, f: Vector -> real)
    requires data != []
    ensures SumIn(data, centroids, ks, f) ==
            SumIn(data[..|data| - 1], centroids, ks, f)
            + if NearestOrSelf(data[|data| - 1], centroids) in ks then f(data[|data| - 1]) else 0.0
  {
  }

  lemma {:induction false} SumInAll(data: seq<Vector>, centroids: seq<Vector>, ks: set<Vector>, f: Vector -> real)
    requires forall v :: v in data ==> NearestOrSelf(v, centroids) in ks
    ensures SumIn(data, centroids, ks, f) == Sum(data, f)
  {
    if data != [] {
      SumInInit(data, centroids, ks, f);
      assert data[|data| - 1] in data;
      SumInAll(data[..|data| - 1], centroids, ks, f);
    }
  }

  lemma {:induction false} SumInNone(data: seq<Vector>, centroids: seq<Vector>, f: Vector -> real)
    ensures SumIn(data, centroids, {}, f) == 0.0
  {
    if data != [] {
      SumInInit(data, centroids, {}, f);
      SumInNone(data[..|data| - 1], centroids, f);
    }
  }

  /** A bound for every cluster is a bound for all points. */
  lemma {:induction false} ClusterByCluster(
      data: seq<Vector>, centroids: seq<Vector>, ks: set<Vector>, f: Vector -> real, g: Vector -> real, dim: nat)
    requires Points(data, centroids, dim)
    requires forall c :: c in ks ==>
               Sum(Members(data, centroids, c, dim), f) <= Sum(Members(data, centroids, c, dim), g)
    ensures SumIn(data, centroids, ks, f) <= SumIn(data, centroids, ks, g)
  {
    if ks == {} {
      SumInNone(data, centroids, f);
      SumInNone(data, centroids, g);
    } else {
      var c :| c in ks;
      ClusterByCluster(data, centroids, ks - {c}, f, g, dim);
      SumInSplit(data, centroids, ks, c, f, dim);
      SumInSplit(data, centroids, ks, c, g, dim);
    }
  }

  // ---------- one iteration ----------

  lemma MembersOk(data: seq<Vector>, centroids: seq<Vector>, c: Vector, dim: nat)
    requires Points(data, centroids, dim)
    ensures AllOf(Members(data, centroids, c, dim), dim)
    ensures Members(data, centroids, c, dim) == [] <==> c !in UsedCentroids(data, centroids, dim)
  {
    UnusedHasNoMembers(data, centroids, c, dim);
    forall v | v in Members(data, centroids, c, dim)
      ensures |v.coords| == dim
    {
      MembersAre(data, centroids, c, dim, v);
    }
  }

  /** The mean of the cluster a point is in; empty clusters have none. */
  ghost function ClusterMean(data: seq<Vector>, centroids: seq<Vector>, c: Vector, dim: nat): seq<real>
    requires Points(data, centroids, dim)
  {
    MembersOk(data, centroids, c, dim);
    var members := Members(data, centroids, c, dim);
    if members == [] then [] else Mean(members, dim)
  }

  ghost predicate AllDifferent(list: seq<Vector>) {
    forall i, j :: 0 <= i < j < |list| ==> list[i] != list[j]
  }

  /** `order` lists the non-empty clusters, each once, and `next` their means: empty clusters have dropped out. */
  ghost predicate AreMeans(data: seq<Vector>, centroids: seq<Vector>, next: seq<Vector>, dim: nat, order: seq<Vector>)
    requires Points(data, centroids, dim)
  {
    && AllDifferent(order) && (forall c :: c in order <==> c in UsedCentroids(data, centroids, dim))
    && |next| == |order|
    && forall j :: 0 <= j < |next| ==> next[j].coords == ClusterMean(data, centroids, order[j], dim)
  }

  /** `next` is what a round makes of the centroids: one mean for each of the clusters that are not empty. */
  ghost predicate Follows(data: seq<Vector>, centroids: seq<Vector>, next: seq<Vector>, dim: nat)
    requires Points(data, centroids, dim)
  {
    AllOf(next, dim) && exists order :: AreMeans(data, centroids, next, dim, order)
  }

  lemma MeanIsThere(data: seq<Vector>, centroids: seq<Vector>, next: seq<Vector>, dim: nat, c: Vector) returns (j: nat)
    requires Points(data, centroids, dim) && Follows(data, centroids, next, dim) && c in UsedCentroids(data, centroids, dim)
    ensures j < |next| && next[j].coords == ClusterMean(data, centroids, c, dim)
  {
    hide ClusterMean, UsedCentroids;
    var order :| AreMeans(data, centroids, next, dim, order);
    assert c in order;
    j :| 0 <= j < |order| && order[j] == c;
  }

  ghost function ToMean(data: seq<Vector>, centroids: seq<Vector>, dim: nat): Vector -> real
    requires Points(data, centroids, dim)
  {
    v => DistanceTo(v, ClusterMean(data, centroids, NearestOrSelf(v, centroids), dim))
  }

  /** Within a cluster the mean is at least as good as the old centroid. */
  lemma ClusterImproves(data: seq<Vector>, centroids: seq<Vector>, c: Vector, dim: nat)
    requires Points(data, centroids, dim) && c in UsedCentroids(data, centroids, dim)
    ensures Sum(Members(data, centroids, c, dim), ToMean(data, centroids, dim)) <=
            Sum(Members(data, centroids, c, dim), ToNearest(centroids))
  {
    MembersOk(data, centroids, c, dim);
    var members := Members(data, centroids, c, dim);
    forall v | v in members
      ensures NearestOrSelf(v, centroids) == c && c in centroids
    {
      MembersAre(data, centroids, c, dim, v);
    }
    assert members[0] in members;
    SpreadIsSum(members, c.coords, ToNearest(centroids));
    SpreadIsSum(members, Mean(members, dim), ToMean(data, centroids, dim));
    MeanMinimisesUpTo(members, c.coords, dim, dim);
  }

  lemma PointIsClustered(data: seq<Vector>, centroids: seq<Vector>, dim: nat, v: Vector)
    requires Points(data, centroids, dim) && v in data
    ensures |v.coords| == dim && NearestOrSelf(v, centroids) == Nearest(v, centroids)
    ensures Nearest(v, centroids) in UsedCentroids(data, centroids, dim)
    ensures |ClusterMean(data, centroids, Nearest(v, centroids), dim)| == dim
  {
    var i :| 0 <= i < |data| && data[i] == v;
    MembersOk(data, centroids, Nearest(data[i], centroids), dim);
  }

  lemma NearestBeats(v: Vector, next: seq<Vector>, j: nat)
    requires AllOf(next, |v.coords|) && j < |next|
    ensures ToNearest(next)(v) <= DistanceTo(v, next[j].coords)
  {
    NearestIsMinimal(v.coords, next, j);
  }

  /** A new nearest centroid is at least as near as the mean of the point's old cluster. */
  lemma NearerThanMean(data: seq<Vector>, centroids: seq<Vector>, next: seq<Vector>, dim: nat, v: Vector)
    requires Points(data, centroids, dim) && Follows(data, centroids, next, dim) && v in data
    ensures ToNearest(next)(v) <= ToMean(data, centroids, dim)(v)
  {
    PointIsClustered(data, centroids, dim, v);
    var j := MeanIsThere(data, centroids, next, dim, Nearest(v, centroids));
    NearestBeats(v, next, j);
  }

  /** The old clusters around their means cost no more than around the old centroids. */
  lemma MeansImprove(data: seq<Vector>, centroids: seq<Vector>, dim: nat)
    requires Points(data, centroids, dim)
    ensures Sum(data, ToMean(data, centroids, dim)) <= Cost(data, centroids)
  {
    var used, mean, before := UsedCentroids(data, centroids, dim), ToMean(data, centroids, dim), ToNearest(centroids);
    forall v | v in data
      ensures NearestOrSelf(v, centroids) in used
    {
      PointIsClustered(data, centroids, dim, v);
    }
    forall c | c in used
      ensures Sum(Members(data, centroids, c, dim), mean) <= Sum(Members(data, centroids, c, dim), before)
    {
      ClusterImproves(data, centroids, c, dim);
    }
    ClusterByCluster(data, centroids, used, mean, before, dim);
    SumInAll(data, centroids, used, mean);
    SumInAll(data, centroids, used, before);
  }

  /** Lloyd monotonicity: an iteration never raises the cost, even when empty clusters drop out. */
  lemma CostNeverRises(data: seq<Vector>, centroids: seq<Vector>, next: seq<Vector>, dim: nat)
    requires Points(data, centroids, dim) && Follows(data, centroids, next, dim)
    ensures Cost(data, next) <= Cost(data, centroids)
  {
    forall v | v in data
      ensures ToNearest(next)(v) <= ToMean(data, centroids, dim)(v)
    {
      NearerThanMean(data, centroids, next, dim, v);
    }
    SumMonotone(data, ToNearest(next), ToMean(data, centroids, dim));
    MeansImprove(data, centroids, dim);
  }

  // ---------- the whole computation ----------

  /** `new ArrayList<>(clusters.values())`, for any order of the map. */
  method Values(clusters: Clustering) returns (list: seq<seq<Vector>>, ghost keys: seq<Vector>)
    ensures |list| == |keys| && AllDifferent(keys) && forall c :: c in keys <==> c in clusters
    ensures forall i :: 0 <= i < |keys| ==> keys[i] in clusters && list[i] == clusters[keys[i]]
  {
    list, keys := [], [];
    var rest := clusters.Keys;
    while rest != {}
      invariant rest <= clusters.Keys && |list| == |keys| && AllDifferent(keys)
      invariant forall c :: c in keys <==> c in clusters && c !in rest
      invariant forall i :: 0 <= i < |keys| ==> keys[i] in clusters && list[i] == clusters[keys[i]]
      decreases rest
    {
      var c :| c in rest;
      list, keys, rest := list + [clusters[c]], keys + [c], rest - {c};
    }
  }

  /** `new ArrayList<>(clusters.keySet())`, for any order of the map. */
  method Keys(clusters: Clustering) returns (list: seq<Vector>)
    ensures AllDifferent(list) && forall c :: c in list <==> c in clusters
  {
    list := [];
    var rest := clusters.Keys;
    while rest != {}
      invariant rest <= clusters.Keys && AllDifferent(list) && forall c :: c in list <==> c in clusters && c !in rest
      decreases rest
    {
      var c :| c in rest;
      list, rest := list + [c], rest - {c};
    }
  }

  /** The cluster that an average is the mean of. */
  lemma ClusterOf(list: seq<seq<Vector>>, next: seq<Vector>, firstId: nat, dim: nat, j: nat)
    requires NonEmptyClusters(list, dim) && j < |next|
    requires forall c :: c in next <==> c in Averages(list, 0, |list|, firstId, dim)
    ensures 0 <= next[j].id - firstId < |list| && list[next[j].id - firstId] != []
    ensures next[j].coords == Mean(list[next[j].id - firstId], dim)
  {
    hide Averages, Mean;
    assert next[j] in next;
    AveragesAt(list, 0, |list|, firstId, dim, next[j]);
  }

  lemma AverageOf(list: seq<seq<Vector>>, next: seq<Vector>, firstId: nat, dim: nat, i: nat) returns (j: nat)
    requires NonEmptyClusters(list, dim) && i < |list|
    requires forall c :: c in next <==> c in Averages(list, 0, |list|, firstId, dim)
    ensures j < |next| && next[j].id - firstId == i
  {
    hide Averages, Mean;
    var average := Vector(firstId + i, Mean(list[i], dim));
    AveragesAt(list, 0, |list|, firstId, dim, average);
    assert average in next;
    j :| 0 <= j < |next| && next[j] == average;
  }

  /** Two averages are different vectors, so they are of different clusters. */
  lemma ClustersDiffer(list: seq<seq<Vector>>, keys: seq<Vector>, next: seq<Vector>, firstId: nat, dim: nat, j: nat, k: nat)
    requires NonEmptyClusters(list, dim) && |list| == |keys| && j < k < |next| && AllDifferent(keys) && AllDifferent(next)
    requires forall c :: c in next <==> c in Averages(list, 0, |list|, firstId, dim)
    ensures 0 <= next[j].id - firstId < |list| && 0 <= next[k].id - firstId < |list|
    ensures keys[next[j].id - firstId] != keys[next[k].id - firstId]
  {
    hide Averages, Mean;
    ClusterOf(list, next, firstId, dim, j);
    ClusterOf(list, next, firstId, dim, k);
    assert next[j] != next[k];
  }

  lemma AveragesFollow(
      data: seq<Vector>, centroids: seq<Vector>, list: seq<seq<Vector>>, keys: seq<Vector>, next: seq<Vector>,
      firstId: nat, dim: nat)
    requires Points(data, centroids, dim) && |list| == |keys| && NonEmptyClusters(list, dim)
    requires AllDifferent(keys) && forall c :: c in keys <==> c in UsedCentroids(data, centroids, dim)
    requires forall i :: 0 <= i < |keys| ==> list[i] == Members(data, centroids, keys[i], dim)
    requires AllDifferent(next) && forall c :: c in next <==> c in Averages(list, 0, |list|, firstId, dim)
    ensures Follows(data, centroids, next, dim)
  {
    hide Averages, UsedCentroids, Members, NonEmptyClusters, Mean;
    forall j | 0 <= j < |next|
      ensures 0 <= next[j].id - firstId < |keys|
    {
      ClusterOf(list, next, firstId, dim, j);
    }
    var order := seq(|next|, j requires 0 <= j < |next| => keys[next[j].id - firstId]);
    forall j, k | 0 <= j < k < |order|
      ensures order[j] != order[k]
    {
      ClustersDiffer(list, keys, next, firstId, dim, j, k);
    }
    forall c | c in keys
      ensures c in order
    {
      var i :| 0 <= i < |keys| && keys[i] == c;
      var j := AverageOf(list, next, firstId, dim, i);
      assert order[j] == c;
    }
    forall j | 0 <= j < |order|
      ensures order[j] in keys && next[j].coords == ClusterMean(data, centroids, order[j], dim) && |next[j].coords| == dim
    {
      ClusterOf(list, next, firstId, dim, j);
      MeanOfCluster(data, centroids, order[j], dim, list[next[j].id - firstId]);
    }
    assert AreMeans(data, centroids, next, dim, order);
  }

  lemma MeanOfCluster(data: seq<Vector>, centroids: seq<Vector>, c: Vector, dim: nat, members: seq<Vector>)
    requires Points(data, centroids, dim) && members == Members(data, centroids, c, dim) != []
    ensures AllOf(members, dim) && ClusterMean(data, centroids, c, dim) == Mean(members, dim) && |Mean(members, dim)| == dim
  {
    MembersOk(data, centroids, c, dim);
  }

  lemma ClustersNonEmpty(
      data: seq<Vector>, centroids: seq<Vector>, list: seq<seq<Vector>>, keys: seq<Vector>, dim: nat)
    requires Points(data, centroids, dim) && |list| == |keys|
    requires forall i :: 0 <= i < |keys| ==> keys[i] in UsedCentroids(data, centroids, dim)
    requires forall i :: 0 <= i < |keys| ==> list[i] == Members(data, centroids, keys[i], dim)
    ensures NonEmptyClusters(list, dim)
  {
    forall i | 0 <= i < |list|
      ensures list[i] != [] && AllOf(list[i], dim)
    {
      MembersOk(data, centroids, keys[i], dim);
    }
  }

  lemma FollowersArePoints(data: seq<Vector>, centroids: seq<Vector>, next: seq<Vector>, dim: nat)
    requires Points(data, centroids, dim) && data != [] && Follows(data, centroids, next, dim)
    ensures Points(data, next, dim)
  {
    PointIsClustered(data, centroids, dim, data[0]);
  }

  /** The update step: from the assignment to the new centroids. */
  method Update(
      ghost data: seq<Vector>, ghost centroids: seq<Vector>, clusters: Clustering, threshold: int, firstId: nat, dim: nat)
    returns (next: seq<Vector>)
    requires Points(data, centroids, dim) && threshold >= 2 && clusters == Clusters(data, centroids, dim)
    ensures Follows(data, centroids, next, dim)
  {
    var list, keys := Values(clusters);
    ClustersNonEmpty(data, centroids, list, keys, dim);
    var updated := UpdateTask(list, 0, |list|, firstId, threshold, dim);
    next := Keys(updated);
    AveragesFollow(data, centroids, list, keys, next, firstId, dim);
  }

  /** One round of the loop in `run`: assign, update, take the averages as the new centroids. */
  method Iterate(data: seq<Vector>, centroids: seq<Vector>, threshold: int, firstId: nat, dim: nat)
    returns (next: seq<Vector>)
    requires Points(data, centroids, dim) && data != [] && threshold >= 2
    ensures Points(data, next, dim) && Follows(data, centroids, next, dim)
    ensures Cost(data, next) <= Cost(data, centroids)
  {
    var clusters := AssignmentTask(data, centroids, 0, |data|, threshold, dim);
    assert data[0..|data|] == data;
    next := Update(data, centroids, clusters, threshold, firstId, dim);
    FollowersArePoints(data, centroids, next, dim);
    CostNeverRises(data, centroids, next, dim);
  }

  /** `randomSample`, for any draws. */
  method RandomSample(data: seq<Vector>, picks: seq<nat>, ghost dim: nat) returns (sample: seq<Vector>)
    requires AllOf(data, dim) && forall i :: 0 <= i < |picks| ==> picks[i] < |data|
    ensures |sample| == |picks| && AllOf(sample, dim)
    ensures forall i :: 0 <= i < |picks| ==> sample[i] == data[picks[i]]
  {
    sample := seq(|picks|, i requires 0 <= i < |picks| => data[picks[i]]);
  }

  /** The centroids before the first round and after each. */
  ghost predicate Rounds(data: seq<Vector>, history: seq<seq<Vector>>, dim: nat) {
    && (forall i :: 0 <= i < |history| ==> Points(data, history[i], dim))
    && forall i :: 0 <= i < |history| - 1 ==> Follows(data, history[i], history[i + 1], dim)
  }

  lemma OneRoundMore(data: seq<Vector>, history: seq<seq<Vector>>, next: seq<Vector>, dim: nat)
    requires Rounds(data, history, dim) && history != [] && Points(data, next, dim)
    requires Points(data, history[|history| - 1], dim) && Follows(data, history[|history| - 1], next, dim)
    ensures Rounds(data, history + [next], dim)
  {
    hide Points, Follows;
    var longer := history + [next];
    forall i | 0 <= i < |history|
      ensures Points(data, longer[i], dim) && Follows(data, longer[i], longer[i + 1], dim)
    {
      assert longer[i] == history[i] && (i < |history| - 1 ==> longer[i + 1] == history[i + 1]);
    }
  }

  /** `run`: from the sample on, each round takes the means of the clusters that are not empty; whatever is drawn, the
      cost of the result is at most that of the sample. */
  method Run(data: seq<Vector>, picks: seq<nat>, iterations: nat, threshold: int, dim: nat)
    returns (centroids: seq<Vector>, ghost history: seq<seq<Vector>>)
    requires AllOf(data, dim) && data != [] && picks != [] && threshold >= 2
    requires forall i :: 0 <= i < |picks| ==> picks[i] < |data|
    ensures |history| == iterations + 1 && Rounds(data, history, dim) && history[iterations] == centroids
    ensures |history[0]| == |picks| && forall i :: 0 <= i < |picks| ==> history[0][i] == data[picks[i]]
    ensures Cost(data, centroids) <= Cost(data, history[0])
  {
    hide Follows, Cost;
    centroids := RandomSample(data, picks, dim);
    history := [centroids];
    for iteration := 0 to iterations
      invariant |history| == iteration + 1 && Rounds(data, history, dim) && history[iteration] == centroids
      invariant |history[0]| == |picks| && forall i :: 0 <= i < |picks| ==> history[0][i] == data[picks[i]]
      invariant Cost(data, centroids) <= Cost(data, history[0])
    {
      var next := Iterate(data, centroids, threshold, 0, dim);
      OneRoundMore(data, history, next, dim);
      centroids, history := next, history + [next];
    }
  }
}
