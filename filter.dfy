/**
 * The filtering pipeline of icp/filter.go.
 *
 * Each filter keeps the points whose flag holds, in their original order. The flags are stated
 * once per filter (`BandFlags`, `ZScoreFlags`, `WithinDistanceFlags`) and the kept sequence once
 * for all (`Kept`).
 *
 * `removeNonNormalPoints` and `computeDistances` query a k-d tree built over their input. Its
 * answer for the point at position `i` is the heap of a nearest-`k + 1` keeper, given here as
 * `heaps[i]`. Building that tree (`kdtree.New`) first rearranges the caller's buffer in place.
 * The model takes `points` to be the buffer as the tree left it, and `heaps` to be indexed in
 * that same order.
 */
module Filter {

  import opened Reals
  import opened Point
  import opened KdTree
  import opened Voxel
  import opened Params

  /** The elements of `s` whose flag is set, in order. */
  function Kept<T>(s: seq<T>, keep: seq<bool>): (r: seq<T>)
    requires |keep| == |s|
    ensures |r| <= |s|
  {
    if s == [] then []
    else Kept(s[..|s| - 1], keep[..|s| - 1]) + (if keep[|s| - 1] then [s[|s| - 1]] else [])
  }

  /** The positions whose flag is set, in increasing order. */
  function KeptPositions(keep: seq<bool>): seq<nat>
  {
    if keep == [] then []
    else KeptPositions(keep[..|keep| - 1]) + (if keep[|keep| - 1] then [|keep| - 1] else [])
  }

  /** The flagged positions are flagged positions of `keep`, in strictly increasing order. */
  lemma {:induction false} KeptPositionsIncrease(keep: seq<bool>)
    ensures forall k :: 0 <= k < |KeptPositions(keep)| ==> KeptPositions(keep)[k] < |keep| && keep[KeptPositions(keep)[k]]
    ensures forall a, b :: 0 <= a < b < |KeptPositions(keep)| ==> KeptPositions(keep)[a] < KeptPositions(keep)[b]
  {
    if keep != [] {
      KeptPositionsIncrease(keep[..|keep| - 1]);
    }
  }

  /** Every flagged position is among the kept positions. */
  lemma {:induction false} KeptPositionsComplete(keep: seq<bool>)
    ensures forall i :: 0 <= i < |keep| && keep[i] ==> i in KeptPositions(keep)
  {
    if keep != [] {
      KeptPositionsComplete(keep[..|keep| - 1]);
    }
  }

  /** The `k`-th kept element is the input element at the `k`-th kept position. */
  lemma {:induction false} KeptAtPositions<T>(s: seq<T>, keep: seq<bool>)
    requires |keep| == |s|
    ensures |Kept(s, keep)| == |KeptPositions(keep)|
    ensures forall k :: 0 <= k < |KeptPositions(keep)| ==>
      KeptPositions(keep)[k] < |s| && Kept(s, keep)[k] == s[KeptPositions(keep)[k]]
  {
    KeptPositionsIncrease(keep);
    if s != [] {
      KeptAtPositions(s[..|s| - 1], keep[..|s| - 1]);
      KeptPositionsIncrease(keep[..|s| - 1]);
    }
  }

  /**
   * `Kept` is an order-preserving subsequence: its `k`-th element is the input element at the
   * `k`-th flagged position, the positions increase, and every flagged position is used.
   */
  lemma KeptIsOrderedSubsequence<T>(s: seq<T>, keep: seq<bool>)
    requires |keep| == |s|
    ensures |Kept(s, keep)| == |KeptPositions(keep)|
    ensures forall k :: 0 <= k < |KeptPositions(keep)| ==>
      KeptPositions(keep)[k] < |s| && keep[KeptPositions(keep)[k]] && Kept(s, keep)[k] == s[KeptPositions(keep)[k]]
    ensures forall a, b :: 0 <= a < b < |KeptPositions(keep)| ==> KeptPositions(keep)[a] < KeptPositions(keep)[b]
    ensures forall i :: 0 <= i < |s| && keep[i] ==> i in KeptPositions(keep)
  {
    KeptPositionsIncrease(keep);
    KeptPositionsComplete(keep);
    KeptAtPositions(s, keep);
  }

  /** An element is kept exactly when it sits at some flagged position. */
  lemma KeptMembers<T>(s: seq<T>, keep: seq<bool>, x: T)
    requires |keep| == |s|
    ensures x in Kept(s, keep) <==> exists i :: 0 <= i < |s| && keep[i] && s[i] == x
  {
    KeptIsOrderedSubsequence(s, keep);
    if x in Kept(s, keep) {
      var k :| 0 <= k < |Kept(s, keep)| && Kept(s, keep)[k] == x;
      assert keep[KeptPositions(keep)[k]];
    }
    if i :| 0 <= i < |s| && keep[i] && s[i] == x {
      var k :| 0 <= k < |KeptPositions(keep)| && KeptPositions(keep)[k] == i;
      assert Kept(s, keep)[k] == x;
    }
  }

  /** All flags set keeps everything; no flag set keeps nothing. */
  lemma {:induction false} KeptExtremes<T>(s: seq<T>, keep: seq<bool>)
    requires |keep| == |s|
    ensures (forall i :: 0 <= i < |s| ==> keep[i]) ==> Kept(s, keep) == s
    ensures (forall i :: 0 <= i < |s| ==> !keep[i]) ==> Kept(s, keep) == []
  {
    if s != [] {
      KeptExtremes(s[..|s| - 1], keep[..|s| - 1]);
      assert s[..|s| - 1] + [s[|s| - 1]] == s;
    }
  }

  /**
   * `Filter(points, params)`: the voxelised points and a k-d tree over exactly those points.
   * No outlier removal is applied.
   */
  method Filter(points: seq<Point3D>, params: Params) returns (tree: Tree, voxelized: seq<Point3D>, positions: seq<nat>)
    requires params.filterParams.voxelSize != 0.0
    ensures IsVoxelization(points, params.filterParams.voxelSize, positions)
    ensures forall k :: 0 <= k < |positions| ==> positions[k] < |points|
    ensures voxelized == Select(points, positions)
    ensures tree == voxelized
  {
    voxelized, positions := Voxelize(points, params.filterParams.voxelSize);
    tree := voxelized;
  }

  const FloorHeight: real := -0.3
  const CeilingHeight: real := 1.5

  /** Strictly above the floor and strictly below the ceiling. */
  predicate InBand(p: Point3D)
  {
    p.z > FloorHeight && p.z < CeilingHeight
  }

  function BandFlags(points: seq<Point3D>): (keep: seq<bool>)
    ensures |keep| == |points| && forall i :: 0 <= i < |points| ==> keep[i] == InBand(points[i])
  {
    seq(|points|, i requires 0 <= i < |points| => InBand(points[i]))
  }

  /** `RemoveFloorAndCeiling(points)`: the points with `-0.3 < Z < 1.5`, in order. */
  method RemoveFloorAndCeiling(points: array<Point3D>) returns (filtered: seq<Point3D>)
    ensures filtered == Kept(points[..], BandFlags(points[..]))
  {
    filtered := [];
    for i := 0 to points.Length
      invariant filtered == Kept(points[..i], BandFlags(points[..i]))
    {
      var p := points[i];
      if p.z > FloorHeight && p.z < CeilingHeight {
        filtered := filtered + [p];
      }
      assert points[..i + 1][..i] == points[..i];
      assert BandFlags(points[..i + 1])[..i] == BandFlags(points[..i]);
    }
    assert points[..points.Length] == points[..];
  }

  /** A point survives the band filter exactly when it is an input point inside the band. */
  lemma BandFilterKeepsExactly(points: seq<Point3D>, p: Point3D)
    ensures p in Kept(points, BandFlags(points)) <==> p in points && InBand(p)
  {
    KeptMembers(points, BandFlags(points), p);
  }

  /** The sum of the data, accumulated from the front. */
  function Sum(data: seq<real>): real
  {
    if data == [] then 0.0 else Sum(data[..|data| - 1]) + data[|data| - 1]
  }

  /** The sum of squared deviations from `m`. */
  function SquaredDeviations(data: seq<real>, m: real): (r: real)
    ensures r >= 0.0
  {
    if data == [] then 0.0
    else
      SquareFacts(data[|data| - 1] - m);
      SquaredDeviations(data[..|data| - 1], m) + Square(data[|data| - 1] - m)
  }

  /** `mean(data)` for non-empty data: the sum over the length. */
  method Mean(data: seq<real>) returns (m: real)
    requires |data| > 0
    ensures m == Sum(data) / |data| as real
  {
    var sum := 0.0;
    for i := 0 to |data|
      invariant sum == Sum(data[..i])
    {
      assert data[..i + 1][..i] == data[..i];
      sum := sum + data[i];
    }
    assert data[..|data|] == data;
    m := sum / |data| as real;
  }

  /**
   * The population variance about `meanVal`, which `stdDev(data, meanVal)` returns the square
   * root of; it is never negative.
   */
  method Variance(data: seq<real>, meanVal: real) returns (v: real)
    requires |data| > 0
    ensures v == SquaredDeviations(data, meanVal) / |data| as real
    ensures v >= 0.0
  {
    var sum := 0.0;
    for i := 0 to |data|
      invariant sum == SquaredDeviations(data[..i], meanVal)
    {
      assert data[..i + 1][..i] == data[..i];
      sum := sum + Square(data[i] - meanVal);
    }
    assert data[..|data|] == data;
    v := sum / |data| as real;
  }

  /** The deviations of non-empty data from its own mean cancel out. */
  lemma {:induction false} DeviationsFromMeanCancel(data: seq<real>)
    requires |data| > 0
    ensures Deviations(data, Sum(data) / |data| as real) == 0.0
  {
    var n := |data| as real;
    var m := Sum(data) / n;
    DeviationsSum(data, m);
    DivideThenMultiply(Sum(data), n);
    MulSigns(Sum(data) / n, n);
  }

  function Deviations(data: seq<real>, m: real): real
  {
    if data == [] then 0.0 else Deviations(data[..|data| - 1], m) + (data[|data| - 1] - m)
  }

  lemma {:induction false} DeviationsSum(data: seq<real>, m: real)
    ensures Deviations(data, m) == Sum(data) - Mul(|data| as real, m)
  {
    if data == [] {
      MulSigns(0.0, m);
    } else {
      DeviationsSum(data[..|data| - 1], m);
      var k := (|data| - 1) as real;
      assert Mul(k + 1.0, m) == Mul(k, m) + m;
    }
  }

  /**
   * The variance is zero exactly when every value equals the mean; in particular, when all
   * values are equal the mean is that value and the variance is zero.
   */
  lemma {:induction false} VarianceZero(data: seq<real>, m: real)
    ensures SquaredDeviations(data, m) == 0.0 <==> forall i :: 0 <= i < |data| ==> data[i] == m
  {
    if data != [] {
      var last := |data| - 1;
      VarianceZero(data[..last], m);
      SquareFacts(data[last] - m);
    }
  }

  lemma {:induction false} ConstantData(data: seq<real>, c: real)
    requires |data| > 0
    requires forall i :: 0 <= i < |data| ==> data[i] == c
    ensures Sum(data) / |data| as real == c
    ensures SquaredDeviations(data, c) == 0.0
  {
    VarianceZero(data, c);
    DeviationsSum(data, c);
    ConstantDeviations(data, c);
    var n := |data| as real;
    MulSigns(n, c);
    DivideThenMultiply(Mul(n, c), n);
    MulMonotone(c, Sum(data) / n, n);
    MulMonotone(Sum(data) / n, c, n);
  }

  lemma {:induction false} ConstantDeviations(data: seq<real>, c: real)
    requires forall i :: 0 <= i < |data| ==> data[i] == c
    ensures Deviations(data, c) == 0.0
  {
    if data != [] {
      ConstantDeviations(data[..|data| - 1], c);
    }
  }

  /**
   * Whether `filterPoints` keeps a point with neighbour distance `d`, for distances of mean `m`
   * and variance `variance`, with the square root removed: when the variance is positive the
   * z-score `(d - m) / sqrt(variance)` must be below `zThreshold` in absolute value, otherwise
   * the z-score is 0.
   */
  predicate ZScoreKeeps(d: real, m: real, variance: real, zThreshold: real)
  {
    if variance > 0.0 then zThreshold > 0.0 && Square(d - m) < Mul(Square(zThreshold), variance)
    else 0.0 < zThreshold
  }

  /**
   * `ZScoreKeeps` is Go's rule: with `std` the square root of the variance, a positive
   * `std` means a positive variance, and then the rule is `|(d - m) / std| < zThreshold`;
   * a zero `std` gives z-score 0, kept exactly when `zThreshold > 0`.
   */
  lemma ZScoreMatchesSource(d: real, m: real, std: real, zThreshold: real)
    requires std >= 0.0
    ensures std > 0.0 <==> Square(std) > 0.0
    ensures std > 0.0 ==> (ZScoreKeeps(d, m, Square(std), zThreshold) <==> Abs((d - m) / std) < zThreshold)
    ensures std == 0.0 ==> (ZScoreKeeps(d, m, Square(std), zThreshold) <==> Abs(0.0) < zThreshold)
  {
    SquareFacts(std);
    if std > 0.0 {
      var q := (d - m) / std;
      DivideThenMultiply(d - m, std);
      // |q| < z  <==>  |q|·std < z·std  <==>  |d - m| < z·std  <==>  (d - m)² < z²·std²
      MulMonotone(Abs(q), zThreshold, std);
      MulSigns(q, std);
      assert Mul(Abs(q), std) == Abs(d - m);
      if zThreshold > 0.0 {
        MulSigns(zThreshold, std);
        AbsSquare(d - m);
        SquareMonotone(Abs(d - m), Mul(zThreshold, std));
        SquareOfProduct(zThreshold, std);
      } else {
        MulSigns(zThreshold, std);
        AbsSquare(q);
      }
    }
  }

  function ZScoreFlags(distances: seq<real>, m: real, variance: real, zThreshold: real): (keep: seq<bool>)
    ensures |keep| == |distances|
    ensures forall i :: 0 <= i < |distances| ==> keep[i] == ZScoreKeeps(distances[i], m, variance, zThreshold)
  {
    seq(|distances|, i requires 0 <= i < |distances| => ZScoreKeeps(distances[i], m, variance, zThreshold))
  }

  /** The flags `filterPoints` computes from the distances' own mean and variance. */
  function OutlierFlags(distances: seq<real>, zThreshold: real): (keep: seq<bool>)
    ensures |keep| == |distances|
  {
    if distances == [] then []
    else
      var n := |distances| as real;
      var m := Sum(distances) / n;
      ZScoreFlags(distances, m, SquaredDeviations(distances, m) / n, zThreshold)
  }

  /** With all distances equal, every point is kept if `zThreshold > 0` and none otherwise. */
  lemma EqualDistances(distances: seq<real>, c: real, zThreshold: real)
    requires |distances| > 0
    requires forall i :: 0 <= i < |distances| ==> distances[i] == c
    ensures zThreshold > 0.0 ==> forall i :: 0 <= i < |distances| ==> OutlierFlags(distances, zThreshold)[i]
    ensures zThreshold <= 0.0 ==> forall i :: 0 <= i < |distances| ==> !OutlierFlags(distances, zThreshold)[i]
  {
    ConstantData(distances, c);
  }

  /**
   * `filterPoints(points, distances, zThreshold)`: the points whose distance has z-score below
   * the threshold. The mean and deviation are only computed for a non-empty input; for an
   * empty one Go's NaN statistics are never read.
   */
  method FilterPoints(points: seq<Point3D>, distances: seq<real>, zThreshold: real) returns (filtered: seq<Point3D>)
    requires |distances| == |points|
    ensures filtered == Kept(points, OutlierFlags(distances, zThreshold))
  {
    filtered := [];
    if |points| == 0 {
      return;
    }
    var distMean := Mean(distances);
    var distVariance := Variance(distances, distMean);
    ghost var keep := OutlierFlags(distances, zThreshold);
    for i := 0 to |points|
      invariant filtered == Kept(points[..i], keep[..i])
    {
      if ZScoreKeeps(distances[i], distMean, distVariance, zThreshold) {
        filtered := filtered + [points[i]];
      }
      assert points[..i + 1][..i] == points[..i];
      assert keep[..i + 1][..i] == keep[..i];
    }
    assert points[..|points|] == points;
    assert keep[..|points|] == keep;
  }

  /**
   * What `computeDistances` and `removeNonNormalPoints` get from the tree over `points`: for
   * each point a keeper of capacity `numNeighbors + 1`, holding at least one entry, whose
   * entries after the first carry squared distances to positions of `points`. A negative
   * `numNeighbors` with any point admits no keeper, as Go's `NewNKeeper` then panics.
   */
  predicate Keepers(points: seq<Point3D>, heaps: seq<seq<ComparableDist>>, numNeighbors: int)
  {
    |heaps| == |points| &&
    forall i :: 0 <= i < |heaps| ==>
      1 <= |heaps[i]| <= numNeighbors + 1 && DistancesFrom(points, points[i], heaps[i])
  }

  /** The neighbour distances after the first entry, skipping entries for the point itself. */
  function NeighbourSum(entries: seq<ComparableDist>, self: nat): real
  {
    if entries == [] then 0.0
    else
      var last := entries[|entries| - 1];
      NeighbourSum(entries[..|entries| - 1], self) + (if last.index == self then 0.0 else last.dist)
  }

  /**
   * `computeDistances(points, numNeighbors)`: for each point, in order, the summed distance to
   * the heap entries after the first that are not the point itself, over `numNeighbors`.
   */
  method ComputeDistances(points: seq<Point3D>, heaps: seq<seq<ComparableDist>>, numNeighbors: int) returns (distances: seq<real>)
    requires Keepers(points, heaps, numNeighbors)
    requires |points| > 0 ==> numNeighbors != 0
    ensures |distances| == |points|
    ensures forall i :: 0 <= i < |points| ==>
      distances[i] == NeighbourSum(heaps[i][1..], i) / numNeighbors as real
    ensures forall i :: 0 <= i < |points| ==>
      distances[i] == SquaredDistanceSum(points, points[i], heaps[i][1..], i) / numNeighbors as real
  {
    var out := new real[|points|];
    for i := 0 to |points|
      invariant forall l :: 0 <= l < i ==> out[l] == NeighbourSum(heaps[l][1..], l) / numNeighbors as real
    {
      var heap := heaps[i][1..];
      var sum := 0.0;
      for j := 0 to |heap|
        invariant sum == NeighbourSum(heap[..j], i)
      {
        assert heap[..j + 1][..j] == heap[..j];
        if heap[j].index == i {
          continue;
        }
        sum := sum + heap[j].dist;
      }
      assert heap[..|heap|] == heap;
      out[i] := sum / numNeighbors as real;
    }
    distances := out[..];
    forall i | 0 <= i < |points|
      ensures NeighbourSum(heaps[i][1..], i) == SquaredDistanceSum(points, points[i], heaps[i][1..], i)
    {
      NeighbourSumIsSquaredDistances(points, points[i], heaps[i][1..], i);
    }
  }

  /** The squared distances from `q` to the tree points the entries name, skipping position `self`. */
  function SquaredDistanceSum(tree: Tree, q: Point3D, entries: seq<ComparableDist>, self: nat): real
    requires forall l :: 0 <= l < |entries| ==> entries[l].index < |tree|
  {
    if entries == [] then 0.0
    else
      var last := entries[|entries| - 1];
      SquaredDistanceSum(tree, q, entries[..|entries| - 1], self) +
      (if last.index == self then 0.0 else Distance(q, tree[last.index]))
  }

  /** Summing the keeper's `Dist` fields sums the squared distances to the neighbours. */
  lemma {:induction false} NeighbourSumIsSquaredDistances(tree: Tree, q: Point3D, entries: seq<ComparableDist>, self: nat)
    requires forall l :: 0 <= l < |entries| ==> entries[l].index < |tree| && entries[l].dist == Distance(q, tree[entries[l].index])
    ensures NeighbourSum(entries, self) == SquaredDistanceSum(tree, q, entries, self)
  {
    if entries != [] {
      NeighbourSumIsSquaredDistances(tree, q, entries[..|entries| - 1], self);
    }
  }

  /** `maxDistance` of `removeNonNormalPoints`, compared against squared distances. */
  const MaxNeighbourDistance: real := 0.2

  predicate AllWithinDistance(heap: seq<ComparableDist>)
  {
    forall l :: 1 <= l < |heap| ==> heap[l].dist <= MaxNeighbourDistance
  }

  function WithinDistanceFlags(heaps: seq<seq<ComparableDist>>): (keep: seq<bool>)
    ensures |keep| == |heaps| && forall i :: 0 <= i < |heaps| ==> keep[i] == AllWithinDistance(heaps[i])
  {
    seq(|heaps|, i requires 0 <= i < |heaps| => AllWithinDistance(heaps[i]))
  }

  /**
   * `removeNonNormalPoints(points, numNeighbors)`: the points none of whose heap entries after
   * the first lies farther than `maxDistance`, in order.
   */
  method RemoveNonNormalPoints(points: seq<Point3D>, heaps: seq<seq<ComparableDist>>, numNeighbors: int) returns (filtered: seq<Point3D>)
    requires Keepers(points, heaps, numNeighbors)
    ensures filtered == Kept(points, WithinDistanceFlags(heaps))
  {
    filtered := [];
    for i := 0 to |points|
      invariant filtered == Kept(points[..i], WithinDistanceFlags(heaps)[..i])
    {
      var heap := heaps[i];
      var allWithinDistance := true;
      var j := 1;
      while j < |heap|
        invariant 1 <= j <= |heap|
        invariant forall l :: 1 <= l < j ==> heap[l].dist <= MaxNeighbourDistance
      {
        if heap[j].dist > MaxNeighbourDistance {
          allWithinDistance := false;
          break;
        }
        j := j + 1;
      }
      assert allWithinDistance == AllWithinDistance(heap);
      if allWithinDistance {
        filtered := filtered + [points[i]];
      }
      assert points[..i + 1][..i] == points[..i];
      assert WithinDistanceFlags(heaps)[..i + 1][..i] == WithinDistanceFlags(heaps)[..i];
    }
    assert points[..|points|] == points;
    assert WithinDistanceFlags(heaps)[..|points|] == WithinDistanceFlags(heaps);
  }

  /**
   * A point passes `removeNonNormalPoints`'s test exactly when every neighbour its keeper names
   * lies within squared distance `maxDistance` of it.
   */
  lemma WithinSquaredDistance(tree: Tree, q: Point3D, heap: seq<ComparableDist>)
    requires DistancesFrom(tree, q, heap)
    ensures AllWithinDistance(heap) <==>
      forall l :: 1 <= l < |heap| ==> Distance(q, tree[heap[l].index]) <= MaxNeighbourDistance
  {
  }

  /** The distances `computeDistances` produces, as a function of the heaps. */
  function MeanNeighbourDistances(heaps: seq<seq<ComparableDist>>, numNeighbors: int): (d: seq<real>)
    requires forall i :: 0 <= i < |heaps| ==> |heaps[i]| >= 1
    requires |heaps| > 0 ==> numNeighbors != 0
    ensures |d| == |heaps|
  {
    seq(|heaps|, i requires 0 <= i < |heaps| => NeighbourSum(heaps[i][1..], i) / numNeighbors as real)
  }

  /** `removeOutliersKDTree`: the z-score filter applied to the mean neighbour distances. */
  method RemoveOutliersKDTree(points: seq<Point3D>, heaps: seq<seq<ComparableDist>>, numNeighbors: int, zThreshold: real) returns (filtered: seq<Point3D>)
    requires Keepers(points, heaps, numNeighbors)
    requires |points| > 0 ==> numNeighbors != 0
    ensures filtered == Kept(points, OutlierFlags(MeanNeighbourDistances(heaps, numNeighbors), zThreshold))
  {
    var distances := ComputeDistances(points, heaps, numNeighbors);
    assert distances == MeanNeighbourDistances(heaps, numNeighbors);
    filtered := FilterPoints(points, distances, zThreshold);
  }
}
