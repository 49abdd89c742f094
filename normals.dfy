/**
 * Normal estimation, icp/normals.go.
 *
 * For every point, `ComputeNormals` collects the points of the k-d tree's nearest-`k + 1` heap
 * after its first entry. It accumulates their covariance about their mean, factorises it, and
 * writes column 2 of `U` into the point's normal. The tree's heap for the point at position `i`
 * is `heaps[i]`, and its entries name positions in `tree`.
 */
module Normals {

  import opened Wrappers
  import opened Reals
  import opened Point
  import opened KdTree
  import opened Matrix

  predicate HeapInTree(tree: Tree, heap: seq<ComparableDist>)
  {
    |heap| >= 1 && forall l :: 1 <= l < |heap| ==> heap[l].index < |tree|
  }

  /** The neighbours collected for one point: the tree points of the heap entries after the first. */
  function Neighbours(tree: Tree, heap: seq<ComparableDist>): (r: seq<Point3D>)
    requires HeapInTree(tree, heap)
    ensures |r| == |heap| - 1
    ensures forall l :: 0 <= l < |r| ==> r[l] == tree[heap[l + 1].index]
  {
    seq(|heap| - 1, l requires 0 <= l < |heap| - 1 => tree[heap[l + 1].index])
  }

  /** A keeper of capacity `k + 1` yields at most `k` neighbours. */
  lemma AtMostKNeighbours(tree: Tree, heap: seq<ComparableDist>, k: int)
    requires HeapInTree(tree, heap) && |heap| <= k + 1
    ensures |Neighbours(tree, heap)| <= k
  {
  }

  /** `pointsMean(points)` for a non-empty slice: the coordinate-wise average. */
  method PointsMean(points: seq<Point3D>) returns (cx: real, cy: real, cz: real)
    requires |points| > 0
    ensures At(cx, cy, cz) == Mean(points)
  {
    var n := |points| as real;
    cx, cy, cz := 0.0, 0.0, 0.0;
    for i := 0 to |points|
      invariant At(cx, cy, cz) == Sum(points[..i])
    {
      assert points[..i + 1][..i] == points[..i];
      cx, cy, cz := cx + points[i].x, cy + points[i].y, cz + points[i].z;
    }
    assert points[..|points|] == points;
    cx, cy, cz := cx / n, cy / n, cz / n;
  }

  /** Coordinate `a` (0 = X, 1 = Y, 2 = Z) of `p`. */
  function Coord(p: Point3D, a: nat): real
    requires a < 3
  {
    ToArray(p)[a]
  }

  /** Entry `(a, b)` of the scatter of `points` about `c`: the sum of the offset products. */
  function CovarianceEntry(points: seq<Point3D>, c: Point3D, a: nat, b: nat): real
    requires a < 3 && b < 3
  {
    if points == [] then 0.0
    else
      var d := Subtract(points[|points| - 1], c);
      CovarianceEntry(points[..|points| - 1], c, a, b) + Mul(Coord(d, a), Coord(d, b))
  }

  function CovarianceOf(points: seq<Point3D>, c: Point3D): Mat3
  {
    seq(3, a requires 0 <= a < 3 => seq(3, b requires 0 <= b < 3 => CovarianceEntry(points, c, a, b)))
  }

  /** The scatter is symmetric and its diagonal, a sum of squares, is never negative. */
  lemma {:induction false} CovarianceProperties(points: seq<Point3D>, c: Point3D, a: nat, b: nat)
    requires a < 3 && b < 3
    ensures CovarianceEntry(points, c, a, b) == CovarianceEntry(points, c, b, a)
    ensures CovarianceEntry(points, c, a, a) >= 0.0
  {
    if points != [] {
      CovarianceProperties(points[..|points| - 1], c, a, b);
      var d := Subtract(points[|points| - 1], c);
      MulSigns(Coord(d, a), Coord(d, b));
      SquareFacts(Coord(d, a));
    }
  }

  /**
   * The centre `ComputeNormals` takes the offsets from: `pointsMean(neighbors)`. For no neighbours
   * Go's mean is 0/0, which nothing reads, so any centre serves; the model takes the origin.
   */
  function Centre(neighbors: seq<Point3D>): Point3D
  {
    if neighbors == [] then Origin else Mean(neighbors)
  }

  /**
   * The covariance accumulation of `ComputeNormals`: the upper triangle summed over the offsets
   * from `pointsMean`, then the lower triangle copied from it.
   */
  method Covariance(neighbors: seq<Point3D>) returns (cov: Mat3)
    requires |neighbors| > 0
    ensures cov == CovarianceOf(neighbors, Mean(neighbors))
    ensures forall a, b :: 0 <= a < 3 && 0 <= b < 3 ==> cov[a][b] == cov[b][a]
    ensures forall a :: 0 <= a < 3 ==> cov[a][a] >= 0.0
  {
    var cx, cy, cz := PointsMean(neighbors);
    ghost var c := At(cx, cy, cz);
    cov := Zero(3, 3);
    for i := 0 to |neighbors|
      invariant forall a, b :: 0 <= a < 3 && 0 <= b < 3 ==>
        cov[a][b] == if a <= b then CovarianceEntry(neighbors[..i], c, a, b) else 0.0
    {
      var n := neighbors[i];
      var dx, dy, dz := n.x - cx, n.y - cy, n.z - cz;
      assert neighbors[..i + 1][..i] == neighbors[..i];
      assert Subtract(n, c) == At(dx, dy, dz);
      cov := Set(cov, 0, 0, cov[0][0] + Mul(dx, dx));
      cov := Set(cov, 0, 1, cov[0][1] + Mul(dx, dy));
      cov := Set(cov, 0, 2, cov[0][2] + Mul(dx, dz));
      cov := Set(cov, 1, 1, cov[1][1] + Mul(dy, dy));
      cov := Set(cov, 1, 2, cov[1][2] + Mul(dy, dz));
      cov := Set(cov, 2, 2, cov[2][2] + Mul(dz, dz));
    }
    assert neighbors[..|neighbors|] == neighbors;
    cov := Set(cov, 1, 0, cov[0][1]);
    cov := Set(cov, 2, 0, cov[0][2]);
    cov := Set(cov, 2, 1, cov[1][2]);
    forall a, b | 0 <= a < 3 && 0 <= b < 3
      ensures cov[a][b] == CovarianceEntry(neighbors, c, a, b)
    {
      CovarianceProperties(neighbors, c, a, b);
    }
    assert forall a :: 0 <= a < 3 ==> cov[a] == CovarianceOf(neighbors, c)[a];
    forall a | 0 <= a < 3
      ensures cov[a][a] >= 0.0
    {
      CovarianceProperties(neighbors, c, a, a);
    }
  }

  /** With no neighbours the covariance stays the zero matrix it starts as. */
  lemma NoScatter(c: Point3D)
    ensures CovarianceOf([], c) == Zero(3, 3)
  {
    assert forall a :: 0 <= a < 3 ==> CovarianceOf([], c)[a] == Zero(3, 3)[a];
  }

  /** The normal `ComputeNormals` writes for one heap: column 2 of `U`, or `None` if factorising fails. */
  function NormalFor(tree: Tree, heap: seq<ComparableDist>, factorize: Mat3 -> Option<Factorization>): Option<(real, real, real)>
    requires HeapInTree(tree, heap)
  {
    var neighbors := Neighbours(tree, heap);
    match factorize(CovarianceOf(neighbors, Centre(neighbors)))
    case None => None
    case Some(f) => Some((f.u[0][2], f.u[1][2], f.u[2][2]))
  }

  function WithNormal(p: Point3D, n: (real, real, real)): Point3D
  {
    p.(nx := n.0, ny := n.1, nz := n.2)
  }

  /** The point `after` is `before` with the normal estimated from `heap`. */
  predicate NormalWritten(tree: Tree, heap: seq<ComparableDist>, factorize: Mat3 -> Option<Factorization>, before: Point3D, after: Point3D)
    requires HeapInTree(tree, heap)
  {
    NormalFor(tree, heap, factorize).Some? && after == WithNormal(before, NormalFor(tree, heap, factorize).value)
  }

  /** Factorisation first fails at position `f`: earlier points got their normal, the rest are as before. */
  predicate FailedAt(tree: Tree, heaps: seq<seq<ComparableDist>>, factorize: Mat3 -> Option<Factorization>, f: int,
                     before: seq<Point3D>, after: seq<Point3D>)
    requires |heaps| == |before| == |after|
    requires forall i :: 0 <= i < |heaps| ==> HeapInTree(tree, heaps[i])
  {
    0 <= f < |heaps| && NormalFor(tree, heaps[f], factorize).None? &&
    (forall i :: 0 <= i < f ==> NormalWritten(tree, heaps[i], factorize, before[i], after[i])) &&
    (forall i :: f <= i < |heaps| ==> after[i] == before[i])
  }

  /**
   * `ComputeNormals(tree, points, k)`: visits the points in order and writes each one's normal.
   * It stops with an error at the first point whose covariance does not factorise. The points
   * before it keep their new normals; it and the points after it are untouched. No coordinate
   * ever changes.
   */
  method ComputeNormals(tree: Tree, points: array<Point3D>, heaps: seq<seq<ComparableDist>>, k: int,
                        factorize: Mat3 -> Option<Factorization>) returns (ok: bool)
    requires |heaps| == points.Length
    requires forall i :: 0 <= i < |heaps| ==> HeapInTree(tree, heaps[i]) && |heaps[i]| <= k + 1
    modifies points
    ensures forall i :: 0 <= i < points.Length ==> SameCoordinates(points[i], old(points[i]))
    ensures ok ==> forall i :: 0 <= i < points.Length ==> NormalWritten(tree, heaps[i], factorize, old(points[i]), points[i])
    ensures !ok ==> exists f :: FailedAt(tree, heaps, factorize, f, old(points[..]), points[..])
  {
    for i := 0 to points.Length
      invariant forall l :: 0 <= l < i ==> NormalWritten(tree, heaps[l], factorize, old(points[l]), points[l])
      invariant forall l :: i <= l < points.Length ==> points[l] == old(points[l])
    {
      var heap := heaps[i];
      var neighbors := [];
      for j := 1 to |heap|
        invariant neighbors == Neighbours(tree, heap)[..j - 1]
      {
        neighbors := neighbors + [tree[heap[j].index]];
      }
      assert neighbors == Neighbours(tree, heap);
      var cov := Zero(3, 3);
      if |neighbors| > 0 {
        cov := Covariance(neighbors);
      } else {
        NoScatter(Centre(neighbors));
      }
      var svd := factorize(cov);
      if svd.None? {
        assert FailedAt(tree, heaps, factorize, i, old(points[..]), points[..]);
        return false;
      }
      var u := svd.value.u;
      points[i] := points[i].(nx := u[0][2], ny := u[1][2], nz := u[2][2]);
    }
    return true;
  }
}
