/**
 * The point-to-point estimator and the iteration controller of icp/icp.go.
 *
 * The controller repeats an estimator step on a working buffer. Each step finds correspondences
 * in a k-d tree over the filtered target and estimates an increment from them. The controller
 * moves the buffer by the increment and composes it into the final transform, and stops after
 * the first increment whose translation is shorter than the tolerance or after `MaxIterations`
 * steps. `Iterate` states this loop once, for any step; `PointToPoint` here and `PointToPlane`
 * in module PointToPlane run it with their own step.
 */
module Icp {

  import opened Wrappers
  import opened Reals
  import opened Point
  import opened KdTree
  import opened Matrix
  import opened Transform
  import opened Voxel
  import opened Filter
  import opened Params

  /** Why a registration stops without a result. */
  datatype Error =
    | NoValidCorrespondences  // "no valid correspondences found"
    | FactorizationFailed     // "failed to factorize matrix"
    | EmptyTree               // Go panics asserting the nil nearest neighbour of an empty tree
    | NormalsFailed           // the error ComputeNormals reports, wrapped
    | SolveFailed             // the error SolveVec reports

  /** `Result` without its elapsed time. */
  datatype IcpResult = IcpResult(
    finalTransform: Mat4,
    transformedPoints: seq<Point3D>,
    numTargetPoints: int,
    numSourcePoints: int)

  /** `computeCentroid(points)` for a non-empty buffer: the coordinate-wise average. */
  method ComputeCentroid(points: seq<Point3D>) returns (c: Point3D)
    requires |points| > 0
    ensures c == Point.Mean(points)
  {
    var sumX, sumY, sumZ := 0.0, 0.0, 0.0;
    var n := |points| as real;
    for i := 0 to |points|
      invariant At(sumX, sumY, sumZ) == Point.Sum(points[..i])
    {
      assert points[..i + 1][..i] == points[..i];
      sumX, sumY, sumZ := sumX + points[i].x, sumY + points[i].y, sumZ + points[i].z;
    }
    assert points[..|points|] == points;
    c := At(sumX / n, sumY / n, sumZ / n);
  }

  /** The nearest tree point of every source point, or `None` where Go would panic. */
  function ClosestPointsOf(source: seq<Point3D>, tree: Tree): (r: Option<seq<Point3D>>)
    ensures r.Some? ==> |r.value| == |source|
  {
    if tree == [] && source != [] then None
    else if tree == [] then Some([])
    else Some(seq(|source|, i requires 0 <= i < |source| => Nearest(tree, source[i]).value))
  }

  /**
   * `closestPoints(source, tree)`: one nearest tree point per source point, in order, each an
   * element of the tree at minimal `Distance`. An empty tree with at least one source point
   * makes `closestPoint`'s type assertion panic, which is the error `None` here.
   */
  method ClosestPoints(source: seq<Point3D>, tree: Tree) returns (closest: Option<seq<Point3D>>)
    ensures closest == ClosestPointsOf(source, tree)
    ensures closest.None? <==> tree == [] && source != []
    ensures closest.Some? ==> |closest.value| == |source| && forall i :: 0 <= i < |source| ==>
      closest.value[i] in tree && forall p :: p in tree ==> Distance(source[i], closest.value[i]) <= Distance(source[i], p)
  {
    var out: seq<Point3D> := [];
    for i := 0 to |source|
      invariant |out| == i
      invariant forall l :: 0 <= l < i ==> Nearest(tree, source[l]).Some? && out[l] == Nearest(tree, source[l]).value
    {
      var nearest := Nearest(tree, source[i]);
      if nearest.None? {
        assert tree == [] && source != [];
        return None;
      }
      out := out + [nearest.value];
    }
    assert tree != [] ==> out == ClosestPointsOf(source, tree).value;
    assert source != [] ==> Nearest(tree, source[0]).Some?;
    closest := Some(out);
  }

  /** Pair `(src, tgt)` enters `H` unless its squared distance exceeds `maxDistance`. */
  predicate Passes(src: Point3D, tgt: Point3D, maxDistance: real)
  {
    !(Distance(src, tgt) > maxDistance)
  }

  /** The number of pairs that pass the gate: `numValid`. */
  function CountValid(source: seq<Point3D>, closest: seq<Point3D>, maxDistance: real): nat
    requires |closest| == |source|
  {
    if source == [] then 0
    else
      var n := |source| - 1;
      CountValid(source[..n], closest[..n], maxDistance) + (if Passes(source[n], closest[n], maxDistance) then 1 else 0)
  }

  /** Pair `(src, tgt)`'s contribution to `H[j][k]`: `(tgt − cT)_j · (src − cS)_k`. */
  function PairTerm(src: Point3D, tgt: Point3D, cS: Point3D, cT: Point3D, j: nat, k: nat): real
    requires j < 3 && k < 3
  {
    Mul(ToArray(Subtract(tgt, cT))[j], ToArray(Subtract(src, cS))[k])
  }

  /** `H[j][k]`: the pair terms summed over the pairs that pass the gate. */
  function HEntry(source: seq<Point3D>, closest: seq<Point3D>, cS: Point3D, cT: Point3D, maxDistance: real, j: nat, k: nat): real
    requires |closest| == |source| && j < 3 && k < 3
  {
    if source == [] then 0.0
    else
      var n := |source| - 1;
      HEntry(source[..n], closest[..n], cS, cT, maxDistance, j, k) +
        (if Passes(source[n], closest[n], maxDistance) then PairTerm(source[n], closest[n], cS, cT, j, k) else 0.0)
  }

  function CrossCovariance(source: seq<Point3D>, closest: seq<Point3D>, cS: Point3D, cT: Point3D, maxDistance: real): Mat3
    requires |closest| == |source|
  {
    seq(3, j requires 0 <= j < 3 => seq(3, k requires 0 <= k < 3 => HEntry(source, closest, cS, cT, maxDistance, j, k)))
  }

  /** `R = U·Vᵀ`, recomputed with U's last column negated when its determinant is negative. */
  function RotationOf(f: Factorization, det: Mat3 -> real): Mat3
  {
    var r := Mul3(f.u, Transpose(f.v));
    if det(r) < 0.0 then Mul3(NegateColumn(f.u, 2), Transpose(f.v)) else r
  }

  /** `t = cT − R·cS`. */
  function TranslationOf(r: Mat3, cS: Point3D, cT: Point3D): Point3D
  {
    var rc := Rotate(r, cS);
    At(cT.x - rc.x, cT.y - rc.y, cT.z - rc.z)
  }

  /**
   * The increment `computeOptimalTransform` returns. Both centroids are taken over all pairs,
   * gated or not; `H` sums only the pairs that pass the gate.
   */
  function OptimalTransform(source: seq<Point3D>, closest: seq<Point3D>, maxDistance: real, num: Numerics): Result<Mat4, Error>
    requires |closest| == |source|
  {
    if CountValid(source, closest, maxDistance) == 0 then Err(NoValidCorrespondences)
    else
      var cS, cT := Point.Mean(source), Point.Mean(closest);
      match num.factorize(CrossCovariance(source, closest, cS, cT, maxDistance))
      case None => Err(FactorizationFailed)
      case Some(f) =>
        var r := RotationOf(f, num.det);
        Ok(Homogeneous(r, TranslationOf(r, cS, cT)))
  }

  /** `computeOptimalTransform(source, closest, maxCorrespondenceDistance)`. */
  method ComputeOptimalTransform(source: seq<Point3D>, closest: seq<Point3D>, maxDistance: real, num: Numerics)
    returns (result: Result<Mat4, Error>)
    requires |closest| == |source|
    ensures result == OptimalTransform(source, closest, maxDistance, num)
  {
    if |source| == 0 {
      // Go's centroids are NaN here, and unused: no pair can pass the gate.
      return Err(NoValidCorrespondences);
    }
    var cS := ComputeCentroid(source);
    var cT := ComputeCentroid(closest);
    var h, numValid := AccumulateCrossCovariance(source, closest, cS, cT, maxDistance);
    if numValid == 0 {
      return Err(NoValidCorrespondences);
    }
    var svd := num.factorize(h);
    if svd.None? {
      return Err(FactorizationFailed);
    }
    var r := ComputeRotation(svd.value, num.det);
    var m := AssembleTransform(r, cS, cT);
    return Ok(m);
  }

  /** The accumulation loop: `H` over the pairs that pass the gate, and how many did. */
  method AccumulateCrossCovariance(source: seq<Point3D>, closest: seq<Point3D>, cS: Point3D, cT: Point3D, maxDistance: real)
    returns (h: Mat3, numValid: nat)
    requires |closest| == |source|
    ensures h == CrossCovariance(source, closest, cS, cT, maxDistance)
    ensures numValid == CountValid(source, closest, maxDistance)
  {
    h := Zero(3, 3);
    numValid := 0;
    for i := 0 to |source|
      invariant numValid == CountValid(source[..i], closest[..i], maxDistance)
      invariant forall a, b :: 0 <= a < 3 && 0 <= b < 3 ==> h[a][b] == HEntry(source[..i], closest[..i], cS, cT, maxDistance, a, b)
    {
      assert source[..i + 1][..i] == source[..i];
      assert closest[..i + 1][..i] == closest[..i];
      var src, tgt := source[i], closest[i];
      if Distance(src, tgt) > maxDistance {
        continue;
      }
      numValid := numValid + 1;
      var s := ToArray(Subtract(src, cS));
      var t := ToArray(Subtract(tgt, cT));
      h := AddOuterProduct(h, t, s);
    }
    assert source[..|source|] == source && closest[..|source|] == closest;
    assert forall a :: 0 <= a < 3 ==> h[a] == CrossCovariance(source, closest, cS, cT, maxDistance)[a];
  }

  /** `R = U·Vᵀ`, with U's last column flipped and `R` recomputed when `det(R) < 0`. */
  method ComputeRotation(svd: Factorization, det: Mat3 -> real) returns (r: Mat3)
    ensures r == RotationOf(svd, det)
  {
    var u, v := svd.u, svd.v;
    var vt := Transpose(v);
    r := Mul3(u, vt);
    var detR := det(r);
    if detR < 0.0 {
      for i := 0 to 3
        invariant forall a, b :: 0 <= a < 3 && 0 <= b < 3 ==> u[a][b] == if b == 2 && a < i then -svd.u[a][2] else svd.u[a][b]
      {
        u := Set(u, i, 2, -u[i][2]);
      }
      assert u == NegateColumn(svd.u, 2) by {
        assert forall a :: 0 <= a < 3 ==> u[a] == NegateColumn(svd.u, 2)[a];
      }
      r := Mul3(u, vt);
    }
  }

  /** The homogeneous matrix with rotation `r` and translation `cT − r·cS`, laid out row by row. */
  method AssembleTransform(r: Mat3, cS: Point3D, cT: Point3D) returns (m: Mat4)
    ensures m == Homogeneous(r, TranslationOf(r, cS, cT))
  {
    var tx := cT.x - (Mul(r[0][0], cS.x) + Mul(r[0][1], cS.y) + Mul(r[0][2], cS.z));
    var ty := cT.y - (Mul(r[1][0], cS.x) + Mul(r[1][1], cS.y) + Mul(r[1][2], cS.z));
    var tz := cT.z - (Mul(r[2][0], cS.x) + Mul(r[2][1], cS.y) + Mul(r[2][2], cS.z));
    m := [
      [r[0][0], r[0][1], r[0][2], tx],
      [r[1][0], r[1][1], r[1][2], ty],
      [r[2][0], r[2][1], r[2][2], tz],
      [0.0, 0.0, 0.0, 1.0]];
    HomogeneousEntries(r, TranslationOf(r, cS, cT));
    assert forall a :: 0 <= a < 4 ==> m[a] == Homogeneous(r, TranslationOf(r, cS, cT))[a];
  }

  /** `H[j][k] += t[j]·s[k]` for every `j` and `k`. */
  method AddOuterProduct(h: Mat3, t: seq<real>, s: seq<real>) returns (r: Mat3)
    requires |t| == 3 && |s| == 3
    ensures forall a, b :: 0 <= a < 3 && 0 <= b < 3 ==> r[a][b] == h[a][b] + Mul(t[a], s[b])
  {
    r := h;
    for j := 0 to 3
      invariant forall a, b :: 0 <= a < j && 0 <= b < 3 ==> r[a][b] == h[a][b] + Mul(t[a], s[b])
      invariant forall a, b :: j <= a < 3 && 0 <= b < 3 ==> r[a][b] == h[a][b]
    {
      for k := 0 to 3
        invariant forall a, b :: 0 <= a < j && 0 <= b < 3 ==> r[a][b] == h[a][b] + Mul(t[a], s[b])
        invariant forall b :: 0 <= b < k ==> r[j][b] == h[j][b] + Mul(t[j], s[b])
        invariant forall a, b :: j < a < 3 && 0 <= b < 3 ==> r[a][b] == h[a][b]
        invariant forall b :: k <= b < 3 ==> r[j][b] == h[j][b]
      {
        r := Set(r, j, k, r[j][k] + Mul(t[j], s[k]));
      }
    }
  }

  /** No increment is produced, with the "no valid correspondences" error, exactly when every pair is gated out. */
  lemma {:induction false} NoValidCorrespondencesIff(source: seq<Point3D>, closest: seq<Point3D>, maxDistance: real, num: Numerics)
    requires |closest| == |source|
    ensures OptimalTransform(source, closest, maxDistance, num) == Err(NoValidCorrespondences) <==>
      forall i :: 0 <= i < |source| ==> Distance(source[i], closest[i]) > maxDistance
  {
    CountValidZero(source, closest, maxDistance);
  }

  lemma {:induction false} CountValidZero(source: seq<Point3D>, closest: seq<Point3D>, maxDistance: real)
    requires |closest| == |source|
    ensures CountValid(source, closest, maxDistance) == 0 <==>
      forall i :: 0 <= i < |source| ==> !Passes(source[i], closest[i], maxDistance)
  {
    if source != [] {
      var n := |source| - 1;
      CountValidZero(source[..n], closest[..n], maxDistance);
      assert forall i :: 0 <= i < n ==> source[..n][i] == source[i] && closest[..n][i] == closest[i];
    }
  }

  function RemoveAt<T>(s: seq<T>, i: nat): (r: seq<T>)
    requires i < |s|
    ensures |r| == |s| - 1
  {
    s[..i] + s[i + 1..]
  }

  /**
   * With the centroids fixed, dropping pair `i` changes `H` by exactly that pair's outer product
   * if it passes the gate, and not at all if it is gated out.
   */
  lemma {:induction false} RemovingOnePair(source: seq<Point3D>, closest: seq<Point3D>, cS: Point3D, cT: Point3D,
                                           maxDistance: real, i: nat, j: nat, k: nat)
    requires |closest| == |source| && i < |source| && j < 3 && k < 3
    ensures HEntry(source, closest, cS, cT, maxDistance, j, k) ==
      HEntry(RemoveAt(source, i), RemoveAt(closest, i), cS, cT, maxDistance, j, k) +
      (if Passes(source[i], closest[i], maxDistance) then PairTerm(source[i], closest[i], cS, cT, j, k) else 0.0)
    decreases |source|
  {
    var n := |source| - 1;
    if i == n {
      assert RemoveAt(source, i) == source[..n];
      assert RemoveAt(closest, i) == closest[..n];
    } else {
      RemovingOnePair(source[..n], closest[..n], cS, cT, maxDistance, i, j, k);
      assert RemoveAt(source, i)[..n - 1] == RemoveAt(source[..n], i);
      assert RemoveAt(closest, i)[..n - 1] == RemoveAt(closest[..n], i);
      assert RemoveAt(source, i)[n - 1] == source[n];
      assert RemoveAt(closest, i)[n - 1] == closest[n];
    }
  }

  /** Negating U's last column negates the determinant of `U·Vᵀ`. */
  lemma NegatedColumnDeterminant(det: Mat3 -> real, u: Mat3, vt: Mat3)
    requires DeterminantLaws(det)
    ensures det(Mul3(NegateColumn(u, 2), vt)) == -det(Mul3(u, vt))
  {
    var du, dv := det(u), det(vt);
    assert det(Mul3(u, vt)) == Mul(du, dv);
    assert det(Mul3(NegateColumn(u, 2), vt)) == Mul(det(NegateColumn(u, 2)), dv);
    assert det(NegateColumn(u, 2)) == -du;
    MulSigns(du, dv);
  }

  /**
   * When `det(U·Vᵀ) < 0`, the corrected rotation's determinant is the negation, so the rotation
   * returned never has a negative determinant.
   */
  lemma ReflectionCorrection(f: Factorization, det: Mat3 -> real)
    requires DeterminantLaws(det)
    ensures det(Mul3(f.u, Transpose(f.v))) < 0.0 ==>
      det(RotationOf(f, det)) == -det(Mul3(f.u, Transpose(f.v))) && det(RotationOf(f, det)) > 0.0
    ensures det(RotationOf(f, det)) >= 0.0
  {
    NegatedColumnDeterminant(det, f.u, Transpose(f.v));
  }

  /** With orthogonal factors the rotation returned is proper: its determinant is exactly 1. */
  lemma ProperRotation(f: Factorization, det: Mat3 -> real)
    requires DeterminantLaws(det)
    requires Orthogonal(f.u) && Orthogonal(f.v)
    ensures det(RotationOf(f, det)) == 1.0
  {
    OrthogonalDeterminant(det, f.u);
    OrthogonalDeterminant(det, f.v);
    UnitDeterminants(f, det);
  }

  lemma UnitDeterminants(f: Factorization, det: Mat3 -> real)
    requires DeterminantLaws(det)
    requires det(f.u) == 1.0 || det(f.u) == -1.0
    requires det(f.v) == 1.0 || det(f.v) == -1.0
    ensures det(RotationOf(f, det)) == 1.0
  {
    UnitFactors(f, det);
    NegatedColumnDeterminant(det, f.u, Transpose(f.v));
    UnitRotation(f, det);
  }

  /** `det(U·Vᵀ) = det(U)·det(V)`, so unit factors give a unit product. */
  lemma UnitFactors(f: Factorization, det: Mat3 -> real)
    requires DeterminantLaws(det)
    requires det(f.u) == 1.0 || det(f.u) == -1.0
    requires det(f.v) == 1.0 || det(f.v) == -1.0
    ensures det(Mul3(f.u, Transpose(f.v))) == 1.0 || det(Mul3(f.u, Transpose(f.v))) == -1.0
  {
    var vt := Transpose(f.v);
    var du, dv := det(f.u), det(vt);
    assert dv == det(f.v);
    UnitProduct(du, dv);
    assert det(Mul3(f.u, vt)) == Mul(du, dv);
  }

  /** Whichever sign `det(U·Vᵀ)` has, the rotation chosen has determinant 1. */
  lemma UnitRotation(f: Factorization, det: Mat3 -> real)
    requires det(Mul3(f.u, Transpose(f.v))) == 1.0 || det(Mul3(f.u, Transpose(f.v))) == -1.0
    requires det(Mul3(NegateColumn(f.u, 2), Transpose(f.v))) == -det(Mul3(f.u, Transpose(f.v)))
    ensures det(RotationOf(f, det)) == 1.0
  {
  }

  lemma UnitProduct(a: real, b: real)
    requires a == 1.0 || a == -1.0
    requires b == 1.0 || b == -1.0
    ensures Mul(a, b) == 1.0 || Mul(a, b) == -1.0
  {
  }

  /**
   * The returned increment maps the source centroid onto the target centroid (`R·cS + t = cT`)
   * and has bottom row `(0, 0, 0, 1)`.
   */
  lemma CentroidToCentroid(source: seq<Point3D>, closest: seq<Point3D>, maxDistance: real, num: Numerics)
    requires |closest| == |source|
    requires OptimalTransform(source, closest, maxDistance, num).Ok?
    ensures |source| > 0
    ensures SameCoordinates(TransformPoint(Point.Mean(source), OptimalTransform(source, closest, maxDistance, num).value), Point.Mean(closest))
    ensures OptimalTransform(source, closest, maxDistance, num).value[3] == [0.0, 0.0, 0.0, 1.0]
  {
    var cS, cT := Point.Mean(source), Point.Mean(closest);
    var f := num.factorize(CrossCovariance(source, closest, cS, cT, maxDistance)).value;
    var r := RotationOf(f, num.det);
    TransformHomogeneous(r, TranslationOf(r, cS, cT), cS);
    HomogeneousEntries(r, TranslationOf(r, cS, cT));
  }

  /** `TransformPoint` applied to every point, in order. */
  function TransformAll(points: seq<Point3D>, tform: Mat4): (r: seq<Point3D>)
    ensures |r| == |points|
    ensures forall i :: 0 <= i < |points| ==> r[i] == TransformPoint(points[i], tform)
  {
    seq(|points|, i requires 0 <= i < |points| => TransformPoint(points[i], tform))
  }

  /**
   * `isIdentity(tform)`: zero translation and identity rotation. The quaternion of the rotation
   * block is `(0, 0, 0, 1)` exactly for the identity rotation.
   */
  predicate IsIdentity(tform: Mat4)
  {
    tform[0][3] == 0.0 && tform[1][3] == 0.0 && tform[2][3] == 0.0 &&
    forall i, j :: 0 <= i < 3 && 0 <= j < 3 ==> tform[i][j] == if i == j then 1.0 else 0.0
  }

  /** The buffer after `TransformPoints(points, tform)`. */
  function Moved(points: seq<Point3D>, tform: Mat4): seq<Point3D>
  {
    if IsIdentity(tform) then points else TransformAll(points, tform)
  }

  /**
   * The early return for an identity agrees with the general path on every coordinate; only the
   * normals, which the general path drops, tell the two apart.
   */
  lemma IdentityEarlyReturn(points: seq<Point3D>, tform: Mat4)
    requires IsIdentity(tform)
    ensures forall i :: 0 <= i < |points| ==> SameCoordinates(TransformAll(points, tform)[i], points[i])
  {
    forall i | 0 <= i < |points|
      ensures SameCoordinates(TransformAll(points, tform)[i], points[i])
    {
      var p := points[i];
      MulSigns(0.0, p.x);
      MulSigns(0.0, p.y);
      MulSigns(0.0, p.z);
    }
  }

  /**
   * `TransformPoints(points, tform)`: nothing changes for the identity; otherwise every element
   * is replaced by a fresh point, the transform applied to the old one.
   */
  method TransformPoints(points: array<Point3D>, tform: Mat4)
    modifies points
    ensures points[..] == Moved(old(points[..]), tform)
  {
    if IsIdentity(tform) {
      return;
    }
    for i := 0 to points.Length
      invariant forall l :: 0 <= l < i ==> points[l] == TransformPoint(old(points[l]), tform)
      invariant forall l :: i <= l < points.Length ==> points[l] == old(points[l])
    {
      var p := points[i];
      points[i] := TransformPoint(At(p.x, p.y, p.z), tform);
    }
  }

  /**
   * `isWithinThreshold(tform, threshold)`: the translation is shorter than `threshold`, stated
   * on squared lengths.
   */
  predicate IsWithinThreshold(tform: Mat4, threshold: real)
  {
    threshold > 0.0 && LengthSquared(ExtractTranslation(tform)) < Square(threshold)
  }

  /** For `length` the length of the translation, the test is `length < threshold`. */
  lemma WithinThresholdMatchesSource(tform: Mat4, threshold: real, length: real)
    requires length >= 0.0 && Square(length) == LengthSquared(ExtractTranslation(tform))
    ensures IsWithinThreshold(tform, threshold) <==> length < threshold
  {
    if threshold > 0.0 {
      SquareMonotone(length, threshold);
    }
  }

  /** The state at the end of a run: final transform, working buffer, increments in order. */
  datatype Run = Run(finalTransform: Mat4, points: seq<Point3D>, increments: seq<Mat4>)

  /** An estimator step: the increment for the current buffer, or an error. */
  type Step = seq<Point3D> -> Result<Mat4, Error>

  /**
   * The controller loop from a given state with `fuel` iterations left: a step error aborts the
   * run; otherwise the buffer is moved, the increment is composed on the right of the final
   * transform, and the run stops if the increment is within the tolerance.
   */
  function Iterate(step: Step, points: seq<Point3D>, final: Mat4, increments: seq<Mat4>, fuel: nat, tolerance: real): Result<Run, Error>
    decreases fuel
  {
    if fuel == 0 then Ok(Run(final, points, increments))
    else
      match step(points)
      case Err(e) => Err(e)
      case Ok(t) =>
        if IsWithinThreshold(t, tolerance) then Ok(Run(Mul4(final, t), Moved(points, t), increments + [t]))
        else Iterate(step, Moved(points, t), Mul4(final, t), increments + [t], fuel - 1, tolerance)
  }

  /** One controller iteration with fuel left, for a step that errs. */
  lemma IterateAborts(step: Step, points: seq<Point3D>, final: Mat4, increments: seq<Mat4>, fuel: nat, tolerance: real)
    requires fuel > 0 && step(points).Err?
    ensures Iterate(step, points, final, increments, fuel, tolerance) == Err(step(points).error)
  {
  }

  /**
   * One controller iteration with fuel left, for a step that returns increment `t`; `rest` is the
   * fuel left after it.
   */
  lemma IterateAdvances(step: Step, points: seq<Point3D>, final: Mat4, increments: seq<Mat4>, fuel: nat, rest: nat,
                        tolerance: real, t: Mat4)
    requires fuel == rest + 1 && step(points) == Ok(t)
    ensures IsWithinThreshold(t, tolerance) ==>
      Iterate(step, points, final, increments, fuel, tolerance) == Ok(Run(Mul4(final, t), Moved(points, t), increments + [t]))
    ensures !IsWithinThreshold(t, tolerance) ==>
      Iterate(step, points, final, increments, fuel, tolerance) ==
      Iterate(step, Moved(points, t), Mul4(final, t), increments + [t], rest, tolerance)
  {
  }

  /** `m·T1·…·Tn` for the increments `T1 … Tn`. */
  function Compose(m: Mat4, increments: seq<Mat4>): Mat4
  {
    if increments == [] then m else Mul4(Compose(m, increments[..|increments| - 1]), increments[|increments| - 1])
  }

  /** The buffer after moving it by each increment in turn. */
  function Replay(points: seq<Point3D>, increments: seq<Mat4>): seq<Point3D>
  {
    if increments == [] then points else Moved(Replay(points, increments[..|increments| - 1]), increments[|increments| - 1])
  }

  /**
   * A run calls the step at most `fuel` more times, and keeps the increments it started with as
   * a prefix.
   */
  lemma {:induction false} IterateBounded(step: Step, points: seq<Point3D>, final: Mat4, increments: seq<Mat4>,
                                          fuel: nat, tolerance: real)
    requires Iterate(step, points, final, increments, fuel, tolerance).Ok?
    ensures var run := Iterate(step, points, final, increments, fuel, tolerance).value;
      |increments| <= |run.increments| <= |increments| + fuel && run.increments[..|increments|] == increments
    decreases fuel
  {
    if fuel > 0 {
      var t := step(points).value;
      if !IsWithinThreshold(t, tolerance) {
        var next := increments + [t];
        IterateBounded(step, Moved(points, t), Mul4(final, t), next, fuel - 1, tolerance);
        var run := Iterate(step, points, final, increments, fuel, tolerance).value;
        assert run.increments[..|next|][..|increments|] == run.increments[..|increments|];
      }
    }
  }

  /**
   * The final transform is the starting one composed on the right with every new increment in
   * order, and the buffer is the starting buffer moved by each of them in turn.
   */
  lemma {:induction false} IterateComposes(step: Step, points: seq<Point3D>, final: Mat4, increments: seq<Mat4>,
                                           fuel: nat, tolerance: real, start: Mat4, origin: seq<Point3D>)
    requires final == Compose(start, increments)
    requires points == Replay(origin, increments)
    requires Iterate(step, points, final, increments, fuel, tolerance).Ok?
    ensures var run := Iterate(step, points, final, increments, fuel, tolerance).value;
      run.finalTransform == Compose(start, run.increments) && run.points == Replay(origin, run.increments)
    decreases fuel
  {
    if fuel > 0 {
      var t := step(points).value;
      var next := increments + [t];
      assert next[..|next| - 1] == increments;
      if !IsWithinThreshold(t, tolerance) {
        IterateComposes(step, Moved(points, t), Mul4(final, t), next, fuel - 1, tolerance, start, origin);
      }
    }
  }

  /**
   * Every new increment but the last was outside the tolerance, and a run that ends before its
   * fuel is spent ends on an increment within the tolerance.
   */
  lemma {:induction false} IterateStops(step: Step, points: seq<Point3D>, final: Mat4, increments: seq<Mat4>,
                                        fuel: nat, tolerance: real)
    requires Iterate(step, points, final, increments, fuel, tolerance).Ok?
    ensures var run := Iterate(step, points, final, increments, fuel, tolerance).value;
      (forall k :: |increments| <= k < |run.increments| - 1 ==> !IsWithinThreshold(run.increments[k], tolerance)) &&
      (|run.increments| < |increments| + fuel ==>
        |run.increments| > |increments| && IsWithinThreshold(run.increments[|run.increments| - 1], tolerance))
    decreases fuel
  {
    if fuel > 0 {
      var t := step(points).value;
      if !IsWithinThreshold(t, tolerance) {
        var next := increments + [t];
        IterateStops(step, Moved(points, t), Mul4(final, t), next, fuel - 1, tolerance);
        IterateBounded(step, Moved(points, t), Mul4(final, t), next, fuel - 1, tolerance);
        var run := Iterate(step, points, final, increments, fuel, tolerance).value;
        assert run.increments[|increments|] == run.increments[..|next|][|increments|] == t;
      }
    }
  }

  /** A quarter turn about the Z axis, `(x, y, z) ↦ (-y, x, z)`. */
  const QuarterTurn: Mat4 := [[0.0, -1.0, 0.0, 0.0], [1.0, 0.0, 0.0, 0.0], [0.0, 0.0, 1.0, 0.0], [0.0, 0.0, 0.0, 1.0]]

  /** A unit shift along the X axis. */
  const UnitShift: Mat4 := [[1.0, 0.0, 0.0, 1.0], [0.0, 1.0, 0.0, 0.0], [0.0, 0.0, 1.0, 0.0], [0.0, 0.0, 0.0, 1.0]]

  /**
   * The final transform as Go accumulates it, `final·tform`, does not reproduce the buffer: the
   * buffer is turned by a quarter turn and then shifted, which takes the origin to `x = 1`, while
   * the composed transform takes it to `x = 0`.
   */
  lemma ComposedIncrementsMisplacePoints()
    ensures TransformAll([Origin], Compose(Identity(4), [QuarterTurn, UnitShift]))[0].x == 0.0
    ensures |Replay([Origin], [QuarterTurn, UnitShift])| == 1 && Replay([Origin], [QuarterTurn, UnitShift])[0].x == 1.0
  {
    var incs := [QuarterTurn, UnitShift];
    assert incs[..1] == [QuarterTurn] && [QuarterTurn][..0] == [];
    ComposedOriginShift();
    assert !IsIdentity(QuarterTurn) by { assert QuarterTurn[0][0] == 0.0; }
    assert !IsIdentity(UnitShift) by { assert UnitShift[0][3] == 1.0; }
    var turned := TransformAll([Origin], QuarterTurn);
    assert Replay([Origin], [QuarterTurn]) == turned;
    assert turned[0] == TransformPoint(Origin, QuarterTurn);
    assert SameCoordinates(turned[0], Origin);
    assert Replay([Origin], incs) == TransformAll(turned, UnitShift);
  }

  /** Row 0, column 3 of `I·QuarterTurn·UnitShift`, the X the composed transform gives the origin. */
  lemma ComposedOriginShift()
    ensures Compose(Identity(4), [QuarterTurn, UnitShift])[0][3] == 0.0
  {
    var incs := [QuarterTurn, UnitShift];
    assert incs[..1] == [QuarterTurn] && [QuarterTurn][..0] == [];
    var a := Mul4(Identity(4), QuarterTurn);
    assert Compose(Identity(4), [QuarterTurn]) == a;
    assert Compose(Identity(4), incs) == Mul4(a, UnitShift);
    Mul4Entry(Identity(4), QuarterTurn, 0, 0);
    Mul4Entry(Identity(4), QuarterTurn, 0, 3);
    Mul4Entry(a, UnitShift, 0, 3);
  }

  /** The intended accumulation: each increment multiplied on the LEFT, `Tn·…·T1·m`. */
  function Applied(m: Mat4, increments: seq<Mat4>): Mat4
  {
    if increments == [] then m else Mul4(increments[|increments| - 1], Applied(m, increments[..|increments| - 1]))
  }

  /** Affine increments accumulate to an affine transform. */
  lemma {:induction false} AppliedIsAffine(increments: seq<Mat4>)
    requires forall k :: 0 <= k < |increments| ==> IsAffine(increments[k])
    ensures IsAffine(Applied(Identity(4), increments))
    decreases |increments|
  {
    if increments == [] {
      AffineProduct(Identity(4), Identity(4));
    } else {
      var init := increments[..|increments| - 1];
      AppliedIsAffine(init);
      AffineProduct(increments[|increments| - 1], Applied(Identity(4), init));
    }
  }

  /**
   * For affine increments, the left-accumulated transform takes every original point to the
   * coordinates the buffer reached by moving it by each increment in turn.
   */
  lemma {:induction false} AppliedReplays(origin: seq<Point3D>, increments: seq<Mat4>)
    requires forall k :: 0 <= k < |increments| ==> IsAffine(increments[k])
    ensures |Replay(origin, increments)| == |origin|
    ensures forall i :: 0 <= i < |origin| ==>
      SameCoordinates(TransformPoint(origin[i], Applied(Identity(4), increments)), Replay(origin, increments)[i])
    decreases |increments|
  {
    if increments == [] {
      forall i | 0 <= i < |origin|
        ensures SameCoordinates(TransformPoint(origin[i], Identity(4)), origin[i])
      {
        TransformIdentity(origin[i]);
      }
    } else {
      var init, t := increments[..|increments| - 1], increments[|increments| - 1];
      var before := Replay(origin, init);
      var a := Applied(Identity(4), init);
      AppliedReplays(origin, init);
      AppliedIsAffine(init);
      if IsIdentity(t) {
        IdentityEarlyReturn(before, t);
      }
      forall i | 0 <= i < |origin|
        ensures SameCoordinates(TransformPoint(origin[i], Mul4(t, a)), Moved(before, t)[i])
      {
        ProductAppliesRightFactorFirst(origin[i], t, a);
      }
    }
  }

  /**
   * For a step whose increments are affine, the final transform built the intended way from a
   * run's increments reproduces the buffer the run ends with.
   */
  lemma IterateAppliedReplays(step: Step, points: seq<Point3D>, fuel: nat, tolerance: real)
    requires forall ps :: step(ps).Ok? ==> IsAffine(step(ps).value)
    requires Iterate(step, points, Identity(4), [], fuel, tolerance).Ok?
    ensures var run := Iterate(step, points, Identity(4), [], fuel, tolerance).value;
      |run.points| == |points| &&
      forall i :: 0 <= i < |points| ==>
        SameCoordinates(TransformPoint(points[i], Applied(Identity(4), run.increments)), run.points[i])
  {
    var run := Iterate(step, points, Identity(4), [], fuel, tolerance).value;
    IterateComposes(step, points, Identity(4), [], fuel, tolerance, Identity(4), points);
    IterateStepsAffine(step, points, Identity(4), [], fuel, tolerance);
    AppliedReplays(points, run.increments);
  }

  /** Every increment a run adds is one of the step's results. */
  lemma {:induction false} IterateStepsAffine(step: Step, points: seq<Point3D>, final: Mat4, increments: seq<Mat4>,
                                              fuel: nat, tolerance: real)
    requires forall ps :: step(ps).Ok? ==> IsAffine(step(ps).value)
    requires forall k :: 0 <= k < |increments| ==> IsAffine(increments[k])
    requires Iterate(step, points, final, increments, fuel, tolerance).Ok?
    ensures var run := Iterate(step, points, final, increments, fuel, tolerance).value;
      forall k :: 0 <= k < |run.increments| ==> IsAffine(run.increments[k])
    decreases fuel
  {
    if fuel > 0 {
      var t := step(points).value;
      if !IsWithinThreshold(t, tolerance) {
        IterateStepsAffine(step, Moved(points, t), Mul4(final, t), increments + [t], fuel - 1, tolerance);
      }
    }
  }

  /** `MaxIterations` as a loop bound: a non-positive value runs no iteration. */
  function Fuel(maxIterations: int): nat
  {
    if maxIterations > 0 then maxIterations else 0
  }

  /** The point-to-point step over a tree: closest points, then the optimal rigid transform. */
  function PointToPointStep(tree: Tree, maxDistance: real, num: Numerics): Step
  {
    points =>
      match ClosestPointsOf(points, tree)
      case None => Err(EmptyTree)
      case Some(closest) => OptimalTransform(points, closest, maxDistance, num)
  }

  /** Every increment the point-to-point step returns is affine. */
  lemma PointToPointStepAffine(tree: Tree, maxDistance: real, num: Numerics)
    ensures forall ps :: PointToPointStep(tree, maxDistance, num)(ps).Ok? ==> IsAffine(PointToPointStep(tree, maxDistance, num)(ps).value)
  {
    forall ps | PointToPointStep(tree, maxDistance, num)(ps).Ok?
      ensures IsAffine(PointToPointStep(tree, maxDistance, num)(ps).value)
    {
      var closest := ClosestPointsOf(ps, tree).value;
      var cS, cT := Point.Mean(ps), Point.Mean(closest);
      var f := num.factorize(CrossCovariance(ps, closest, cS, cT, maxDistance)).value;
      var r := RotationOf(f, num.det);
      HomogeneousIsAffine(r, TranslationOf(r, cS, cT));
    }
  }

  lemma PointToPointStepCases(tree: Tree, maxDistance: real, num: Numerics, points: seq<Point3D>)
    ensures ClosestPointsOf(points, tree).None? ==> PointToPointStep(tree, maxDistance, num)(points) == Err(EmptyTree)
    ensures ClosestPointsOf(points, tree).Some? ==>
      PointToPointStep(tree, maxDistance, num)(points) == OptimalTransform(points, ClosestPointsOf(points, tree).value, maxDistance, num)
  {
  }

  /** A finished run as Go reports it, with the given point counts. */
  function Report(run: Result<Run, Error>, numTarget: int, numSource: int): Result<IcpResult, Error>
  {
    match run
    case Err(e) => Err(e)
    case Ok(r) => Ok(IcpResult(r.finalTransform, r.points, numTarget, numSource))
  }

  /**
   * The results `PointToPoint(source, target, params)` can report: the controller's run with the
   * point-to-point step, for some voxelisation of each cloud.
   */
  ghost predicate PointToPointOutcome(source: seq<Point3D>, target: seq<Point3D>, params: Params, num: Numerics,
                                      result: Result<IcpResult, Error>)
    requires params.filterParams.voxelSize != 0.0
  {
    exists sourcePositions: seq<nat>, targetPositions: seq<nat> ::
      IsVoxelization(source, params.filterParams.voxelSize, sourcePositions) &&
      IsVoxelization(target, params.filterParams.voxelSize, targetPositions) &&
      (forall k :: 0 <= k < |sourcePositions| ==> sourcePositions[k] < |source|) &&
      (forall k :: 0 <= k < |targetPositions| ==> targetPositions[k] < |target|) &&
      result == Report(
        Iterate(PointToPointStep(Select(target, targetPositions), params.maxCorrespondenceDistance, num),
                Select(source, sourcePositions), Identity(4), [], Fuel(params.maxIterations), params.tolerance),
        |target|, |source|)
  }

  /**
   * `PointToPoint(source, target, params)`: filters both clouds, then runs the controller with
   * the point-to-point step from the identity on the filtered source. It reports the unfiltered
   * input lengths. The ghost results are the voxelisations `Filter` chose for both clouds.
   */
  method PointToPoint(source: seq<Point3D>, target: seq<Point3D>, params: Params, num: Numerics)
    returns (result: Result<IcpResult, Error>, ghost sourcePositions: seq<nat>, ghost targetPositions: seq<nat>)
    requires params.filterParams.voxelSize != 0.0
    ensures IsVoxelization(source, params.filterParams.voxelSize, sourcePositions)
    ensures IsVoxelization(target, params.filterParams.voxelSize, targetPositions)
    ensures (forall k :: 0 <= k < |sourcePositions| ==> sourcePositions[k] < |source|) &&
            (forall k :: 0 <= k < |targetPositions| ==> targetPositions[k] < |target|)
    ensures result == Report(
      Iterate(PointToPointStep(Select(target, targetPositions), params.maxCorrespondenceDistance, num),
              Select(source, sourcePositions), Identity(4), [], Fuel(params.maxIterations), params.tolerance),
      |target|, |source|)
  {
    var _, filteredSource, srcPos := Filter.Filter(source, params);
    var targetTree, _, tgtPos := Filter.Filter(target, params);
    sourcePositions, targetPositions := srcPos, tgtPos;
    result := RunPointToPoint(filteredSource, targetTree, params, num, |target|, |source|);
  }

  /**
   * The body of one `PointToPoint` iteration: closest points, the optimal transform, and the
   * working buffer moved by it when there is one.
   */
  method PointToPointIteration(transformed: array<Point3D>, tree: Tree, maxDistance: real, num: Numerics)
    returns (tform: Result<Mat4, Error>)
    modifies transformed
    ensures tform == PointToPointStep(tree, maxDistance, num)(old(transformed[..]))
    ensures tform.Ok? ==> transformed[..] == Moved(old(transformed[..]), tform.value)
  {
    PointToPointStepCases(tree, maxDistance, num, transformed[..]);
    var closest := ClosestPoints(transformed[..], tree);
    if closest.None? {
      return Err(EmptyTree);
    }
    tform := ComputeOptimalTransform(transformed[..], closest.value, maxDistance, num);
    if tform.Ok? {
      TransformPoints(transformed, tform.value);
    }
  }

  /** The iteration loop of `PointToPoint` on a working copy of the filtered source. */
  method RunPointToPoint(points: seq<Point3D>, tree: Tree, params: Params, num: Numerics, numTarget: int, numSource: int)
    returns (result: Result<IcpResult, Error>)
    ensures result == Report(Iterate(PointToPointStep(tree, params.maxCorrespondenceDistance, num),
                                     points, Identity(4), [], Fuel(params.maxIterations), params.tolerance),
                             numTarget, numSource)
  {
    ghost var step := PointToPointStep(tree, params.maxCorrespondenceDistance, num);
    ghost var fuel := Fuel(params.maxIterations);
    ghost var spec := Iterate(step, points, Identity(4), [], fuel, params.tolerance);
    var transformed := new Point3D[|points|](i requires 0 <= i < |points| => points[i]);
    assert transformed[..] == points;
    var finalTransform := NewIdentityHomogeneous();
    ghost var increments: seq<Mat4> := [];
    ghost var left: nat := fuel;
    var i := 0;
    while i < params.maxIterations
      invariant 0 <= i <= fuel && left == fuel - i
      invariant spec == Iterate(step, transformed[..], finalTransform, increments, left, params.tolerance)
      decreases params.maxIterations - i
    {
      ghost var current := transformed[..];
      var tform := PointToPointIteration(transformed, tree, params.maxCorrespondenceDistance, num);
      if tform.Err? {
        IterateAborts(step, current, finalTransform, increments, left, params.tolerance);
        return Err(tform.error);
      }
      ghost var rest: nat := left - 1;
      IterateAdvances(step, current, finalTransform, increments, left, rest, params.tolerance, tform.value);
      finalTransform := Mul4(finalTransform, tform.value);
      increments := increments + [tform.value];
      if IsWithinThreshold(tform.value, params.tolerance) {
        return Ok(IcpResult(finalTransform, transformed[..], numTarget, numSource));
      }
      i, left := i + 1, rest;
    }
    return Ok(IcpResult(finalTransform, transformed[..], numTarget, numSource));
  }
}
