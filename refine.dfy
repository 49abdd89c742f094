/** `ICPRefine` of icp/icp.go: a point-to-plane pass followed by a point-to-point pass. */
module Refine {

  import opened Wrappers
  import opened Point
  import opened Points
  import opened Matrix
  import opened Transform
  import opened Voxel
  import opened Params
  import opened Icp
  import opened PointToPlane

  /** `PointToPlane(source.Copy(), target.Copy(), DefaultParams)`; `after` is the target copy once its normals are written. */
  method PlanePass(source: seq<Point3D>, target: seq<Point3D>, num: Numerics, knn: NeighbourQuery)
    returns (plane: Result<IcpResult, Error>, ghost after: seq<Point3D>)
    requires NeighbourSearch(knn, DefaultParams.numNeighborsNormals)
    ensures PointToPlaneOutcome(CopyOf(source), CopyOf(target), DefaultParams, num, knn, after, plane)
  {
    var sourceCopy := Copy(source);
    var targetCopy := Copy(target);
    ghost var before := targetCopy[..];
    ghost var sourcePositions, targetPositions, normalsOk;
    plane, sourcePositions, targetPositions, normalsOk :=
      PointToPlane.PointToPlane(sourceCopy[..], targetCopy, DefaultParams, num, knn);
    after := targetCopy[..];
    PointToPlaneOutcomeIntro(sourceCopy[..], before, after, DefaultParams, num, knn, sourcePositions, targetPositions,
                             normalsOk, plane);
  }

  /** `PointToPoint(points.Copy(), target.Copy(), DefaultParams)`. */
  method PointPass(points: seq<Point3D>, target: seq<Point3D>, num: Numerics) returns (point: Result<IcpResult, Error>)
    ensures PointToPointOutcome(CopyOf(points), CopyOf(target), DefaultParams, num, point)
  {
    var pointsCopy := Copy(points);
    var targetCopy := Copy(target);
    ghost var sourcePositions, targetPositions;
    point, sourcePositions, targetPositions := PointToPoint(pointsCopy[..], targetCopy[..], DefaultParams, num);
  }

  /**
   * `ICPRefine(source, target, params)`: point-to-plane on copies of both clouds with the default
   * parameters, then point-to-point from the points it left on fresh copies, again with the
   * default parameters; `params` is never read. An error of either pass is returned as is.
   * Otherwise the transform is the plane pass's final transform composed on the right with the
   * point pass's, the points are the point pass's, and both counts are `target`'s length. The
   * ghost results are the two passes' own results; the target copy the plane pass writes its
   * normals into is `planeTarget`.
   */
  method ICPRefine(source: seq<Point3D>, target: seq<Point3D>, params: Params, num: Numerics, knn: NeighbourQuery)
    returns (result: Result<IcpResult, Error>, ghost plane: Result<IcpResult, Error>, ghost point: Result<IcpResult, Error>,
             ghost planeTarget: seq<Point3D>)
    requires NeighbourSearch(knn, DefaultParams.numNeighborsNormals)
    ensures PointToPlaneOutcome(CopyOf(source), CopyOf(target), DefaultParams, num, knn, planeTarget, plane)
    ensures plane.Err? ==> result == Err(plane.error)
    ensures plane.Ok? ==>
      PointToPointOutcome(CopyOf(plane.value.transformedPoints), CopyOf(target), DefaultParams, num, point)
    ensures plane.Ok? && point.Err? ==> result == Err(point.error)
    ensures plane.Ok? && point.Ok? ==>
      result == Ok(IcpResult(Mul4(plane.value.finalTransform, point.value.finalTransform),
                             point.value.transformedPoints, |target|, |target|))
  {
    var planeResult;
    planeResult, planeTarget := PlanePass(source, target, num, knn);
    plane := planeResult;
    if planeResult.Err? {
      result, point := Err(planeResult.error), planeResult;
      return;
    }
    var pointResult := PointPass(planeResult.value.transformedPoints, target, num);
    point := pointResult;
    if pointResult.Err? {
      result := Err(pointResult.error);
      return;
    }
    result := Ok(IcpResult(Mul4(planeResult.value.finalTransform, pointResult.value.finalTransform),
                           pointResult.value.transformedPoints, |target|, |target|));
  }

  /**
   * `planeTform.Dot(pointTform)` applies the point pass's transform first, although the
   * point pass started from the points the plane pass had left: with the plane transform a
   * quarter turn about Z and the point transform a unit shift along X, the origin goes to
   * `x = 0` under the product but to `x = 1` when moved by the plane transform and then by the
   * point transform. `Transform.ProductAppliesRightFactorFirst` gives the intended product,
   * `pointTform·planeTform`.
   */
  lemma RefinedTransformMisplacesPoints()
    ensures TransformPoint(Origin, Mul4(QuarterTurn, UnitShift)).x == 0.0
    ensures TransformPoint(TransformPoint(Origin, QuarterTurn), UnitShift).x == 1.0
    ensures SameCoordinates(TransformPoint(Origin, Mul4(UnitShift, QuarterTurn)),
                            TransformPoint(TransformPoint(Origin, QuarterTurn), UnitShift))
  {
    Mul4Entry(QuarterTurn, UnitShift, 0, 3);
    assert IsAffine(QuarterTurn);
    ProductAppliesRightFactorFirst(Origin, UnitShift, QuarterTurn);
  }
}
