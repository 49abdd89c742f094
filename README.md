# icp-go in Dafny

This project models icp-go, a registration library for 3-D point clouds. Given a source cloud and
a target cloud, it estimates the rigid transform that moves the source onto the target by
Iterative Closest Point (ICP). The model covers:

- **Points.** A `Point3D` has coordinates and a normal. `Points3D` is a list of them, with the
  accessors the k-d tree uses: `Compare`, `Dims`, `Distance`, `Len`, `Index`, `Slice`, `Less`
  and `Swap`.
- **Filters.** The voxel-grid filter keeps the first point of every cell. The model also covers
  the floor/ceiling band filter, the neighbour-distance filter "non-normal points" and the
  z-score outlier filter with its `mean` helper and the variance under `stdDev`'s square root.
- **Surface normals.** `ComputeNormals` estimates normals from the covariance of each
  point's k nearest neighbours.
- **Transform helpers.** `NewIdentityHomogeneous`, `HomogeneousTransform`, the translation
  part of `ExtractTranslationYaw`, `TransformPoint` and `TransformPoints`.
- **Point-to-point estimator.** It computes the centroids, accumulates the cross-covariance
  matrix over correspondences within the gate, and gets a rotation from an SVD with the
  reflection fix. The translation maps the source centroid to the target centroid.
- **Point-to-plane estimator.** It linearises the point-to-plane residual into the normal
  equations `A x = b`, solves them, and builds the increment from a small-angle Rodrigues
  rotation.
- **Iteration controller.** Both estimators share it. It repeats a step on a working copy of
  the filtered source, moves the copy and composes the increment on the right of the final
  transform. That order does not reproduce the moved copy; see "## Findings". It stops after an increment shorter than the tolerance, or after `MaxIterations`
  steps. In the model it is one function, `Icp.Iterate`, shared by both estimators.
- **`ICPRefine`.** It runs a point-to-plane pass and then a point-to-point pass.

Coordinates are modelled as `real`, so every statement holds for exact arithmetic. The numeric
routines the library calls from gonum and Go's `math` package are fields of a record of type
`Matrix.Numerics`, which the operations take as a parameter. The laws the proofs need of them are
preconditions:

- SVD factorisation, with `Matrix.Orthogonal` where an orthogonal factor is needed;
- the determinant, with `Matrix.DeterminantLaws`;
- the linear solve, with `PointToPlane.SolvesExactly`;
- square root, with `PointToPlane.SqrtLaws`, used only for the angle of the Rodrigues rotation;
- cosine and sine.

k-nearest search is also a parameter: a `NeighbourQuery`, or the list of result heaps handed in,
constrained by `PointToPlane.NeighbourSearch`. Nearest-neighbour search is not: `KdTree.Nearest`
is the exact nearest neighbour, defined as a linear scan over the tree's points.

The other square roots of the source are removed by comparing squares. `Point.LengthSquared`
and `Point.EuclideanSquared` stand for `Length` and `Euclidean`, `Filter.Variance` for the
value under `stdDev`'s root, and `Icp.IsWithinThreshold` compares squared lengths.

Where Go mutates in place, the model does too. The working buffer, the target cloud that
receives its normals, and `Swap` are `array`s. `Voxelize` returns, besides the kept points,
their positions in the input, because Go returns those very point objects. The module layout
follows the source files:

| file | module | source file |
|---|---|---|
| wrappers.dfy | Wrappers | Option and Result |
| reals.dfy | Reals | arithmetic facts used by the proofs |
| point.dfy | Point | point/point.go |
| kdtree.dfy | KdTree | point/kdtree.go |
| points.dfy | Points | point/points.go |
| matrix.dfy | Matrix | the dense matrices of gonum's mat package |
| transform.dfy | Transform | icp/transform.go |
| voxel.dfy | Voxel | icp/voxel.go |
| params.dfy | Params | icp/params.go |
| filter.dfy | Filter | icp/filter.go |
| normals.dfy | Normals | icp/normals.go |
| icp.dfy | Icp | icp/icp.go, apart from ICPRefine |
| point_to_plane.dfy | PointToPlane | icp/point-to-plane.go |
| refine.dfy | Refine | ICPRefine in icp/icp.go |

## Model

| member | source | states |
|---|---|---|
| Point.ToArray | point/point.go:22-24 | the array has exactly three entries |
| Point.Subtract | point/point.go:18-20 | `p.Subtract(q)`: the coordinate-wise difference with a zero normal; `Point.SubtractSelf`, `Point.SubtractAntisymmetric` and `Point.ToArraySubtract` state its properties |
| Point.LengthSquared | point/point.go:26-28 | the square of `Length`, the sum of the squared coordinates; `Point.EuclideanIsLengthOfDifference` relates it to `EuclideanSquared` |
| Point.EuclideanSquared | point/point.go:30-37 | the square of `Euclidean`, the sum of the squared coordinate differences; `Point.EuclideanSymmetric` and `Point.EuclideanZero` state its properties |
| Point.SubtractSelf | point/point.go:18-20 | a point minus itself is the origin |
| Point.SubtractAntisymmetric | point/point.go:18-20 | a difference has a zero normal, and `p - q` is the coordinate-wise negation of `q - p` |
| Point.ToArraySubtract | point/point.go:18-24 | entry k of `(p - q).ToArray()` is entry k of `p` minus entry k of `q` |
| Point.EuclideanSymmetric | point/point.go:30-37 | the distance under the square root is symmetric |
| Point.EuclideanZero | point/point.go:30-37 | the distance under the square root is never negative, and it is zero exactly when the coordinates agree |
| Point.EuclideanIsLengthOfDifference | point/point.go:26-37 | `Euclidean(p, q)` is the `Length` of `p - q` |
| Point.OffsetsFromMean | icp/normals.go:57-66 | the offsets of a non-empty list of points from their mean sum to the origin |
| Point.SumOfOffsets | icp/normals.go:57-66 | the offsets from any centre sum to the coordinate sum minus n times the centre |
| KdTree.Dims | point/kdtree.go:29-31 | the dimension count equals the length of `ToArray` |
| KdTree.Compare | point/kdtree.go:14-26 | the coordinate difference along dimension 0, 1 or 2, and 0 along any other; stated by `KdTree.CompareIsCoordinateDifference` |
| KdTree.Distance | point/kdtree.go:33-40 | the sum of the squared coordinate differences; stated by `KdTree.DistanceFromCompare` and `KdTree.DistanceIsSquaredEuclidean` |
| KdTree.CompareIsCoordinateDifference | point/kdtree.go:14-26 | `Compare` along dimension 0, 1 or 2 is that coordinate of `p - q`; along any other dimension it is 0; swapping the points negates it |
| KdTree.DistanceFromCompare | point/kdtree.go:34-40 | `Distance` is the sum of the squares of `Compare` along the three dimensions |
| KdTree.DistanceIsSquaredEuclidean | point/kdtree.go:34-40 | `Distance` is the squared Euclidean distance: symmetric, never negative, zero exactly for equal coordinates |
| KdTree.Nearest | icp/icp.go:123-126 | the nearest-neighbour query is None exactly for an empty tree; otherwise it is a point of the tree, and no tree point is closer |
| KdTree.NearestDistanceIgnoresOrder | icp/icp.go:123-126 | the nearest distance is the same for any reordering of the tree's points, so the tie-break of the search does not change it |
| Points.Raw | point/points.go:7-12 | a nil list yields no points; any other list yields its elements in order |
| Points.Len | point/points.go:33-35 | the length is the number of points |
| Points.Index | point/points.go:28-30 | element i is point i |
| Points.CopyKeepsCoordinates | point/points.go:14-22 | a copy has the same length and coordinates, and zero normals |
| Points.Copy | point/points.go:14-22 | a freshly allocated array holding the copy |
| Points.Slice | point/points.go:41-48 | `p.Slice(start, end)`: a view of the whole array cut by the bounds rule; stated by `Points.SliceElements` |
| Points.Less | point/points.go:56-59 | `Compare` along the plane's dimension is negative; stated by `Points.LessAlongDimension` |
| Points.PlaneSlice | point/points.go:66-74 | the plane with the same dimension over the sliced points; stated by `Points.PlaneSliceElements` |
| Points.SliceElements | point/points.go:41-48 | an out-of-range or empty window yields no points; otherwise it yields exactly `points[start:end]` |
| Points.LessAlongDimension | point/points.go:56-59 | `Less(i, j)` holds exactly when point i's coordinate along the plane's dimension is below point j's |
| Points.PlaneSliceElements | point/points.go:66-74 | the plane slice has the same dimension and the same window rule as `Slice` |
| Points.SwappedExchanges | point/points.go:76-89 | a swap exchanges elements i and j, leaves the others, and keeps the multiset of points |
| Points.SwapTwice | point/points.go:76-89 | swapping twice restores the list |
| Points.Swap | point/points.go:76-89 | in place: out-of-range indices leave the array unchanged; otherwise the array becomes the swapped list |
| Matrix.OrthogonalDeterminant | icp/icp.go:162-188 | under the determinant laws, an orthogonal matrix has determinant 1 or -1 |
| Matrix.Mul4Entry | icp/icp.go:75 | entry (i, j) of a 4x4 product is the sum over k of `a[i][k] * b[k][j]` |
| Matrix.AffineProduct | icp/icp.go:75 | the identity and every product of matrices with last row `0 0 0 1` have that last row |
| Transform.HomogeneousEntries | icp/transform.go:21-41 | every entry of the homogeneous matrix: the rotation block, the translation column and the row `0 0 0 1` |
| Transform.NewIdentityHomogeneous | icp/transform.go:11-18 | the result is the 4x4 identity |
| Transform.HomogeneousTransform | icp/transform.go:21-41 | the 4x4 matrix with R in its upper-left block and the point as its last column |
| Transform.TranslationRoundTrip | icp/transform.go:44-62 | the translation extracted from `HomogeneousTransform(R, p)` has p's coordinates |
| Transform.ExtractTranslation | icp/transform.go:44-62 | the translation part of `ExtractTranslationYaw`, the last column of the first three rows; `Transform.TranslationRoundTrip` states it inverts `HomogeneousTransform` |
| Transform.TransformPoint | icp/transform.go:64-75 | the affine map of the first three rows, with a zero normal; `Transform.TransformIdentity`, `Transform.TransformHomogeneous` and `Transform.TransformReadsTopRows` state its properties |
| Transform.TransformIdentity | icp/transform.go:64-75 | the identity moves no point |
| Transform.TransformHomogeneous | icp/transform.go:64-75 | `HomogeneousTransform(R, t)` maps p to `R p + t` |
| Transform.TransformReadsTopRows | icp/transform.go:64-75 | matrices that agree on their first three rows move every point alike, and a moved point has a zero normal |
| Transform.HomogeneousIsAffine | icp/transform.go:21-41 | every homogeneous transform has the last row `0 0 0 1` |
| Transform.ProductAppliesRightFactorFirst | icp/icp.go:72-75 | for m with last row `0 0 0 1`, moving a point by `t·m` gives the coordinates of moving it by m and then by t |
| Voxel.Voxelize | icp/voxel.go:16-40 | exactly one point per occupied voxel cell, the first of that cell in input order, each at most once, in some order |
| Voxel.KeyOf | icp/voxel.go:20-24 | the cell of a point: the floor of each coordinate divided by the voxel size; `Voxel.KeptPointsHaveDistinctCells` and `Voxel.EveryCellIsKept` state how the kept points cover the cells |
| Voxel.FirstIsUnique | icp/voxel.go:26-29 | two first points of the same cell are the same position |
| Voxel.KeptPointsHaveDistinctCells | icp/voxel.go:20-29 | the kept points lie in pairwise distinct cells |
| Voxel.EveryCellIsKept | icp/voxel.go:19-30 | every input point's cell holds a kept point, the first of that cell, at or before it |
| Voxel.CountIsNumberOfCells | icp/voxel.go:33-36 | the result's length is the number of occupied cells; it is never longer than the input, and empty input gives empty output |
| Voxel.VoxelizeTwice | icp/voxel.go:26-36 | voxelising the kept points again at the same size keeps as many points |
| Filter.KeptPositionsIncrease | icp/filter.go:120-131 | the kept positions are flagged positions, in strictly increasing order |
| Filter.KeptPositionsComplete | icp/filter.go:120-131 | every flagged position is a kept position |
| Filter.KeptAtPositions | icp/filter.go:120-131 | the k-th kept element is the input element at the k-th kept position |
| Filter.KeptIsOrderedSubsequence | icp/filter.go:120-131 | a filter's output is the input at the kept positions, in increasing order, including every kept position |
| Filter.KeptMembers | icp/filter.go:120-131 | a point is in the output exactly when some kept position holds it |
| Filter.KeptExtremes | icp/filter.go:120-131 | keeping everything returns the input; keeping nothing returns no points |
| Filter.Filter | icp/filter.go:10-16 | the tree's points are a voxelisation of the input, and the second result is the same list |
| Filter.RemoveFloorAndCeiling | icp/filter.go:18-32 | the output is the input restricted to points with -0.3 < Z < 1.5, in order |
| Filter.BandFilterKeepsExactly | icp/filter.go:18-32 | a point survives exactly when it is an input point strictly inside the band |
| Filter.SquaredDeviations | icp/filter.go:43-49 | the sum of squared deviations is never negative |
| Filter.Mean | icp/filter.go:35-41 | the sum divided by the count for non-empty data |
| Filter.Variance | icp/filter.go:43-49 | the value under `stdDev`'s square root is the mean squared deviation, and it is never negative |
| Filter.DeviationsFromMeanCancel | icp/filter.go:35-49 | the deviations from the mean sum to zero |
| Filter.DeviationsSum | icp/filter.go:35-49 | the deviations from m sum to the total minus n times m |
| Filter.VarianceZero | icp/filter.go:43-49 | the squared deviations vanish exactly when every value equals the centre |
| Filter.ConstantData | icp/filter.go:35-49 | constant data has itself as mean and zero deviation |
| Filter.ConstantDeviations | icp/filter.go:35-49 | the deviations of constant data from that constant sum to zero |
| Filter.ZScoreMatchesSource | icp/filter.go:122-128 | the model's test on the squared deviation agrees with `abs((d - mean) / std) < zThreshold`, including the zero-deviation branch |
| Filter.ZScoreKeeps | icp/filter.go:122-128 | the z-score test stated on the squared deviation and the variance; `Filter.ZScoreMatchesSource` states it agrees with Go's test |
| Filter.EqualDistances | icp/filter.go:122-130 | with identical distances every point is kept when zThreshold > 0, and none when zThreshold <= 0 |
| Filter.FilterPoints | icp/filter.go:115-136 | the output is exactly the points whose z-score passes, in input order |
| Filter.ComputeDistances | icp/filter.go:90-113 | for keepers of capacity numNeighbors + 1, distance i is the sum of the keeper's distances after its first entry, skipping the point itself, divided by numNeighbors; that sum is the sum of the squared distances to the named neighbours |
| Filter.NeighbourSumIsSquaredDistances | icp/filter.go:103-109 | summing the keeper's `Dist` fields sums the squared distances from the query to the points the entries name |
| Filter.RemoveNonNormalPoints | icp/filter.go:51-79 | for keepers of capacity numNeighbors + 1, the output is exactly the points whose neighbours after the first all have `Dist` at most 0.2, in order |
| Filter.WithinSquaredDistance | icp/filter.go:55-68 | a point passes the test exactly when every neighbour its keeper names lies within squared distance 0.2 of it |
| Filter.RemoveOutliersKDTree | icp/filter.go:82-88 | the z-score filter applied to the mean neighbour distances |
| Normals.Neighbours | icp/normals.go:14-22 | the neighbours are the tree points the keeper names after its first entry, in heap order |
| Normals.AtMostKNeighbours | icp/normals.go:14-22 | a keeper of capacity k + 1 yields at most k neighbours |
| Normals.PointsMean | icp/normals.go:57-66 | the coordinate-wise mean of a non-empty list |
| Normals.CovarianceProperties | icp/normals.go:25-38 | every covariance entry is symmetric in its indices, and the diagonal is never negative |
| Normals.Covariance | icp/normals.go:25-38 | for a non-empty neighbour list, the matrix is the sum of outer products of offsets from the mean, symmetric, with a non-negative diagonal |
| Normals.NoScatter | icp/normals.go:25-38 | with no neighbours the covariance is the zero matrix |
| Normals.NormalFor | icp/normals.go:40-51 | column 2 of U when the covariance factorises, and None otherwise; `Normals.ComputeNormals` states it is what each point receives |
| Normals.ComputeNormals | icp/normals.go:12-55 | coordinates are never changed. On success every point carries the last left-singular column of its neighbours' covariance. On failure it stops at the first point whose covariance does not factorise: earlier points have their normals, later ones are untouched |
| Icp.ComputeCentroid | icp/icp.go:94-105 | the coordinate-wise mean of the points |
| Icp.ClosestPointsOf | icp/icp.go:107-126 | a closest-point list, when there is one, has one entry per source point |
| Icp.ClosestPoints | icp/icp.go:107-121 | None exactly when the tree is empty and the source is not; otherwise entry i is the nearest tree point to source point i |
| Icp.AddOuterProduct | icp/icp.go:151-155 | entry (j, k) grows by `t[j] * s[k]` |
| Icp.AccumulateCrossCovariance | icp/icp.go:132-156 | H is the sum of outer products over pairs within the gate, and numValid counts those pairs |
| Icp.ComputeRotation | icp/icp.go:162-188 | R = U Vᵀ, recomputed with U's last column negated when det(U Vᵀ) < 0 |
| Icp.AssembleTransform | icp/icp.go:190-199 | the homogeneous matrix of R and the translation `cT - R cS` |
| Icp.ComputeOptimalTransform | icp/icp.go:128-200 | the specification `OptimalTransform`: no valid pair gives an error, a failed SVD gives an error, otherwise the rigid transform |
| Icp.OptimalTransform | icp/icp.go:128-200 | the specification of one point-to-point step; `Icp.ComputeOptimalTransform`, `Icp.NoValidCorrespondencesIff` and `Icp.CentroidToCentroid` state its properties |
| Icp.NoValidCorrespondencesIff | icp/icp.go:141-160 | the result is the no-correspondence error exactly when every pair lies beyond the gate |
| Icp.CountValidZero | icp/icp.go:141-146 | the valid count is zero exactly when every pair's `Distance` exceeds the gate |
| Icp.RemovingOnePair | icp/icp.go:148-155 | H is the contribution of pair i, if it passes the gate, plus the H of the other pairs, so the order of pairs is immaterial |
| Icp.NegatedColumnDeterminant | icp/icp.go:180-188 | negating U's last column negates det(U Vᵀ) |
| Icp.ReflectionCorrection | icp/icp.go:177-188 | after the fix the rotation's determinant is never negative |
| Icp.ProperRotation | icp/icp.go:162-188 | when U and V are orthogonal, the rotation has determinant exactly 1 |
| Icp.UnitDeterminants | icp/icp.go:162-188 | factors of determinant ±1 give a rotation of determinant 1 |
| Icp.CentroidToCentroid | icp/icp.go:190-199 | a computed transform maps the source centroid onto the target centroid, and its last row is `0 0 0 1` |
| Icp.TransformAll | icp/icp.go:209-218 | point i of the result is point i moved by the matrix |
| Icp.IdentityEarlyReturn | icp/icp.go:204-207 | skipping an identity transform loses nothing: moving by it keeps every coordinate |
| Icp.IsIdentity | icp/icp.go:225-227 | identity rotation block and zero translation; `Icp.IdentityEarlyReturn` states that moving by such a matrix keeps every coordinate |
| Icp.TransformPoints | icp/icp.go:202-219 | in place: the buffer is left as is for an identity transform, and otherwise every point is moved |
| Icp.WithinThresholdMatchesSource | icp/icp.go:221-223 | the convergence test on the squared translation agrees with `Translation().Length() < threshold` |
| Icp.IsWithinThreshold | icp/icp.go:221-223 | the squared translation is below the squared positive threshold; `Icp.WithinThresholdMatchesSource` states it agrees with `Length() < threshold` |
| Icp.Iterate | icp/icp.go:62-81 | the controller run; `Icp.IterateAborts`, `Icp.IterateAdvances`, `Icp.IterateBounded`, `Icp.IterateComposes` and `Icp.IterateStops` state its properties |
| Icp.IterateAborts | icp/icp.go:67-70 | a step error ends the run with that error |
| Icp.IterateAdvances | icp/icp.go:72-80 | one iteration moves the buffer, composes the increment on the right, and stops or continues by the tolerance test |
| Icp.IterateBounded | icp/icp.go:62-81 | a run adds at most as many increments as it has iterations left, and keeps the earlier increments as a prefix |
| Icp.IterateComposes | icp/icp.go:62-81 | the final transform is the ordered product of the increments, and the buffer is the source moved by each increment in turn |
| Icp.IterateStops | icp/icp.go:77-81 | every new increment but the last was outside the tolerance, and a run that ends before its iterations are spent ends on an increment within it |
| Icp.ComposedIncrementsMisplacePoints | icp/icp.go:72-75 | as written: for a quarter turn about Z and then a unit shift along X, the composed final transform takes the origin to x = 0, but the buffer holds it at x = 1 |
| Icp.ComposedOriginShift | icp/icp.go:75 | the X translation of the composed transform in that example is 0 |
| Icp.Applied | icp/icp.go:72-75 | corrected: the increments multiplied on the left, `Tn ... T1 m`; `Icp.AppliedReplays` states what it computes |
| Icp.AppliedIsAffine | icp/icp.go:72-75 | affine increments accumulate to a matrix with last row `0 0 0 1` |
| Icp.AppliedReplays | icp/icp.go:72-75 | corrected: for affine increments, the left-accumulated transform takes each original point to the coordinates the buffer reaches by moving it by each increment in turn |
| Icp.IterateStepsAffine | icp/icp.go:62-81 | if the step returns only affine matrices, every increment of a run is affine |
| Icp.IterateAppliedReplays | icp/icp.go:62-81 | corrected: for a step that returns only affine matrices, the left-accumulated increments of a run from the identity reproduce the buffer the run ends with |
| Icp.PointToPointStepCases | icp/icp.go:64-70 | an empty tree with a non-empty point list gives the empty-tree error; otherwise the step is the optimal transform to the closest points |
| Icp.PointToPointStepAffine | icp/icp.go:128-200 | every point-to-point increment has the last row `0 0 0 1` |
| Icp.PointToPointIteration | icp/icp.go:64-72 | one loop body: the step's result, with the buffer moved by it when it succeeds |
| Icp.RunPointToPoint | icp/icp.go:59-91 | the loop and report equal the controller run from the identity |
| Icp.PointToPoint | icp/icp.go:52-92 | the controller run with the point-to-point step over the voxelised clouds, reporting the unfiltered lengths |
| PointToPlane.FindCorrespondences | icp/point-to-plane.go:32-45 | one pair per source point with its nearest tree point, or none for an empty tree |
| PointToPlane.CorrespondencesOf | icp/point-to-plane.go:32-45 | no pairs for an empty tree, otherwise each point paired with its nearest tree point; stated by `PointToPlane.FindCorrespondences` |
| PointToPlane.Residual | icp/point-to-plane.go:55-57 | the offset from the target point projected on the target normal; `PointToPlane.Linearization` states the Jacobian is its derivative |
| PointToPlane.Jacobian | icp/point-to-plane.go:59-65 | the Jacobian has six entries |
| PointToPlane.Linearization | icp/point-to-plane.go:54-65 | the residual of a source point perturbed by x equals the residual plus `J · x`, so J is exactly the residual's derivative |
| PointToPlane.NormalMatrixSymmetric | icp/point-to-plane.go:67-73 | A is symmetric |
| PointToPlane.NormalMatrixPositiveSemidefinite | icp/point-to-plane.go:67-73 | `xᵀ A x` is the sum of the squared linear terms `(J · x)²`, so it is never negative |
| PointToPlane.GradientIsNormalEquationResidual | icp/point-to-plane.go:67-73 | the gradient of half the summed squared linearised residuals is `A x - b` |
| PointToPlane.SolutionsAreStationary | icp/point-to-plane.go:76-80 | x solves `A x = b` exactly when it is a stationary point of the linearised least-squares cost |
| PointToPlane.SmallAngleBranch | icp/point-to-plane.go:118-122 | the identity branch is taken exactly when the squared angle is below 1e-12, and it returns the identity |
| PointToPlane.RodriguesAtZeroAngle | icp/point-to-plane.go:124-131 | Rodrigues' formula at cos 1 and sin 0 is the identity |
| PointToPlane.RodriguesFixesAxis | icp/point-to-plane.go:124-131 | the rotation maps its unit axis to itself |
| PointToPlane.SmallAngleFixesRotationVector | icp/point-to-plane.go:118-132 | the small-angle rotation maps the rotation vector to itself, in both branches |
| PointToPlane.SmallAngleRotation | icp/point-to-plane.go:118-132 | the identity below a 1e-6 angle, Rodrigues' rotation otherwise; `PointToPlane.SmallAngleBranch` and `PointToPlane.SmallAngleFixesRotationVector` state its properties |
| PointToPlane.BuildIncrement | icp/point-to-plane.go:83-93 | the increment's rotation block is the small-angle rotation of x[0..3], its translation is x[3..6], and its last row is `0 0 0 1` |
| PointToPlane.Increment | icp/point-to-plane.go:83-93 | the homogeneous matrix of the small-angle rotation and the translation x[3..6]; `PointToPlane.BuildIncrement` and `PointToPlane.IncrementFixesAxis` state its properties |
| PointToPlane.IncrementConverged | icp/point-to-plane.go:100-103 | an increment passes the convergence test exactly when the tolerance is positive and the squared length of x[3..6] is below its square |
| PointToPlane.IncrementFixesAxis | icp/point-to-plane.go:83-93 | the increment moves the rotation vector by exactly its translation |
| PointToPlane.AddRowProducts | icp/point-to-plane.go:70-72 | row i of A grows by `J[i] * J[j]` in every column; the other rows are unchanged |
| PointToPlane.AddPairTerms | icp/point-to-plane.go:67-73 | one pair adds `J Jᵀ` to A and `-r J` to b |
| PointToPlane.AccumulatePair | icp/point-to-plane.go:51-74 | A and b after one more pair are the normal equations of the longer prefix |
| PointToPlane.AssembleNormalEquations | icp/point-to-plane.go:47-74 | A and b are the normal equations over all correspondences |
| PointToPlane.PointToPlaneStepCases | icp/point-to-plane.go:76-93 | a failed solve gives the solve error; otherwise the step is the increment built from the solution |
| PointToPlane.PointToPlaneStepAffine | icp/point-to-plane.go:83-93 | every point-to-plane increment has the last row `0 0 0 1` |
| PointToPlane.StepIsStationary | icp/point-to-plane.go:76-80 | for an exact solver, a successful step comes from a stationary point of the linearised cost |
| PointToPlane.PointToPlaneIteration | icp/point-to-plane.go:31-95 | one loop body: the step's result, with the buffer moved by it when it succeeds |
| PointToPlane.RunPointToPlane | icp/point-to-plane.go:27-114 | the loop and report equal the controller run from the identity |
| PointToPlane.Heaps | icp/normals.go:14-16 | keeper i is the neighbour query for point i |
| PointToPlane.PointToPlane | icp/point-to-plane.go:14-115 | target coordinates never change. The result says whether normal estimation succeeded; a failure is reported as an error. Otherwise the result is the controller run with the point-to-plane step over the voxelised source and the normal-carrying voxelised target, and both counts are the target's length |
| Refine.PlanePass | icp/icp.go:26-29 | a possible point-to-plane outcome on copies of both clouds with the default parameters |
| Refine.PointPass | icp/icp.go:31-34 | a possible point-to-point outcome on copies of the plane pass's points and the target |
| Refine.ICPRefine | icp/icp.go:22-50 | an error of either pass is returned. Otherwise the transform is the plane transform times the point transform, the points are the point pass's, and both counts are the target's length |
| Refine.RefinedTransformMisplacesPoints | icp/icp.go:36-39 | as written: for a quarter-turn plane transform and a unit-shift point transform, `plane·point` takes the origin to x = 0, while the plane and then the point transform take it to x = 1; `point·plane` agrees with the latter |

## Left out

- gonum's `SVD.Factorize`, `Det` and `SolveVec`, and Go's `math.Sqrt`, `math.Cos` and `math.Sin`, are not modelled as algorithms. They are fields of `Matrix.Numerics`, and only the laws named above are assumed of them, as preconditions.
- Point.LengthSquared, Point.EuclideanSquared, Filter.Variance and Icp.IsWithinThreshold: these state squares instead of Go's square roots. `Length`, `Euclidean` and `stdDev` are not modelled; `IsWithinThreshold` carries the guard `threshold > 0`, since no length is below a non-positive threshold. `Icp.WithinThresholdMatchesSource` and `Filter.ZScoreMatchesSource` state that, for the true root, the squared tests agree with Go's.
- Construction and search of gonum's k-d tree are not modelled: `kdtree.New`, `Pivot`, `MedianOfMedians`, `Partition` and the `NKeeper` heap order. The tree is its list of points. `Nearest` is the exact nearest neighbour, by linear scan. The k-nearest heaps are inputs (`ComputeDistances`, `RemoveNonNormalPoints`, `RemoveOutliersKDTree`, `ComputeNormals`) or the `NeighbourQuery` of `PointToPlane`. The model never relies on the heap's first entry being the query point itself; the entries after it carry the squared distance to the point they name (`KdTree.DistancesFrom`). Building the tree reorders the caller's buffer in place (icp/filter.go:53 and :92 through `Swap`, point/points.go:76-89). So the `points` that `ComputeDistances`, `RemoveNonNormalPoints` and `RemoveOutliersKDTree` take are the buffer as the tree left it, and in that order. KdTree.Nearest breaks ties by taking the first closest point in list order; which of several equally close points gonum returns depends on how it built the tree. `KdTree.NearestDistanceIgnoresOrder` states that the distance does not depend on the choice.
- Floating point is not modelled. Arithmetic is exact, so rounding, infinities and NaN are out of scope, and so is the `int(math.Floor(...))` conversion in `Voxelize`, which is taken without overflow.
- Inputs that make Go divide by zero are excluded by preconditions, because Go then produces NaN or Inf and the model has no such values:
  - A zero voxel size.
  - `numNeighbors == 0` in `computeDistances` with at least one point.
  - The mean, centroid and `pointsMean` of an empty list (`Filter.Mean`, `Filter.Variance`, `Icp.ComputeCentroid`, `Normals.PointsMean`, `Normals.Covariance`).
- Normals.ComputeNormals: a point with no neighbours (k = 0, or a one-point tree) is handled. Go's mean is then 0/0, but nothing reads it because the covariance stays zero. The model takes the origin as the centre (`Normals.Centre`) and factorises the zero matrix.
- PointToPlane.NeighbourSearch: a negative neighbour count is excluded, since no query meets the constraint then. In Go the keeper of capacity `k + 1 <= 0` panics when `ComputeNormals` creates it for a point; with an empty target no keeper is created and no panic occurs, so the model excludes more than Go does.
- Filter.ComputeDistances, Filter.RemoveNonNormalPoints, Filter.RemoveOutliersKDTree: a negative `numNeighbors` with at least one point is excluded by `Filter.Keepers`, because Go's `NewNKeeper(numNeighbors + 1)` panics there. With no points, any count is allowed, as in Go.
- Filter.ComputeDistances, Filter.RemoveNonNormalPoints, Filter.RemoveOutliersKDTree: a keeper with no entries is excluded, because `Heap[1:]` would then panic in Go. A keeper of positive capacity always holds one entry.
- The average distance that `closestPoints` returns is not modelled: its only caller discards it.
- `ElapsedTime` and the clock reads behind it are not modelled.
- Icp.PointToPoint: with an empty filtered target and a non-empty source, Go panics on the type assertion of the nil nearest neighbour. The model returns the `EmptyTree` error instead.
- Icp.IsIdentity: the quaternion test of `isIdentity` is modelled as "identity rotation block and zero translation". The quaternion extraction of go-common's `Matrix4` is not part of this model.
- go-common's `Matrix4` is not part of this model. `Dot` is taken to be the matrix product `Mul4`. `MulVec3` is taken to be the affine map of the first three rows, like `TransformPoint`. `Translation` is taken to be the last column of those rows.
- The yaw angle of `ExtractTranslationYaw` (an `atan2`) is not modelled; only its translation part is.
- Voxel.Voxelize: Go's map iteration order is not modelled. The output order is any order, so each proved property holds for every order.
- Points are modelled as values, not pointers. Where Go shares point objects between the target cloud and its tree, the model reads the tree's points back from the target buffer at the kept positions.
- Normals.ComputeNormals: a point's neighbour search is taken against the tree before any normal is written. In Go the tree's points gain normals during the loop, but the search and the covariance read only coordinates.
- The ply reader (ply/ply.go), the example driver (examples/main.go) and `Visualize` are input/output, not part of the algorithm. icp/params.go contributes only its types and default values (module Params).
- Refine.ICPRefine: modelled as written. It ignores its `params` argument, and it reports the target's length as both counts.
- Icp.ClosestPointsOf: its own contract states only the length; what each entry is gets stated by `Icp.ClosestPoints`.

## Findings

| source | as written | input that shows it | evidently intended | confidence | as-written member | corrected member |
|---|---|---|---|---|---|---|
| icp/icp.go:75 (and icp/point-to-plane.go:98) | `finalTransform = finalTransform.Dot(tform)` builds `T1·T2·…·Tn`, which applies the last increment first, while the buffer was moved by `T1`, then `T2`, and so on | `T1` a quarter turn about Z, `T2` a unit shift along X: the final transform takes the origin to x = 0, the buffer holds it at x = 1 | `Tn·…·T1`, so that the final transform moves the source onto the returned points | not executed | Icp.ComposedIncrementsMisplacePoints | Icp.AppliedReplays |
| icp/icp.go:39 | `planeTform.Dot(pointTform)` applies the point pass's transform first, though the point pass started from the plane pass's points | plane transform a quarter turn about Z, point transform a unit shift along X: the product takes the origin to x = 0, the two passes in turn take it to x = 1 | `pointTform·planeTform` | not executed | Refine.RefinedTransformMisplacesPoints | Transform.ProductAppliesRightFactorFirst |
