/** The configuration of icp/params.go and its default values. */
module Params {

  /** `FilterParams`: the voxel edge and the outlier-filter settings. */
  datatype FilterParams = FilterParams(voxelSize: real, numNeighbors: int, zThreshold: real)

  /** `Params`: iteration bound, convergence tolerance, correspondence gate and normal estimation. */
  datatype Params = Params(
    maxIterations: int,
    tolerance: real,
    filterParams: FilterParams,
    maxCorrespondenceDistance: real,
    numNeighborsNormals: int)

  const DefaultFilterParams: FilterParams := FilterParams(0.02, 20, 1.5)

  const DefaultParams: Params := Params(100, 0.0001, DefaultFilterParams, 2.0, 30)
}
