/**
 * Voxel-grid downsampling, icp/voxel.go.
 *
 * `Voxelize` keeps, for every voxel key `(⌊x/s⌋, ⌊y/s⌋, ⌊z/s⌋)`, the first input point with that
 * key, then lists the kept points in the iteration order of a Go map, which is unspecified. The
 * model therefore returns the kept points in an order it chooses, and states the result through
 * the positions in the input of the points it keeps.
 */
module Voxel {

  import opened Point

  /** `Voxel{I, J, K}`: the integer cell a point falls in. */
  datatype Voxel = Voxel(i: int, j: int, k: int)

  /** The cell of `p` for cells of edge `voxelSize`: `int(math.Floor(coordinate / voxelSize))`. */
  function KeyOf(p: Point3D, voxelSize: real): Voxel
    requires voxelSize != 0.0
  {
    Voxel((p.x / voxelSize).Floor, (p.y / voxelSize).Floor, (p.z / voxelSize).Floor)
  }

  /** Position `n` holds the first point, in input order, of its cell. */
  predicate IsFirst(points: seq<Point3D>, voxelSize: real, n: nat)
    requires voxelSize != 0.0
    requires n < |points|
  {
    forall m :: 0 <= m < n ==> KeyOf(points[m], voxelSize) != KeyOf(points[n], voxelSize)
  }

  predicate Distinct<T(==)>(s: seq<T>)
  {
    forall a, b :: 0 <= a < b < |s| ==> s[a] != s[b]
  }

  /** `positions` lists, each exactly once and in any order, the first position of every cell. */
  ghost predicate IsVoxelization(points: seq<Point3D>, voxelSize: real, positions: seq<nat>)
    requires voxelSize != 0.0
  {
    (forall k :: 0 <= k < |positions| ==> positions[k] < |points| && IsFirst(points, voxelSize, positions[k])) &&
    (forall n :: 0 <= n < |points| && IsFirst(points, voxelSize, n) ==> n in positions) &&
    Distinct(positions)
  }

  /** The points at the given positions, in order. */
  function Select(points: seq<Point3D>, positions: seq<nat>): (r: seq<Point3D>)
    requires forall k :: 0 <= k < |positions| ==> positions[k] < |points|
    ensures |r| == |positions|
    ensures forall k :: 0 <= k < |positions| ==> r[k] == points[positions[k]]
  {
    seq(|positions|, k requires 0 <= k < |positions| => points[positions[k]])
  }

  /** The set of cells the points fall in. */
  function KeySet(points: seq<Point3D>, voxelSize: real): set<Voxel>
    requires voxelSize != 0.0
  {
    if points == [] then {}
    else KeySet(points[..|points| - 1], voxelSize) + {KeyOf(points[|points| - 1], voxelSize)}
  }

  /**
   * `Voxelize(points, voxelSize)`: a first-wins pass recording one position per cell in a map,
   * then a pass over the map's cells in an unspecified order. Besides the kept points, the model
   * returns their positions in `points`: Go returns those very point objects.
   */
  method Voxelize(points: seq<Point3D>, voxelSize: real) returns (result: seq<Point3D>, positions: seq<nat>)
    requires voxelSize != 0.0
    ensures IsVoxelization(points, voxelSize, positions)
    ensures forall k :: 0 <= k < |positions| ==> positions[k] < |points|
    ensures result == Select(points, positions)
  {
    var voxelMap: map<Voxel, nat> := map[];
    for i := 0 to |points|
      invariant forall v :: v in voxelMap ==>
        voxelMap[v] < i && KeyOf(points[voxelMap[v]], voxelSize) == v && IsFirst(points, voxelSize, voxelMap[v])
      invariant forall m :: 0 <= m < i ==> KeyOf(points[m], voxelSize) in voxelMap
    {
      var v := KeyOf(points[i], voxelSize);
      if v !in voxelMap {
        voxelMap := voxelMap[v := i];
      }
    }

    var remaining := voxelMap.Keys;
    result, positions := [], [];
    while remaining != {}
      invariant remaining <= voxelMap.Keys
      invariant forall k :: 0 <= k < |positions| ==>
        positions[k] < |points| && IsFirst(points, voxelSize, positions[k]) &&
        KeyOf(points[positions[k]], voxelSize) in voxelMap &&
        KeyOf(points[positions[k]], voxelSize) !in remaining
      invariant forall v :: v in voxelMap && v !in remaining ==> voxelMap[v] in positions
      invariant Distinct(positions)
      invariant result == Select(points, positions)
      decreases |remaining|
    {
      var v :| v in remaining;
      positions := positions + [voxelMap[v]];
      result := result + [points[voxelMap[v]]];
      remaining := remaining - {v};
    }

    forall n | 0 <= n < |points| && IsFirst(points, voxelSize, n)
      ensures n in positions
    {
      var v := KeyOf(points[n], voxelSize);
      FirstIsUnique(points, voxelSize, voxelMap[v], n);
    }
  }

  /** Two first positions of the same cell are the same position. */
  lemma FirstIsUnique(points: seq<Point3D>, voxelSize: real, a: nat, b: nat)
    requires voxelSize != 0.0 && a < |points| && b < |points|
    requires IsFirst(points, voxelSize, a) && IsFirst(points, voxelSize, b)
    ensures KeyOf(points[a], voxelSize) == KeyOf(points[b], voxelSize) ==> a == b
  {
  }

  /** The first position of the cell of `points[n]`, found by scanning from `from`. */
  function FirstOfCell(points: seq<Point3D>, voxelSize: real, n: nat, from: nat): (m: nat)
    requires voxelSize != 0.0 && from <= n < |points|
    requires forall l :: 0 <= l < from ==> KeyOf(points[l], voxelSize) != KeyOf(points[n], voxelSize)
    ensures m <= n && KeyOf(points[m], voxelSize) == KeyOf(points[n], voxelSize)
    ensures IsFirst(points, voxelSize, m)
    decreases n - from
  {
    if KeyOf(points[from], voxelSize) == KeyOf(points[n], voxelSize) then from
    else FirstOfCell(points, voxelSize, n, from + 1)
  }

  /** Every kept point is an input point, and no two kept points share a cell. */
  lemma KeptPointsHaveDistinctCells(points: seq<Point3D>, voxelSize: real, positions: seq<nat>)
    requires voxelSize != 0.0 && IsVoxelization(points, voxelSize, positions)
    ensures forall k :: 0 <= k < |positions| ==> Select(points, positions)[k] in points
    ensures forall a, b :: 0 <= a < |positions| && 0 <= b < |positions| && a != b ==>
      KeyOf(Select(points, positions)[a], voxelSize) != KeyOf(Select(points, positions)[b], voxelSize)
  {
    forall a, b | 0 <= a < |positions| && 0 <= b < |positions| && a != b
      ensures KeyOf(points[positions[a]], voxelSize) != KeyOf(points[positions[b]], voxelSize)
    {
      FirstIsUnique(points, voxelSize, positions[a], positions[b]);
    }
  }

  /**
   * Every input point's cell is the cell of some kept point, and that kept point is the first
   * input point of the cell.
   */
  lemma EveryCellIsKept(points: seq<Point3D>, voxelSize: real, positions: seq<nat>, n: nat)
    requires voxelSize != 0.0 && IsVoxelization(points, voxelSize, positions)
    requires n < |points|
    ensures exists k :: (0 <= k < |positions| &&
      KeyOf(points[positions[k]], voxelSize) == KeyOf(points[n], voxelSize) &&
      positions[k] <= n && IsFirst(points, voxelSize, positions[k]))
  {
    var m := FirstOfCell(points, voxelSize, n, 0);
    var k :| 0 <= k < |positions| && positions[k] == m;
  }

  /** The number of kept points is the number of distinct cells, so never more than the input. */
  lemma {:induction false} CountIsNumberOfCells(points: seq<Point3D>, voxelSize: real, positions: seq<nat>)
    requires voxelSize != 0.0 && IsVoxelization(points, voxelSize, positions)
    ensures |positions| == |KeySet(points, voxelSize)|
    ensures |positions| <= |points|
    ensures points == [] ==> positions == []
  {
    var keys := KeysOf(points, voxelSize, positions);
    KeptPointsHaveDistinctCells(points, voxelSize, positions);
    DistinctCardinality(keys);
    forall v | v in KeySet(points, voxelSize)
      ensures v in Elements(keys)
    {
      var n := KeySetMember(points, voxelSize, v);
      EveryCellIsKept(points, voxelSize, positions, n);
      var k :| 0 <= k < |positions| && KeyOf(points[positions[k]], voxelSize) == v;
      ElementsMember(keys, k);
    }
    forall v | v in Elements(keys)
      ensures v in KeySet(points, voxelSize)
    {
      var k := ElementsWitness(keys, v);
      KeySetContains(points, voxelSize, positions[k]);
    }
    assert Elements(keys) == KeySet(points, voxelSize);
    KeySetBound(points, voxelSize);
  }

  /** Voxelising the kept points again, with the same cell size, keeps them all. */
  lemma {:induction false} VoxelizeTwice(points: seq<Point3D>, voxelSize: real, positions: seq<nat>, again: seq<nat>)
    requires voxelSize != 0.0 && IsVoxelization(points, voxelSize, positions)
    requires IsVoxelization(Select(points, positions), voxelSize, again)
    ensures |again| == |positions|
  {
    var kept := Select(points, positions);
    CountIsNumberOfCells(points, voxelSize, positions);
    CountIsNumberOfCells(kept, voxelSize, again);
    forall v | v in KeySet(kept, voxelSize)
      ensures v in KeySet(points, voxelSize)
    {
      var k := KeySetMember(kept, voxelSize, v);
      KeySetContains(points, voxelSize, positions[k]);
    }
    forall v | v in KeySet(points, voxelSize)
      ensures v in KeySet(kept, voxelSize)
    {
      var n := KeySetMember(points, voxelSize, v);
      EveryCellIsKept(points, voxelSize, positions, n);
      var k :| 0 <= k < |positions| && KeyOf(points[positions[k]], voxelSize) == v;
      KeySetContains(kept, voxelSize, k);
    }
    assert KeySet(kept, voxelSize) == KeySet(points, voxelSize);
  }

  function KeysOf(points: seq<Point3D>, voxelSize: real, positions: seq<nat>): (r: seq<Voxel>)
    requires voxelSize != 0.0
    requires forall k :: 0 <= k < |positions| ==> positions[k] < |points|
    ensures |r| == |positions|
    ensures forall k :: 0 <= k < |positions| ==> r[k] == KeyOf(points[positions[k]], voxelSize)
  {
    seq(|positions|, k requires 0 <= k < |positions| => KeyOf(points[positions[k]], voxelSize))
  }

  /**
    * The set of a sequence's elements, built one element at a time. It denotes the same set as
    * `set x | x in s`; the inductive form is what `DistinctCardinality` needs to count the
    * elements of a sequence without repeats, for `CountIsNumberOfCells`.
    */
  function Elements<T>(s: seq<T>): set<T>
  {
    if s == [] then {} else Elements(s[..|s| - 1]) + {s[|s| - 1]}
  }

  lemma {:induction false} ElementsMember<T>(s: seq<T>, k: nat)
    requires k < |s|
    ensures s[k] in Elements(s)
    decreases |s|
  {
    if k < |s| - 1 {
      ElementsMember(s[..|s| - 1], k);
    }
  }

  lemma {:induction false} ElementsWitness<T>(s: seq<T>, x: T) returns (k: nat)
    requires x in Elements(s)
    ensures k < |s| && s[k] == x
    decreases |s|
  {
    if s[|s| - 1] == x {
      k := |s| - 1;
    } else {
      k := ElementsWitness(s[..|s| - 1], x);
    }
  }

  lemma {:induction false} DistinctCardinality<T>(s: seq<T>)
    requires Distinct(s)
    ensures |Elements(s)| == |s|
    decreases |s|
  {
    if s != [] {
      var front := s[..|s| - 1];
      DistinctCardinality(front);
      NotInElements(front, s[|s| - 1]);
    }
  }

  lemma {:induction false} NotInElements<T>(s: seq<T>, x: T)
    requires forall k :: 0 <= k < |s| ==> s[k] != x
    ensures x !in Elements(s)
    decreases |s|
  {
    if s != [] {
      NotInElements(s[..|s| - 1], x);
    }
  }

  lemma {:induction false} KeySetMember(points: seq<Point3D>, voxelSize: real, v: Voxel) returns (n: nat)
    requires voxelSize != 0.0 && v in KeySet(points, voxelSize)
    ensures n < |points| && KeyOf(points[n], voxelSize) == v
    decreases |points|
  {
    if KeyOf(points[|points| - 1], voxelSize) == v {
      n := |points| - 1;
    } else {
      n := KeySetMember(points[..|points| - 1], voxelSize, v);
    }
  }

  lemma {:induction false} KeySetContains(points: seq<Point3D>, voxelSize: real, n: nat)
    requires voxelSize != 0.0 && n < |points|
    ensures KeyOf(points[n], voxelSize) in KeySet(points, voxelSize)
    decreases |points|
  {
    if n < |points| - 1 {
      KeySetContains(points[..|points| - 1], voxelSize, n);
    }
  }

  lemma {:induction false} KeySetBound(points: seq<Point3D>, voxelSize: real)
    requires voxelSize != 0.0
    ensures |KeySet(points, voxelSize)| <= |points|
    decreases |points|
  {
    if points != [] {
      KeySetBound(points[..|points| - 1], voxelSize);
    }
  }
}
