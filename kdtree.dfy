/**
 * The k-d tree contract of point/kdtree.go, and the nearest-neighbour answers the ICP core
 * relies on.
 *
 * The tree's own construction and search (median pivoting, branch pruning) belong to the
 * k-d tree library and are not modelled. A tree is represented by the sequence of points it
 * indexes. A nearest-neighbour query is defined by a linear scan that returns the first point at
 * minimal `Distance`. Any correct tree search returns a point at that same minimal distance.
 */
module KdTree {

  import opened Wrappers
  import opened Reals
  import opened Point

  /** The points a tree indexes, in the order the tree holds them. */
  type Tree = seq<Point3D>

  /**
   * One entry of a nearest-`k` keeper: the position of the kept point in the indexed buffer and
   * its `Distance` from the query. Comparing `Comparable` pointers in Go is comparing
   * positions here.
   */
  datatype ComparableDist = ComparableDist(index: nat, dist: real)

  /** `p.Compare(q, d)`: the signed difference along dimension `d`, and 0 for any other `d`. */
  function Compare(p: Point3D, q: Point3D, d: int): real
  {
    if d == 0 then p.x - q.x
    else if d == 1 then p.y - q.y
    else if d == 2 then p.z - q.z
    else 0.0
  }

  /** `p.Dims()`: the number of dimensions a point is split on. */
  function Dims(p: Point3D): (n: nat)
    ensures n == |ToArray(p)|
  {
    3
  }

  /** `p.Distance(q)`: the SQUARED Euclidean distance, as the tree compares points. */
  function Distance(p: Point3D, q: Point3D): real
  {
    var xd, yd, zd := p.x - q.x, p.y - q.y, p.z - q.z;
    Square(xd) + Square(yd) + Square(zd)
  }

  /** Along each of the `Dims` dimensions `Compare` is the coordinate difference; beyond them, 0. */
  lemma CompareIsCoordinateDifference(p: Point3D, q: Point3D, d: int)
    ensures 0 <= d < Dims(p) ==> Compare(p, q, d) == ToArray(p)[d] - ToArray(q)[d]
    ensures !(0 <= d < Dims(p)) ==> Compare(p, q, d) == 0.0
    ensures Compare(p, q, d) == -Compare(q, p, d)
  {
  }

  /** `Distance` agrees with `Compare`: it is the sum of the squared per-dimension differences. */
  lemma DistanceFromCompare(p: Point3D, q: Point3D)
    ensures Distance(p, q) == Square(Compare(p, q, 0)) + Square(Compare(p, q, 1)) + Square(Compare(p, q, 2))
  {
  }

  /**
   * The entries of a keeper after the first, as `NearestSet` leaves them for the query `q`: each
   * names a position in `tree` and carries that point's `Distance` from `q`, a squared distance.
   */
  predicate DistancesFrom(tree: Tree, q: Point3D, heap: seq<ComparableDist>)
  {
    forall l :: 1 <= l < |heap| ==> heap[l].index < |tree| && heap[l].dist == Distance(q, tree[heap[l].index])
  }

  /** `Distance` is the square of `Euclidean`, hence symmetric, non-negative and zero only on equal coordinates. */
  lemma DistanceIsSquaredEuclidean(p: Point3D, q: Point3D)
    ensures Distance(p, q) == EuclideanSquared(p, q)
    ensures Distance(p, q) == Distance(q, p)
    ensures Distance(p, q) >= 0.0
    ensures Distance(p, q) == 0.0 <==> SameCoordinates(p, q)
  {
    EuclideanSymmetric(p, q);
    EuclideanZero(p, q);
  }

  /**
   * The nearest indexed point to `q`, the first one at minimal distance; `None` for an empty
   * tree, where Go's `Nearest` has nothing to return.
   */
  function Nearest(tree: Tree, q: Point3D): (r: Option<Point3D>)
    ensures r.None? <==> tree == []
    ensures r.Some? ==> r.value in tree
    ensures r.Some? ==> forall p :: p in tree ==> Distance(q, r.value) <= Distance(q, p)
    decreases |tree|
  {
    if tree == [] then None
    else
      var rest := Nearest(tree[1..], q);
      if rest.Some? && Distance(q, rest.value) < Distance(q, tree[0]) then rest
      else Some(tree[0])
  }

  /** Nearest-neighbour distance is the minimum over the tree, so it ignores the tree's order. */
  lemma {:induction false} NearestDistanceIgnoresOrder(tree: Tree, other: Tree, q: Point3D)
    requires multiset(tree) == multiset(other)
    requires tree != []
    ensures Distance(q, Nearest(tree, q).value) == Distance(q, Nearest(other, q).value)
  {
    var a, b := Nearest(tree, q).value, Nearest(other, q).value;
    assert a in multiset(other);
    assert b in multiset(tree);
  }
}
