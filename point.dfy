/**
 * The point value type of point/point.go.
 *
 * Coordinates are `float64` in Go and `real` here. `Length` and `Euclidean` take a
 * square root; the model keeps their squares, `LengthSquared` and `EuclideanSquared`, and every
 * comparison in the core is stated on those squares.
 */
module Point {

  import opened Reals

  /** A 3D point with its surface normal; the normal is zero until normals are estimated. */
  datatype Point3D = Point3D(x: real, y: real, z: real, nx: real, ny: real, nz: real)

  /** A point with the given coordinates and no normal: a Go struct literal without Nx, Ny, Nz. */
  function At(x: real, y: real, z: real): Point3D
  {
    Point3D(x, y, z, 0.0, 0.0, 0.0)
  }

  const Origin: Point3D := At(0.0, 0.0, 0.0)

  predicate SameCoordinates(p: Point3D, q: Point3D)
  {
    p.x == q.x && p.y == q.y && p.z == q.z
  }

  /** `p.Subtract(q)`: a fresh point holding the coordinate differences. */
  function Subtract(p: Point3D, q: Point3D): Point3D
  {
    At(p.x - q.x, p.y - q.y, p.z - q.z)
  }

  /** `p.ToArray()`: the coordinates as a slice `[X, Y, Z]`. */
  function ToArray(p: Point3D): (r: seq<real>)
    ensures |r| == 3
  {
    [p.x, p.y, p.z]
  }

  /** The square of `p.Length()`. */
  function LengthSquared(p: Point3D): real
  {
    Square(p.x) + Square(p.y) + Square(p.z)
  }

  /** The square of `p.Euclidean(q)`. */
  function EuclideanSquared(p: Point3D, q: Point3D): real
  {
    Square(p.x - q.x) + Square(p.y - q.y) + Square(p.z - q.z)
  }

  /** The coordinate sum of a sequence of points, accumulated from the front as the loops do. */
  function Sum(points: seq<Point3D>): (s: Point3D)
    ensures s.nx == 0.0 && s.ny == 0.0 && s.nz == 0.0
  {
    if points == [] then Origin
    else
      var s := Sum(points[..|points| - 1]);
      var p := points[|points| - 1];
      At(s.x + p.x, s.y + p.y, s.z + p.z)
  }

  /** The coordinate-wise average of a non-empty sequence of points. */
  function Mean(points: seq<Point3D>): Point3D
    requires |points| > 0
  {
    var s, n := Sum(points), |points| as real;
    At(s.x / n, s.y / n, s.z / n)
  }

  /** Subtracting a point from itself gives the origin. */
  lemma SubtractSelf(p: Point3D)
    ensures Subtract(p, p) == Origin
  {
  }

  /**
   * The difference carries no normal, and swapping the operands negates every coordinate.
   */
  lemma SubtractAntisymmetric(p: Point3D, q: Point3D)
    ensures Subtract(p, q).nx == 0.0 && Subtract(p, q).ny == 0.0 && Subtract(p, q).nz == 0.0
    ensures Subtract(p, q).x == -Subtract(q, p).x
    ensures Subtract(p, q).y == -Subtract(q, p).y
    ensures Subtract(p, q).z == -Subtract(q, p).z
  {
  }

  /** `ToArray` commutes with `Subtract`, coordinate by coordinate. */
  lemma ToArraySubtract(p: Point3D, q: Point3D, k: nat)
    requires k < 3
    ensures ToArray(Subtract(p, q))[k] == ToArray(p)[k] - ToArray(q)[k]
  {
  }

  lemma EuclideanSymmetric(p: Point3D, q: Point3D)
    ensures EuclideanSquared(p, q) == EuclideanSquared(q, p)
  {
    SquareOfDifference(p.x, q.x);
    SquareOfDifference(p.y, q.y);
    SquareOfDifference(p.z, q.z);
  }

  /** The distance is never negative and is zero exactly on identical coordinates. */
  lemma EuclideanZero(p: Point3D, q: Point3D)
    ensures EuclideanSquared(p, q) >= 0.0
    ensures EuclideanSquared(p, q) == 0.0 <==> SameCoordinates(p, q)
  {
    SquareFacts(p.x - q.x);
    SquareFacts(p.y - q.y);
    SquareFacts(p.z - q.z);
  }

  /** `Euclidean(p, q)` is the length of `p.Subtract(q)`; `Length(p)` is the distance to the origin. */
  lemma EuclideanIsLengthOfDifference(p: Point3D, q: Point3D)
    ensures EuclideanSquared(p, q) == LengthSquared(Subtract(p, q))
    ensures LengthSquared(p) == EuclideanSquared(p, Origin)
  {
    assert p.x - 0.0 == p.x && p.y - 0.0 == p.y && p.z - 0.0 == p.z;
  }

  /** The offsets of a sequence of points from their mean add up to the zero vector. */
  lemma {:induction false} OffsetsFromMean(points: seq<Point3D>)
    requires |points| > 0
    ensures Sum(Offsets(points, Mean(points))) == Origin
  {
    var c := Mean(points);
    SumOfOffsets(points, c);
    var s, n := Sum(points), |points| as real;
    assert c.x == s.x / n && c.y == s.y / n && c.z == s.z / n;
    DivideThenMultiply(s.x, n);
    DivideThenMultiply(s.y, n);
    DivideThenMultiply(s.z, n);
    MulSigns(n, c.x);
    MulSigns(n, c.y);
    MulSigns(n, c.z);
    var o := Sum(Offsets(points, c));
    assert o.x == 0.0 && o.y == 0.0 && o.z == 0.0;
  }

  /** Each point minus `c`, in order. */
  function Offsets(points: seq<Point3D>, c: Point3D): (r: seq<Point3D>)
    ensures |r| == |points|
    ensures forall i :: 0 <= i < |points| ==> r[i] == Subtract(points[i], c)
  {
    seq(|points|, i requires 0 <= i < |points| => Subtract(points[i], c))
  }

  lemma {:induction false} SumOfOffsets(points: seq<Point3D>, c: Point3D)
    ensures var s, o, n := Sum(points), Sum(Offsets(points, c)), |points| as real;
      o.x == s.x - Mul(n, c.x) && o.y == s.y - Mul(n, c.y) && o.z == s.z - Mul(n, c.z)
  {
    if points == [] {
      MulSigns(0.0, c.x);
      MulSigns(0.0, c.y);
      MulSigns(0.0, c.z);
    } else {
      var front := points[..|points| - 1];
      SumOfOffsets(front, c);
      assert Offsets(points, c)[..|points| - 1] == Offsets(front, c);
      var m := |front| as real;
      assert |points| as real == m + 1.0;
      Distribute(m, c.x);
      Distribute(m, c.y);
      Distribute(m, c.z);
    }
  }

  lemma Distribute(m: real, a: real)
    ensures Mul(m + 1.0, a) == Mul(m, a) + a
  {
  }
}
