/**
 * The point-to-plane estimator of icp/point-to-plane.go.
 *
 * Each iteration pairs every transformed source point with its nearest target point, which
 * carries the normal `ComputeNormals` wrote. It linearises the residual `(src − tgt)·n` in a small
 * rotation vector and a translation, and accumulates the 6×6 normal equations `A·x = b`. A
 * solver result `x` gives the increment: the rotation `SmallAngleRotation(x0, x1, x2)` and the
 * translation `(x3, x4, x5)`.
 */
module PointToPlane {

  import opened Wrappers
  import opened Reals
  import opened Point
  import opened KdTree
  import opened Matrix
  import opened Transform
  import opened Voxel
  import opened Params
  import opened Normals
  import opened Icp
  import Filter

  /** A correspondence: a transformed source point and its nearest target point. */
  datatype Pair = Pair(src: Point3D, tgt: Point3D)

  /** One pair per point, in order; a nil nearest neighbour (an empty tree) yields no pair. */
  function CorrespondencesOf(points: seq<Point3D>, tree: Tree): seq<Pair>
  {
    if tree == [] then []
    else seq(|points|, i requires 0 <= i < |points| => Pair(points[i], Nearest(tree, points[i]).value))
  }

  /** The correspondence loop: each point paired with a tree point at minimal distance. */
  method FindCorrespondences(points: seq<Point3D>, tree: Tree) returns (pairs: seq<Pair>)
    ensures pairs == CorrespondencesOf(points, tree)
    ensures tree == [] ==> pairs == []
    ensures tree != [] ==> |pairs| == |points| && forall i :: 0 <= i < |points| ==>
      pairs[i].src == points[i] && pairs[i].tgt in tree &&
      forall p :: p in tree ==> Distance(points[i], pairs[i].tgt) <= Distance(points[i], p)
  {
    pairs := [];
    for i := 0 to |points|
      invariant tree == [] ==> pairs == []
      invariant tree != [] ==> |pairs| == i && forall l :: 0 <= l < i ==> pairs[l] == Pair(points[l], Nearest(tree, points[l]).value)
    {
      var nearest := Nearest(tree, points[i]);
      if nearest.None? {
        continue;
      }
      pairs := pairs + [Pair(points[i], nearest.value)];
    }
    assert tree != [] ==> pairs == CorrespondencesOf(points, tree);
  }

  /** `(src − tgt) · (tgt.Nx, tgt.Ny, tgt.Nz)`. */
  function Residual(src: Point3D, tgt: Point3D): real
  {
    Mul(src.x - tgt.x, tgt.nx) + Mul(src.y - tgt.y, tgt.ny) + Mul(src.z - tgt.z, tgt.nz)
  }

  /** `(src × n, n)` for the target normal `n`. */
  function Jacobian(src: Point3D, tgt: Point3D): (j: seq<real>)
    ensures |j| == 6
  {
    [Mul(src.y, tgt.nz) - Mul(src.z, tgt.ny),
     Mul(src.z, tgt.nx) - Mul(src.x, tgt.nz),
     Mul(src.x, tgt.ny) - Mul(src.y, tgt.nx),
     tgt.nx, tgt.ny, tgt.nz]
  }

  /**
   * `src` moved by the first-order motion `x`: the rotation vector `ω = (x0, x1, x2)` and the
   * translation `δ = (x3, x4, x5)` give `src + ω × src + δ`.
   */
  function Perturb(src: Point3D, x: seq<real>): Point3D
    requires |x| == 6
  {
    At(src.x + (Mul(x[1], src.z) - Mul(x[2], src.y)) + x[3],
       src.y + (Mul(x[2], src.x) - Mul(x[0], src.z)) + x[4],
       src.z + (Mul(x[0], src.y) - Mul(x[1], src.x)) + x[5])
  }

  lemma DotOfSix(u: seq<real>, v: seq<real>)
    requires |u| == 6 && |v| == 6
    ensures Dot(u, v) == Mul(u[0], v[0]) + Mul(u[1], v[1]) + Mul(u[2], v[2]) + Mul(u[3], v[3]) + Mul(u[4], v[4]) + Mul(u[5], v[5])
  {
    assert u[..5][..4] == u[..4] && v[..5][..4] == v[..4];
    assert u[..4][..3] == u[..3] && v[..4][..3] == v[..3];
    assert u[..3][..2] == u[..2] && v[..3][..2] == v[..2];
    assert u[..2][..1] == u[..1] && v[..2][..1] == v[..1];
    assert Dot(u[..1], v[..1]) == Mul(u[0], v[0]);
    assert Dot(u[..2], v[..2]) == Dot(u[..1], v[..1]) + Mul(u[1], v[1]);
    assert Dot(u[..3], v[..3]) == Dot(u[..2], v[..2]) + Mul(u[2], v[2]);
    assert Dot(u[..4], v[..4]) == Dot(u[..3], v[..3]) + Mul(u[3], v[3]);
    assert Dot(u[..5], v[..5]) == Dot(u[..4], v[..4]) + Mul(u[4], v[4]);
  }

  /**
   * The Jacobian is the derivative of the residual: moving the source point by the first-order
   * motion `x` changes the residual by exactly `J · x`.
   */
  lemma Linearization(src: Point3D, tgt: Point3D, x: seq<real>)
    requires |x| == 6
    ensures Residual(Perturb(src, x), tgt) == Residual(src, tgt) + Dot(Jacobian(src, tgt), x)
  {
    DotOfSix(Jacobian(src, tgt), x);
    TripleProduct(x[0], x[1], x[2], src.x, src.y, src.z, tgt.nx, tgt.ny, tgt.nz);
  }

  /** `(ω × s) · n = ω · (s × n)`. */
  lemma TripleProduct(ax: real, ay: real, az: real, sx: real, sy: real, sz: real, nx: real, ny: real, nz: real)
    ensures Mul(Mul(ay, sz) - Mul(az, sy), nx) + Mul(Mul(az, sx) - Mul(ax, sz), ny) + Mul(Mul(ax, sy) - Mul(ay, sx), nz)
         == Mul(Mul(sy, nz) - Mul(sz, ny), ax) + Mul(Mul(sz, nx) - Mul(sx, nz), ay) + Mul(Mul(sx, ny) - Mul(sy, nx), az)
  {
  }

  /** `A[i][j]`: the sum over the pairs of `J[i]·J[j]`. */
  function AEntry(pairs: seq<Pair>, i: nat, j: nat): real
    requires i < 6 && j < 6
  {
    if pairs == [] then 0.0
    else
      var last := pairs[|pairs| - 1];
      var jac := Jacobian(last.src, last.tgt);
      AEntry(pairs[..|pairs| - 1], i, j) + Mul(jac[i], jac[j])
  }

  /** `b[i]`: minus the sum over the pairs of `residual·J[i]`. */
  function BEntry(pairs: seq<Pair>, i: nat): real
    requires i < 6
  {
    if pairs == [] then 0.0
    else
      var last := pairs[|pairs| - 1];
      BEntry(pairs[..|pairs| - 1], i) - Mul(Residual(last.src, last.tgt), Jacobian(last.src, last.tgt)[i])
  }

  function NormalMatrix(pairs: seq<Pair>): Mat6
  {
    seq(6, i requires 0 <= i < 6 => seq(6, j requires 0 <= j < 6 => AEntry(pairs, i, j)))
  }

  function NormalVector(pairs: seq<Pair>): Vec6
  {
    seq(6, i requires 0 <= i < 6 => BEntry(pairs, i))
  }

  /** `A` is symmetric. */
  lemma {:induction false} NormalMatrixSymmetric(pairs: seq<Pair>, i: nat, j: nat)
    requires i < 6 && j < 6
    ensures NormalMatrix(pairs)[i][j] == NormalMatrix(pairs)[j][i]
    ensures AEntry(pairs, i, j) == AEntry(pairs, j, i)
  {
    if pairs != [] {
      var last := pairs[|pairs| - 1];
      var jac := Jacobian(last.src, last.tgt);
      NormalMatrixSymmetric(pairs[..|pairs| - 1], i, j);
      MulSigns(jac[i], jac[j]);
    }
  }

  /** `A·x`. */
  function MatVec(a: Mat6, x: Vec6): Vec6
  {
    seq(6, i requires 0 <= i < 6 => Dot(a[i], x))
  }

  /** `xᵀ·A·x`. */
  function QuadraticForm(a: Mat6, x: Vec6): real
  {
    Dot(x, MatVec(a, x))
  }

  /** The sum over the pairs of `(J·x)²`. */
  function SquaredLinearTerms(pairs: seq<Pair>, x: Vec6): real
  {
    if pairs == [] then 0.0
    else
      var last := pairs[|pairs| - 1];
      SquaredLinearTerms(pairs[..|pairs| - 1], x) + Square(Dot(Jacobian(last.src, last.tgt), x))
  }

  lemma {:induction false} DotWithZeros(x: seq<real>, z: seq<real>)
    requires |x| == |z| && forall i :: 0 <= i < |z| ==> z[i] == 0.0
    ensures Dot(x, z) == 0.0 && Dot(z, x) == 0.0
  {
    if x != [] {
      var n := |x| - 1;
      DotWithZeros(x[..n], z[..n]);
      MulSigns(x[n], z[n]);
    }
  }

  /** Adding a pair adds `(J·x)·J` to `A·x`. */
  lemma MatVecStep(pairs: seq<Pair>, x: Vec6)
    requires pairs != []
    ensures var last := pairs[|pairs| - 1];
      var jac := Jacobian(last.src, last.tgt);
      MatVec(NormalMatrix(pairs), x) == AddVectors(MatVec(NormalMatrix(pairs[..|pairs| - 1]), x), Scale(Dot(jac, x), jac))
  {
    var front := pairs[..|pairs| - 1];
    var last := pairs[|pairs| - 1];
    var jac := Jacobian(last.src, last.tgt);
    forall i | 0 <= i < 6
      ensures MatVec(NormalMatrix(pairs), x)[i] == MatVec(NormalMatrix(front), x)[i] + Mul(Dot(jac, x), jac[i])
    {
      var row, rowFront := NormalMatrix(pairs)[i], NormalMatrix(front)[i];
      assert row == AddVectors(rowFront, Scale(jac[i], jac));
      DotSymmetric(row, x);
      DotSymmetric(rowFront, x);
      DotSymmetric(jac, x);
      DotAdditive(x, rowFront, Scale(jac[i], jac));
      DotHomogeneous(x, jac[i], jac);
      MulSigns(jac[i], Dot(jac, x));
    }
  }

  /**
   * `A` is positive semidefinite: `xᵀ·A·x` is the sum of the squared linearised residual changes
   * `(J·x)²`, so it is never negative.
   */
  lemma {:induction false} NormalMatrixPositiveSemidefinite(pairs: seq<Pair>, x: Vec6)
    ensures QuadraticForm(NormalMatrix(pairs), x) == SquaredLinearTerms(pairs, x)
    ensures QuadraticForm(NormalMatrix(pairs), x) >= 0.0
  {
    if pairs == [] {
      forall i | 0 <= i < 6
        ensures MatVec(NormalMatrix(pairs), x)[i] == 0.0
      {
        DotWithZeros(x, NormalMatrix(pairs)[i]);
      }
      DotWithZeros(x, MatVec(NormalMatrix(pairs), x));
    } else {
      var front := pairs[..|pairs| - 1];
      var last := pairs[|pairs| - 1];
      var jac := Jacobian(last.src, last.tgt);
      NormalMatrixPositiveSemidefinite(front, x);
      MatVecStep(pairs, x);
      DotAdditive(x, MatVec(NormalMatrix(front), x), Scale(Dot(jac, x), jac));
      DotHomogeneous(x, Dot(jac, x), jac);
      DotSymmetric(x, jac);
      SquareFacts(Dot(jac, x));
    }
  }

  /**
   * The `i`-th partial derivative, up to the factor 2, of the sum of squared residuals after
   * moving every source point by the first-order motion `x`.
   */
  function GradientEntry(pairs: seq<Pair>, x: Vec6, i: nat): real
    requires i < 6
  {
    if pairs == [] then 0.0
    else
      var last := pairs[|pairs| - 1];
      GradientEntry(pairs[..|pairs| - 1], x, i) +
        Mul(Residual(Perturb(last.src, x), last.tgt), Jacobian(last.src, last.tgt)[i])
  }

  /** Entry `i` of `A·x − b` is that partial derivative. */
  lemma {:induction false} GradientIsNormalEquationResidual(pairs: seq<Pair>, x: Vec6, i: nat)
    requires i < 6
    ensures GradientEntry(pairs, x, i) == MatVec(NormalMatrix(pairs), x)[i] - NormalVector(pairs)[i]
  {
    if pairs == [] {
      DotWithZeros(x, NormalMatrix(pairs)[i]);
    } else {
      var front := pairs[..|pairs| - 1];
      var last := pairs[|pairs| - 1];
      var jac := Jacobian(last.src, last.tgt);
      var r := Residual(last.src, last.tgt);
      GradientIsNormalEquationResidual(front, x, i);
      MatVecStep(pairs, x);
      Linearization(last.src, last.tgt, x);
      Distributes(r, Dot(jac, x), jac[i]);
    }
  }

  /**
   * A solution of the normal equations is exactly a stationary point of the sum of squared
   * linearised residuals.
   */
  lemma SolutionsAreStationary(pairs: seq<Pair>, x: Vec6)
    ensures MatVec(NormalMatrix(pairs), x) == NormalVector(pairs) ==>
      forall i :: 0 <= i < 6 ==> GradientEntry(pairs, x, i) == 0.0
    ensures (forall i :: 0 <= i < 6 ==> GradientEntry(pairs, x, i) == 0.0) ==>
      MatVec(NormalMatrix(pairs), x) == NormalVector(pairs)
  {
    forall i | 0 <= i < 6
      ensures GradientEntry(pairs, x, i) == MatVec(NormalMatrix(pairs), x)[i] - NormalVector(pairs)[i]
    {
      GradientIsNormalEquationResidual(pairs, x, i);
    }
    var ax, b := MatVec(NormalMatrix(pairs), x), NormalVector(pairs);
    if ax == b {
      assert forall i :: 0 <= i < 6 ==> ax[i] == b[i];
    }
    if forall i :: 0 <= i < 6 ==> GradientEntry(pairs, x, i) == 0.0 {
      assert forall i :: 0 <= i < 6 ==> ax[i] == b[i];
      assert |ax| == 6 && |b| == 6;
      assert ax == b;
    }
  }

  /** What `math.Sqrt` satisfies on non-negative arguments: a non-negative root whose square is the argument. */
  ghost predicate SqrtLaws(sqrt: real -> real)
  {
    forall v :: v >= 0.0 ==> sqrt(v) >= 0.0 && Square(sqrt(v)) == v
  }

  /** Rodrigues' rotation matrix about the axis `(ux, uy, uz)`, given the angle's cosine `c` and sine `s`. */
  function Rodrigues(ux: real, uy: real, uz: real, c: real, s: real): Mat3
  {
    [[c + Mul(Mul(ux, ux), 1.0 - c), Mul(Mul(ux, uy), 1.0 - c) - Mul(uz, s), Mul(Mul(ux, uz), 1.0 - c) + Mul(uy, s)],
     [Mul(Mul(uy, ux), 1.0 - c) + Mul(uz, s), c + Mul(Mul(uy, uy), 1.0 - c), Mul(Mul(uy, uz), 1.0 - c) - Mul(ux, s)],
     [Mul(Mul(uz, ux), 1.0 - c) - Mul(uy, s), Mul(Mul(uz, uy), 1.0 - c) + Mul(ux, s), c + Mul(Mul(uz, uz), 1.0 - c)]]
  }

  /** The squared norm `rx² + ry² + rz²` of a rotation vector. */
  function NormSquared(rx: real, ry: real, rz: real): real
  {
    Square(rx) + Square(ry) + Square(rz)
  }

  /**
   * `SmallAngleRotation(rx, ry, rz)`: the identity when the angle `θ = √(rx² + ry² + rz²)` is
   * below `1e-6`; otherwise Rodrigues' matrix about the unit axis `r / θ`.
   */
  function SmallAngleRotation(rx: real, ry: real, rz: real, num: Numerics): Mat3
  {
    var theta := num.sqrt(NormSquared(rx, ry, rz));
    if theta < 0.000001 then Identity(3)
    else Rodrigues(rx / theta, ry / theta, rz / theta, num.cos(theta), num.sin(theta))
  }

  /** The identity branch is taken exactly when `rx² + ry² + rz² < 1e-12`. */
  lemma SmallAngleBranch(rx: real, ry: real, rz: real, num: Numerics)
    requires SqrtLaws(num.sqrt)
    ensures num.sqrt(NormSquared(rx, ry, rz)) < 0.000001 <==> NormSquared(rx, ry, rz) < 0.000000000001
    ensures NormSquared(rx, ry, rz) < 0.000000000001 ==> SmallAngleRotation(rx, ry, rz, num) == Identity(3)
  {
    var v := NormSquared(rx, ry, rz);
    SquareFacts(rx);
    SquareFacts(ry);
    SquareFacts(rz);
    SquareMonotone(num.sqrt(v), 0.000001);
    assert Square(0.000001) == 0.000000000001;
  }

  /** At angle zero (`c = 1`, `s = 0`) Rodrigues' matrix is the identity, whatever the axis. */
  lemma RodriguesAtZeroAngle(ux: real, uy: real, uz: real)
    ensures Rodrigues(ux, uy, uz, 1.0, 0.0) == Identity(3)
  {
    var r := Rodrigues(ux, uy, uz, 1.0, 0.0);
    MulSigns(Mul(ux, ux), 0.0);
    MulSigns(Mul(uy, uy), 0.0);
    MulSigns(Mul(uz, uz), 0.0);
    MulSigns(Mul(ux, uy), 0.0);
    MulSigns(Mul(ux, uz), 0.0);
    MulSigns(Mul(uy, ux), 0.0);
    MulSigns(Mul(uy, uz), 0.0);
    MulSigns(Mul(uz, ux), 0.0);
    MulSigns(Mul(uz, uy), 0.0);
    MulSigns(ux, 0.0);
    MulSigns(uy, 0.0);
    MulSigns(uz, 0.0);
    assert forall i :: 0 <= i < 3 ==> r[i] == Identity(3)[i];
  }

  /**
   * One row of `R·u` for Rodrigues' matrix about the unit axis `u`, written for the coordinate
   * `a` and the other two `b` and `d` in cyclic order.
   */
  lemma AxisRow(a: real, b: real, d: real, c: real, s: real)
    requires Square(a) + Square(b) + Square(d) == 1.0
    ensures Mul(c + Mul(Mul(a, a), 1.0 - c), a) + Mul(Mul(Mul(a, b), 1.0 - c) - Mul(d, s), b)
          + Mul(Mul(Mul(a, d), 1.0 - c) + Mul(b, s), d) == a
  {
    var k := Mul(a, 1.0 - c);
    assert Mul(k, Square(a) + Square(b) + Square(d)) == k;
  }

  /** Rodrigues' matrix about a unit axis leaves the axis where it is. */
  lemma RodriguesFixesAxis(ux: real, uy: real, uz: real, c: real, s: real)
    requires NormSquared(ux, uy, uz) == 1.0
    ensures Rotate(Rodrigues(ux, uy, uz, c, s), At(ux, uy, uz)) == At(ux, uy, uz)
  {
    AxisRow(ux, uy, uz, c, s);
    AxisRow(uy, uz, ux, c, s);
    AxisRow(uz, ux, uy, c, s);
  }

  /** Dividing a vector by `t` divides its squared norm by `t²`. */
  lemma NormOfQuotient(rx: real, ry: real, rz: real, t: real)
    requires t > 0.0 && Square(t) == NormSquared(rx, ry, rz)
    ensures NormSquared(rx / t, ry / t, rz / t) == 1.0
  {
    DivideThenMultiply(rx, t);
    DivideThenMultiply(ry, t);
    DivideThenMultiply(rz, t);
    SquareOfProduct(rx / t, t);
    SquareOfProduct(ry / t, t);
    SquareOfProduct(rz / t, t);
    var n := NormSquared(rx / t, ry / t, rz / t);
    assert Mul(n, Square(t)) == Square(t);
    SquareFacts(t);
    MulSigns(n - 1.0, Square(t));
  }

  /** A rotation applied to `t·p` is `t` times the rotation applied to `p`. */
  lemma RotateScales(r: Mat3, p: Point3D, t: real)
    ensures Rotate(r, At(Mul(t, p.x), Mul(t, p.y), Mul(t, p.z))) ==
      At(Mul(t, Rotate(r, p).x), Mul(t, Rotate(r, p).y), Mul(t, Rotate(r, p).z))
  {
  }

  /** `SmallAngleRotation(rx, ry, rz)` rotates about `(rx, ry, rz)`: that vector stays where it is. */
  lemma SmallAngleFixesRotationVector(rx: real, ry: real, rz: real, num: Numerics)
    requires SqrtLaws(num.sqrt)
    ensures Rotate(SmallAngleRotation(rx, ry, rz, num), At(rx, ry, rz)) == At(rx, ry, rz)
  {
    var theta := num.sqrt(NormSquared(rx, ry, rz));
    SquareFacts(rx);
    SquareFacts(ry);
    SquareFacts(rz);
    if theta >= 0.000001 {
      var u := At(rx / theta, ry / theta, rz / theta);
      NormOfQuotient(rx, ry, rz, theta);
      RodriguesFixesAxis(u.x, u.y, u.z, num.cos(theta), num.sin(theta));
      RotateScales(SmallAngleRotation(rx, ry, rz, num), u, theta);
      DivideThenMultiply(rx, theta);
      DivideThenMultiply(ry, theta);
      DivideThenMultiply(rz, theta);
      MulSigns(theta, u.x);
      MulSigns(theta, u.y);
      MulSigns(theta, u.z);
    }
  }

  /** The increment for a solution `x`: rotation `SmallAngleRotation(x0, x1, x2)`, translation `(x3, x4, x5)`. */
  function Increment(x: Vec6, num: Numerics): Mat4
  {
    Homogeneous(SmallAngleRotation(x[0], x[1], x[2], num), At(x[3], x[4], x[5]))
  }

  /**
   * Step 4 of an iteration: the rotation update, then the 4×4 elements with the rotation in the
   * top-left block, `(x3, x4, x5)` in column 3 and the bottom row `(0, 0, 0, 1)`.
   */
  method BuildIncrement(x: Vec6, num: Numerics) returns (tform: Mat4)
    ensures tform == Increment(x, num)
    ensures forall i, j :: 0 <= i < 3 && 0 <= j < 3 ==> tform[i][j] == SmallAngleRotation(x[0], x[1], x[2], num)[i][j]
    ensures tform[0][3] == x[3] && tform[1][3] == x[4] && tform[2][3] == x[5]
    ensures tform[3] == [0.0, 0.0, 0.0, 1.0]
  {
    var rot := SmallAngleRotation(x[0], x[1], x[2], num);
    tform := [[rot[0][0], rot[0][1], rot[0][2], x[3]],
              [rot[1][0], rot[1][1], rot[1][2], x[4]],
              [rot[2][0], rot[2][1], rot[2][2], x[5]],
              [0.0, 0.0, 0.0, 1.0]];
    assert forall i :: 0 <= i < 4 ==> tform[i] == Increment(x, num)[i];
  }

  /** The convergence test on an increment reads the solved translation `(x3, x4, x5)`. */
  lemma IncrementConverged(x: Vec6, num: Numerics, tolerance: real)
    ensures IsWithinThreshold(Increment(x, num), tolerance) <==>
      tolerance > 0.0 && NormSquared(x[3], x[4], x[5]) < Square(tolerance)
  {
    TranslationRoundTrip(SmallAngleRotation(x[0], x[1], x[2], num), At(x[3], x[4], x[5]));
  }

  /** The increment moves the rotation vector `(x0, x1, x2)` by exactly the translation `(x3, x4, x5)`. */
  lemma IncrementFixesAxis(x: Vec6, num: Numerics)
    requires SqrtLaws(num.sqrt)
    ensures SameCoordinates(TransformPoint(At(x[0], x[1], x[2]), Increment(x, num)),
      At(x[0] + x[3], x[1] + x[4], x[2] + x[5]))
  {
    var r := SmallAngleRotation(x[0], x[1], x[2], num);
    SmallAngleFixesRotationVector(x[0], x[1], x[2], num);
    TransformHomogeneous(r, At(x[3], x[4], x[5]), At(x[0], x[1], x[2]));
  }

  /** Row `i` of `A` plus `J[i]·J[j]` in every column `j`. */
  method AddRowProducts(a: Mat6, i: nat, jac: seq<real>) returns (a': Mat6)
    requires i < 6 && |jac| == 6
    ensures forall l :: 0 <= l < 6 ==> a'[i][l] == a[i][l] + Mul(jac[i], jac[l])
    ensures forall k :: 0 <= k < 6 && k != i ==> a'[k] == a[k]
  {
    a' := a;
    for j := 0 to 6
      invariant forall l :: 0 <= l < j ==> a'[i][l] == a[i][l] + Mul(jac[i], jac[l])
      invariant forall l :: j <= l < 6 ==> a'[i][l] == a[i][l]
      invariant forall k :: 0 <= k < 6 && k != i ==> a'[k] == a[k]
    {
      a' := Set(a', i, j, a'[i][j] + Mul(jac[i], jac[j]));
    }
  }

  /** For each row `i`, `b[i]` less `residual·J[i]` and every `A[i][j]` plus `J[i]·J[j]`. */
  method AddPairTerms(a: Mat6, b: Vec6, residual: real, jac: seq<real>) returns (a': Mat6, b': Vec6)
    requires |jac| == 6
    ensures forall i, j :: 0 <= i < 6 && 0 <= j < 6 ==> a'[i][j] == a[i][j] + Mul(jac[i], jac[j])
    ensures forall i :: 0 <= i < 6 ==> b'[i] == b[i] - Mul(residual, jac[i])
  {
    a', b' := a, b;
    for i := 0 to 6
      invariant forall k, l :: 0 <= k < i && 0 <= l < 6 ==> a'[k][l] == a[k][l] + Mul(jac[k], jac[l])
      invariant forall k :: i <= k < 6 ==> a'[k] == a[k]
      invariant forall k :: 0 <= k < i ==> b'[k] == b[k] - Mul(residual, jac[k])
      invariant forall k :: i <= k < 6 ==> b'[k] == b[k]
    {
      b' := b'[i := b'[i] - Mul(residual, jac[i])];
      a' := AddRowProducts(a', i, jac);
    }
  }

  /** The update of `A` and `b` for one pair: its residual and Jacobian, then their terms. */
  method AccumulatePair(a: Mat6, b: Vec6, src: Point3D, tgt: Point3D) returns (a': Mat6, b': Vec6)
    ensures forall i, j :: 0 <= i < 6 && 0 <= j < 6 ==>
      a'[i][j] == a[i][j] + Mul(Jacobian(src, tgt)[i], Jacobian(src, tgt)[j])
    ensures forall i :: 0 <= i < 6 ==> b'[i] == b[i] - Mul(Residual(src, tgt), Jacobian(src, tgt)[i])
  {
    var residual := Mul(src.x - tgt.x, tgt.nx) + Mul(src.y - tgt.y, tgt.ny) + Mul(src.z - tgt.z, tgt.nz);
    var jac := [Mul(src.y, tgt.nz) - Mul(src.z, tgt.ny),
                Mul(src.z, tgt.nx) - Mul(src.x, tgt.nz),
                Mul(src.x, tgt.ny) - Mul(src.y, tgt.nx),
                tgt.nx, tgt.ny, tgt.nz];
    assert jac == Jacobian(src, tgt);
    a', b' := AddPairTerms(a, b, residual, jac);
  }

  /** Step 2 of an iteration: `A` and `b` start at zero and every pair is added in order. */
  method AssembleNormalEquations(pairs: seq<Pair>) returns (a: Mat6, b: Vec6)
    ensures a == NormalMatrix(pairs) && b == NormalVector(pairs)
  {
    a, b := Zero(6, 6), [0.0, 0.0, 0.0, 0.0, 0.0, 0.0];
    assert forall i :: 0 <= i < 6 ==> a[i] == NormalMatrix([])[i];
    for k := 0 to |pairs|
      invariant a == NormalMatrix(pairs[..k]) && b == NormalVector(pairs[..k])
    {
      ghost var done, next := pairs[..k], pairs[..k + 1];
      a, b := AccumulatePair(a, b, pairs[k].src, pairs[k].tgt);
      assert next[..k] == done && next[k] == pairs[k];
      forall i | 0 <= i < 6
        ensures a[i] == NormalMatrix(next)[i]
      {
        assert forall j :: 0 <= j < 6 ==> a[i][j] == NormalMatrix(next)[i][j];
      }
    }
    assert pairs[..|pairs|] == pairs;
  }

  /**
   * The point-to-plane step over a tree: correspondences, the normal equations, a solve, and the
   * increment for its solution; a failed solve is an error.
   */
  function PointToPlaneStep(tree: Tree, num: Numerics): Step
  {
    points =>
      var pairs := CorrespondencesOf(points, tree);
      match num.solve(NormalMatrix(pairs), NormalVector(pairs))
      case None => Err(SolveFailed)
      case Some(x) => Ok(Increment(x, num))
  }

  /** Every increment the point-to-plane step returns is affine. */
  lemma PointToPlaneStepAffine(tree: Tree, num: Numerics)
    ensures forall ps :: PointToPlaneStep(tree, num)(ps).Ok? ==> IsAffine(PointToPlaneStep(tree, num)(ps).value)
  {
    forall ps | PointToPlaneStep(tree, num)(ps).Ok?
      ensures IsAffine(PointToPlaneStep(tree, num)(ps).value)
    {
      var pairs := CorrespondencesOf(ps, tree);
      var x := num.solve(NormalMatrix(pairs), NormalVector(pairs)).value;
      HomogeneousIsAffine(SmallAngleRotation(x[0], x[1], x[2], num), At(x[3], x[4], x[5]));
    }
  }

  lemma PointToPlaneStepCases(tree: Tree, num: Numerics, points: seq<Point3D>)
    ensures var pairs := CorrespondencesOf(points, tree);
      var x := num.solve(NormalMatrix(pairs), NormalVector(pairs));
      PointToPlaneStep(tree, num)(points) == if x.None? then Err(SolveFailed) else Ok(Increment(x.value, num))
  {
  }

  /** A solver that returns only exact solutions of `A·x = b`. */
  ghost predicate SolvesExactly(solve: (Mat6, Vec6) -> Option<Vec6>)
  {
    forall a: Mat6, b: Vec6 :: solve(a, b).Some? ==> MatVec(a, solve(a, b).value) == b
  }

  /**
   * With an exact solver, every increment the step produces comes from a stationary point of the
   * sum of squared linearised residuals over the current correspondences.
   */
  lemma StepIsStationary(tree: Tree, num: Numerics, points: seq<Point3D>)
    requires SolvesExactly(num.solve)
    ensures var pairs := CorrespondencesOf(points, tree);
      var x := num.solve(NormalMatrix(pairs), NormalVector(pairs));
      x.Some? ==> forall i :: 0 <= i < 6 ==> GradientEntry(pairs, x.value, i) == 0.0
  {
    var pairs := CorrespondencesOf(points, tree);
    var x := num.solve(NormalMatrix(pairs), NormalVector(pairs));
    if x.Some? {
      SolutionsAreStationary(pairs, x.value);
    }
  }

  /**
   * The body of one `PointToPlane` iteration: correspondences, `A` and `b`, the solve, the
   * increment, and the working buffer moved by it.
   */
  method PointToPlaneIteration(transformed: array<Point3D>, tree: Tree, num: Numerics)
    returns (tform: Result<Mat4, Error>)
    modifies transformed
    ensures tform == PointToPlaneStep(tree, num)(old(transformed[..]))
    ensures tform.Ok? ==> transformed[..] == Moved(old(transformed[..]), tform.value)
    ensures tform.Err? ==> transformed[..] == old(transformed[..])
  {
    PointToPlaneStepCases(tree, num, transformed[..]);
    var pairs := FindCorrespondences(transformed[..], tree);
    var a, b := AssembleNormalEquations(pairs);
    var x := num.solve(a, b);
    if x.None? {
      return Err(SolveFailed);
    }
    var t := BuildIncrement(x.value, num);
    TransformPoints(transformed, t);
    return Ok(t);
  }

  /** The iteration loop of `PointToPlane` on a working copy of the filtered source. */
  method RunPointToPlane(points: seq<Point3D>, tree: Tree, params: Params, num: Numerics, numTarget: int, numSource: int)
    returns (result: Result<IcpResult, Error>)
    ensures result == Report(Iterate(PointToPlaneStep(tree, num), points, Identity(4), [], Fuel(params.maxIterations),
                                     params.tolerance),
                             numTarget, numSource)
  {
    ghost var step := PointToPlaneStep(tree, num);
    ghost var fuel := Fuel(params.maxIterations);
    ghost var spec := Iterate(step, points, Identity(4), [], fuel, params.tolerance);
    var transformed := new Point3D[|points|](i requires 0 <= i < |points| => points[i]);
    assert transformed[..] == points;
    var finalTransform := NewIdentityHomogeneous();
    ghost var increments: seq<Mat4> := [];
    ghost var left: nat := fuel;
    var iter := 0;
    while iter < params.maxIterations
      invariant 0 <= iter <= fuel && left == fuel - iter
      invariant spec == Iterate(step, transformed[..], finalTransform, increments, left, params.tolerance)
      decreases params.maxIterations - iter
    {
      ghost var current := transformed[..];
      var tform := PointToPlaneIteration(transformed, tree, num);
      if tform.Err? {
        IterateAborts(step, current, finalTransform, increments, left, params.tolerance);
        return Err(tform.error);
      }
      ghost var rest: nat := left - 1;
      IterateAdvances(step, current, finalTransform, increments, left, rest, params.tolerance, tform.value);
      finalTransform := Mul4(finalTransform, tform.value);
      increments := increments + [tform.value];
      if IsWithinThreshold(tform.value, params.tolerance) {
        return Ok(IcpResult(finalTransform, transformed[..], numTarget, numSource));
      }
      iter, left := iter + 1, rest;
    }
    return Ok(IcpResult(finalTransform, transformed[..], numTarget, numSource));
  }

  /** The nearest-neighbour keeper for a query: a heap whose entries after the first name tree positions. */
  type NeighbourQuery = (Tree, Point3D) -> seq<ComparableDist>

  /**
   * What `ComputeNormals` needs of `tree.NearestSet` with a keeper of capacity `k + 1`: at least
   * one entry and at most `k + 1`, every entry after the first naming a tree position and
   * carrying its squared distance from the query. For `k = 0` or a single-point tree the point
   * gets no neighbours.
   */
  ghost predicate NeighbourSearch(knn: NeighbourQuery, k: int)
  {
    forall tree: Tree, p: Point3D ::
      HeapInTree(tree, knn(tree, p)) && |knn(tree, p)| <= k + 1 && DistancesFrom(tree, p, knn(tree, p))
  }

  /** The keeper for each point, in order. */
  function Heaps(knn: NeighbourQuery, tree: Tree, points: seq<Point3D>): (r: seq<seq<ComparableDist>>)
    ensures |r| == |points| && forall i :: 0 <= i < |points| ==> r[i] == knn(tree, points[i])
  {
    seq(|points|, i requires 0 <= i < |points| => knn(tree, points[i]))
  }

  /** Every point of `after` is the point of `before` with the normal its keeper gives it. */
  ghost predicate NormalsEstimated(tree: Tree, heaps: seq<seq<ComparableDist>>, factorize: Mat3 -> Option<Factorization>,
                                   before: seq<Point3D>, after: seq<Point3D>)
  {
    |heaps| == |before| == |after| &&
    forall i :: 0 <= i < |heaps| ==>
      HeapInTree(tree, heaps[i]) && NormalWritten(tree, heaps[i], factorize, before[i], after[i])
  }

  /** Normal estimation stopped at a point whose covariance did not factorise. */
  ghost predicate NormalsStopped(tree: Tree, heaps: seq<seq<ComparableDist>>, factorize: Mat3 -> Option<Factorization>,
                                 before: seq<Point3D>, after: seq<Point3D>)
  {
    |heaps| == |before| == |after| &&
    (forall i :: 0 <= i < |heaps| ==> HeapInTree(tree, heaps[i])) &&
    exists f :: FailedAt(tree, heaps, factorize, f, before, after)
  }

  /**
   * `PointToPlane(source, target, params)`: filters both clouds, estimates a normal for every
   * point of `target` from its neighbours in the filtered target tree, and then runs the
   * controller with the point-to-plane step from the identity on the filtered source. The
   * normals are written into the caller's `target`; the tree holds those same points, so the
   * step sees the filtered target with its new normals. A failed normal estimation is an error.
   * Both reported counts are `target`'s length. The ghost results are the voxelisations
   * `Filter` chose and whether every normal was estimated.
   */
  method PointToPlane(source: seq<Point3D>, target: array<Point3D>, params: Params, num: Numerics, knn: NeighbourQuery)
    returns (result: Result<IcpResult, Error>, ghost sourcePositions: seq<nat>, ghost targetPositions: seq<nat>,
             ghost normalsOk: bool)
    requires params.filterParams.voxelSize != 0.0
    requires NeighbourSearch(knn, params.numNeighborsNormals)
    modifies target
    ensures IsVoxelization(source, params.filterParams.voxelSize, sourcePositions)
    ensures IsVoxelization(old(target[..]), params.filterParams.voxelSize, targetPositions)
    ensures (forall k :: 0 <= k < |sourcePositions| ==> sourcePositions[k] < |source|) &&
            (forall k :: 0 <= k < |targetPositions| ==> targetPositions[k] < target.Length)
    ensures forall i :: 0 <= i < target.Length ==> SameCoordinates(target[i], old(target[i]))
    ensures var tree := Select(old(target[..]), targetPositions);
      normalsOk == NormalsEstimated(tree, Heaps(knn, tree, old(target[..])), num.factorize, old(target[..]), target[..])
    ensures var tree := Select(old(target[..]), targetPositions);
      !normalsOk ==> (result == Err(NormalsFailed) &&
                      NormalsStopped(tree, Heaps(knn, tree, old(target[..])), num.factorize, old(target[..]), target[..]))
    ensures normalsOk ==> result == Report(
      Iterate(PointToPlaneStep(Select(target[..], targetPositions), num), Select(source, sourcePositions),
              Identity(4), [], Fuel(params.maxIterations), params.tolerance),
      target.Length, target.Length)
  {
    var before := target[..];
    var _, transformed, srcPos := Filter.Filter(source, params);
    var tree, _, tgtPos := Filter.Filter(before, params);
    sourcePositions, targetPositions := srcPos, tgtPos;
    var heaps := Heaps(knn, tree, before);
    var ok := ComputeNormals(tree, target, heaps, params.numNeighborsNormals, num.factorize);
    normalsOk := ok;
    if !ok {
      assert !NormalsEstimated(tree, heaps, num.factorize, before, target[..]) by {
        var f :| FailedAt(tree, heaps, num.factorize, f, before, target[..]);
        assert !NormalWritten(tree, heaps[f], num.factorize, before[f], target[f]);
      }
      result := Err(NormalsFailed);
      return;
    }
    var normalTree := Select(target[..], tgtPos);
    result := RunPointToPlane(transformed, normalTree, params, num, target.Length, target.Length);
  }

  /**
   * The result `PointToPlane(source, target, params)` reports for the given voxelisations of the
   * two clouds, with `after` the target buffer once the normals are written: either every normal
   * was estimated and the result is the controller's run with the point-to-plane step, or normal
   * estimation stopped and the result is that error.
   */
  ghost predicate PointToPlaneRun(source: seq<Point3D>, target: seq<Point3D>, params: Params, num: Numerics,
                                  knn: NeighbourQuery, after: seq<Point3D>, sourcePositions: seq<nat>,
                                  targetPositions: seq<nat>, result: Result<IcpResult, Error>)
    requires params.filterParams.voxelSize != 0.0
  {
    |after| == |target| &&
    (forall i :: 0 <= i < |target| ==> SameCoordinates(after[i], target[i])) &&
    IsVoxelization(source, params.filterParams.voxelSize, sourcePositions) &&
    IsVoxelization(target, params.filterParams.voxelSize, targetPositions) &&
    (forall k :: 0 <= k < |sourcePositions| ==> sourcePositions[k] < |source|) &&
    (forall k :: 0 <= k < |targetPositions| ==> targetPositions[k] < |target|) &&
    var tree := Select(target, targetPositions);
    var heaps := Heaps(knn, tree, target);
    (NormalsEstimated(tree, heaps, num.factorize, target, after) &&
     result == Report(
       Iterate(PointToPlaneStep(Select(after, targetPositions), num), Select(source, sourcePositions),
               Identity(4), [], Fuel(params.maxIterations), params.tolerance),
       |target|, |target|)) ||
    (NormalsStopped(tree, heaps, num.factorize, target, after) && result == Err(NormalsFailed))
  }

  /** The results `PointToPlane(source, target, params)` can report, for some voxelisation of each cloud. */
  ghost predicate PointToPlaneOutcome(source: seq<Point3D>, target: seq<Point3D>, params: Params, num: Numerics,
                                      knn: NeighbourQuery, after: seq<Point3D>, result: Result<IcpResult, Error>)
    requires params.filterParams.voxelSize != 0.0
  {
    exists sourcePositions: seq<nat>, targetPositions: seq<nat> ::
      PointToPlaneRun(source, target, params, num, knn, after, sourcePositions, targetPositions, result)
  }

  /** The guarantees of `PointToPlane`, stated on the target buffer before and after, make an outcome. */
  lemma PointToPlaneOutcomeIntro(source: seq<Point3D>, before: seq<Point3D>, after: seq<Point3D>, params: Params,
                                 num: Numerics, knn: NeighbourQuery, sourcePositions: seq<nat>,
                                 targetPositions: seq<nat>, normalsOk: bool, result: Result<IcpResult, Error>)
    requires params.filterParams.voxelSize != 0.0
    requires IsVoxelization(source, params.filterParams.voxelSize, sourcePositions)
    requires IsVoxelization(before, params.filterParams.voxelSize, targetPositions)
    requires (forall k :: 0 <= k < |sourcePositions| ==> sourcePositions[k] < |source|) &&
             (forall k :: 0 <= k < |targetPositions| ==> targetPositions[k] < |before|)
    requires |after| == |before| && forall i :: 0 <= i < |before| ==> SameCoordinates(after[i], before[i])
    requires var tree := Select(before, targetPositions);
      normalsOk == NormalsEstimated(tree, Heaps(knn, tree, before), num.factorize, before, after)
    requires var tree := Select(before, targetPositions);
      !normalsOk ==> (result == Err(NormalsFailed) &&
                      NormalsStopped(tree, Heaps(knn, tree, before), num.factorize, before, after))
    requires normalsOk ==> result == Report(
      Iterate(PointToPlaneStep(Select(after, targetPositions), num), Select(source, sourcePositions),
              Identity(4), [], Fuel(params.maxIterations), params.tolerance),
      |before|, |before|)
    ensures PointToPlaneOutcome(source, before, params, num, knn, after, result)
  {
    assert PointToPlaneRun(source, before, params, num, knn, after, sourcePositions, targetPositions, result);
  }
}
