/**
 * Dense real matrices, standing in for gonum's `mat.Dense`/`mat.VecDense` and for the
 * `transform.Matrix4` type of the go-common library.
 *
 * The numerical routines the core calls but cannot be verified here (singular value
 * decomposition, determinant, linear solve, the trigonometric Rodrigues formula) are collected in
 * the `Numerics` record and passed to the operations that use them. Each operation relies only on
 * what the record's fields return.
 */
module Matrix {

  import opened Wrappers
  import opened Reals

  type Matrix = seq<seq<real>>

  predicate IsMatrix(m: Matrix, rows: nat, cols: nat)
  {
    |m| == rows && forall i :: 0 <= i < rows ==> |m[i]| == cols
  }

  /** `mat.NewDense(rows, cols, nil)`: all entries zero. */
  function Zero(rows: nat, cols: nat): (m: Matrix)
    ensures IsMatrix(m, rows, cols)
    ensures forall i, j :: 0 <= i < rows && 0 <= j < cols ==> m[i][j] == 0.0
  {
    seq(rows, i => seq(cols, j => 0.0))
  }

  type Mat3 = m: Matrix | IsMatrix(m, 3, 3) witness Zero(3, 3)
  type Mat4 = m: Matrix | IsMatrix(m, 4, 4) witness Zero(4, 4)
  type Mat6 = m: Matrix | IsMatrix(m, 6, 6) witness Zero(6, 6)
  type Vec6 = v: seq<real> | |v| == 6 witness [0.0, 0.0, 0.0, 0.0, 0.0, 0.0]

  /** `m.Set(i, j, v)`: entry `(i, j)` becomes `v`, every other entry and the shape stay. */
  function Set(m: Matrix, i: nat, j: nat, v: real): (r: Matrix)
    requires i < |m| && j < |m[i]|
    ensures |r| == |m| && forall k :: 0 <= k < |m| ==> |r[k]| == |m[k]|
    ensures r[i][j] == v
    ensures forall k, l :: 0 <= k < |m| && 0 <= l < |m[k]| && (k, l) != (i, j) ==> r[k][l] == m[k][l]
  {
    m[i := m[i][j := v]]
  }

  function Identity(n: nat): (m: Matrix)
    ensures IsMatrix(m, n, n)
  {
    seq(n, i => seq(n, j => if i == j then 1.0 else 0.0))
  }

  /** The sum of the pairwise products of two equally long vectors. */
  function Dot(a: seq<real>, b: seq<real>): real
    requires |a| == |b|
  {
    if a == [] then 0.0
    else Dot(a[..|a| - 1], b[..|b| - 1]) + Mul(a[|a| - 1], b[|b| - 1])
  }

  function AddVectors(u: seq<real>, v: seq<real>): (r: seq<real>)
    requires |u| == |v|
    ensures |r| == |u| && forall i :: 0 <= i < |u| ==> r[i] == u[i] + v[i]
  {
    seq(|u|, i requires 0 <= i < |u| => u[i] + v[i])
  }

  function Scale(c: real, u: seq<real>): (r: seq<real>)
    ensures |r| == |u| && forall i :: 0 <= i < |u| ==> r[i] == Mul(c, u[i])
  {
    seq(|u|, i requires 0 <= i < |u| => Mul(c, u[i]))
  }

  lemma {:induction false} DotSymmetric(u: seq<real>, v: seq<real>)
    requires |u| == |v|
    ensures Dot(u, v) == Dot(v, u)
  {
    if u != [] {
      var n := |u| - 1;
      DotSymmetric(u[..n], v[..n]);
      MulSigns(u[n], v[n]);
    }
  }

  /** The dot product is additive in its second argument. */
  lemma {:induction false} DotAdditive(x: seq<real>, u: seq<real>, v: seq<real>)
    requires |x| == |u| == |v|
    ensures Dot(x, AddVectors(u, v)) == Dot(x, u) + Dot(x, v)
  {
    if x != [] {
      var n := |x| - 1;
      assert AddVectors(u, v)[..n] == AddVectors(u[..n], v[..n]);
      DotAdditive(x[..n], u[..n], v[..n]);
      Distributes(x[n], u[n], v[n]);
    }
  }

  /** The dot product is homogeneous in its second argument. */
  lemma {:induction false} DotHomogeneous(x: seq<real>, c: real, u: seq<real>)
    requires |x| == |u|
    ensures Dot(x, Scale(c, u)) == Mul(c, Dot(x, u))
  {
    if x != [] {
      var n := |x| - 1;
      assert Scale(c, u)[..n] == Scale(c, u[..n]);
      DotHomogeneous(x[..n], c, u[..n]);
      Regroup(x[n], c, u[n]);
      Distributes(c, Dot(x[..n], u[..n]), Mul(x[n], u[n]));
    }
  }

  function Column(m: Matrix, j: nat): seq<real>
    requires forall i :: 0 <= i < |m| ==> j < |m[i]|
  {
    seq(|m|, i requires 0 <= i < |m| => m[i][j])
  }

  /** The product of an `n`×`k` and a `k`×`p` matrix. */
  function MatMul(a: Matrix, b: Matrix, n: nat, k: nat, p: nat): (r: Matrix)
    requires IsMatrix(a, n, k) && IsMatrix(b, k, p)
    ensures IsMatrix(r, n, p)
  {
    seq(n, i requires 0 <= i < n => seq(p, j requires 0 <= j < p => Dot(a[i], Column(b, j))))
  }

  function Transpose(m: Mat3): (r: Mat3)
  {
    seq(3, i requires 0 <= i < 3 => seq(3, j requires 0 <= j < 3 => m[j][i]))
  }

  /** `R.Mul(U, VT)` on 3×3 matrices. */
  function Mul3(a: Mat3, b: Mat3): Mat3
  {
    MatMul(a, b, 3, 3, 3)
  }

  /** `A.Dot(B)` on 4×4 homogeneous matrices. */
  function Mul4(a: Mat4, b: Mat4): Mat4
  {
    MatMul(a, b, 4, 4, 4)
  }

  /** A 4×4 matrix whose last row is `0 0 0 1`, as every transform the core builds is. */
  predicate IsAffine(m: Mat4)
  {
    m[3] == [0.0, 0.0, 0.0, 1.0]
  }

  lemma DotOfFour(u: seq<real>, v: seq<real>)
    requires |u| == 4 && |v| == 4
    ensures Dot(u, v) == Mul(u[0], v[0]) + Mul(u[1], v[1]) + Mul(u[2], v[2]) + Mul(u[3], v[3])
  {
    assert u[..3][..2] == u[..2] && v[..3][..2] == v[..2];
    assert u[..2][..1] == u[..1] && v[..2][..1] == v[..1];
    assert Dot(u[..1], v[..1]) == Mul(u[0], v[0]);
    assert Dot(u[..2], v[..2]) == Dot(u[..1], v[..1]) + Mul(u[1], v[1]);
    assert Dot(u[..3], v[..3]) == Dot(u[..2], v[..2]) + Mul(u[2], v[2]);
  }

  /** Entry `(i, j)` of a 4×4 product written out. */
  lemma Mul4Entry(a: Mat4, b: Mat4, i: nat, j: nat)
    requires i < 4 && j < 4
    ensures Mul4(a, b)[i][j] == Mul(a[i][0], b[0][j]) + Mul(a[i][1], b[1][j]) + Mul(a[i][2], b[2][j]) + Mul(a[i][3], b[3][j])
  {
    DotOfFour(a[i], Column(b, j));
  }

  /** The product of two affine matrices is affine, and so is the identity. */
  lemma AffineProduct(a: Mat4, b: Mat4)
    requires IsAffine(a) && IsAffine(b)
    ensures IsAffine(Mul4(a, b))
    ensures IsAffine(Identity(4))
  {
    var r := Mul4(a, b);
    forall j | 0 <= j < 4
      ensures r[3][j] == b[3][j]
    {
      DotOfFour(a[3], Column(b, j));
    }
    assert Identity(4)[3][0] == 0.0 && Identity(4)[3][3] == 1.0;
  }

  /** `m` with every entry of column `c` negated. */
  function NegateColumn(m: Mat3, c: nat): (r: Mat3)
    requires c < 3
  {
    seq(3, i requires 0 <= i < 3 => m[i][c := -m[i][c]])
  }

  /** The factors `U` and `V` of a singular value decomposition `H = U·Σ·Vᵀ`. */
  datatype Factorization = Factorization(u: Mat3, v: Mat3)

  /**
   * The floating-point routines the core calls: `mat.SVD.Factorize` with `UTo`/`VTo` (`None`
   * when factorisation fails), `mat.Det`, `VecDense.SolveVec` (`None` when it reports an error),
   * and `math.Sqrt`, `math.Cos` and `math.Sin`.
   */
  datatype Numerics = Numerics(
    factorize: Mat3 -> Option<Factorization>,
    det: Mat3 -> real,
    solve: (Mat6, Vec6) -> Option<Vec6>,
    sqrt: real -> real,
    cos: real -> real,
    sin: real -> real)

  /**
   * What any determinant satisfies: it is multiplicative and unchanged by transposition, the
   * identity has determinant 1, and negating one column negates it.
   */
  ghost predicate DeterminantLaws(det: Mat3 -> real)
  {
    (forall a: Mat3, b: Mat3 {:trigger det(Mul3(a, b))} :: det(Mul3(a, b)) == Mul(det(a), det(b))) &&
    (forall m: Mat3 :: det(Transpose(m)) == det(m)) &&
    (forall m: Mat3 :: det(NegateColumn(m, 2)) == -det(m)) &&
    det(Identity(3)) == 1.0
  }

  /** The columns of `m` are orthonormal: `mᵀ·m` is the identity, stated entry by entry. */
  ghost predicate Orthogonal(m: Mat3)
  {
    forall i, j :: 0 <= i < 3 && 0 <= j < 3 ==> Dot(Column(m, i), Column(m, j)) == if i == j then 1.0 else 0.0
  }

  lemma OrthogonalGram(m: Mat3)
    requires Orthogonal(m)
    ensures Mul3(Transpose(m), m) == Identity(3)
  {
    var g := Mul3(Transpose(m), m);
    forall i | 0 <= i < 3
      ensures g[i] == Identity(3)[i]
    {
      assert Transpose(m)[i] == Column(m, i);
      assert forall j :: 0 <= j < 3 ==> g[i][j] == Dot(Column(m, i), Column(m, j));
    }
  }

  /** An orthogonal matrix has determinant 1 or -1. */
  lemma OrthogonalDeterminant(det: Mat3 -> real, m: Mat3)
    requires DeterminantLaws(det)
    requires Orthogonal(m)
    ensures det(m) == 1.0 || det(m) == -1.0
  {
    var d := det(m);
    assert Mul(d, d) == 1.0 by {
      OrthogonalGram(m);
      assert det(Mul3(Transpose(m), m)) == Mul(det(Transpose(m)), det(m));
    }
    UnitSquare(d);
  }

  lemma UnitSquare(d: real)
    requires Mul(d, d) == 1.0
    ensures d == 1.0 || d == -1.0
  {
    ExpandShifted(d, d);
    MulSigns(d - 1.0, d + 1.0);
  }

  lemma ExpandShifted(a: real, b: real)
    ensures Mul(a - 1.0, b + 1.0) == Mul(a, b) + a - b - 1.0
  {
  }
}
