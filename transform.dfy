/** The homogeneous-transform helpers of icp/transform.go. */
module Transform {

  import opened Reals
  import opened Point
  import opened Matrix

  /** The 4×4 homogeneous matrix with rotation block `r` and translation `t` (bottom row 0 0 0 1). */
  function Homogeneous(r: Mat3, t: Point3D): (m: Mat4)
  {
    seq(4, i requires 0 <= i < 4 => seq(4, j requires 0 <= j < 4 =>
      if i < 3 && j < 3 then r[i][j]
      else if i == 0 then t.x
      else if i == 1 then t.y
      else if i == 2 then t.z
      else if j == 3 then 1.0
      else 0.0))
  }

  /** The bottom row of a homogeneous transform is `0 0 0 1`. */
  lemma HomogeneousIsAffine(r: Mat3, t: Point3D)
    ensures IsAffine(Homogeneous(r, t))
  {
    assert Homogeneous(r, t)[3] == [0.0, 0.0, 0.0, 1.0];
  }

  lemma HomogeneousEntries(r: Mat3, t: Point3D)
    ensures forall i, j :: 0 <= i < 3 && 0 <= j < 3 ==> Homogeneous(r, t)[i][j] == r[i][j]
    ensures Homogeneous(r, t)[0][3] == t.x && Homogeneous(r, t)[1][3] == t.y && Homogeneous(r, t)[2][3] == t.z
    ensures Homogeneous(r, t)[3] == [0.0, 0.0, 0.0, 1.0]
  {
    var h := Homogeneous(r, t);
    assert h[3][0] == 0.0 && h[3][1] == 0.0 && h[3][2] == 0.0 && h[3][3] == 1.0;
  }

  /** `R·p` for a 3×3 matrix `R`, as a point without normal. */
  function Rotate(r: Mat3, p: Point3D): Point3D
  {
    At(Mul(r[0][0], p.x) + Mul(r[0][1], p.y) + Mul(r[0][2], p.z),
       Mul(r[1][0], p.x) + Mul(r[1][1], p.y) + Mul(r[1][2], p.z),
       Mul(r[2][0], p.x) + Mul(r[2][1], p.y) + Mul(r[2][2], p.z))
  }

  /** `NewIdentityHomogeneous()`: a zero 4×4 matrix whose diagonal is then set to 1. */
  method NewIdentityHomogeneous() returns (t: Mat4)
    ensures t == Identity(4)
    ensures forall i, j :: 0 <= i < 4 && 0 <= j < 4 ==> t[i][j] == if i == j then 1.0 else 0.0
  {
    t := Zero(4, 4);
    for i := 0 to 4
      invariant IsMatrix(t, 4, 4)
      invariant forall r, c :: 0 <= r < 4 && 0 <= c < 4 ==> t[r][c] == if r == c && r < i then 1.0 else 0.0
    {
      t := Set(t, i, i, 1.0);
    }
    assert forall r :: 0 <= r < 4 ==> t[r] == Identity(4)[r];
  }

  /**
   * `HomogeneousTransform(R, point)`: an identity 4×4 matrix, then the rotation copied into the
   * top-left block, then the translation written into column 3.
   */
  method HomogeneousTransform(r: Mat3, point: Point3D) returns (t: Mat4)
    ensures t == Homogeneous(r, point)
    ensures forall i, j :: 0 <= i < 3 && 0 <= j < 3 ==> t[i][j] == r[i][j]
    ensures t[0][3] == point.x && t[1][3] == point.y && t[2][3] == point.z
    ensures t[3] == [0.0, 0.0, 0.0, 1.0]
  {
    t := Zero(4, 4);
    for i := 0 to 4
      invariant IsMatrix(t, 4, 4)
      invariant forall a, b :: 0 <= a < 4 && 0 <= b < 4 ==> t[a][b] == if a == b && a < i then 1.0 else 0.0
    {
      t := Set(t, i, i, 1.0);
    }
    for i := 0 to 3
      invariant IsMatrix(t, 4, 4)
      invariant forall a, b :: 0 <= a < 4 && 0 <= b < 4 ==>
        t[a][b] == if a < i && b < 3 then r[a][b] else if a == b then 1.0 else 0.0
    {
      for j := 0 to 3
        invariant IsMatrix(t, 4, 4)
        invariant forall a, b :: 0 <= a < 4 && 0 <= b < 4 ==>
          t[a][b] == if (a < i || (a == i && b < j)) && b < 3 then r[a][b] else if a == b then 1.0 else 0.0
      {
        t := Set(t, i, j, r[i][j]);
      }
    }
    t := Set(t, 0, 3, point.x);
    t := Set(t, 1, 3, point.y);
    t := Set(t, 2, 3, point.z);
    assert t[3] == [0.0, 0.0, 0.0, 1.0];
    assert forall a :: 0 <= a < 4 ==> t[a] == Homogeneous(r, point)[a];
  }

  /** The translation part of `ExtractTranslationYaw(T)`: column 3 of rows 0-2. */
  function ExtractTranslation(t: Mat4): Point3D
  {
    At(t[0][3], t[1][3], t[2][3])
  }

  /** Extracting the translation of `HomogeneousTransform(R, t)` gives back `t`. */
  lemma TranslationRoundTrip(r: Mat3, t: Point3D)
    ensures SameCoordinates(ExtractTranslation(Homogeneous(r, t)), t)
    ensures ExtractTranslation(Homogeneous(r, t)) == At(t.x, t.y, t.z)
  {
  }

  /** `TransformPoint(p, tform)`: rows 0-2 of `tform` applied to `(p.X, p.Y, p.Z, 1)`. */
  function TransformPoint(p: Point3D, tform: Mat4): Point3D
  {
    At(Mul(tform[0][0], p.x) + Mul(tform[0][1], p.y) + Mul(tform[0][2], p.z) + tform[0][3],
       Mul(tform[1][0], p.x) + Mul(tform[1][1], p.y) + Mul(tform[1][2], p.z) + tform[1][3],
       Mul(tform[2][0], p.x) + Mul(tform[2][1], p.y) + Mul(tform[2][2], p.z) + tform[2][3])
  }

  /** The identity moves no point. */
  lemma TransformIdentity(p: Point3D)
    ensures SameCoordinates(TransformPoint(p, Identity(4)), p)
  {
  }

  /** `HomogeneousTransform(R, t)` maps `p` to `R·p + t`. */
  lemma TransformHomogeneous(r: Mat3, t: Point3D, p: Point3D)
    ensures var q, rp := TransformPoint(p, Homogeneous(r, t)), Rotate(r, p);
      q.x == rp.x + t.x && q.y == rp.y + t.y && q.z == rp.z + t.z
  {
  }

  /**
   * Applying `Mul4(t, m)` is applying `m` and then `t`, when `m` is affine: the right factor of
   * a product acts first.
   */
  lemma ProductAppliesRightFactorFirst(p: Point3D, t: Mat4, m: Mat4)
    requires IsAffine(m)
    ensures SameCoordinates(TransformPoint(p, Mul4(t, m)), TransformPoint(TransformPoint(p, m), t))
  {
    ProductRow(p, t, m, 0);
    ProductRow(p, t, m, 1);
    ProductRow(p, t, m, 2);
  }

  /** Coordinate `i` of `TransformPoint(p, m)`, as row `i` of `m` applied to `p`. */
  function TransformedCoordinate(p: Point3D, m: Mat4, i: nat): real
    requires i < 3
  {
    Mul(m[i][0], p.x) + Mul(m[i][1], p.y) + Mul(m[i][2], p.z) + m[i][3]
  }

  lemma ProductRow(p: Point3D, t: Mat4, m: Mat4, i: nat)
    requires IsAffine(m) && i < 3
    ensures TransformedCoordinate(p, Mul4(t, m), i) == TransformedCoordinate(TransformPoint(p, m), t, i)
  {
    Mul4Entry(t, m, i, 0);
    Mul4Entry(t, m, i, 1);
    Mul4Entry(t, m, i, 2);
    Mul4Entry(t, m, i, 3);
    AffineRow(t[i][0], t[i][1], t[i][2], t[i][3], m[0], m[1], m[2], p);
  }

  /** One row of `ProductAppliesRightFactorFirst`, for rows `m0`, `m1`, `m2` above `0 0 0 1`. */
  lemma AffineRow(t0: real, t1: real, t2: real, t3: real, m0: seq<real>, m1: seq<real>, m2: seq<real>, p: Point3D)
    requires |m0| == 4 && |m1| == 4 && |m2| == 4
    ensures
      Mul(Mul(t0, m0[0]) + Mul(t1, m1[0]) + Mul(t2, m2[0]) + Mul(t3, 0.0), p.x) +
      Mul(Mul(t0, m0[1]) + Mul(t1, m1[1]) + Mul(t2, m2[1]) + Mul(t3, 0.0), p.y) +
      Mul(Mul(t0, m0[2]) + Mul(t1, m1[2]) + Mul(t2, m2[2]) + Mul(t3, 0.0), p.z) +
      (Mul(t0, m0[3]) + Mul(t1, m1[3]) + Mul(t2, m2[3]) + Mul(t3, 1.0))
      ==
      Mul(t0, Mul(m0[0], p.x) + Mul(m0[1], p.y) + Mul(m0[2], p.z) + m0[3]) +
      Mul(t1, Mul(m1[0], p.x) + Mul(m1[1], p.y) + Mul(m1[2], p.z) + m1[3]) +
      Mul(t2, Mul(m2[0], p.x) + Mul(m2[1], p.y) + Mul(m2[2], p.z) + m2[3]) + t3
  {
  }

  /** The result has no normal and depends on rows 0-2 of the matrix only. */
  lemma TransformReadsTopRows(p: Point3D, a: Mat4, b: Mat4)
    requires a[0] == b[0] && a[1] == b[1] && a[2] == b[2]
    ensures TransformPoint(p, a) == TransformPoint(p, b)
    ensures TransformPoint(p, a).nx == 0.0 && TransformPoint(p, a).ny == 0.0 && TransformPoint(p, a).nz == 0.0
  {
  }
}
