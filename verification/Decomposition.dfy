/** Taking a combined translation-rotation-scale matrix apart gives back what it was built from. */
module Decomposition {
  import opened XrLinear
  import opened MatrixInverse
  import opened Poses
  import opened RigidBodies

  const ASSERT_EPSILON := 0.0001

  /** The two asserts that open GetTranslation, GetRotation and GetScale. */
  predicate Extractable(m: Mat4) {
    m.IsAffine(ASSERT_EPSILON) && Orthogonal(m, ASSERT_EPSILON)
  }

  function LengthSquared(c: Vec4): real { c.x * c.x + c.y * c.y + c.z * c.z }

  function GetTranslation(m: Mat4): Vec3 { Vec3(m.c3.x, m.c3.y, m.c3.z) }

  ghost function GetScale(m: Mat4): Vec3 {
    Vec3(Sqrt(LengthSquared(m.c0)), Sqrt(LengthSquared(m.c1)), Sqrt(LengthSquared(m.c2)))
  }

  /** The four-way case split of XrMatrix4x4f_GetRotation on the normalised columns. */
  datatype Dominant = W | X | Y | Z

  function DominantOf(m: Mat4): Dominant {
    if m.c0.x + m.c1.y + m.c2.z > 0.0 then W
    else if m.c0.x > m.c1.y && m.c0.x > m.c2.z then X
    else if m.c1.y > m.c2.z then Y
    else Z
  }

  /** The divisor t of the chosen branch. */
  function Divisor(m: Mat4): real {
    match DominantOf(m)
    case W => m.c0.x + m.c1.y + m.c2.z + 1.0
    case X => m.c0.x - m.c1.y - m.c2.z + 1.0
    case Y => -m.c0.x + m.c1.y - m.c2.z + 1.0
    case Z => -m.c0.x - m.c1.y + m.c2.z + 1.0
  }

  function Scaled(x: real, y: real, z: real, w: real, s: real): Quat { Quat(x * s, y * s, z * s, w * s) }

  ghost function QuatOfColumns(m: Mat4): Quat {
    var t := Divisor(m);
    var s := RcpSqrt(t) * 0.5;
    match DominantOf(m)
    case W => Scaled(m.c1.z - m.c2.y, m.c2.x - m.c0.z, m.c0.y - m.c1.x, t, s)
    case X => Scaled(t, m.c0.y + m.c1.x, m.c2.x + m.c0.z, m.c1.z - m.c2.y, s)
    case Y => Scaled(m.c0.y + m.c1.x, t, m.c1.z + m.c2.y, m.c2.x - m.c0.z, s)
    case Z => Scaled(m.c2.x + m.c0.z, m.c1.z + m.c2.y, t, m.c0.y - m.c1.x, s)
  }

  ghost function Normalised(m: Mat4): Mat4 {
    Mat4(m.c0.Times(RcpSqrt(LengthSquared(m.c0))), m.c1.Times(RcpSqrt(LengthSquared(m.c1))),
         m.c2.Times(RcpSqrt(LengthSquared(m.c2))), m.c3)
  }

  /** XrMatrix4x4f_GetRotation, below its asserts. */
  ghost function GetRotation(m: Mat4): Quat { QuatOfColumns(Normalised(m)) }

  // ---------- Roots ----------

  lemma ProductPositive(a: real, b: real)
    requires a > 0.0 && b > 0.0
    ensures a * b > 0.0
  {}

  lemma SquareIncreases(a: real, b: real)
    requires 0.0 <= a < b
    ensures a * a < b * b
  {
    ProductPositive(b - a, b + a);
  }

  lemma SqrtUnique(x: real, r: real)
    requires IsSqrt(x, r)
    ensures Sqrt(x) == r
  {
    var s := Sqrt(x);
    if s < r {
      SquareIncreases(s, r);
    } else if r < s {
      SquareIncreases(r, s);
    }
  }

  lemma RcpSqrtUnique(x: real, r: real)
    requires x >= SMALLEST_NON_DENORMAL && IsRcpSqrt(x, r)
    ensures RcpSqrt(x) == r
  {
    var s := RcpSqrt(x);
    if s < r {
      SquareIncreases(s, r);
    } else if r < s {
      SquareIncreases(r, s);
    }
  }

  /** Below the smallest normal number the reciprocal root is 1, and from there on the true one. */
  lemma RcpSqrtThreshold(x: real, r: real)
    ensures x < 0.000000000000000000000000000000000000011754943508222875 ==> RcpSqrt(x) == 1.0
    ensures x >= 0.000000000000000000000000000000000000011754943508222875 && r > 0.0 && r * r * x == 1.0 ==>
      RcpSqrt(x) == r
  {
    if x >= SMALLEST_NON_DENORMAL && IsRcpSqrt(x, r) {
      RcpSqrtUnique(x, r);
    }
  }

  /** The scale factor s of a branch whose divisor is 4 u u. */
  lemma HalfRoot(u: real, t: real)
    requires t == 4.0 * u * u && t >= 1.0
    ensures 4.0 * Abs(u) * (RcpSqrt(t) * 0.5) == 1.0
  {
    var a := Abs(u);
    assert u * u == a * a;
    assert a > 0.0;
    var r := 1.0 / (2.0 * a);
    assert 2.0 * a * r == 1.0;
    assert r > 0.0;
    assert r * r * t == (2.0 * a * r) * (2.0 * a * r);
    assert IsRcpSqrt(t, r);
    RcpSqrtUnique(t, r);
  }

  /** One stored component: 4 u v scaled by s is v up to the sign of u. */
  lemma ScaledProduct(u: real, v: real, s: real, p: real)
    requires 4.0 * Abs(u) * s == 1.0 && p == 4.0 * u * v
    ensures u > 0.0 ==> p * s == v
    ensures u < 0.0 ==> p * s == -v
    ensures u != 0.0
  {
    if u > 0.0 {
      assert p * s == (4.0 * u * s) * v;
    } else if u < 0.0 {
      assert p * s == -(4.0 * Abs(u) * s) * v;
    }
  }

  lemma DiagonalFields(q: Quat)
    ensures var m := FromQuaternion(q);
      && m.c0.x == 1.0 - 2.0 * q.y * q.y - 2.0 * q.z * q.z
      && m.c1.y == 1.0 - 2.0 * q.x * q.x - 2.0 * q.z * q.z
      && m.c2.z == 1.0 - 2.0 * q.x * q.x - 2.0 * q.y * q.y
  {}

  /** The diagonal sums of a rotation matrix, in terms of its quaternion. */
  lemma Diagonals(q: Quat)
    requires q.Unit()
    ensures var m := FromQuaternion(q);
      && m.c0.x + m.c1.y + m.c2.z + 1.0 == 4.0 * q.w * q.w
      && m.c0.x - m.c1.y - m.c2.z + 1.0 == 4.0 * q.x * q.x
      && -m.c0.x + m.c1.y - m.c2.z + 1.0 == 4.0 * q.y * q.y
      && -m.c0.x - m.c1.y + m.c2.z + 1.0 == 4.0 * q.z * q.z
  {
    hide FromQuaternion;
    DiagonalFields(q);
  }

  lemma OffDiagonals(q: Quat)
    ensures var m := FromQuaternion(q);
      && m.c1.z - m.c2.y == 4.0 * q.w * q.x && m.c2.x - m.c0.z == 4.0 * q.w * q.y && m.c0.y - m.c1.x == 4.0 * q.w * q.z
      && m.c0.y + m.c1.x == 4.0 * q.x * q.y && m.c2.x + m.c0.z == 4.0 * q.x * q.z && m.c1.z + m.c2.y == 4.0 * q.y * q.z
  {}

  /** Every branch divides by the root of at least 1: its component is the largest of the four, or w is at least 1/2. */
  lemma DivisorAtLeastOne(q: Quat)
    requires q.Unit()
    ensures Divisor(FromQuaternion(q)) >= 1.0
  {
    hide FromQuaternion;
    Diagonals(q);
  }

  /** Scaling a row of products 4 u v by 1 / (4 |u|): the quaternion itself, or its negation. */
  lemma ScaledQuat(u: real, q: Quat, s: real, x: real, y: real, z: real, w: real)
    requires 4.0 * Abs(u) * s == 1.0
    requires x == 4.0 * u * q.x && y == 4.0 * u * q.y && z == 4.0 * u * q.z && w == 4.0 * u * q.w
    ensures Scaled(x, y, z, w, s) in {q, q.Negate()}
  {
    ScaledProduct(u, q.x, s, x);
    ScaledProduct(u, q.y, s, y);
    ScaledProduct(u, q.z, s, z);
    ScaledProduct(u, q.w, s, w);
  }

  /** One branch: its divisor is 4 u u, its other sums are 4 u v for the other components v. */
  lemma BranchRoundTrip(q: Quat, u: real, t: real, x: real, y: real, z: real, w: real)
    requires t == 4.0 * u * u && t >= 1.0
    requires x == 4.0 * u * q.x && y == 4.0 * u * q.y && z == 4.0 * u * q.z && w == 4.0 * u * q.w
    ensures Scaled(x, y, z, w, RcpSqrt(t) * 0.5) in {q, q.Negate()}
  {
    hide Scaled;
    HalfRoot(u, t);
    ScaledQuat(u, q, RcpSqrt(t) * 0.5, x, y, z, w);
  }

  lemma BranchW(q: Quat, m: Mat4)
    requires q.Unit() && m == FromQuaternion(q) && DominantOf(m).W?
    ensures QuatOfColumns(m) in {q, q.Negate()}
  {
    hide FromQuaternion, RcpSqrt, Quat.Negate, Scaled, Quat.Unit;
    var t := Divisor(m);
    Diagonals(q);
    OffDiagonals(q);
    DivisorAtLeastOne(q);
    BranchRoundTrip(q, q.w, t, m.c1.z - m.c2.y, m.c2.x - m.c0.z, m.c0.y - m.c1.x, t);
  }

  lemma BranchX(q: Quat, m: Mat4)
    requires q.Unit() && m == FromQuaternion(q) && DominantOf(m).X?
    ensures QuatOfColumns(m) in {q, q.Negate()}
  {
    hide FromQuaternion, RcpSqrt, Quat.Negate, Scaled, Quat.Unit;
    var t := Divisor(m);
    Diagonals(q);
    OffDiagonals(q);
    DivisorAtLeastOne(q);
    BranchRoundTrip(q, q.x, t, t, m.c0.y + m.c1.x, m.c2.x + m.c0.z, m.c1.z - m.c2.y);
  }

  lemma BranchY(q: Quat, m: Mat4)
    requires q.Unit() && m == FromQuaternion(q) && DominantOf(m).Y?
    ensures QuatOfColumns(m) in {q, q.Negate()}
  {
    hide FromQuaternion, RcpSqrt, Quat.Negate, Scaled, Quat.Unit;
    var t := Divisor(m);
    Diagonals(q);
    OffDiagonals(q);
    DivisorAtLeastOne(q);
    BranchRoundTrip(q, q.y, t, m.c0.y + m.c1.x, t, m.c1.z + m.c2.y, m.c2.x - m.c0.z);
  }

  lemma BranchZ(q: Quat, m: Mat4)
    requires q.Unit() && m == FromQuaternion(q) && DominantOf(m).Z?
    ensures QuatOfColumns(m) in {q, q.Negate()}
  {
    hide FromQuaternion, RcpSqrt, Quat.Negate, Scaled, Quat.Unit;
    var t := Divisor(m);
    Diagonals(q);
    OffDiagonals(q);
    DivisorAtLeastOne(q);
    BranchRoundTrip(q, q.z, t, m.c2.x + m.c0.z, m.c1.z + m.c2.y, t, m.c0.y - m.c1.x);
  }

  /** A unit quaternion survives the trip through its matrix, up to sign. */
  lemma RotationRoundTrip(q: Quat)
    requires q.Unit()
    ensures QuatOfColumns(FromQuaternion(q)) in {q, q.Negate()}
  {
    hide FromQuaternion, QuatOfColumns, DominantOf;
    var m := FromQuaternion(q);
    match DominantOf(m)
    case W => BranchW(q, m);
    case X => BranchX(q, m);
    case Y => BranchY(q, m);
    case Z => BranchZ(q, m);
  }

  // ---------- Scale ----------

  lemma ScaledLength(c: Vec4, s: real)
    requires LengthSquared(c) == 1.0
    ensures LengthSquared(c.Times(s)) == s * s
  {
    assert LengthSquared(c.Times(s)) == LengthSquared(c) * (s * s);
  }

  lemma Cancel(x: real, s: real, r: real)
    requires r * s == 1.0
    ensures x * s * r == x
  {
    assert x * s * r == x * (r * s);
  }

  /** A scaled unit column: its length is the scale, and dividing by it gives the column back. */
  lemma ScaleColumn(c: Vec4, s: real)
    requires LengthSquared(c) == 1.0 && c.w == 0.0 && s > 0.0 && s * s >= SMALLEST_NON_DENORMAL
    ensures Sqrt(LengthSquared(c.Times(s))) == s
    ensures c.Times(s).Times(RcpSqrt(LengthSquared(c.Times(s)))) == c
  {
    ScaledLength(c, s);
    SqrtUnique(s * s, s);
    var r := 1.0 / s;
    assert r * s == 1.0;
    assert r * r * (s * s) == (r * s) * (r * s);
    RcpSqrtUnique(s * s, r);
    Cancel(c.x, s, r);
    Cancel(c.y, s, r);
    Cancel(c.z, s, r);
  }

  lemma RotationDots(q: Quat)
    requires q.Unit()
    ensures forall i, j | 0 <= i < 3 && 0 <= j < 3 ::
      ColumnDot(FromQuaternion(q), i, j) == Delta(i, j) && RowDot(FromQuaternion(q), i, j) == Delta(i, j)
  {
    hide FromRigidTransform, FromQuaternion, ColumnDot, RowDot, Rigid;
    var p := Pose(q, Vec3(0.0, 0.0, 0.0));
    PoseMatrixIsRigid(p);
    RigidColumns(p);
    QuaternionAxes(q);
    assert FromRigidTransform(p) == FromQuaternion(q);
    RigidFacts(FromRigidTransform(p));
  }

  lemma LengthIsDot(m: Mat4)
    ensures LengthSquared(m.c0) == ColumnDot(m, 0, 0)
    ensures LengthSquared(m.c1) == ColumnDot(m, 1, 1)
    ensures LengthSquared(m.c2) == ColumnDot(m, 2, 2)
  {}

  lemma RotationColumns(q: Quat)
    requires q.Unit()
    ensures var r := FromQuaternion(q);
      && LengthSquared(r.c0) == LengthSquared(r.c1) == LengthSquared(r.c2) == 1.0
      && r.c0.w == r.c1.w == r.c2.w == 0.0 && r.c3 == Vec4(0.0, 0.0, 0.0, 1.0)
  {
    hide FromQuaternion, LengthSquared, ColumnDot, RowDot;
    RotationDots(q);
    LengthIsDot(FromQuaternion(q));
    QuaternionAxes(q);
  }

  /** The decomposition inverts the composition, for every positive scale (uniform or not). */
  lemma DecompositionRoundTrip(t: Vec3, q: Quat, s: Vec3)
    requires q.Unit()
    requires s.x > 0.0 && s.y > 0.0 && s.z > 0.0
    requires s.x * s.x >= SMALLEST_NON_DENORMAL && s.y * s.y >= SMALLEST_NON_DENORMAL
    requires s.z * s.z >= SMALLEST_NON_DENORMAL
    ensures var m := TranslationRotationScale(t, q, s);
      GetTranslation(m) == t && GetScale(m) == s && GetRotation(m) in {q, q.Negate()}
  {
    hide FromQuaternion, TranslationRotationScale, QuatOfColumns, Vec4.Times, LengthSquared, Quat.Negate;
    var r := FromQuaternion(q);
    TrsColumns(t, q, s);
    RotationColumns(q);
    ScaleColumn(r.c0, s.x);
    ScaleColumn(r.c1, s.y);
    ScaleColumn(r.c2, s.z);
    RotationRoundTrip(q);
    IgnoresTranslation(r, r.(c3 := Point(t)));
  }

  lemma IgnoresTranslation(a: Mat4, b: Mat4)
    requires a.c0 == b.c0 && a.c1 == b.c1 && a.c2 == b.c2
    ensures QuatOfColumns(a) == QuatOfColumns(b)
  {}

  // ---------- The asserts ----------

  /** The product of rows i and j of a scaled rotation, by how far each scale is from the z scale. */
  function RowSkew(q: Quat, s: Vec3, i: int, j: int): real
    requires 0 <= i < 3 && 0 <= j < 3
  {
    var r := FromQuaternion(q);
    (s.x * s.x - s.z * s.z) * (r.c0.At(i) * r.c0.At(j)) + (s.y * s.y - s.z * s.z) * (r.c1.At(i) * r.c1.At(j))
  }

  lemma ScaledPairs(m: Mat4, r: Mat4, i: int, j: int, s: Vec3)
    requires 0 <= i < 3 && 0 <= j < 3
    requires m.c0.At(i) == r.c0.At(i) * s.x && m.c0.At(j) == r.c0.At(j) * s.x
    requires m.c1.At(i) == r.c1.At(i) * s.y && m.c1.At(j) == r.c1.At(j) * s.y
    requires m.c2.At(i) == r.c2.At(i) * s.z && m.c2.At(j) == r.c2.At(j) * s.z
    ensures m.c0.At(i) * m.c0.At(j) == (s.x * s.x) * (r.c0.At(i) * r.c0.At(j))
    ensures m.c1.At(i) * m.c1.At(j) == (s.y * s.y) * (r.c1.At(i) * r.c1.At(j))
    ensures m.c2.At(i) * m.c2.At(j) == (s.z * s.z) * (r.c2.At(i) * r.c2.At(j))
  {
    hide Vec4.At;
  }

  lemma ScaledRows(m: Mat4, r: Mat4, i: int, j: int, s: Vec3)
    requires 0 <= i < 3 && 0 <= j < 3 && RowDot(r, i, j) == 0.0
    requires m.c0 == r.c0.Times(s.x) && m.c1 == r.c1.Times(s.y) && m.c2 == r.c2.Times(s.z)
    ensures RowDot(m, i, j) ==
      (s.x * s.x - s.z * s.z) * (r.c0.At(i) * r.c0.At(j)) + (s.y * s.y - s.z * s.z) * (r.c1.At(i) * r.c1.At(j))
  {
    hide Vec4.Times, Vec4.At, RowDot;
    TimesAt(r.c0, s.x, i); TimesAt(r.c0, s.x, j);
    TimesAt(r.c1, s.y, i); TimesAt(r.c1, s.y, j);
    TimesAt(r.c2, s.z, i); TimesAt(r.c2, s.z, j);
    ScaledPairs(m, r, i, j, s);
    RowDotIs(m, i, j);
    Balanced(r, i, j, s);
  }

  lemma RowDotIs(m: Mat4, i: int, j: int)
    requires 0 <= i < 3 && 0 <= j < 3
    ensures RowDot(m, i, j) == m.c0.At(i) * m.c0.At(j) + m.c1.At(i) * m.c1.At(j) + m.c2.At(i) * m.c2.At(j)
  {}

  /** Where two rows are perpendicular, the z scale can be taken out of their scaled product. */
  lemma Balanced(r: Mat4, i: int, j: int, s: Vec3)
    requires 0 <= i < 3 && 0 <= j < 3 && RowDot(r, i, j) == 0.0
    ensures (s.x * s.x) * (r.c0.At(i) * r.c0.At(j)) + (s.y * s.y) * (r.c1.At(i) * r.c1.At(j)) +
            (s.z * s.z) * (r.c2.At(i) * r.c2.At(j)) ==
            (s.x * s.x - s.z * s.z) * (r.c0.At(i) * r.c0.At(j)) + (s.y * s.y - s.z * s.z) * (r.c1.At(i) * r.c1.At(j))
  {
    hide Vec4.At, RowDot;
    RowDotIs(r, i, j);
    assert (s.z * s.z) * (r.c0.At(i) * r.c0.At(j) + r.c1.At(i) * r.c1.At(j) + r.c2.At(i) * r.c2.At(j)) == 0.0;
  }

  lemma TimesAt(v: Vec4, k: real, i: int)
    requires 0 <= i < 4
    ensures v.Times(k).At(i) == v.At(i) * k
  {}

  lemma RowSkewIsRowDot(t: Vec3, q: Quat, s: Vec3, i: int, j: int)
    requires q.Unit() && 0 <= i < 3 && 0 <= j < 3 && i != j
    ensures RowDot(TranslationRotationScale(t, q, s), i, j) == RowSkew(q, s, i, j)
  {
    hide FromQuaternion, TranslationRotationScale, Vec4.Times, Vec4.At, RowDot;
    var r, m := FromQuaternion(q), TranslationRotationScale(t, q, s);
    TrsColumns(t, q, s);
    RotationDots(q);
    ScaledRows(m, r, i, j, s);
  }

  lemma DotTimes(m: Mat4, r: Mat4, i: int, j: int, k: real, l: real)
    requires 0 <= i < 3 && 0 <= j < 3
    requires m.Column(i) == r.Column(i).Times(k) && m.Column(j) == r.Column(j).Times(l)
    requires ColumnDot(r, i, j) == 0.0
    ensures ColumnDot(m, i, j) == 0.0
  {
    hide Mat4.Column;
    var a, b := r.Column(i), r.Column(j);
    assert (a.x * b.x + a.y * b.y + a.z * b.z) * (k * l) == 0.0;
  }

  /** Scaling along the rotated axes keeps the columns exactly perpendicular. */
  lemma ColumnsStayPerpendicular(t: Vec3, q: Quat, s: Vec3, i: int, j: int)
    requires q.Unit() && 0 <= i < 3 && 0 <= j < 3 && i != j
    ensures ColumnDot(TranslationRotationScale(t, q, s), i, j) == 0.0
  {
    hide FromQuaternion, TranslationRotationScale, Vec4.Times, ColumnDot, RowDot;
    var k := if i == 0 then s.x else if i == 1 then s.y else s.z;
    var l := if j == 0 then s.x else if j == 1 then s.y else s.z;
    TrsColumns(t, q, s);
    RotationDots(q);
    DotTimes(TranslationRotationScale(t, q, s), FromQuaternion(q), i, j, k, l);
  }

  predicate Skewed(q: Quat, s: Vec3) {
    exists i, j | 0 <= i < 3 && 0 <= j < 3 && i != j :: Abs(RowSkew(q, s, i, j)) > 0.0001
  }

  /** The asserts themselves, entry by entry and product by product, for every matrix. */
  lemma ExtractableIff(m: Mat4)
    ensures Extractable(m) <==>
      && Within(m.c0.w, 0.0, 0.0001) && Within(m.c1.w, 0.0, 0.0001) && Within(m.c2.w, 0.0, 0.0001)
      && Within(m.c3.w, 1.0, 0.0001)
      && Within(m.c0.x * m.c1.x + m.c0.y * m.c1.y + m.c0.z * m.c1.z, 0.0, 0.0001)
      && Within(m.c0.x * m.c2.x + m.c0.y * m.c2.y + m.c0.z * m.c2.z, 0.0, 0.0001)
      && Within(m.c1.x * m.c2.x + m.c1.y * m.c2.y + m.c1.z * m.c2.z, 0.0, 0.0001)
      && Within(m.c0.x * m.c0.y + m.c1.x * m.c1.y + m.c2.x * m.c2.y, 0.0, 0.0001)
      && Within(m.c0.x * m.c0.z + m.c1.x * m.c1.z + m.c2.x * m.c2.z, 0.0, 0.0001)
      && Within(m.c0.y * m.c0.z + m.c1.y * m.c1.z + m.c2.y * m.c2.z, 0.0, 0.0001)
  {
    hide Orthogonal, Mat4.IsAffine, Within;
    AffineIff(m, 0.0001);
    OrthogonalIff(m, 0.0001);
  }

  /** Exactly when the asserts of the extraction functions hold on a combined matrix. */
  lemma AssertsHoldIffNotSkewed(t: Vec3, q: Quat, s: Vec3)
    requires q.Unit()
    ensures Extractable(TranslationRotationScale(t, q, s)) <==> !Skewed(q, s)
  {
    hide FromQuaternion, TranslationRotationScale, ColumnDot, RowDot, RowSkew, Vec4.Times;
    var m := TranslationRotationScale(t, q, s);
    forall i, j | 0 <= i < 3 && 0 <= j < 3 && i != j
      ensures ColumnDot(m, i, j) == 0.0 && RowDot(m, i, j) == RowSkew(q, s, i, j)
    {
      ColumnsStayPerpendicular(t, q, s, i, j);
      RowSkewIsRowDot(t, q, s, i, j);
    }
    TrsColumns(t, q, s);
    QuaternionAxes(q);
    TimesAt(FromQuaternion(q).c0, s.x, 3);
    TimesAt(FromQuaternion(q).c1, s.y, 3);
    TimesAt(FromQuaternion(q).c2, s.z, 3);
  }

  /** A uniform scale never trips the asserts. */
  lemma UniformScaleIsExtractable(t: Vec3, q: Quat, k: real)
    requires q.Unit()
    ensures Extractable(TranslationRotationScale(t, q, Vec3(k, k, k)))
  {
    AssertsHoldIffNotSkewed(t, q, Vec3(k, k, k));
  }

  lemma AboutZ(q: Quat)
    requires q == Quat(0.0, 0.0, 0.6, 0.8)
    ensures FromQuaternion(q).c0.x == 0.28 && FromQuaternion(q).c0.y == 0.96
  {
    hide FromQuaternion;
    QuaternionFields(q);
  }

  /** A non-uniform one can: a turn about z by the 7-24-25 angle, with x scaled by 2. */
  lemma SkewedExample()
    ensures var q := Quat(0.0, 0.0, 0.6, 0.8);
      q.Unit() && !Extractable(TranslationRotationScale(Vec3(0.0, 0.0, 0.0), q, Vec3(2.0, 1.0, 1.0)))
  {
    hide FromQuaternion, TranslationRotationScale, Extractable;
    var q, s := Quat(0.0, 0.0, 0.6, 0.8), Vec3(2.0, 1.0, 1.0);
    AboutZ(q);
    assert RowSkew(q, s, 0, 1) > 0.0001;
    AssertsHoldIffNotSkewed(Vec3(0.0, 0.0, 0.0), q, s);
  }
}
