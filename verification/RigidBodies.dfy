/** Affine and orthonormal matrices: the tests of xr_linear.h, and what an exact pass means. */
module RigidBodies {
  import opened XrLinear
  import opened MatrixInverse
  import opened Poses

  function Dot3(a0: real, a1: real, a2: real, b0: real, b1: real, b2: real): real { a0 * b0 + a1 * b1 + a2 * b2 }

  function ColumnDot(m: Mat4, i: int, j: int): real
    requires 0 <= i < 3 && 0 <= j < 3
  {
    Dot3(m.At(i, 0), m.At(i, 1), m.At(i, 2), m.At(j, 0), m.At(j, 1), m.At(j, 2))
  }

  function RowDot(m: Mat4, i: int, j: int): real
    requires 0 <= i < 3 && 0 <= j < 3
  {
    Dot3(m.At(0, i), m.At(1, i), m.At(2, i), m.At(0, j), m.At(1, j), m.At(2, j))
  }

  /** Distinct columns, and distinct rows, are perpendicular up to epsilon. */
  predicate Orthogonal(m: Mat4, epsilon: real) {
    forall i, j | 0 <= i < 3 && 0 <= j < 3 && i != j ::
      Abs(ColumnDot(m, i, j)) <= epsilon && Abs(RowDot(m, i, j)) <= epsilon
  }

  function Delta(i: int, j: int): real { if i == j then 1.0 else 0.0 }

  predicate Orthonormal(m: Mat4, epsilon: real) {
    forall i, j | 0 <= i < 3 && 0 <= j < 3 ::
      Abs(Delta(i, j) - ColumnDot(m, i, j)) <= epsilon && Abs(Delta(i, j) - RowDot(m, i, j)) <= epsilon
  }

  /** XrMatrix4x4f_IsOrthogonal. */
  method IsOrthogonal(m: Mat4, epsilon: real) returns (ok: bool)
    ensures ok <==> Orthogonal(m, epsilon)
  {
    hide Abs, ColumnDot, RowDot;
    for i := 0 to 3
      invariant forall p, q | 0 <= p < i && 0 <= q < 3 && p != q ::
        Abs(ColumnDot(m, p, q)) <= epsilon && Abs(RowDot(m, p, q)) <= epsilon
    {
      for j := 0 to 3
        invariant forall q | 0 <= q < j && i != q ::
          Abs(ColumnDot(m, i, q)) <= epsilon && Abs(RowDot(m, i, q)) <= epsilon
      {
        if i != j {
          if Abs(ColumnDot(m, i, j)) > epsilon {
            return false;
          }
          if Abs(RowDot(m, i, j)) > epsilon {
            return false;
          }
        }
      }
    }
    return true;
  }

  /** XrMatrix4x4f_IsOrthonormal. */
  method IsOrthonormal(m: Mat4, epsilon: real) returns (ok: bool)
    ensures ok <==> Orthonormal(m, epsilon)
  {
    hide Abs, ColumnDot, RowDot;
    for i := 0 to 3
      invariant forall p, q | 0 <= p < i && 0 <= q < 3 ::
        Abs(Delta(p, q) - ColumnDot(m, p, q)) <= epsilon && Abs(Delta(p, q) - RowDot(m, p, q)) <= epsilon
    {
      for j := 0 to 3
        invariant forall q | 0 <= q < j ::
          Abs(Delta(i, q) - ColumnDot(m, i, q)) <= epsilon && Abs(Delta(i, q) - RowDot(m, i, q)) <= epsilon
      {
        var kd := if i == j then 1.0 else 0.0;
        if Abs(kd - ColumnDot(m, i, j)) > epsilon {
          return false;
        }
        if Abs(kd - RowDot(m, i, j)) > epsilon {
          return false;
        }
      }
    }
    return true;
  }

  /** XrMatrix4x4f_IsRigidBody. */
  method IsRigidBody(m: Mat4, epsilon: real) returns (ok: bool)
    ensures ok <==> m.IsAffine(epsilon) && Orthonormal(m, epsilon)
  {
    ok := m.IsAffine(epsilon);
    if ok {
      ok := IsOrthonormal(m, epsilon);
    }
  }

  predicate Within(x: real, expected: real, epsilon: real) { expected - epsilon <= x <= expected + epsilon }

  /** The affine test, entry by entry. */
  lemma AffineIff(m: Mat4, epsilon: real)
    ensures m.IsAffine(epsilon) <==>
      && Within(m.c0.w, 0.0, epsilon) && Within(m.c1.w, 0.0, epsilon) && Within(m.c2.w, 0.0, epsilon)
      && Within(m.c3.w, 1.0, epsilon)
  {}

  /** The orthogonal test, product by product: three pairs of columns and three of rows. */
  lemma OrthogonalIff(m: Mat4, epsilon: real)
    ensures Orthogonal(m, epsilon) <==>
      && Within(m.c0.x * m.c1.x + m.c0.y * m.c1.y + m.c0.z * m.c1.z, 0.0, epsilon)
      && Within(m.c0.x * m.c2.x + m.c0.y * m.c2.y + m.c0.z * m.c2.z, 0.0, epsilon)
      && Within(m.c1.x * m.c2.x + m.c1.y * m.c2.y + m.c1.z * m.c2.z, 0.0, epsilon)
      && Within(m.c0.x * m.c0.y + m.c1.x * m.c1.y + m.c2.x * m.c2.y, 0.0, epsilon)
      && Within(m.c0.x * m.c0.z + m.c1.x * m.c1.z + m.c2.x * m.c2.z, 0.0, epsilon)
      && Within(m.c0.y * m.c0.z + m.c1.y * m.c1.z + m.c2.y * m.c2.z, 0.0, epsilon)
  {
    hide ColumnDot, RowDot;
    MoreColumnDots(m);
    ColumnDots(m);
    RowDots(m);
    DotsCommute(m);
    if Orthogonal(m, epsilon) {
      assert Abs(ColumnDot(m, 0, 1)) <= epsilon && Abs(ColumnDot(m, 0, 2)) <= epsilon;
      assert Abs(ColumnDot(m, 1, 2)) <= epsilon && Abs(RowDot(m, 0, 1)) <= epsilon;
      assert Abs(RowDot(m, 0, 2)) <= epsilon && Abs(RowDot(m, 1, 2)) <= epsilon;
    }
  }

  lemma MoreColumnDots(m: Mat4)
    ensures ColumnDot(m, 2, 2) == m.c2.x * m.c2.x + m.c2.y * m.c2.y + m.c2.z * m.c2.z
    ensures ColumnDot(m, 0, 2) == m.c0.x * m.c2.x + m.c0.y * m.c2.y + m.c0.z * m.c2.z
    ensures ColumnDot(m, 1, 2) == m.c1.x * m.c2.x + m.c1.y * m.c2.y + m.c1.z * m.c2.z
  {}

  lemma DotsCommute(m: Mat4)
    ensures forall i, j | 0 <= i < 3 && 0 <= j < 3 ::
      ColumnDot(m, i, j) == ColumnDot(m, j, i) && RowDot(m, i, j) == RowDot(m, j, i)
  {}

  /** The orthonormal test: the orthogonal one, and six lengths. */
  lemma OrthonormalIff(m: Mat4, epsilon: real)
    ensures Orthonormal(m, epsilon) <==>
      && Orthogonal(m, epsilon)
      && Within(m.c0.x * m.c0.x + m.c0.y * m.c0.y + m.c0.z * m.c0.z, 1.0, epsilon)
      && Within(m.c1.x * m.c1.x + m.c1.y * m.c1.y + m.c1.z * m.c1.z, 1.0, epsilon)
      && Within(m.c2.x * m.c2.x + m.c2.y * m.c2.y + m.c2.z * m.c2.z, 1.0, epsilon)
      && Within(m.c0.x * m.c0.x + m.c1.x * m.c1.x + m.c2.x * m.c2.x, 1.0, epsilon)
      && Within(m.c0.y * m.c0.y + m.c1.y * m.c1.y + m.c2.y * m.c2.y, 1.0, epsilon)
      && Within(m.c0.z * m.c0.z + m.c1.z * m.c1.z + m.c2.z * m.c2.z, 1.0, epsilon)
  {
    MoreColumnDots(m);
    ColumnDots(m);
    RowDots(m);
    OrthonormalParts(m, epsilon);
    hide ColumnDot, RowDot, Orthogonal, Orthonormal;
    assert UnitDots(m, 0, epsilon) <==>
      Within(ColumnDot(m, 0, 0), 1.0, epsilon) && Within(RowDot(m, 0, 0), 1.0, epsilon);
    assert UnitDots(m, 1, epsilon) <==>
      Within(ColumnDot(m, 1, 1), 1.0, epsilon) && Within(RowDot(m, 1, 1), 1.0, epsilon);
    assert UnitDots(m, 2, epsilon) <==>
      Within(ColumnDot(m, 2, 2), 1.0, epsilon) && Within(RowDot(m, 2, 2), 1.0, epsilon);
  }

  predicate UnitDots(m: Mat4, i: int, epsilon: real)
    requires 0 <= i < 3
  {
    Within(ColumnDot(m, i, i), 1.0, epsilon) && Within(RowDot(m, i, i), 1.0, epsilon)
  }

  lemma OrthonormalParts(m: Mat4, epsilon: real)
    ensures Orthonormal(m, epsilon) <==>
      Orthogonal(m, epsilon) && UnitDots(m, 0, epsilon) && UnitDots(m, 1, epsilon) && UnitDots(m, 2, epsilon)
  {
    hide ColumnDot, RowDot;
    if Orthonormal(m, epsilon) {
      forall i | 0 <= i < 3
        ensures UnitDots(m, i, epsilon)
      {
        assert Abs(Delta(i, i) - ColumnDot(m, i, i)) <= epsilon && Abs(Delta(i, i) - RowDot(m, i, i)) <= epsilon;
      }
      forall i, j | 0 <= i < 3 && 0 <= j < 3 && i != j
        ensures Abs(ColumnDot(m, i, j)) <= epsilon && Abs(RowDot(m, i, j)) <= epsilon
      {
        assert Abs(Delta(i, j) - ColumnDot(m, i, j)) <= epsilon && Abs(Delta(i, j) - RowDot(m, i, j)) <= epsilon;
      }
    }
  }

  /** An exact pass of XrMatrix4x4f_IsRigidBody. */
  predicate Rigid(m: Mat4) {
    m.IsAffine(0.0) && Orthonormal(m, 0.0)
  }

  lemma RigidFacts(m: Mat4)
    requires Rigid(m)
    ensures m.c0.w == m.c1.w == m.c2.w == 0.0 && m.c3.w == 1.0
    ensures forall i, j | 0 <= i < 3 && 0 <= j < 3 ::
      ColumnDot(m, i, j) == Delta(i, j) && RowDot(m, i, j) == Delta(i, j)
  {
    forall i, j | 0 <= i < 3 && 0 <= j < 3
      ensures ColumnDot(m, i, j) == Delta(i, j) && RowDot(m, i, j) == Delta(i, j)
    {
      assert Abs(Delta(i, j) - ColumnDot(m, i, j)) <= 0.0;
    }
  }

  lemma ColumnDots(m: Mat4)
    ensures ColumnDot(m, 0, 0) == m.c0.x * m.c0.x + m.c0.y * m.c0.y + m.c0.z * m.c0.z
    ensures ColumnDot(m, 1, 1) == m.c1.x * m.c1.x + m.c1.y * m.c1.y + m.c1.z * m.c1.z
    ensures ColumnDot(m, 0, 1) == m.c0.x * m.c1.x + m.c0.y * m.c1.y + m.c0.z * m.c1.z
  {}

  lemma RowDots(m: Mat4)
    ensures RowDot(m, 0, 0) == m.c0.x * m.c0.x + m.c1.x * m.c1.x + m.c2.x * m.c2.x
    ensures RowDot(m, 1, 1) == m.c0.y * m.c0.y + m.c1.y * m.c1.y + m.c2.y * m.c2.y
    ensures RowDot(m, 2, 2) == m.c0.z * m.c0.z + m.c1.z * m.c1.z + m.c2.z * m.c2.z
    ensures RowDot(m, 0, 1) == m.c0.x * m.c0.y + m.c1.x * m.c1.y + m.c2.x * m.c2.y
    ensures RowDot(m, 0, 2) == m.c0.x * m.c0.z + m.c1.x * m.c1.z + m.c2.x * m.c2.z
    ensures RowDot(m, 1, 2) == m.c0.y * m.c0.z + m.c1.y * m.c1.z + m.c2.y * m.c2.z
  {}

  /** The fields of the product with the rigid-body form. */
  lemma RigidProductFields(m: Mat4)
    requires m.c0.w == m.c1.w == m.c2.w == 0.0 && m.c3.w == 1.0
    ensures var n := m.InvertRigidBody();
      && m.TransformVec4(n.c0) == Vec4(RowDot(m, 0, 0), RowDot(m, 0, 1), RowDot(m, 0, 2), 0.0)
      && m.TransformVec4(n.c1) == Vec4(RowDot(m, 0, 1), RowDot(m, 1, 1), RowDot(m, 1, 2), 0.0)
      && m.TransformVec4(n.c2) == Vec4(RowDot(m, 0, 2), RowDot(m, 1, 2), RowDot(m, 2, 2), 0.0)
  {
    hide Mat4.TransformVec4, RowDot;
    var n := m.InvertRigidBody();
    RowDots(m);
    TransformFields(m, n.c0);
    TransformFields(m, n.c1);
    TransformFields(m, n.c2);
  }

  lemma Combine(a: real, b: real, c: real, t: Vec4, p: real, q: real, r: real)
    requires a == p && b == q && c == r
    ensures a * t.x + b * t.y + c * t.z == p * t.x + q * t.y + r * t.z
  {}

  lemma TranslationX(m: Mat4)
    requires RowDot(m, 0, 0) == 1.0 && RowDot(m, 0, 1) == 0.0 && RowDot(m, 0, 2) == 0.0
    ensures Dot4(m.c0.x, m.c1.x, m.c2.x, m.c3.x,
                 -(m.c0.x * m.c3.x + m.c0.y * m.c3.y + m.c0.z * m.c3.z),
                 -(m.c1.x * m.c3.x + m.c1.y * m.c3.y + m.c1.z * m.c3.z),
                 -(m.c2.x * m.c3.x + m.c2.y * m.c3.y + m.c2.z * m.c3.z), 1.0) == 0.0
  {
    hide RowDot;
    RowDots(m);
    Combine(m.c0.x * m.c0.x + m.c1.x * m.c1.x + m.c2.x * m.c2.x, m.c0.y * m.c0.x + m.c1.y * m.c1.x + m.c2.y * m.c2.x,
            m.c0.z * m.c0.x + m.c1.z * m.c1.x + m.c2.z * m.c2.x, m.c3, 1.0, 0.0, 0.0);
  }

  lemma TranslationY(m: Mat4)
    requires RowDot(m, 0, 1) == 0.0 && RowDot(m, 1, 1) == 1.0 && RowDot(m, 1, 2) == 0.0
    ensures Dot4(m.c0.y, m.c1.y, m.c2.y, m.c3.y,
                 -(m.c0.x * m.c3.x + m.c0.y * m.c3.y + m.c0.z * m.c3.z),
                 -(m.c1.x * m.c3.x + m.c1.y * m.c3.y + m.c1.z * m.c3.z),
                 -(m.c2.x * m.c3.x + m.c2.y * m.c3.y + m.c2.z * m.c3.z), 1.0) == 0.0
  {
    hide RowDot;
    RowDots(m);
    Combine(m.c0.x * m.c0.y + m.c1.x * m.c1.y + m.c2.x * m.c2.y, m.c0.y * m.c0.y + m.c1.y * m.c1.y + m.c2.y * m.c2.y,
            m.c0.z * m.c0.y + m.c1.z * m.c1.y + m.c2.z * m.c2.y, m.c3, 0.0, 1.0, 0.0);
  }

  lemma TranslationZ(m: Mat4)
    requires RowDot(m, 0, 2) == 0.0 && RowDot(m, 1, 2) == 0.0 && RowDot(m, 2, 2) == 1.0
    ensures Dot4(m.c0.z, m.c1.z, m.c2.z, m.c3.z,
                 -(m.c0.x * m.c3.x + m.c0.y * m.c3.y + m.c0.z * m.c3.z),
                 -(m.c1.x * m.c3.x + m.c1.y * m.c3.y + m.c1.z * m.c3.z),
                 -(m.c2.x * m.c3.x + m.c2.y * m.c3.y + m.c2.z * m.c3.z), 1.0) == 0.0
  {
    hide RowDot;
    RowDots(m);
    Combine(m.c0.x * m.c0.z + m.c1.x * m.c1.z + m.c2.x * m.c2.z, m.c0.y * m.c0.z + m.c1.y * m.c1.z + m.c2.y * m.c2.z,
            m.c0.z * m.c0.z + m.c1.z * m.c1.z + m.c2.z * m.c2.z, m.c3, 0.0, 0.0, 1.0);
  }

  lemma RigidTranslationFields(m: Mat4)
    ensures var c := m.InvertRigidBody().c3;
      && c.x == -(m.c0.x * m.c3.x + m.c0.y * m.c3.y + m.c0.z * m.c3.z)
      && c.y == -(m.c1.x * m.c3.x + m.c1.y * m.c3.y + m.c1.z * m.c3.z)
      && c.z == -(m.c2.x * m.c3.x + m.c2.y * m.c3.y + m.c2.z * m.c3.z) && c.w == 1.0
  {}

  lemma RigidRightInverse(m: Mat4)
    requires Rigid(m)
    ensures m.Multiply(m.InvertRigidBody()) == MAT_IDENTITY
  {
    hide Rigid, RowDot, ColumnDot, Mat4.TransformVec4, Mat4.InvertRigidBody, Dot4;
    var n := m.InvertRigidBody();
    RigidFacts(m);
    RigidProductFields(m);
    RigidTranslationFields(m);
    TransformIsRows(m, n.c3);
    LastRow(n.c3);
    TranslationX(m);
    TranslationY(m);
    TranslationZ(m);
  }

  lemma LastRow(v: Vec4)
    ensures Dot4(0.0, 0.0, 0.0, 1.0, v.x, v.y, v.z, v.w) == v.w
  {}

  /** Lagrange's identity for two perpendicular unit vectors: their cross product is not zero. */
  lemma CrossOfUnits(a: Vec4, b: Vec4)
    requires a.x * a.x + a.y * a.y + a.z * a.z == 1.0
    requires b.x * b.x + b.y * b.y + b.z * b.z == 1.0
    requires a.x * b.x + a.y * b.y + a.z * b.z == 0.0
    ensures !(a.x * b.y - a.y * b.x == 0.0 && a.x * b.z - a.z * b.x == 0.0 && a.y * b.z - a.z * b.y == 0.0)
  {
    var p, q, r := a.x * b.y - a.y * b.x, a.x * b.z - a.z * b.x, a.y * b.z - a.z * b.y;
    var d := a.x * b.x + a.y * b.y + a.z * b.z;
    assert p * p + q * q + r * r + d * d ==
      (a.x * a.x + a.y * a.y + a.z * a.z) * (b.x * b.x + b.y * b.y + b.z * b.z);
  }

  /** The minors over columns 0, 1 and 3 of an affine matrix are the cross product of columns 0 and 1. */
  lemma CrossMinors(m: Mat4)
    requires m.c0.w == m.c1.w == 0.0 && m.c3.w == 1.0
    ensures m.Minor(0, 1, 3, 0, 1, 3) == m.c0.x * m.c1.y - m.c0.y * m.c1.x
    ensures m.Minor(0, 1, 3, 0, 2, 3) == m.c0.x * m.c1.z - m.c0.z * m.c1.x
    ensures m.Minor(0, 1, 3, 1, 2, 3) == m.c0.y * m.c1.z - m.c0.z * m.c1.y
  {
    MinorsOfColumns(m, 0, 1, 3);
  }

  /** A rigid matrix is invertible: were its determinant zero, all its minors would be too. */
  lemma RigidDeterminant(m: Mat4)
    requires Rigid(m)
    ensures m.Determinant() != 0.0
  {
    hide Mat4.Minor, Mat4.TransformVec4, Mat4.Determinant, Mat4.InvertRigidBody, Mat4.SignedMinors;
    hide Rigid, Orthonormal, ColumnDot, RowDot, Det3, Expand;
    if m.Determinant() == 0.0 {
      var n, r := m.SignedMinors(), m.InvertRigidBody();
      MinorsTimesMatrix(m);
      RigidRightInverse(m);
      Associative(n, m, r);
      ZeroMatrix(n, m.Determinant(), r);
      ZeroMinors(m);
      RigidFacts(m);
      ColumnDots(m);
      CrossMinors(m);
      CrossOfUnits(m.c0, m.c1);
    }
  }

  lemma ZeroMatrix(n: Mat4, det: real, r: Mat4)
    requires det == 0.0 && n.Multiply(MAT_IDENTITY) == MAT_IDENTITY.Times(det).Multiply(r)
    ensures n.c2.z == 0.0 && n.c1.z == 0.0 && n.c0.z == 0.0
  {
    assert n.Multiply(MAT_IDENTITY) == n;
  }

  lemma ZeroMinors(m: Mat4)
    ensures var n := m.SignedMinors();
      && n.c2.z == m.Minor(0, 1, 3, 0, 1, 3) && n.c1.z == -m.Minor(0, 1, 3, 0, 2, 3)
      && n.c0.z == m.Minor(0, 1, 3, 1, 2, 3)
  {
    hide Mat4.Minor;
  }

  /** The rigid-body inverse is the general inverse, on every matrix the rigid-body test accepts exactly. */
  lemma RigidInverseIsInverse(m: Mat4)
    requires Rigid(m)
    ensures m.Determinant() != 0.0
    ensures m.InvertRigidBody() == m.Invert()
  {
    hide Mat4.Determinant, Mat4.Invert, Mat4.InvertRigidBody, Mat4.Multiply;
    RigidDeterminant(m);
    LeftInverse(m);
    RigidRightInverse(m);
    InversesAgree(m, m.Invert(), m.InvertRigidBody());
  }

  lemma DotOfDirection(a: real, b: real, c: real, d: real, v: Vec4)
    requires v.w == 0.0
    ensures Dot4(a, b, c, d, v.x, v.y, v.z, v.w) == Dot3(a, b, c, v.x, v.y, v.z)
  {}

  /** The transposed rotation sends a direction to its products with the columns. */
  lemma InvertedDirection(m: Mat4, v: Vec4)
    requires v.w == 0.0
    ensures var t := m.InvertRigidBody().TransformVec4(v);
      && t.x == Dot3(m.c0.x, m.c0.y, m.c0.z, v.x, v.y, v.z) && t.y == Dot3(m.c1.x, m.c1.y, m.c1.z, v.x, v.y, v.z)
      && t.z == Dot3(m.c2.x, m.c2.y, m.c2.z, v.x, v.y, v.z)
  {
    hide Mat4.TransformVec4, Dot4, Dot3;
    var n := m.InvertRigidBody();
    TransformIsRows(n, v);
    DotOfDirection(m.c0.x, m.c0.y, m.c0.z, n.c3.x, v);
    DotOfDirection(m.c1.x, m.c1.y, m.c1.z, n.c3.y, v);
    DotOfDirection(m.c2.x, m.c2.y, m.c2.z, n.c3.z, v);
  }

  lemma ColumnsOfInverted(m: Mat4, j: int)
    requires 0 <= j < 3 && m.Column(j).w == 0.0
    requires m.InvertRigidBody().TransformVec4(m.Column(j)) == MAT_IDENTITY.Column(j)
    ensures ColumnDot(m, 0, j) == Delta(0, j) && ColumnDot(m, 1, j) == Delta(1, j) && ColumnDot(m, 2, j) == Delta(2, j)
  {
    hide Mat4.TransformVec4, Mat4.InvertRigidBody, Dot3;
    InvertedDirection(m, m.Column(j));
  }

  lemma RowsOfInverted(m: Mat4)
    requires m.c0.w == m.c1.w == m.c2.w == 0.0 && m.c3.w == 1.0
    requires m.Multiply(m.InvertRigidBody()) == MAT_IDENTITY
    ensures RowDot(m, 0, 0) == RowDot(m, 1, 1) == RowDot(m, 2, 2) == 1.0
    ensures RowDot(m, 0, 1) == RowDot(m, 0, 2) == RowDot(m, 1, 2) == 0.0
  {
    hide RowDot, Mat4.TransformVec4, Mat4.InvertRigidBody;
    RigidProductFields(m);
  }

  lemma RowDotSymmetric(m: Mat4, i: int, j: int)
    requires 0 <= i < 3 && 0 <= j < 3
    ensures RowDot(m, i, j) == RowDot(m, j, i)
  {
    hide Mat4.At;
  }

  /** An affine matrix that its rigid-body form inverts on both sides is rigid. */
  lemma RigidFromInverse(m: Mat4)
    requires m.c0.w == m.c1.w == m.c2.w == 0.0 && m.c3.w == 1.0
    requires m.InvertRigidBody().Multiply(m) == MAT_IDENTITY
    requires m.Multiply(m.InvertRigidBody()) == MAT_IDENTITY
    ensures Rigid(m)
  {
    hide ColumnDot, RowDot, Mat4.TransformVec4, Mat4.InvertRigidBody;
    ColumnsOfInverted(m, 0);
    ColumnsOfInverted(m, 1);
    ColumnsOfInverted(m, 2);
    RowsOfInverted(m);
    forall i, j | 0 <= i < 3 && 0 <= j < 3
      ensures ColumnDot(m, i, j) == Delta(i, j) && RowDot(m, i, j) == Delta(i, j)
    {
      assert i in {0, 1, 2} && j in {0, 1, 2};
      RowDotSymmetric(m, i, j);
    }
  }

  lemma PoseIdentityMatrix()
    ensures FromRigidTransform(POSE_IDENTITY) == MAT_IDENTITY
  {}

  /** The matrix of a pose is rigid, and both inverses of it are the matrix of the inverse pose. */
  lemma PoseMatrixIsRigid(p: Pose)
    requires p.orientation.Unit()
    ensures var m := FromRigidTransform(p);
      Rigid(m) && m.Determinant() != 0.0 && m.Invert() == FromRigidTransform(p.Invert())
  {
    hide Mat4.Multiply, Mat4.InvertRigidBody, Mat4.Determinant, Mat4.Invert, Rigid;
    hide FromRigidTransform, Pose.Invert, Pose.Multiply;
    var m := FromRigidTransform(p);
    InvertedPoseMatrix(p);
    PoseInverse(p);
    InvertedUnit(p);
    PoseProduct(p, p.Invert());
    PoseProduct(p.Invert(), p);
    PoseIdentityMatrix();
    RigidColumns(p);
    QuaternionAxes(p.orientation);
    RigidFromInverse(m);
    RigidInverseIsInverse(m);
  }

  lemma InvertedUnit(p: Pose)
    requires p.orientation.Unit()
    ensures p.Invert().orientation.Unit()
  {}
}
