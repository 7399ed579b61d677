/** XrMatrix4x4f_Invert really is the two-sided inverse, and the rigid-body form agrees with it. */
module MatrixInverse {
  import opened XrLinear

  // ---------- Determinants of four columns ----------

  function Det3(a0: real, a1: real, a2: real, b0: real, b1: real, b2: real, c0: real, c1: real, c2: real): real {
    a0 * (b1 * c2 - c1 * b2) - a1 * (b0 * c2 - c0 * b2) + a2 * (b0 * c1 - c0 * b1)
  }

  /** The determinant of the columns v, a, b, c, expanded along v and then along a. */
  function Expand(v: Vec4, a: Vec4, b: Vec4, c: Vec4): real {
    v.x * (a.y * (b.z * c.w - c.z * b.w) - a.z * (b.y * c.w - c.y * b.w) + a.w * (b.y * c.z - c.y * b.z)) -
    v.y * (a.x * (b.z * c.w - c.z * b.w) - a.z * (b.x * c.w - c.x * b.w) + a.w * (b.x * c.z - c.x * b.z)) +
    v.z * (a.x * (b.y * c.w - c.y * b.w) - a.y * (b.x * c.w - c.x * b.w) + a.w * (b.x * c.y - c.x * b.y)) -
    v.w * (a.x * (b.y * c.z - c.y * b.z) - a.y * (b.x * c.z - c.x * b.z) + a.z * (b.x * c.y - c.x * b.y))
  }

  lemma ExpandByMinors(v: Vec4, a: Vec4, b: Vec4, c: Vec4)
    ensures Expand(v, a, b, c) ==
      v.x * Det3(a.y, a.z, a.w, b.y, b.z, b.w, c.y, c.z, c.w) -
      v.y * Det3(a.x, a.z, a.w, b.x, b.z, b.w, c.x, c.z, c.w) +
      v.z * Det3(a.x, a.y, a.w, b.x, b.y, b.w, c.x, c.y, c.w) - v.w * Det3(a.x, a.y, a.z, b.x, b.y, b.z, c.x, c.y, c.z)
  {}

  lemma SwapFirst(v: Vec4, a: Vec4, b: Vec4, c: Vec4)
    ensures Expand(v, a, b, c) == -Expand(a, v, b, c)
  {}

  lemma SwapSecond(v: Vec4, a: Vec4, b: Vec4, c: Vec4)
    ensures Expand(v, a, b, c) == -Expand(v, b, a, c)
  {}

  lemma SwapThird(v: Vec4, a: Vec4, b: Vec4, c: Vec4)
    ensures Expand(v, a, b, c) == -Expand(v, a, c, b)
  {}

  /** Two equal columns make the determinant vanish. */
  lemma RepeatedColumn(a: Vec4, b: Vec4, c: Vec4)
    ensures Expand(a, a, b, c) == 0.0 && Expand(a, b, a, c) == 0.0 && Expand(a, b, c, a) == 0.0
  {
    SwapFirst(a, a, b, c);
    SwapSecond(a, a, b, c);
    SwapThird(a, b, a, c);
  }

  lemma ExpandTransposed(a: Vec4, b: Vec4, c: Vec4, d: Vec4)
    ensures Expand(a, b, c, d) == Expand(Vec4(a.x, b.x, c.x, d.x), Vec4(a.y, b.y, c.y, d.y),
                                         Vec4(a.z, b.z, c.z, d.z), Vec4(a.w, b.w, c.w, d.w))
  {}

  // ---------- Laplace expansion through Minor ----------

  /** The minors over three columns, as determinants of those columns. */
  lemma MinorsOfColumns(m: Mat4, r0: int, r1: int, r2: int)
    requires 0 <= r0 < 4 && 0 <= r1 < 4 && 0 <= r2 < 4
    ensures var a, b, c := m.Column(r0), m.Column(r1), m.Column(r2);
      && m.Minor(r0, r1, r2, 1, 2, 3) == Det3(a.y, a.z, a.w, b.y, b.z, b.w, c.y, c.z, c.w)
      && m.Minor(r0, r1, r2, 0, 2, 3) == Det3(a.x, a.z, a.w, b.x, b.z, b.w, c.x, c.z, c.w)
      && m.Minor(r0, r1, r2, 0, 1, 3) == Det3(a.x, a.y, a.w, b.x, b.y, b.w, c.x, c.y, c.w)
      && m.Minor(r0, r1, r2, 0, 1, 2) == Det3(a.x, a.y, a.z, b.x, b.y, b.z, c.x, c.y, c.z)
  {}

  /** The minors over three columns, against a vector. */
  lemma MinorsTimes(m: Mat4, v: Vec4, r0: int, r1: int, r2: int)
    requires 0 <= r0 < 4 && 0 <= r1 < 4 && 0 <= r2 < 4
    ensures m.Minor(r0, r1, r2, 1, 2, 3) * v.x - m.Minor(r0, r1, r2, 0, 2, 3) * v.y +
            m.Minor(r0, r1, r2, 0, 1, 3) * v.z - m.Minor(r0, r1, r2, 0, 1, 2) * v.w ==
            Expand(v, m.Column(r0), m.Column(r1), m.Column(r2))
  {
    hide Mat4.Minor, Det3, Expand;
    MinorsOfColumns(m, r0, r1, r2);
    ExpandByMinors(v, m.Column(r0), m.Column(r1), m.Column(r2));
  }

  lemma DeterminantOfColumns(m: Mat4)
    ensures m.Determinant() == Expand(m.c0, m.c1, m.c2, m.c3)
  {
    hide Mat4.Minor, Expand;
    MinorsTimes(m, m.c0, 1, 2, 3);
  }

  /** Cramer's rule: what the signed minors do to a vector, as four determinants. */
  lemma MinorsTransform(m: Mat4, v: Vec4)
    ensures m.SignedMinors().TransformVec4(v) ==
      Vec4(Expand(v, m.c1, m.c2, m.c3), -Expand(v, m.c0, m.c2, m.c3),
           Expand(v, m.c0, m.c1, m.c3), -Expand(v, m.c0, m.c1, m.c2))
  {
    hide Mat4.Minor, Expand;
    MinorsTimes(m, v, 1, 2, 3);
    MinorsTimes(m, v, 0, 2, 3);
    MinorsTimes(m, v, 0, 1, 3);
    MinorsTimes(m, v, 0, 1, 2);
  }

  /** The signed minors times the matrix: the determinant on the diagonal, zero elsewhere. */
  lemma MinorsTimesMatrix(m: Mat4)
    ensures m.SignedMinors().Multiply(m) == MAT_IDENTITY.Times(m.Determinant())
  {
    var n, det, a, b, c, d := m.SignedMinors(), m.Determinant(), m.c0, m.c1, m.c2, m.c3;
    DeterminantOfColumns(m);
    assert n.TransformVec4(a) == Vec4(det, 0.0, 0.0, 0.0) by {
      MinorsTransform(m, a);
      RepeatedColumn(a, c, d); RepeatedColumn(a, b, d); RepeatedColumn(a, b, c);
    }
    assert n.TransformVec4(b) == Vec4(0.0, det, 0.0, 0.0) by {
      MinorsTransform(m, b);
      SwapFirst(a, b, c, d);
      RepeatedColumn(b, c, d); RepeatedColumn(b, a, d); RepeatedColumn(b, a, c);
    }
    assert n.TransformVec4(c) == Vec4(0.0, 0.0, det, 0.0) by {
      MinorsTransform(m, c);
      SwapSecond(a, b, c, d); SwapFirst(a, c, b, d);
      RepeatedColumn(c, b, d); RepeatedColumn(c, a, d); RepeatedColumn(c, a, b);
    }
    assert n.TransformVec4(d) == Vec4(0.0, 0.0, 0.0, det) by {
      MinorsTransform(m, d);
      SwapThird(a, b, c, d); SwapSecond(a, b, d, c); SwapFirst(a, d, b, c);
      RepeatedColumn(d, b, c); RepeatedColumn(d, a, c); RepeatedColumn(d, a, b);
    }
  }

  // ---------- Matrix algebra ----------

  lemma SameMatrix(a: Mat4, b: Mat4)
    requires a.c0 == b.c0 && a.c1 == b.c1 && a.c2 == b.c2 && a.c3 == b.c3
    ensures a == b
  {}

  function Dot4(a0: real, a1: real, a2: real, a3: real, b0: real, b1: real, b2: real, b3: real): real {
    a0 * b0 + a1 * b1 + a2 * b2 + a3 * b3
  }

  function Dot(a: Vec4, b: Vec4): real { Dot4(a.x, a.y, a.z, a.w, b.x, b.y, b.z, b.w) }

  lemma TransformFields(m: Mat4, v: Vec4)
    ensures m.TransformVec4(v).x == m.c0.x * v.x + m.c1.x * v.y + m.c2.x * v.z + m.c3.x * v.w
    ensures m.TransformVec4(v).y == m.c0.y * v.x + m.c1.y * v.y + m.c2.y * v.z + m.c3.y * v.w
    ensures m.TransformVec4(v).z == m.c0.z * v.x + m.c1.z * v.y + m.c2.z * v.z + m.c3.z * v.w
    ensures m.TransformVec4(v).w == m.c0.w * v.x + m.c1.w * v.y + m.c2.w * v.z + m.c3.w * v.w
  {}

  lemma TransformIsDots(m: Mat4, v: Vec4)
    ensures var t := m.Transpose(); m.TransformVec4(v) == Vec4(Dot(v, t.c0), Dot(v, t.c1), Dot(v, t.c2), Dot(v, t.c3))
    ensures var t := m.Transpose(); m.TransformVec4(v) == Vec4(Dot(t.c0, v), Dot(t.c1, v), Dot(t.c2, v), Dot(t.c3, v))
  {
    hide Mat4.TransformVec4;
    TransformFields(m, v);
  }

  lemma TransformIsRows(m: Mat4, v: Vec4)
    ensures m.TransformVec4(v) ==
      Vec4(Dot4(m.c0.x, m.c1.x, m.c2.x, m.c3.x, v.x, v.y, v.z, v.w),
           Dot4(m.c0.y, m.c1.y, m.c2.y, m.c3.y, v.x, v.y, v.z, v.w),
           Dot4(m.c0.z, m.c1.z, m.c2.z, m.c3.z, v.x, v.y, v.z, v.w),
           Dot4(m.c0.w, m.c1.w, m.c2.w, m.c3.w, v.x, v.y, v.z, v.w))
  {
    hide Mat4.TransformVec4;
    TransformFields(m, v);
  }

  lemma DotIs(a: Vec4, b: Vec4)
    ensures Dot(a, b) == a.x * b.x + a.y * b.y + a.z * b.z + a.w * b.w
  {}

  /** The bilinear core of associativity: sixteen products, summed by rows or by columns. */
  lemma DotSums(r: Vec4, b: Mat4, v: Vec4)
    ensures
      Dot4(r.x * b.c0.x + r.y * b.c0.y + r.z * b.c0.z + r.w * b.c0.w,
           r.x * b.c1.x + r.y * b.c1.y + r.z * b.c1.z + r.w * b.c1.w,
           r.x * b.c2.x + r.y * b.c2.y + r.z * b.c2.z + r.w * b.c2.w,
           r.x * b.c3.x + r.y * b.c3.y + r.z * b.c3.z + r.w * b.c3.w,
           v.x, v.y, v.z, v.w) ==
      Dot4(r.x, r.y, r.z, r.w,
           b.c0.x * v.x + b.c1.x * v.y + b.c2.x * v.z + b.c3.x * v.w,
           b.c0.y * v.x + b.c1.y * v.y + b.c2.y * v.z + b.c3.y * v.w,
           b.c0.z * v.x + b.c1.z * v.y + b.c2.z * v.z + b.c3.z * v.w,
           b.c0.w * v.x + b.c1.w * v.y + b.c2.w * v.z + b.c3.w * v.w)
  {}

  /** r (b v) == (r b) v for a row r. */
  lemma DotTransform(r: Vec4, b: Mat4, v: Vec4)
    ensures Dot(Vec4(Dot(r, b.c0), Dot(r, b.c1), Dot(r, b.c2), Dot(r, b.c3)), v) == Dot(r, b.TransformVec4(v))
  {
    hide Dot4, Mat4.TransformVec4;
    TransformFields(b, v);
    DotIs(r, b.c0);
    DotIs(r, b.c1);
    DotIs(r, b.c2);
    DotIs(r, b.c3);
    DotSums(r, b, v);
  }

  /** A matrix maps the four axes to its columns, and (below) is linear: that fixes what it does to every vector. */
  lemma TransformsAxes(m: Mat4)
    ensures m.TransformVec4(Vec4(1.0, 0.0, 0.0, 0.0)) == m.c0 && m.TransformVec4(Vec4(0.0, 1.0, 0.0, 0.0)) == m.c1
    ensures m.TransformVec4(Vec4(0.0, 0.0, 1.0, 0.0)) == m.c2 && m.TransformVec4(Vec4(0.0, 0.0, 0.0, 1.0)) == m.c3
  {
    hide Mat4.TransformVec4;
    TransformFields(m, Vec4(1.0, 0.0, 0.0, 0.0));
    TransformFields(m, Vec4(0.0, 1.0, 0.0, 0.0));
    TransformFields(m, Vec4(0.0, 0.0, 1.0, 0.0));
    TransformFields(m, Vec4(0.0, 0.0, 0.0, 1.0));
  }

  function Combined(k: real, u: Vec4, v: Vec4): Vec4 {
    Vec4(k * u.x + v.x, k * u.y + v.y, k * u.z + v.z, k * u.w + v.w)
  }

  lemma RowIsLinear(a: real, b: real, c: real, d: real, k: real, u: Vec4, v: Vec4)
    ensures var r := Combined(k, u, v);
      Dot4(a, b, c, d, r.x, r.y, r.z, r.w) ==
      k * Dot4(a, b, c, d, u.x, u.y, u.z, u.w) + Dot4(a, b, c, d, v.x, v.y, v.z, v.w)
  {}

  lemma TransformIsLinear(m: Mat4, k: real, u: Vec4, v: Vec4)
    ensures m.TransformVec4(Combined(k, u, v)) == Combined(k, m.TransformVec4(u), m.TransformVec4(v))
  {
    hide Mat4.TransformVec4, Dot4;
    TransformIsRows(m, u);
    TransformIsRows(m, v);
    TransformIsRows(m, Combined(k, u, v));
    RowIsLinear(m.c0.x, m.c1.x, m.c2.x, m.c3.x, k, u, v);
    RowIsLinear(m.c0.y, m.c1.y, m.c2.y, m.c3.y, k, u, v);
    RowIsLinear(m.c0.z, m.c1.z, m.c2.z, m.c3.z, k, u, v);
    RowIsLinear(m.c0.w, m.c1.w, m.c2.w, m.c3.w, k, u, v);
  }

  lemma TransformTwice(a: Mat4, b: Mat4, v: Vec4)
    ensures a.Multiply(b).TransformVec4(v) == a.TransformVec4(b.TransformVec4(v))
  {
    var t := a.Transpose();
    hide Dot, Mat4.TransformVec4;
    TransformIsDots(a.Multiply(b), v);
    TransformIsDots(a, b.TransformVec4(v));
    TransformIsDots(a, b.c0);
    TransformIsDots(a, b.c1);
    TransformIsDots(a, b.c2);
    TransformIsDots(a, b.c3);
    DotTransform(t.c0, b, v);
    DotTransform(t.c1, b, v);
    DotTransform(t.c2, b, v);
    DotTransform(t.c3, b, v);
  }

  lemma Associative(a: Mat4, b: Mat4, c: Mat4)
    ensures a.Multiply(b).Multiply(c) == a.Multiply(b.Multiply(c))
  {
    var p, q := a.Multiply(b).Multiply(c), a.Multiply(b.Multiply(c));
    assert p.c0 == q.c0 by { TransformTwice(a, b, c.c0); }
    assert p.c1 == q.c1 by { TransformTwice(a, b, c.c1); }
    assert p.c2 == q.c2 by { TransformTwice(a, b, c.c2); }
    assert p.c3 == q.c3 by { TransformTwice(a, b, c.c3); }
    SameMatrix(p, q);
  }

  lemma TimesDot(r: Vec4, v: Vec4, k: real)
    ensures Dot(r.Times(k), v) == Dot(r, v) * k
  {}

  lemma TimesDots(a: Vec4, b: Vec4, c: Vec4, d: Vec4, v: Vec4, k: real)
    ensures Vec4(Dot(a.Times(k), v), Dot(b.Times(k), v), Dot(c.Times(k), v), Dot(d.Times(k), v)) ==
            Vec4(Dot(a, v), Dot(b, v), Dot(c, v), Dot(d, v)).Times(k)
  {
    hide Dot;
    TimesDot(a, v, k);
    TimesDot(b, v, k);
    TimesDot(c, v, k);
    TimesDot(d, v, k);
  }

  lemma RowTimes(a: Vec4, b: Vec4, c: Vec4, d: Vec4, k: real)
    ensures Vec4(a.Times(k).x, b.Times(k).x, c.Times(k).x, d.Times(k).x) == Vec4(a.x, b.x, c.x, d.x).Times(k)
    ensures Vec4(a.Times(k).y, b.Times(k).y, c.Times(k).y, d.Times(k).y) == Vec4(a.y, b.y, c.y, d.y).Times(k)
    ensures Vec4(a.Times(k).z, b.Times(k).z, c.Times(k).z, d.Times(k).z) == Vec4(a.z, b.z, c.z, d.z).Times(k)
    ensures Vec4(a.Times(k).w, b.Times(k).w, c.Times(k).w, d.Times(k).w) == Vec4(a.w, b.w, c.w, d.w).Times(k)
  {}

  lemma TransposedTimes(a: Mat4, k: real)
    ensures a.Times(k).Transpose() == a.Transpose().Times(k)
  {
    hide Vec4.Times;
    RowTimes(a.c0, a.c1, a.c2, a.c3, k);
  }

  lemma TimesTransform(a: Mat4, v: Vec4, k: real)
    ensures a.Times(k).TransformVec4(v) == a.TransformVec4(v).Times(k)
  {
    hide Dot, Mat4.TransformVec4, Vec4.Times;
    var t := a.Transpose();
    TransformIsDots(a, v);
    TransformIsDots(a.Times(k), v);
    TransposedTimes(a, k);
    TimesDots(t.c0, t.c1, t.c2, t.c3, v, k);
  }

  lemma TransposedProduct(a: Mat4, b: Mat4)
    ensures a.Multiply(b).Transpose() == b.Transpose().Multiply(a.Transpose())
  {
    var p, q := a.Multiply(b).Transpose(), b.Transpose().Multiply(a.Transpose());
    var at, bt := a.Transpose(), b.Transpose();
    TransformIsDots(a, b.c0);
    TransformIsDots(a, b.c1);
    TransformIsDots(a, b.c2);
    TransformIsDots(a, b.c3);
    assert bt.Transpose() == b;
    assert p.c0 == q.c0 by { TransformIsDots(bt, at.c0); }
    assert p.c1 == q.c1 by { TransformIsDots(bt, at.c1); }
    assert p.c2 == q.c2 by { TransformIsDots(bt, at.c2); }
    assert p.c3 == q.c3 by { TransformIsDots(bt, at.c3); }
    SameMatrix(p, q);
  }

  lemma IdentityMultiplies(m: Mat4)
    ensures MAT_IDENTITY.Multiply(m) == m && m.Multiply(MAT_IDENTITY) == m
  {
    assert m.TransformVec4(MAT_IDENTITY.c0) == m.c0;
    assert m.TransformVec4(MAT_IDENTITY.c1) == m.c1;
    assert m.TransformVec4(MAT_IDENTITY.c2) == m.c2;
    assert m.TransformVec4(MAT_IDENTITY.c3) == m.c3;
  }

  /** A left inverse and a right inverse are the same matrix. */
  lemma InversesAgree(m: Mat4, l: Mat4, r: Mat4)
    requires l.Multiply(m) == MAT_IDENTITY && m.Multiply(r) == MAT_IDENTITY
    ensures l == r
  {
    hide Mat4.Multiply;
    Associative(l, m, r);
    IdentityMultiplies(r);
    IdentityMultiplies(l);
  }

  // ---------- The inverse ----------

  lemma LeftInverse(m: Mat4)
    requires m.Determinant() != 0.0
    ensures m.Invert().Multiply(m) == MAT_IDENTITY
  {
    var n, det := m.SignedMinors(), m.Determinant();
    hide Mat4.TransformVec4, Mat4.SignedMinors, Mat4.Determinant;
    MinorsTimesMatrix(m);
    TimesTransform(n, m.c0, 1.0 / det);
    TimesTransform(n, m.c1, 1.0 / det);
    TimesTransform(n, m.c2, 1.0 / det);
    TimesTransform(n, m.c3, 1.0 / det);
    assert MAT_IDENTITY.Times(det).Times(1.0 / det) == MAT_IDENTITY;
  }

  lemma TransposedDeterminant(m: Mat4)
    ensures m.Transpose().Determinant() == m.Determinant()
  {
    DeterminantOfColumns(m);
    DeterminantOfColumns(m.Transpose());
    ExpandTransposed(m.c0, m.c1, m.c2, m.c3);
  }

  lemma RightInverse(m: Mat4)
    requires m.Determinant() != 0.0
    ensures m.Multiply(m.Invert()) == MAT_IDENTITY
  {
    var t := m.Transpose();
    TransposedDeterminant(m);
    LeftInverse(t);
    TransposedProduct(t.Invert(), t);
    LeftInverse(m);
    InversesAgree(m, m.Invert(), t.Invert().Transpose());
  }
}
