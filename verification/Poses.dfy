/** Poses and their matrices are two forms of the same rigid motion. */
module Poses {
  import opened XrLinear
  import opened MatrixInverse

  // ---------- Quaternion algebra ----------

  /** The four stores of XrQuaternionf_Multiply, as functions of the eight components. */
  function MulX(x: real, y: real, z: real, w: real, p: real, q: real, r: real, s: real): real {
    (s * x) + (p * w) + (q * z) - (r * y)
  }

  function MulY(x: real, y: real, z: real, w: real, p: real, q: real, r: real, s: real): real {
    (s * y) - (p * z) + (q * w) + (r * x)
  }

  function MulZ(x: real, y: real, z: real, w: real, p: real, q: real, r: real, s: real): real {
    (s * z) + (p * y) - (q * x) + (r * w)
  }

  function MulW(x: real, y: real, z: real, w: real, p: real, q: real, r: real, s: real): real {
    (s * w) - (p * x) - (q * y) - (r * z)
  }

  lemma MultiplyFields(a: Quat, b: Quat)
    ensures a.Multiply(b).x == (b.w * a.x) + (b.x * a.w) + (b.y * a.z) - (b.z * a.y)
    ensures a.Multiply(b).y == (b.w * a.y) - (b.x * a.z) + (b.y * a.w) + (b.z * a.x)
    ensures a.Multiply(b).z == (b.w * a.z) + (b.x * a.y) - (b.y * a.x) + (b.z * a.w)
    ensures a.Multiply(b).w == (b.w * a.w) - (b.x * a.x) - (b.y * a.y) - (b.z * a.z)
  {}

  lemma MultiplyIs(a: Quat, b: Quat)
    ensures a.Multiply(b) ==
      Quat(MulX(a.x, a.y, a.z, a.w, b.x, b.y, b.z, b.w), MulY(a.x, a.y, a.z, a.w, b.x, b.y, b.z, b.w),
           MulZ(a.x, a.y, a.z, a.w, b.x, b.y, b.z, b.w), MulW(a.x, a.y, a.z, a.w, b.x, b.y, b.z, b.w))
  {
    hide Quat.Multiply;
    MultiplyFields(a, b);
  }

  lemma AssociativeX(a: Quat, b: Quat, c: Quat)
    ensures
      MulX((b.w * a.x) + (b.x * a.w) + (b.y * a.z) - (b.z * a.y), (b.w * a.y) - (b.x * a.z) + (b.y * a.w) + (b.z * a.x),
           (b.w * a.z) + (b.x * a.y) - (b.y * a.x) + (b.z * a.w), (b.w * a.w) - (b.x * a.x) - (b.y * a.y) - (b.z * a.z),
           c.x, c.y, c.z, c.w) ==
      MulX(a.x, a.y, a.z, a.w,
           (c.w * b.x) + (c.x * b.w) + (c.y * b.z) - (c.z * b.y), (c.w * b.y) - (c.x * b.z) + (c.y * b.w) + (c.z * b.x),
           (c.w * b.z) + (c.x * b.y) - (c.y * b.x) + (c.z * b.w), (c.w * b.w) - (c.x * b.x) - (c.y * b.y) - (c.z * b.z))
  {}

  lemma AssociativeY(a: Quat, b: Quat, c: Quat)
    ensures
      MulY((b.w * a.x) + (b.x * a.w) + (b.y * a.z) - (b.z * a.y), (b.w * a.y) - (b.x * a.z) + (b.y * a.w) + (b.z * a.x),
           (b.w * a.z) + (b.x * a.y) - (b.y * a.x) + (b.z * a.w), (b.w * a.w) - (b.x * a.x) - (b.y * a.y) - (b.z * a.z),
           c.x, c.y, c.z, c.w) ==
      MulY(a.x, a.y, a.z, a.w,
           (c.w * b.x) + (c.x * b.w) + (c.y * b.z) - (c.z * b.y), (c.w * b.y) - (c.x * b.z) + (c.y * b.w) + (c.z * b.x),
           (c.w * b.z) + (c.x * b.y) - (c.y * b.x) + (c.z * b.w), (c.w * b.w) - (c.x * b.x) - (c.y * b.y) - (c.z * b.z))
  {}

  lemma AssociativeZ(a: Quat, b: Quat, c: Quat)
    ensures
      MulZ((b.w * a.x) + (b.x * a.w) + (b.y * a.z) - (b.z * a.y), (b.w * a.y) - (b.x * a.z) + (b.y * a.w) + (b.z * a.x),
           (b.w * a.z) + (b.x * a.y) - (b.y * a.x) + (b.z * a.w), (b.w * a.w) - (b.x * a.x) - (b.y * a.y) - (b.z * a.z),
           c.x, c.y, c.z, c.w) ==
      MulZ(a.x, a.y, a.z, a.w,
           (c.w * b.x) + (c.x * b.w) + (c.y * b.z) - (c.z * b.y), (c.w * b.y) - (c.x * b.z) + (c.y * b.w) + (c.z * b.x),
           (c.w * b.z) + (c.x * b.y) - (c.y * b.x) + (c.z * b.w), (c.w * b.w) - (c.x * b.x) - (c.y * b.y) - (c.z * b.z))
  {}

  lemma AssociativeW(a: Quat, b: Quat, c: Quat)
    ensures
      MulW((b.w * a.x) + (b.x * a.w) + (b.y * a.z) - (b.z * a.y), (b.w * a.y) - (b.x * a.z) + (b.y * a.w) + (b.z * a.x),
           (b.w * a.z) + (b.x * a.y) - (b.y * a.x) + (b.z * a.w), (b.w * a.w) - (b.x * a.x) - (b.y * a.y) - (b.z * a.z),
           c.x, c.y, c.z, c.w) ==
      MulW(a.x, a.y, a.z, a.w,
           (c.w * b.x) + (c.x * b.w) + (c.y * b.z) - (c.z * b.y), (c.w * b.y) - (c.x * b.z) + (c.y * b.w) + (c.z * b.x),
           (c.w * b.z) + (c.x * b.y) - (c.y * b.x) + (c.z * b.w), (c.w * b.w) - (c.x * b.x) - (c.y * b.y) - (c.z * b.z))
  {}

  lemma QuatAssociative(a: Quat, b: Quat, c: Quat)
    ensures a.Multiply(b).Multiply(c) == a.Multiply(b.Multiply(c))
  {
    hide Quat.Multiply, MulX, MulY, MulZ, MulW;
    MultiplyFields(a, b);
    MultiplyFields(b, c);
    MultiplyIs(a.Multiply(b), c);
    MultiplyIs(a, b.Multiply(c));
    AssociativeX(a, b, c);
    AssociativeY(a, b, c);
    AssociativeZ(a, b, c);
    AssociativeW(a, b, c);
  }

  lemma InvertProduct(a: Quat, b: Quat)
    ensures a.Multiply(b).Invert() == b.Invert().Multiply(a.Invert())
  {
    hide Quat.Multiply;
    MultiplyFields(a, b);
    MultiplyFields(b.Invert(), a.Invert());
  }

  function NormSquared(x: real, y: real, z: real, w: real): real { x * x + y * y + z * z + w * w }

  /** Euler's four-square identity. */
  lemma NormProduct(a: Quat, b: Quat)
    ensures
      NormSquared((b.w * a.x) + (b.x * a.w) + (b.y * a.z) - (b.z * a.y),
                  (b.w * a.y) - (b.x * a.z) + (b.y * a.w) + (b.z * a.x),
                  (b.w * a.z) + (b.x * a.y) - (b.y * a.x) + (b.z * a.w),
                  (b.w * a.w) - (b.x * a.x) - (b.y * a.y) - (b.z * a.z)) ==
      (a.x * a.x + a.y * a.y + a.z * a.z + a.w * a.w) * (b.x * b.x + b.y * b.y + b.z * b.z + b.w * b.w)
  {}

  lemma UnitIs(q: Quat)
    ensures q.Unit() <==> NormSquared(q.x, q.y, q.z, q.w) == 1.0
  {}

  lemma OneTimesOne(u: real, v: real)
    requires u == 1.0 && v == 1.0
    ensures u * v == 1.0
  {}

  lemma UnitProduct(a: Quat, b: Quat)
    requires a.Unit() && b.Unit()
    ensures a.Multiply(b).Unit()
  {
    hide Quat.Multiply, NormSquared;
    MultiplyFields(a, b);
    NormProduct(a, b);
    OneTimesOne(a.x * a.x + a.y * a.y + a.z * a.z + a.w * a.w, b.x * b.x + b.y * b.y + b.z * b.z + b.w * b.w);
    UnitIs(a.Multiply(b));
  }

  lemma UnitCancels(q: Quat)
    requires q.Unit()
    ensures q.Multiply(q.Invert()) == QUAT_IDENTITY && q.Invert().Multiply(q) == QUAT_IDENTITY
  {}

  function Pure(v: Vec3): Quat { Quat(v.x, v.y, v.z, 0.0) }

  /** The sandwich product of a vector has no real part, so Rotate drops nothing. */
  lemma RotateIsPure(q: Quat, v: Vec3)
    ensures q.Invert().Multiply(Pure(v).Multiply(q)) == Pure(q.Rotate(v))
  {}

  /** Rotating twice is rotating by the product, for any two quaternions. */
  lemma RotateTwice(a: Quat, b: Quat, v: Vec3)
    ensures a.Rotate(b.Rotate(v)) == b.Multiply(a).Rotate(v)
  {
    hide Quat.Multiply, Quat.Rotate, Quat.Invert;
    var p, ai, bi := Pure(v), a.Invert(), b.Invert();
    RotateIsPure(b, v);
    RotateIsPure(a, b.Rotate(v));
    RotateIsPure(b.Multiply(a), v);
    InvertProduct(b, a);
    // ai (bi (p b) a) == (ai bi) (p (b a)), re-bracketed step by step
    QuatAssociative(bi, p.Multiply(b), a);
    QuatAssociative(p, b, a);
    QuatAssociative(ai, bi, p.Multiply(b.Multiply(a)));
  }

  lemma RotateSum(q: Quat, u: Vec3, v: Vec3)
    ensures q.Rotate(u.Add(v)) == q.Rotate(u).Add(q.Rotate(v))
  {
  }

  /** Composing poses composes their motions; no unit length is needed. */
  lemma TransformTwicePose(a: Pose, b: Pose, v: Vec3)
    ensures a.Multiply(b).Transform(v) == a.Transform(b.Transform(v))
  {
    hide Quat.Multiply, Quat.Rotate;
    RotateTwice(a.orientation, b.orientation, v);
    RotateSum(a.orientation, b.orientation.Rotate(v), b.position);
  }

  // ---------- Poses as matrices ----------

  function Point(v: Vec3): Vec4 { Vec4(v.x, v.y, v.z, 1.0) }

  function Direction(v: Vec3): Vec4 { Vec4(v.x, v.y, v.z, 0.0) }

  lemma RotateFieldX(q: Quat, v: Vec3)
    ensures q.Rotate(v).x == (q.w * q.w + q.x * q.x - q.y * q.y - q.z * q.z) * v.x +
                             (2.0 * q.x * q.y - 2.0 * q.w * q.z) * v.y + (2.0 * q.x * q.z + 2.0 * q.w * q.y) * v.z
  {}

  lemma RotateFieldY(q: Quat, v: Vec3)
    ensures q.Rotate(v).y == (2.0 * q.x * q.y + 2.0 * q.w * q.z) * v.x +
                             (q.w * q.w - q.x * q.x + q.y * q.y - q.z * q.z) * v.y +
                             (2.0 * q.y * q.z - 2.0 * q.w * q.x) * v.z
  {}

  lemma RotateFieldZ(q: Quat, v: Vec3)
    ensures q.Rotate(v).z == (2.0 * q.x * q.z - 2.0 * q.w * q.y) * v.x + (2.0 * q.y * q.z + 2.0 * q.w * q.x) * v.y +
                             (q.w * q.w - q.x * q.x - q.y * q.y + q.z * q.z) * v.z
  {}

  /** The sandwich product, multiplied out. */
  lemma RotateFields(q: Quat, v: Vec3)
    ensures var r := q.Rotate(v);
      && r.x == (q.w * q.w + q.x * q.x - q.y * q.y - q.z * q.z) * v.x +
                (2.0 * q.x * q.y - 2.0 * q.w * q.z) * v.y +
                (2.0 * q.x * q.z + 2.0 * q.w * q.y) * v.z
      && r.y == (2.0 * q.x * q.y + 2.0 * q.w * q.z) * v.x +
                (q.w * q.w - q.x * q.x + q.y * q.y - q.z * q.z) * v.y +
                (2.0 * q.y * q.z - 2.0 * q.w * q.x) * v.z
      && r.z == (2.0 * q.x * q.z - 2.0 * q.w * q.y) * v.x +
                (2.0 * q.y * q.z + 2.0 * q.w * q.x) * v.y +
                (q.w * q.w - q.x * q.x - q.y * q.y + q.z * q.z) * v.z
  {
    hide Quat.Rotate;
    RotateFieldX(q, v);
    RotateFieldY(q, v);
    RotateFieldZ(q, v);
  }

  lemma RowX(q: Quat, v: Vec3)
    requires q.Unit()
    ensures Dot4(1.0 - q.y * (q.y + q.y) - q.z * (q.z + q.z),
                 q.x * (q.y + q.y) - q.w * (q.z + q.z),
                 q.x * (q.z + q.z) + q.w * (q.y + q.y), 0.0,
                 v.x, v.y, v.z, 0.0) ==
            (q.w * q.w + q.x * q.x - q.y * q.y - q.z * q.z) * v.x +
            (2.0 * q.x * q.y - 2.0 * q.w * q.z) * v.y +
            (2.0 * q.x * q.z + 2.0 * q.w * q.y) * v.z
  {
    assert (q.x * q.x + q.y * q.y + q.z * q.z + q.w * q.w) * v.x == v.x;
  }

  lemma RowY(q: Quat, v: Vec3)
    requires q.Unit()
    ensures Dot4(q.x * (q.y + q.y) + q.w * (q.z + q.z),
                 1.0 - q.x * (q.x + q.x) - q.z * (q.z + q.z),
                 q.y * (q.z + q.z) - q.w * (q.x + q.x), 0.0,
                 v.x, v.y, v.z, 0.0) ==
            (2.0 * q.x * q.y + 2.0 * q.w * q.z) * v.x +
            (q.w * q.w - q.x * q.x + q.y * q.y - q.z * q.z) * v.y +
            (2.0 * q.y * q.z - 2.0 * q.w * q.x) * v.z
  {
    assert (q.x * q.x + q.y * q.y + q.z * q.z + q.w * q.w) * v.y == v.y;
  }

  lemma RowZ(q: Quat, v: Vec3)
    requires q.Unit()
    ensures Dot4(q.x * (q.z + q.z) - q.w * (q.y + q.y),
                 q.y * (q.z + q.z) + q.w * (q.x + q.x),
                 1.0 - q.x * (q.x + q.x) - q.y * (q.y + q.y), 0.0,
                 v.x, v.y, v.z, 0.0) ==
            (2.0 * q.x * q.z - 2.0 * q.w * q.y) * v.x +
            (2.0 * q.y * q.z + 2.0 * q.w * q.x) * v.y +
            (q.w * q.w - q.x * q.x - q.y * q.y + q.z * q.z) * v.z
  {
    assert (q.x * q.x + q.y * q.y + q.z * q.z + q.w * q.w) * v.z == v.z;
  }

  lemma QuaternionFields(q: Quat)
    ensures var r := FromQuaternion(q);

      && r.c0.x == 1.0 - q.y * (q.y + q.y) - q.z * (q.z + q.z)
      && r.c0.y == q.x * (q.y + q.y) + q.w * (q.z + q.z)
      && r.c0.z == q.x * (q.z + q.z) - q.w * (q.y + q.y)

      && r.c1.x == q.x * (q.y + q.y) - q.w * (q.z + q.z)
      && r.c1.y == 1.0 - q.x * (q.x + q.x) - q.z * (q.z + q.z)
      && r.c1.z == q.y * (q.z + q.z) + q.w * (q.x + q.x)

      && r.c2.x == q.x * (q.z + q.z) + q.w * (q.y + q.y)
      && r.c2.y == q.y * (q.z + q.z) - q.w * (q.x + q.x)
      && r.c2.z == 1.0 - q.x * (q.x + q.x) - q.y * (q.y + q.y)
  {}

  lemma QuaternionAxes(q: Quat)
    ensures var r := FromQuaternion(q); r.c0.w == r.c1.w == r.c2.w == 0.0 && r.c3 == Vec4(0.0, 0.0, 0.0, 1.0)
  {}

  /** A unit quaternion and its matrix turn every vector alike. */
  lemma RotationMatrix(q: Quat, v: Vec3)
    requires q.Unit()
    ensures FromQuaternion(q).TransformVec4(Direction(v)) == Direction(q.Rotate(v))
  {
    hide Quat.Rotate, Quat.Unit, FromQuaternion, Mat4.TransformVec4, Dot4;
    TransformIsRows(FromQuaternion(q), Direction(v));
    QuaternionFields(q);
    QuaternionAxes(q);
    DotOfZeros(v);
    RowX(q, v);
    RowY(q, v);
    RowZ(q, v);
    RotateFields(q, v);
  }

  lemma DotOfZeros(v: Vec3)
    ensures Dot4(0.0, 0.0, 0.0, 1.0, v.x, v.y, v.z, 0.0) == 0.0
  {}

  lemma TimesScaling(r: Mat4, s: Vec3)
    ensures r.Multiply(Scaling(s)) == Mat4(r.c0.Times(s.x), r.c1.Times(s.y), r.c2.Times(s.z), r.c3)
  {
    hide Mat4.TransformVec4;
    var m := Scaling(s);
    TransformFields(r, m.c0);
    TransformFields(r, m.c1);
    TransformFields(r, m.c2);
    TransformFields(r, m.c3);
  }

  lemma TranslationTimes(t: Vec3, v: Vec4)
    ensures Translation(t).TransformVec4(v) == Vec4(v.x + t.x * v.w, v.y + t.y * v.w, v.z + t.z * v.w, v.w)
  {
    hide Mat4.TransformVec4;
    TransformFields(Translation(t), v);
  }

  lemma Untranslated(t: Vec3, v: Vec4, k: real)
    requires v.w == 0.0
    ensures Translation(t).TransformVec4(v.Times(k)) == v.Times(k)
  {
    hide Mat4.TransformVec4;
    TranslationTimes(t, v.Times(k));
  }

  /** The columns of a rotation-scale matrix are the scaled columns of the rotation. */
  lemma TrsColumns(t: Vec3, q: Quat, s: Vec3)
    ensures var r := FromQuaternion(q);
      TranslationRotationScale(t, q, s) == Mat4(r.c0.Times(s.x), r.c1.Times(s.y), r.c2.Times(s.z), Point(t))
  {
    hide FromQuaternion, Mat4.TransformVec4, Vec4.Times, Translation;
    var r := FromQuaternion(q);
    TimesScaling(r, s);
    QuaternionAxes(q);
    Untranslated(t, r.c0, s.x);
    Untranslated(t, r.c1, s.y);
    Untranslated(t, r.c2, s.z);
    TranslationTimes(t, r.c3);
  }

  const E1 := Vec3(1.0, 0.0, 0.0)
  const E2 := Vec3(0.0, 1.0, 0.0)
  const E3 := Vec3(0.0, 0.0, 1.0)

  lemma UnitColumns(m: Mat4)
    ensures m.TransformVec4(Direction(E1)) == m.c0
    ensures m.TransformVec4(Direction(E2)) == m.c1
    ensures m.TransformVec4(Direction(E3)) == m.c2
  {}

  /** The matrix of a pose: the turned axes and the position. */
  lemma PoseColumns(p: Pose)
    requires p.orientation.Unit()
    ensures FromRigidTransform(p) ==
      Mat4(Direction(p.orientation.Rotate(E1)), Direction(p.orientation.Rotate(E2)),
           Direction(p.orientation.Rotate(E3)), Point(p.position))
  {
    hide Quat.Rotate, FromQuaternion, Mat4.TransformVec4, TranslationRotationScale;
    var q := p.orientation;
    var r := FromQuaternion(q);
    TrsColumns(p.position, q, Vec3(1.0, 1.0, 1.0));
    UnitColumns(r);
    RotationMatrix(q, E1);
    RotationMatrix(q, E2);
    RotationMatrix(q, E3);
  }

  lemma AffineDirection(r: Mat4, t: Vec3, v: Vec3)
    ensures r.(c3 := Point(t)).TransformVec4(Direction(v)) == r.TransformVec4(Direction(v))
  {}

  lemma AffinePoint(r: Mat4, t: Vec3, v: Vec3)
    ensures var d := r.TransformVec4(Direction(v));
      r.(c3 := Point(t)).TransformVec4(Point(v)) == Vec4(d.x + t.x, d.y + t.y, d.z + t.z, d.w + 1.0)
  {}

  lemma RigidColumns(p: Pose)
    ensures FromRigidTransform(p) == FromQuaternion(p.orientation).(c3 := Point(p.position))
  {
    hide FromQuaternion, Mat4.TransformVec4, TranslationRotationScale;
    TrsColumns(p.position, p.orientation, Vec3(1.0, 1.0, 1.0));
  }

  /** Both forms of a pose move every point and turn every direction alike. */
  lemma PoseMatrixTransforms(p: Pose, v: Vec3)
    requires p.orientation.Unit()
    ensures FromRigidTransform(p).TransformVec4(Point(v)) == Point(p.Transform(v))
    ensures FromRigidTransform(p).TransformVec4(Direction(v)) == Direction(p.orientation.Rotate(v))
  {
    hide Quat.Rotate, Mat4.TransformVec4, FromRigidTransform;
    RigidColumns(p);
    RotationMatrix(p.orientation, v);
    AffinePoint(FromQuaternion(p.orientation), p.position, v);
    AffineDirection(FromQuaternion(p.orientation), p.position, v);
  }

  lemma MovedPoint(m: Mat4, v: Vec3)
    ensures var c := m.TransformVec4(Point(v));
      && c.x == m.c0.x * v.x + m.c1.x * v.y + m.c2.x * v.z + m.c3.x
      && c.y == m.c0.y * v.x + m.c1.y * v.y + m.c2.y * v.z + m.c3.y
      && c.z == m.c0.z * v.x + m.c1.z * v.y + m.c2.z * v.z + m.c3.z && c.w == m.HomogeneousW(v)
  {
    hide Mat4.TransformVec4;
    TransformFields(m, Point(v));
  }

  /** For any divisor, the result is the homogeneous image divided by its last component. */
  lemma TransformIsProjected(m: Mat4, v: Vec3)
    requires m.HomogeneousW(v) != 0.0
    ensures m.TransformVec4(Point(v)) == Point(m.TransformVec3(v)).Times(m.HomogeneousW(v))
  {
    hide Mat4.TransformVec4, Mat4.HomogeneousW;
    MovedPoint(m, v);
    var w := m.HomogeneousW(v);
    TimesRcp(m.c0.x * v.x + m.c1.x * v.y + m.c2.x * v.z + m.c3.x, w);
    TimesRcp(m.c0.y * v.x + m.c1.y * v.y + m.c2.y * v.z + m.c3.y, w);
    TimesRcp(m.c0.z * v.x + m.c1.z * v.y + m.c2.z * v.z + m.c3.z, w);
  }

  lemma TimesRcp(x: real, w: real)
    requires w != 0.0
    ensures x * (1.0 / w) * w == x
  {}

  lemma TimesRcpOfOne(x: real, w: real)
    requires w == 1.0
    ensures x * (1.0 / w) == x
  {}

  lemma OverOne(m: Mat4, v: Vec3)
    requires m.HomogeneousW(v) == 1.0
    ensures m.TransformVec3(v) == Vec3(m.c0.x * v.x + m.c1.x * v.y + m.c2.x * v.z + m.c3.x,
                                       m.c0.y * v.x + m.c1.y * v.y + m.c2.y * v.z + m.c3.y,
                                       m.c0.z * v.x + m.c1.z * v.y + m.c2.z * v.z + m.c3.z)
  {
    hide Mat4.HomogeneousW;
    var w := m.HomogeneousW(v);
    TimesRcpOfOne(m.c0.x * v.x + m.c1.x * v.y + m.c2.x * v.z + m.c3.x, w);
    TimesRcpOfOne(m.c0.y * v.x + m.c1.y * v.y + m.c2.y * v.z + m.c3.y, w);
    TimesRcpOfOne(m.c0.z * v.x + m.c1.z * v.y + m.c2.z * v.z + m.c3.z, w);
  }

  lemma PoseMatrixMoves(p: Pose, v: Vec3)
    requires p.orientation.Unit()
    ensures FromRigidTransform(p).HomogeneousW(v) == 1.0
    ensures FromRigidTransform(p).TransformVec3(v) == p.Transform(v)
  {
    hide Quat.Rotate, FromRigidTransform, Pose.Transform, Mat4.TransformVec4, Mat4.TransformVec3, Mat4.HomogeneousW;
    PoseMatrixTransforms(p, v);
    MovedPoint(FromRigidTransform(p), v);
    OverOne(FromRigidTransform(p), v);
  }

  /** The matrix of a product of poses is the product of their matrices. */
  lemma PoseProduct(a: Pose, b: Pose)
    requires a.orientation.Unit() && b.orientation.Unit()
    ensures FromRigidTransform(a.Multiply(b)) == FromRigidTransform(a).Multiply(FromRigidTransform(b))
  {
    hide Quat.Rotate, FromRigidTransform, Quat.Multiply, Mat4.TransformVec4, Pose.Transform, Quat.Unit;
    var p, q := a.orientation, b.orientation;
    UnitProduct(q, p);
    PoseColumns(b);
    PoseColumns(a.Multiply(b));
    RotateTwice(p, q, E1);
    RotateTwice(p, q, E2);
    RotateTwice(p, q, E3);
    PoseMatrixTransforms(a, q.Rotate(E1));
    PoseMatrixTransforms(a, q.Rotate(E2));
    PoseMatrixTransforms(a, q.Rotate(E3));
    PoseMatrixTransforms(a, b.position);
  }

  // ---------- Inverse poses ----------

  lemma RotateIdentity(v: Vec3)
    ensures QUAT_IDENTITY.Rotate(v) == v
  {
    hide Quat.Rotate;
    RotateFields(QUAT_IDENTITY, v);
  }

  lemma RotateBack(q: Quat, v: Vec3)
    requires q.Unit()
    ensures q.Rotate(q.Invert().Rotate(v)) == v && q.Invert().Rotate(q.Rotate(v)) == v
  {
    hide Quat.Rotate, Quat.Multiply;
    RotateTwice(q, q.Invert(), v);
    RotateTwice(q.Invert(), q, v);
    UnitCancels(q);
    RotateIdentity(v);
  }

  lemma RotateNegated(q: Quat, v: Vec3)
    ensures q.Rotate(v.Scale(-1.0)) == q.Rotate(v).Scale(-1.0)
  {
    hide Quat.Rotate;
    var n := v.Scale(-1.0);
    RotateSum(q, v, n);
    RotateZero(q);
    assert v.Add(n) == Vec3(0.0, 0.0, 0.0);
  }

  lemma RotateZero(q: Quat)
    ensures q.Rotate(Vec3(0.0, 0.0, 0.0)) == Vec3(0.0, 0.0, 0.0)
  {}

  lemma PoseInverse(p: Pose)
    requires p.orientation.Unit()
    ensures p.Multiply(p.Invert()) == POSE_IDENTITY && p.Invert().Multiply(p) == POSE_IDENTITY
  {
    hide Quat.Rotate, Quat.Multiply;
    var q := p.orientation;
    UnitCancels(q);
    RotateBack(q, p.position.Scale(-1.0));
    RotateNegated(q.Invert(), p.position);
  }

  lemma InvertedRotation(q: Quat)
    ensures var r := FromQuaternion(q);
      FromQuaternion(q.Invert()) == Mat4(Vec4(r.c0.x, r.c1.x, r.c2.x, 0.0), Vec4(r.c0.y, r.c1.y, r.c2.y, 0.0),
                                         Vec4(r.c0.z, r.c1.z, r.c2.z, 0.0), r.c3)
  {}

  /** InvertRigidBody of a pose's matrix is the matrix of the inverse pose. */
  lemma InvertedPoseMatrix(p: Pose)
    requires p.orientation.Unit()
    ensures FromRigidTransform(p).InvertRigidBody() == FromRigidTransform(p.Invert())
  {
    hide Quat.Rotate, FromRigidTransform, FromQuaternion;
    var q := p.orientation;
    var n := p.position.Scale(-1.0);
    RigidColumns(p);
    RigidColumns(p.Invert());
    InvertedRotation(q);
    RotationMatrix(q.Invert(), n);
  }

  // ---------- Which way a quaternion turns ----------

  /** About each axis a quaternion turns right-handed, by twice the angle of its parts. */
  lemma TurnsAboutAxes(c: real, s: real, v: Vec3)
    requires c * c + s * s == 1.0
    ensures var cos, sin := c * c - s * s, 2.0 * c * s;
      && Quat(s, 0.0, 0.0, c).Rotate(v) == Vec3(v.x, cos * v.y - sin * v.z, sin * v.y + cos * v.z)
      && Quat(0.0, s, 0.0, c).Rotate(v) == Vec3(cos * v.x + sin * v.z, v.y, cos * v.z - sin * v.x)
      && Quat(0.0, 0.0, s, c).Rotate(v) == Vec3(cos * v.x - sin * v.y, sin * v.x + cos * v.y, v.z)
  {
    hide Quat.Rotate;
    TurnsAboutX(c, s, v);
    TurnsAboutY(c, s, v);
    TurnsAboutZ(c, s, v);
  }

  lemma TimesOne(u: real, x: real)
    requires u == 1.0
    ensures u * x == x
  {}

  lemma TurnsAboutX(c: real, s: real, v: Vec3)
    requires c * c + s * s == 1.0
    ensures Quat(s, 0.0, 0.0, c).Rotate(v) ==
            Vec3(v.x, (c * c - s * s) * v.y - 2.0 * c * s * v.z, 2.0 * c * s * v.y + (c * c - s * s) * v.z)
  {
    hide Quat.Rotate;
    SandwichAboutX(c, s, v);
    TimesOne(c * c + s * s, v.x);
  }

  lemma SandwichAboutX(c: real, s: real, v: Vec3)
    ensures Quat(s, 0.0, 0.0, c).Rotate(v) ==
            Vec3((c * c + s * s) * v.x,
                 (c * c - s * s) * v.y - 2.0 * c * s * v.z,
                 2.0 * c * s * v.y + (c * c - s * s) * v.z)
  {}

  lemma TurnsAboutY(c: real, s: real, v: Vec3)
    requires c * c + s * s == 1.0
    ensures Quat(0.0, s, 0.0, c).Rotate(v) ==
            Vec3((c * c - s * s) * v.x + 2.0 * c * s * v.z, v.y, (c * c - s * s) * v.z - 2.0 * c * s * v.x)
  {
    hide Quat.Rotate;
    SandwichAboutY(c, s, v);
    TimesOne(c * c + s * s, v.y);
  }

  lemma SandwichAboutY(c: real, s: real, v: Vec3)
    ensures Quat(0.0, s, 0.0, c).Rotate(v) ==
            Vec3((c * c - s * s) * v.x + 2.0 * c * s * v.z,
                 (c * c + s * s) * v.y,
                 (c * c - s * s) * v.z - 2.0 * c * s * v.x)
  {}

  lemma TurnsAboutZ(c: real, s: real, v: Vec3)
    requires c * c + s * s == 1.0
    ensures Quat(0.0, 0.0, s, c).Rotate(v) ==
            Vec3((c * c - s * s) * v.x - 2.0 * c * s * v.y, 2.0 * c * s * v.x + (c * c - s * s) * v.y, v.z)
  {
    hide Quat.Rotate;
    SandwichAboutZ(c, s, v);
    TimesOne(c * c + s * s, v.z);
  }

  lemma SandwichAboutZ(c: real, s: real, v: Vec3)
    ensures Quat(0.0, 0.0, s, c).Rotate(v) ==
            Vec3((c * c - s * s) * v.x - 2.0 * c * s * v.y,
                 2.0 * c * s * v.x + (c * c - s * s) * v.y,
                 (c * c + s * s) * v.z)
  {}

  /** A pose turns a point first and then moves it. */
  lemma TurnsThenMoves(q: Quat, p: Vec3, v: Vec3)
    ensures Pose(q, p).Transform(v) == q.Rotate(v).Add(p)
    ensures Pose(QUAT_IDENTITY, p).Transform(v) == Vec3(v.x + p.x, v.y + p.y, v.z + p.z)
  {
    hide Quat.Rotate;
    RotateIdentity(v);
  }
}
