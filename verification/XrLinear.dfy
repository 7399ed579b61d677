/** The vector, quaternion, pose and matrix code of xr_linear.h over exact reals.
    Out-parameters become results; the trigonometric constructors are not modelled. */
module XrLinear {

  function Abs(x: real): (r: real)
    ensures r >= 0.0 && (r == x || r == -x)
  {
    if x < 0.0 then -x else x
  }

  // ---------- Reciprocal square roots ----------

  const SMALLEST_NON_DENORMAL: real := 0.000000000000000000000000000000000000011754943508222875

  ghost predicate IsRcpSqrt(x: real, r: real) {
    r > 0.0 && r * r * x == 1.0
  }

  /** XrRcpSqrt. Every positive real has a reciprocal root, but reals carry no completeness axiom
      here: the function is total, and each theorem that relies on a root exhibits it. */
  ghost function RcpSqrt(x: real): (r: real)
    ensures x >= SMALLEST_NON_DENORMAL && (exists s :: IsRcpSqrt(x, s)) ==> IsRcpSqrt(x, r)
    ensures x < SMALLEST_NON_DENORMAL ==> r == 1.0
  {
    if x >= SMALLEST_NON_DENORMAL && exists s :: IsRcpSqrt(x, s) then
      var s :| IsRcpSqrt(x, s); s
    else
      1.0
  }

  ghost predicate IsSqrt(x: real, r: real) {
    r >= 0.0 && r * r == x
  }

  /** sqrtf on a non-negative argument, total for the same reason. */
  ghost function Sqrt(x: real): (r: real)
    ensures (exists s :: IsSqrt(x, s)) ==> IsSqrt(x, r)
  {
    if exists s :: IsSqrt(x, s) then
      var s :| IsSqrt(x, s); s
    else
      0.0
  }

  // ---------- Vectors ----------

  datatype Vec3 = Vec3(x: real, y: real, z: real) {
    function Add(b: Vec3): Vec3 { Vec3(x + b.x, y + b.y, z + b.z) }

    function Sub(b: Vec3): Vec3 { Vec3(x - b.x, y - b.y, z - b.z) }

    function Scale(f: real): Vec3 { Vec3(x * f, y * f, z * f) }

    predicate AtMost(b: Vec3) { x <= b.x && y <= b.y && z <= b.z }
  }

  datatype Vec4 = Vec4(x: real, y: real, z: real, w: real) {
    function At(i: int): real
      requires 0 <= i < 4
    {
      if i == 0 then x else if i == 1 then y else if i == 2 then z else w
    }

    function Times(k: real): Vec4 { Vec4(x * k, y * k, z * k, w * k) }
  }

  // ---------- Quaternions ----------

  datatype Quat = Quat(x: real, y: real, z: real, w: real) {
    /** XrQuaternionf_Multiply(result, this, b). */
    function Multiply(b: Quat): Quat {
      Quat((b.w * x) + (b.x * w) + (b.y * z) - (b.z * y),
           (b.w * y) - (b.x * z) + (b.y * w) + (b.z * x),
           (b.w * z) + (b.x * y) - (b.y * x) + (b.z * w),
           (b.w * w) - (b.x * x) - (b.y * y) - (b.z * z))
    }

    function Invert(): Quat { Quat(-x, -y, -z, w) }

    function Negate(): Quat { Quat(-x, -y, -z, -w) }

    predicate Unit() { x * x + y * y + z * z + w * w == 1.0 }

    /** XrQuaternionf_RotateVector3f. */
    function Rotate(v: Vec3): Vec3 {
      var aq := Quat(v.x, v.y, v.z, 0.0).Multiply(this);
      var aqaInv := Invert().Multiply(aq);
      Vec3(aqaInv.x, aqaInv.y, aqaInv.z)
    }
  }

  const QUAT_IDENTITY := Quat(0.0, 0.0, 0.0, 1.0)

  // ---------- Poses ----------

  datatype Pose = Pose(orientation: Quat, position: Vec3) {
    /** XrPosef_TransformVector3f. */
    function Transform(v: Vec3): Vec3 { orientation.Rotate(v).Add(position) }

    /** XrPosef_Multiply(result, this, b). */
    function Multiply(b: Pose): Pose {
      Pose(b.orientation.Multiply(orientation), Transform(b.position))
    }

    function Invert(): Pose {
      var inv := orientation.Invert();
      Pose(inv, inv.Rotate(position.Scale(-1.0)))
    }
  }

  const POSE_IDENTITY := Pose(QUAT_IDENTITY, Vec3(0.0, 0.0, 0.0))

  // ---------- Matrices ----------

  /** XrMatrix4x4f, column-major: m[4 * j + i] is component i of column cj. */
  datatype Mat4 = Mat4(c0: Vec4, c1: Vec4, c2: Vec4, c3: Vec4) {
    function Column(j: int): Vec4
      requires 0 <= j < 4
    {
      if j == 0 then c0 else if j == 1 then c1 else if j == 2 then c2 else c3
    }

    /** m[4 * j + i]. */
    function At(j: int, i: int): real
      requires 0 <= j < 4 && 0 <= i < 4
    {
      Column(j).At(i)
    }

    /** XrMatrix4x4f_TransformVector4f. */
    function TransformVec4(v: Vec4): Vec4 {
      Vec4(c0.x * v.x + c1.x * v.y + c2.x * v.z + c3.x * v.w,
           c0.y * v.x + c1.y * v.y + c2.y * v.z + c3.y * v.w,
           c0.z * v.x + c1.z * v.y + c2.z * v.z + c3.z * v.w,
           c0.w * v.x + c1.w * v.y + c2.w * v.z + c3.w * v.w)
    }

    /** XrMatrix4x4f_Multiply(result, this, b): each column of b, transformed. */
    function Multiply(b: Mat4): Mat4 {
      Mat4(TransformVec4(b.c0), TransformVec4(b.c1), TransformVec4(b.c2), TransformVec4(b.c3))
    }

    function Transpose(): Mat4 {
      Mat4(Vec4(c0.x, c1.x, c2.x, c3.x), Vec4(c0.y, c1.y, c2.y, c3.y),
           Vec4(c0.z, c1.z, c2.z, c3.z), Vec4(c0.w, c1.w, c2.w, c3.w))
    }

    /** XrMatrix4x4f_Minor. */
    function Minor(r0: int, r1: int, r2: int, i0: int, i1: int, i2: int): real
      requires 0 <= r0 < 4 && 0 <= r1 < 4 && 0 <= r2 < 4
      requires 0 <= i0 < 4 && 0 <= i1 < 4 && 0 <= i2 < 4
    {
      At(r0, i0) * (At(r1, i1) * At(r2, i2) - At(r2, i1) * At(r1, i2)) -
      At(r0, i1) * (At(r1, i0) * At(r2, i2) - At(r2, i0) * At(r1, i2)) +
      At(r0, i2) * (At(r1, i0) * At(r2, i1) - At(r2, i0) * At(r1, i1))
    }

    /** The divisor of XrMatrix4x4f_Invert. */
    function Determinant(): real {
      c0.x * Minor(1, 2, 3, 1, 2, 3) - c0.y * Minor(1, 2, 3, 0, 2, 3) +
      c0.z * Minor(1, 2, 3, 0, 1, 3) - c0.w * Minor(1, 2, 3, 0, 1, 2)
    }

    /** XrMatrix4x4f_Invert, where the divisor is not zero. */
    function Invert(): Mat4
      requires Determinant() != 0.0
    {
      SignedMinors().Times(1.0 / Determinant())
    }

    /** What XrMatrix4x4f_Invert stores, before the factor common to its sixteen stores. */
    function SignedMinors(): Mat4 {
      Mat4(Vec4( Minor(1, 2, 3, 1, 2, 3), -Minor(0, 2, 3, 1, 2, 3),  Minor(0, 1, 3, 1, 2, 3), -Minor(0, 1, 2, 1, 2, 3)),
           Vec4(-Minor(1, 2, 3, 0, 2, 3),  Minor(0, 2, 3, 0, 2, 3), -Minor(0, 1, 3, 0, 2, 3),  Minor(0, 1, 2, 0, 2, 3)),
           Vec4( Minor(1, 2, 3, 0, 1, 3), -Minor(0, 2, 3, 0, 1, 3),  Minor(0, 1, 3, 0, 1, 3), -Minor(0, 1, 2, 0, 1, 3)),
           Vec4(-Minor(1, 2, 3, 0, 1, 2),  Minor(0, 2, 3, 0, 1, 2), -Minor(0, 1, 3, 0, 1, 2),  Minor(0, 1, 2, 0, 1, 2)))
    }

    function Times(k: real): Mat4 {
      Mat4(c0.Times(k), c1.Times(k), c2.Times(k), c3.Times(k))
    }

    /** XrMatrix4x4f_InvertRigidBody: the transposed rotation and the rotated, negated translation. */
    function InvertRigidBody(): Mat4 {
      Mat4(Vec4(c0.x, c1.x, c2.x, 0.0),
           Vec4(c0.y, c1.y, c2.y, 0.0),
           Vec4(c0.z, c1.z, c2.z, 0.0),
           Vec4(-(c0.x * c3.x + c0.y * c3.y + c0.z * c3.z),
                -(c1.x * c3.x + c1.y * c3.y + c1.z * c3.z),
                -(c2.x * c3.x + c2.y * c3.y + c2.z * c3.z),
                1.0))
    }

    predicate IsAffine(epsilon: real) {
      Abs(c0.w) <= epsilon && Abs(c1.w) <= epsilon && Abs(c2.w) <= epsilon && Abs(c3.w - 1.0) <= epsilon
    }

    function HomogeneousW(v: Vec3): real { c0.w * v.x + c1.w * v.y + c2.w * v.z + c3.w }

    /** XrMatrix4x4f_TransformVector3f, where the homogeneous divisor is not zero. */
    function TransformVec3(v: Vec3): Vec3
      requires HomogeneousW(v) != 0.0
    {
      var rcpW := 1.0 / HomogeneousW(v);
      Vec3((c0.x * v.x + c1.x * v.y + c2.x * v.z + c3.x) * rcpW,
           (c0.y * v.x + c1.y * v.y + c2.y * v.z + c3.y) * rcpW,
           (c0.z * v.x + c1.z * v.y + c2.z * v.z + c3.z) * rcpW)
    }
  }

  const MAT_IDENTITY := Mat4(Vec4(1.0, 0.0, 0.0, 0.0), Vec4(0.0, 1.0, 0.0, 0.0),
                             Vec4(0.0, 0.0, 1.0, 0.0), Vec4(0.0, 0.0, 0.0, 1.0))

  function Translation(t: Vec3): Mat4 {
    MAT_IDENTITY.(c3 := Vec4(t.x, t.y, t.z, 1.0))
  }

  function Scaling(s: Vec3): Mat4 {
    Mat4(Vec4(s.x, 0.0, 0.0, 0.0), Vec4(0.0, s.y, 0.0, 0.0), Vec4(0.0, 0.0, s.z, 0.0), Vec4(0.0, 0.0, 0.0, 1.0))
  }

  /** XrMatrix4x4f_CreateFromQuaternion. */
  function FromQuaternion(q: Quat): Mat4 {
    var x2, y2, z2 := q.x + q.x, q.y + q.y, q.z + q.z;
    var xx2, yy2, zz2 := q.x * x2, q.y * y2, q.z * z2;
    var yz2, wx2, xy2 := q.y * z2, q.w * x2, q.x * y2;
    var wz2, xz2, wy2 := q.w * z2, q.x * z2, q.w * y2;
    Mat4(Vec4(1.0 - yy2 - zz2, xy2 + wz2, xz2 - wy2, 0.0),
         Vec4(xy2 - wz2, 1.0 - xx2 - zz2, yz2 + wx2, 0.0),
         Vec4(xz2 + wy2, yz2 - wx2, 1.0 - xx2 - yy2, 0.0),
         Vec4(0.0, 0.0, 0.0, 1.0))
  }

  /** XrMatrix4x4f_CreateTranslationRotationScale. */
  function TranslationRotationScale(t: Vec3, q: Quat, s: Vec3): Mat4 {
    Translation(t).Multiply(FromQuaternion(q).Multiply(Scaling(s)))
  }

  function FromRigidTransform(p: Pose): Mat4 {
    TranslationRotationScale(p.position, p.orientation, Vec3(1.0, 1.0, 1.0))
  }
}
