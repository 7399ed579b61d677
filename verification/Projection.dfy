/** XrMatrix4x4f_CreateProjection: clip volume and view frustum are the same set of points. */
module Projection {
  import opened XrLinear
  import opened Poses

  datatype GraphicsApi = Vulkan | OpenGL | OpenGLES | D3D | Metal

  /** Whether the clip volume's depth range is [-w, w] rather than [0, w]. */
  predicate SymmetricDepth(api: GraphicsApi) { api.OpenGL? || api.OpenGLES? }

  datatype Frustum = Frustum(left: real, right: real, up: real, down: real, nearZ: real, farZ: real) {
    predicate Valid() { left < right && down < up && 0.0 < nearZ }

    /** The far plane is at infinity when it is not beyond the near plane. */
    predicate Infinite() { farZ <= nearZ }

    /** A point d in front of the eye: its tangents and its depth are in range. */
    predicate Contains(v: Vec3)
      requires v.z < 0.0
    {
      var d := -v.z;
      left * d <= v.x <= right * d && down * d <= v.y <= up * d && nearZ <= d && (Infinite() || d <= farZ)
    }

    predicate StrictlyContains(v: Vec3) {
      var d := -v.z;
      left * d < v.x < right * d && down * d < v.y < up * d && nearZ < d && (Infinite() || d < farZ)
    }
  }

  function Height(api: GraphicsApi, f: Frustum): real {
    if api.Vulkan? then f.down - f.up else f.up - f.down
  }

  function CreateProjection(api: GraphicsApi, f: Frustum): Mat4
    requires f.Valid()
  {
    var width := f.right - f.left;
    var height := Height(api, f);
    var offsetZ := if SymmetricDepth(api) then f.nearZ else 0.0;
    var c0 := Vec4(2.0 / width, 0.0, 0.0, 0.0);
    var c1 := Vec4(0.0, 2.0 / height, 0.0, 0.0);
    var sx, sy := (f.right + f.left) / width, (f.up + f.down) / height;
    if f.farZ <= f.nearZ then
      Mat4(c0, c1, Vec4(sx, sy, -1.0, -1.0), Vec4(0.0, 0.0, -(f.nearZ + offsetZ), 0.0))
    else
      Mat4(c0, c1, Vec4(sx, sy, -(f.farZ + offsetZ) / (f.farZ - f.nearZ), -1.0),
           Vec4(0.0, 0.0, -(f.farZ * (f.nearZ + offsetZ)) / (f.farZ - f.nearZ), 0.0))
  }

  /** The API's clip volume. */
  predicate InClipVolume(api: GraphicsApi, c: Vec4) {
    && -c.w <= c.x <= c.w && -c.w <= c.y <= c.w
    && (if SymmetricDepth(api) then -c.w else 0.0) <= c.z <= c.w
  }

  lemma SlabEnds(x: real, z: real, lo: real, hi: real, a: real, b: real)
    requires a * (hi - lo) == 2.0 && b * (hi - lo) == hi + lo
    ensures (a * x + b * z - z) * (hi - lo) == 2.0 * (x + lo * z)
    ensures (-z - (a * x + b * z)) * (hi - lo) == 2.0 * (-hi * z - x)
  {
    assert (a * x + b * z - z) * (hi - lo) == (a * (hi - lo)) * x + (b * (hi - lo)) * z - z * (hi - lo);
    assert (-z - (a * x + b * z)) * (hi - lo) == -z * (hi - lo) - (a * (hi - lo)) * x - (b * (hi - lo)) * z;
  }

  /** 2 x / (hi - lo) + (hi + lo) / (hi - lo) z against +-z for z = -d, with the quotients named. */
  lemma Slab(x: real, z: real, lo: real, hi: real, a: real, b: real, c: real)
    requires lo < hi && a * (hi - lo) == 2.0 && b * (hi - lo) == hi + lo
    requires c == a * x + b * z
    ensures (z <= c <==> lo * -z <= x) && (c <= -z <==> x <= hi * -z)
    ensures (z < c <==> lo * -z < x) && (c < -z <==> x < hi * -z)
  {
    SlabEnds(x, z, lo, hi, a, b);
    SignOfProduct(a * x + b * z - z, hi - lo);
    SignOfProduct(-z - (a * x + b * z), hi - lo);
  }

  /** The same with both quotients over lo - hi: the ends change places. */
  lemma FlippedSlab(x: real, z: real, lo: real, hi: real, a: real, b: real, c: real)
    requires lo < hi && a * (lo - hi) == 2.0 && b * (lo - hi) == hi + lo
    requires c == a * x + b * z
    ensures (z <= c <==> x <= hi * -z) && (c <= -z <==> lo * -z <= x)
    ensures (z < c <==> x < hi * -z) && (c < -z <==> lo * -z < x)
  {
    assert (-a) * (hi - lo) == a * (lo - hi);
    assert (-b) * (hi - lo) == b * (lo - hi);
    Slab(x, z, lo, hi, -a, -b, -c);
  }

  lemma SignOfProduct(a: real, w: real)
    requires w > 0.0
    ensures a * w > 0.0 <==> a > 0.0
    ensures a * w == 0.0 <==> a == 0.0
  {
    if a > 0.0 { assert a * w > 0.0; }
    if a < 0.0 { assert (-a) * w > 0.0; }
  }

  /** The finite depth row, over its denominator w. */
  lemma DepthNumerators(d: real, near: real, far: real, offset: real, p: real, r: real)
    requires p * (far - near) == far + offset && r * (far - near) == far * (near + offset)
    ensures (p * d - r) * (far - near) == (far + offset) * d - far * (near + offset)
  {
    assert (p * d - r) * (far - near) == (p * (far - near)) * d - r * (far - near);
  }

  lemma FarPlane(d: real, near: real, far: real, offset: real, z: real)
    requires 0.0 < near < far && (offset == near || offset == 0.0)
    requires z * (far - near) == (far + offset) * d - far * (near + offset)
    ensures (z <= d <==> d <= far) && (z < d <==> d < far)
  {
    assert (d - z) * (far - near) == (far - d) * (near + offset);
    SignOfProduct(d - z, far - near);
    SignOfProduct(far - d, near + offset);
  }

  lemma NearPlaneSymmetric(d: real, near: real, far: real, z: real)
    requires 0.0 < near < far
    requires z * (far - near) == (far + near) * d - far * (near + near)
    ensures (-d <= z <==> near <= d) && (-d < z <==> near < d)
  {
    assert (z + d) * (far - near) == (d - near) * (2.0 * far);
    SignOfProduct(z + d, far - near);
    SignOfProduct(d - near, 2.0 * far);
  }

  lemma NearPlaneZero(d: real, near: real, far: real, z: real)
    requires 0.0 < near < far
    requires z * (far - near) == far * d - far * near
    ensures (0.0 <= z <==> near <= d) && (0.0 < z <==> near < d)
  {
    assert z * (far - near) == (d - near) * far;
    SignOfProduct(z, far - near);
    SignOfProduct(d - near, far);
  }

  lemma FiniteDepth(symmetric: bool, d: real, near: real, far: real, p: real, r: real, z: real)
    requires 0.0 < near < far && z == (-p) * (-d) + (-r)
    requires var offset := if symmetric then near else 0.0;
      p * (far - near) == far + offset && r * (far - near) == far * (near + offset)
    ensures var low := if symmetric then -d else 0.0;
      && (low <= z <==> near <= d) && (low < z <==> near < d)
      && (z <= d <==> d <= far) && (z < d <==> d < far)
  {
    var offset := if symmetric then near else 0.0;
    DepthNumerators(d, near, far, offset, p, r);
    FarPlane(d, near, far, offset, z);
    if symmetric {
      NearPlaneSymmetric(d, near, far, z);
    } else {
      NearPlaneZero(d, near, far, z);
    }
  }

  lemma ProjectionEntries(api: GraphicsApi, f: Frustum)
    requires f.Valid()
    ensures var m := CreateProjection(api, f);
      && m.c0.y == m.c0.z == m.c0.w == 0.0 && m.c1.x == m.c1.z == m.c1.w == 0.0
      && m.c2.w == -1.0 && m.c3.x == m.c3.y == m.c3.w == 0.0
  {}

  /** What the matrix makes of a point, its entries written out. */
  lemma ClipFields(api: GraphicsApi, f: Frustum, v: Vec3)
    requires f.Valid()
    ensures var m := CreateProjection(api, f); var c := m.TransformVec4(Point(v));
      && c.w == -v.z && c.x == m.c0.x * v.x + m.c2.x * v.z && c.y == m.c1.y * v.y + m.c2.y * v.z
      && c.z == m.c2.z * v.z + m.c3.z
  {
    hide CreateProjection, Mat4.TransformVec4;
    ProjectionEntries(api, f);
    MovedPoint(CreateProjection(api, f), v);
  }

  /** The quotients stored by CreateProjection, multiplied back by their denominators. */
  lemma Quotients(api: GraphicsApi, f: Frustum)
    requires f.Valid()
    ensures var m := CreateProjection(api, f);
      && m.c0.x * (f.right - f.left) == 2.0 && m.c2.x * (f.right - f.left) == f.right + f.left
      && m.c1.y * Height(api, f) == 2.0 && m.c2.y * Height(api, f) == f.up + f.down
  {}

  lemma DepthQuotients(api: GraphicsApi, f: Frustum)
    requires f.Valid() && !f.Infinite()
    ensures var m := CreateProjection(api, f);
      var offsetZ := if SymmetricDepth(api) then f.nearZ else 0.0;
      && -m.c2.z * (f.farZ - f.nearZ) == f.farZ + offsetZ
      && -m.c3.z * (f.farZ - f.nearZ) == f.farZ * (f.nearZ + offsetZ)
  {}

  lemma HorizontalExtent(api: GraphicsApi, f: Frustum, v: Vec3)
    requires f.Valid()
    ensures var c := CreateProjection(api, f).TransformVec4(Point(v)); var d := -v.z;
      && (-c.w <= c.x <==> f.left * d <= v.x) && (c.x <= c.w <==> v.x <= f.right * d)
      && (-c.w < c.x <==> f.left * d < v.x) && (c.x < c.w <==> v.x < f.right * d)
  {
    hide CreateProjection, Mat4.TransformVec4;
    var m := CreateProjection(api, f);
    ClipFields(api, f, v);
    Quotients(api, f);
    Slab(v.x, v.z, f.left, f.right, m.c0.x, m.c2.x, m.TransformVec4(Point(v)).x);
  }

  /** Vulkan's clip space has y pointing down, which swaps the two ends of the range. */
  lemma VerticalExtent(api: GraphicsApi, f: Frustum, v: Vec3)
    requires f.Valid()
    ensures var c := CreateProjection(api, f).TransformVec4(Point(v)); var d := -v.z;
      && (-c.w <= c.y <= c.w <==> f.down * d <= v.y <= f.up * d)
      && (-c.w < c.y < c.w <==> f.down * d < v.y < f.up * d)
  {
    hide CreateProjection, Mat4.TransformVec4;
    var m := CreateProjection(api, f);
    ClipFields(api, f, v);
    Quotients(api, f);
    if api.Vulkan? {
      FlippedSlab(v.y, v.z, f.down, f.up, m.c1.y, m.c2.y, m.TransformVec4(Point(v)).y);
    } else {
      Slab(v.y, v.z, f.down, f.up, m.c1.y, m.c2.y, m.TransformVec4(Point(v)).y);
    }
  }

  lemma VerticalEnds(api: GraphicsApi, f: Frustum, v: Vec3)
    requires f.Valid()
    ensures var c := CreateProjection(api, f).TransformVec4(Point(v)); var d := -v.z;
      && (-c.w < c.y <==> if api.Vulkan? then v.y < f.up * d else f.down * d < v.y)
      && (c.y < c.w <==> if api.Vulkan? then f.down * d < v.y else v.y < f.up * d)
      && (-c.w <= c.y <==> if api.Vulkan? then v.y <= f.up * d else f.down * d <= v.y)
      && (c.y <= c.w <==> if api.Vulkan? then f.down * d <= v.y else v.y <= f.up * d)
  {
    hide CreateProjection, Mat4.TransformVec4;
    var m := CreateProjection(api, f);
    ClipFields(api, f, v);
    Quotients(api, f);
    if api.Vulkan? {
      FlippedSlab(v.y, v.z, f.down, f.up, m.c1.y, m.c2.y, m.TransformVec4(Point(v)).y);
    } else {
      Slab(v.y, v.z, f.down, f.up, m.c1.y, m.c2.y, m.TransformVec4(Point(v)).y);
    }
  }

  lemma InfiniteDepth(api: GraphicsApi, f: Frustum)
    requires f.Valid() && f.Infinite()
    ensures var m := CreateProjection(api, f);
      m.c2.z == -1.0 && m.c3.z == -(f.nearZ + if SymmetricDepth(api) then f.nearZ else 0.0)
  {}

  lemma DepthExtent(api: GraphicsApi, f: Frustum, v: Vec3)
    requires f.Valid()
    ensures var c := CreateProjection(api, f).TransformVec4(Point(v)); var d := -v.z;
      var low := if SymmetricDepth(api) then -c.w else 0.0;
      && (low <= c.z <==> f.nearZ <= d) && (low < c.z <==> f.nearZ < d)
      && (c.z <= c.w <==> f.Infinite() || d <= f.farZ) && (c.z < c.w <==> f.Infinite() || d < f.farZ)
  {
    hide CreateProjection, Mat4.TransformVec4;
    var m := CreateProjection(api, f);
    ClipFields(api, f, v);
    if f.Infinite() {
      InfiniteDepth(api, f);
    } else {
      DepthQuotients(api, f);
      FiniteDepth(SymmetricDepth(api), -v.z, f.nearZ, f.farZ, -m.c2.z, -m.c3.z, m.TransformVec4(Point(v)).z);
    }
  }

  lemma NearTestFinite(d: real, near: real, far: real, p: real, r: real, z: real)
    requires 0.0 < near < far && z == (-p) * (-d) + (-r)
    requires p * (far - near) == far && r * (far - near) == far * near
    ensures z <= -d <==> d * (2.0 * far - near) <= far * near
  {
    DepthNumerators(d, near, far, 0.0, p, r);
    assert (z + d) * (far - near) == d * (2.0 * far - near) - far * near;
    SignOfProduct(z + d, far - near);
  }

  /** The test against -w where the clip volume starts at 0: it is later than the near plane. */
  lemma NearTest(api: GraphicsApi, f: Frustum, v: Vec3)
    requires f.Valid() && !SymmetricDepth(api)
    ensures var c := CreateProjection(api, f).TransformVec4(Point(v)); var d := -v.z;
      c.z <= -c.w <==> if f.Infinite() then 2.0 * d <= f.nearZ else d * (2.0 * f.farZ - f.nearZ) <= f.farZ * f.nearZ
  {
    hide CreateProjection, Mat4.TransformVec4;
    var m := CreateProjection(api, f);
    ClipFields(api, f, v);
    if f.Infinite() {
      InfiniteDepth(api, f);
    } else {
      DepthQuotients(api, f);
      NearTestFinite(-v.z, f.nearZ, f.farZ, -m.c2.z, -m.c3.z, m.TransformVec4(Point(v)).z);
    }
  }

  /** A point in front of the eye lands in the clip volume exactly when the frustum contains it. */
  lemma ClipVolumeIsFrustum(api: GraphicsApi, f: Frustum, v: Vec3)
    requires f.Valid() && v.z < 0.0
    ensures InClipVolume(api, CreateProjection(api, f).TransformVec4(Point(v))) <==> f.Contains(v)
  {
    hide CreateProjection, Mat4.TransformVec4;
    HorizontalExtent(api, f, v);
    VerticalExtent(api, f, v);
    DepthExtent(api, f, v);
    ClipFields(api, f, v);
  }

  /** A point strictly inside the frustum is strictly inside all six planes the culling test uses. */
  lemma InsideAllPlanes(api: GraphicsApi, f: Frustum, v: Vec3)
    requires f.Valid() && f.StrictlyContains(v)
    ensures var c := CreateProjection(api, f).TransformVec4(Point(v));
      -c.w < c.x < c.w && -c.w < c.y < c.w && -c.w < c.z < c.w
  {
    hide CreateProjection, Mat4.TransformVec4;
    HorizontalExtent(api, f, v);
    VerticalExtent(api, f, v);
    DepthExtent(api, f, v);
    ClipFields(api, f, v);
  }

  // ---------- Where the faces of the frustum go ----------

  /** Left and right go to -w and w, and so do down and up, but for Vulkan the other way round. */
  lemma SidesLand(api: GraphicsApi, f: Frustum, v: Vec3)
    requires f.Valid()
    ensures var c := CreateProjection(api, f).TransformVec4(Point(v)); var d := -v.z;
      && c.w == d
      && (v.x == f.left * d ==> c.x == -d) && (v.x == f.right * d ==> c.x == d)
      && (v.y == f.down * d ==> c.y == if api == Vulkan then d else -d)
      && (v.y == f.up * d ==> c.y == if api == Vulkan then -d else d)
  {
    hide CreateProjection, Mat4.TransformVec4;
    ClipFields(api, f, v);
    HorizontalExtent(api, f, v);
    VerticalEnds(api, f, v);
  }

  /** The near plane goes to -w for OpenGL and OpenGL ES and to 0 for the others, the far plane to w for all. */
  lemma DepthLands(api: GraphicsApi, f: Frustum, v: Vec3)
    requires f.Valid()
    ensures var c := CreateProjection(api, f).TransformVec4(Point(v)); var d := -v.z;
      && (d == f.nearZ ==> c.z == match api
                                  case OpenGL => -d
                                  case OpenGLES => -d
                                  case Vulkan => 0.0
                                  case D3D => 0.0
                                  case Metal => 0.0)
      && (f.nearZ < f.farZ && d == f.farZ ==> c.z == d)
      && (f.farZ <= f.nearZ ==> c.z < d)
  {
    hide CreateProjection, Mat4.TransformVec4;
    ClipFields(api, f, v);
    DepthExtent(api, f, v);
  }
}
