/** Transforming and culling axis-aligned boxes. */
module Bounds {
  import opened MatrixInverse
  import opened XrLinear
  import opened Poses
  import opened Projection

  /** The box between mins and maxs. */
  predicate InBox(mins: Vec3, maxs: Vec3, p: Vec3) { mins.AtMost(p) && p.AtMost(maxs) }

  // ---------- TransformBounds ----------

  /** One axis of XrMatrix4x4f_TransformBounds: a, b, c and t are a row of the matrix. */
  function NewCenter(a: real, b: real, c: real, t: real, x: real, y: real, z: real): real {
    a * x + b * y + c * z + t
  }

  function NewExtent(a: real, b: real, c: real, ex: real, ey: real, ez: real): real {
    Abs(ex * a) + Abs(ey * b) + Abs(ez * c)
  }

  function TransformBounds(m: Mat4, mins: Vec3, maxs: Vec3): (Vec3, Vec3) {
    var center := Vec3((mins.x + maxs.x) * 0.5, (mins.y + maxs.y) * 0.5, (mins.z + maxs.z) * 0.5);
    var extents := Vec3(maxs.x - center.x, maxs.y - center.y, maxs.z - center.z);
    var newCenter := Vec3(NewCenter(m.c0.x, m.c1.x, m.c2.x, m.c3.x, center.x, center.y, center.z),
                          NewCenter(m.c0.y, m.c1.y, m.c2.y, m.c3.y, center.x, center.y, center.z),
                          NewCenter(m.c0.z, m.c1.z, m.c2.z, m.c3.z, center.x, center.y, center.z));
    var newExtents := Vec3(NewExtent(m.c0.x, m.c1.x, m.c2.x, extents.x, extents.y, extents.z),
                           NewExtent(m.c0.y, m.c1.y, m.c2.y, extents.x, extents.y, extents.z),
                           NewExtent(m.c0.z, m.c1.z, m.c2.z, extents.x, extents.y, extents.z));
    (newCenter.Sub(newExtents), newCenter.Add(newExtents))
  }

  /** An affine form over a box: its row (a, b, c) and constant t at p. */
  function Form(a: real, b: real, c: real, t: real, p: Vec3): real { a * p.x + b * p.y + c * p.z + t }

  /** A coordinate of the corner that is extreme for a coefficient of this sign. */
  function Pick(a: real, lo: real, hi: real): real { if a >= 0.0 then hi else lo }

  function HighCorner(a: real, b: real, c: real, mins: Vec3, maxs: Vec3): Vec3 {
    Vec3(Pick(a, mins.x, maxs.x), Pick(b, mins.y, maxs.y), Pick(c, mins.z, maxs.z))
  }

  lemma PickIsHighest(a: real, lo: real, hi: real, x: real)
    requires lo <= x <= hi
    ensures a * x <= a * Pick(a, lo, hi)
  {
    if a >= 0.0 {
      assert a * (hi - x) >= 0.0;
    } else {
      assert (-a) * (x - lo) >= 0.0;
    }
  }

  lemma FormFields(a: real, b: real, c: real, t: real, x: real, y: real, z: real)
    ensures Form(a, b, c, t, Vec3(x, y, z)) == a * x + b * y + c * z + t
  {}

  /** An affine form is bounded over the box by its value at one corner. */
  lemma HighCornerIsHighest(a: real, b: real, c: real, t: real, mins: Vec3, maxs: Vec3, p: Vec3)
    requires InBox(mins, maxs, p)
    ensures Form(a, b, c, t, p) <= Form(a, b, c, t, HighCorner(a, b, c, mins, maxs))
  {
    hide Pick, Form;
    PickIsHighest(a, mins.x, maxs.x, p.x);
    PickIsHighest(b, mins.y, maxs.y, p.y);
    PickIsHighest(c, mins.z, maxs.z, p.z);
    FormFields(a, b, c, t, p.x, p.y, p.z);
    FormFields(a, b, c, t, Pick(a, mins.x, maxs.x), Pick(b, mins.y, maxs.y), Pick(c, mins.z, maxs.z));
  }

  lemma ProductNonNegative(a: real, b: real)
    requires a >= 0.0 && b >= 0.0
    ensures a * b >= 0.0
  {}

  /** The centre term plus the extent term is the extreme value, one coordinate at a time. */
  lemma PickIsExtent(a: real, lo: real, hi: real, mid: real, extent: real)
    requires lo <= hi && mid == (lo + hi) * 0.5 && extent == hi - mid
    ensures a * mid + Abs(extent * a) == a * Pick(a, lo, hi)
    ensures a * mid - Abs(extent * a) == a * Pick(-a, lo, hi)
  {
    if a >= 0.0 {
      ProductNonNegative(extent, a);
    } else {
      ProductNonNegative(extent, -a);
    }
    assert a * lo == a * mid - extent * a;
    assert a * hi == a * mid + extent * a;
  }

  /** Centre plus extent, and centre minus extent, are the values of a row at two opposite corners. */
  lemma RowIsExtreme(a: real, b: real, c: real, t: real, lo: Vec3, hi: Vec3,
      x: real, y: real, z: real, ex: real, ey: real, ez: real)
    requires lo.AtMost(hi)
    requires x == (lo.x + hi.x) * 0.5 && y == (lo.y + hi.y) * 0.5 && z == (lo.z + hi.z) * 0.5
    requires ex == hi.x - x && ey == hi.y - y && ez == hi.z - z
    ensures NewCenter(a, b, c, t, x, y, z) + NewExtent(a, b, c, ex, ey, ez) ==
            Form(a, b, c, t, HighCorner(a, b, c, lo, hi))
    ensures NewCenter(a, b, c, t, x, y, z) - NewExtent(a, b, c, ex, ey, ez) ==
            Form(a, b, c, t, HighCorner(-a, -b, -c, lo, hi))
  {
    hide Pick, Form, Abs;
    PickIsExtent(a, lo.x, hi.x, x, ex);
    PickIsExtent(b, lo.y, hi.y, y, ey);
    PickIsExtent(c, lo.z, hi.z, z, ez);
    FormFields(a, b, c, t, Pick(a, lo.x, hi.x), Pick(b, lo.y, hi.y), Pick(c, lo.z, hi.z));
    FormFields(a, b, c, t, Pick(-a, lo.x, hi.x), Pick(-b, lo.y, hi.y), Pick(-c, lo.z, hi.z));
  }

  lemma LowCornerIsLowest(a: real, b: real, c: real, t: real, mins: Vec3, maxs: Vec3, p: Vec3)
    requires InBox(mins, maxs, p)
    ensures Form(a, b, c, t, HighCorner(-a, -b, -c, mins, maxs)) <= Form(a, b, c, t, p)
  {
    hide HighCorner;
    var low := HighCorner(-a, -b, -c, mins, maxs);
    HighCornerIsHighest(-a, -b, -c, -t, mins, maxs, p);
    assert Form(-a, -b, -c, -t, p) == -Form(a, b, c, t, p);
    assert Form(-a, -b, -c, -t, low) == -Form(a, b, c, t, low);
  }

  lemma AffineImage(m: Mat4, p: Vec3)
    requires m.IsAffine(0.0)
    ensures m.HomogeneousW(p) == 1.0
    ensures m.TransformVec3(p) == Vec3(Form(m.c0.x, m.c1.x, m.c2.x, m.c3.x, p), Form(m.c0.y, m.c1.y, m.c2.y, m.c3.y, p),
                                       Form(m.c0.z, m.c1.z, m.c2.z, m.c3.z, p))
  {}

  /** The transformed bounds, as values of the three rows at corners of the box. */
  lemma BoundsAreCorners(m: Mat4, mins: Vec3, maxs: Vec3)
    requires mins.AtMost(maxs)
    ensures var (lo, hi) := TransformBounds(m, mins, maxs);
      && hi == Vec3(Form(m.c0.x, m.c1.x, m.c2.x, m.c3.x, HighCorner(m.c0.x, m.c1.x, m.c2.x, mins, maxs)),
                    Form(m.c0.y, m.c1.y, m.c2.y, m.c3.y, HighCorner(m.c0.y, m.c1.y, m.c2.y, mins, maxs)),
                    Form(m.c0.z, m.c1.z, m.c2.z, m.c3.z, HighCorner(m.c0.z, m.c1.z, m.c2.z, mins, maxs)))
      && lo == Vec3(Form(m.c0.x, m.c1.x, m.c2.x, m.c3.x, HighCorner(-m.c0.x, -m.c1.x, -m.c2.x, mins, maxs)),
                    Form(m.c0.y, m.c1.y, m.c2.y, m.c3.y, HighCorner(-m.c0.y, -m.c1.y, -m.c2.y, mins, maxs)),
                    Form(m.c0.z, m.c1.z, m.c2.z, m.c3.z, HighCorner(-m.c0.z, -m.c1.z, -m.c2.z, mins, maxs)))
  {
    hide Form, HighCorner, NewCenter, NewExtent;
    var center := Vec3((mins.x + maxs.x) * 0.5, (mins.y + maxs.y) * 0.5, (mins.z + maxs.z) * 0.5);
    var extents := Vec3(maxs.x - center.x, maxs.y - center.y, maxs.z - center.z);
    RowIsExtreme(m.c0.x, m.c1.x, m.c2.x, m.c3.x, mins, maxs,
                 center.x, center.y, center.z, extents.x, extents.y, extents.z);
    RowIsExtreme(m.c0.y, m.c1.y, m.c2.y, m.c3.y, mins, maxs,
                 center.x, center.y, center.z, extents.x, extents.y, extents.z);
    RowIsExtreme(m.c0.z, m.c1.z, m.c2.z, m.c3.z, mins, maxs,
                 center.x, center.y, center.z, extents.x, extents.y, extents.z);
  }

  /** The transformed bounds contain the image of every point of the box, not just of its corners. */
  lemma BoundsContainImages(m: Mat4, mins: Vec3, maxs: Vec3, p: Vec3)
    requires m.IsAffine(0.0) && InBox(mins, maxs, p)
    ensures m.HomogeneousW(p) != 0.0
    ensures var (lo, hi) := TransformBounds(m, mins, maxs); InBox(lo, hi, m.TransformVec3(p))
  {
    hide Form, HighCorner, TransformBounds, Mat4.TransformVec3, Mat4.HomogeneousW;
    BoundsAreCorners(m, mins, maxs);
    AffineImage(m, p);
    HighCornerIsHighest(m.c0.x, m.c1.x, m.c2.x, m.c3.x, mins, maxs, p);
    HighCornerIsHighest(m.c0.y, m.c1.y, m.c2.y, m.c3.y, mins, maxs, p);
    HighCornerIsHighest(m.c0.z, m.c1.z, m.c2.z, m.c3.z, mins, maxs, p);
    LowCornerIsLowest(m.c0.x, m.c1.x, m.c2.x, m.c3.x, mins, maxs, p);
    LowCornerIsLowest(m.c0.y, m.c1.y, m.c2.y, m.c3.y, mins, maxs, p);
    LowCornerIsLowest(m.c0.z, m.c1.z, m.c2.z, m.c3.z, mins, maxs, p);
  }

  /** No smaller box will do: each face is reached by the image of a corner. */
  lemma BoundsAreTight(m: Mat4, mins: Vec3, maxs: Vec3, lo: Vec3, hi: Vec3)
    requires m.IsAffine(0.0) && mins.AtMost(maxs)
    requires forall p | InBox(mins, maxs, p) :: m.HomogeneousW(p) != 0.0 && InBox(lo, hi, m.TransformVec3(p))
    ensures var (l, h) := TransformBounds(m, mins, maxs); lo.AtMost(l) && h.AtMost(hi)
  {
    hide Form, TransformBounds, Mat4.TransformVec3, Mat4.HomogeneousW;
    BoundsAreCorners(m, mins, maxs);
    AffineImage(m, HighCorner(m.c0.x, m.c1.x, m.c2.x, mins, maxs));
    AffineImage(m, HighCorner(m.c0.y, m.c1.y, m.c2.y, mins, maxs));
    AffineImage(m, HighCorner(m.c0.z, m.c1.z, m.c2.z, mins, maxs));
    AffineImage(m, HighCorner(-m.c0.x, -m.c1.x, -m.c2.x, mins, maxs));
    AffineImage(m, HighCorner(-m.c0.y, -m.c1.y, -m.c2.y, mins, maxs));
    AffineImage(m, HighCorner(-m.c0.z, -m.c1.z, -m.c2.z, mins, maxs));
  }

  // ---------- CullBounds ----------

  datatype Plane = Left | Right | Bottom | Top | Near | Far

  const PLANES := [Left, Right, Bottom, Top, Near, Far]

  /** A clip-space point on or beyond a plane, in the order XrMatrix4x4f_CullBounds tests them. */
  predicate Beyond(plane: Plane, c: Vec4) {
    match plane
    case Left => c.x <= -c.w
    case Right => c.x >= c.w
    case Bottom => c.y <= -c.w
    case Top => c.y >= c.w
    case Near => c.z <= -c.w
    case Far => c.z >= c.w
  }

  function Corner(i: int, mins: Vec3, maxs: Vec3): Vec3
    requires 0 <= i < 8
  {
    Vec3(if i % 2 == 1 then maxs.x else mins.x,
         if i / 2 % 2 == 1 then maxs.y else mins.y,
         if i / 4 % 2 == 1 then maxs.z else mins.z)
  }

  predicate CornersBeyond(plane: Plane, m: Mat4, mins: Vec3, maxs: Vec3) {
    forall i | 0 <= i < 8 :: Beyond(plane, m.TransformVec4(Point(Corner(i, mins, maxs))))
  }

  /** One of the six scans: the loop runs to 8 unless a corner is inside. */
  method AllBeyond(plane: Plane, c: array<Vec4>) returns (all: bool)
    requires c.Length == 8
    ensures all <==> forall k | 0 <= k < 8 :: Beyond(plane, c[k])
  {
    var i := 0;
    while i < 8
      invariant 0 <= i <= 8
      invariant forall k | 0 <= k < i :: Beyond(plane, c[k])
    {
      if !Beyond(plane, c[i]) {
        break;
      }
      i := i + 1;
    }
    all := i == 8;
  }

  /** XrMatrix4x4f_CullBounds. A box without any positive side is never culled; on any other the corners decide. */
  method CullBounds(mvp: Mat4, mins: Vec3, maxs: Vec3) returns (culled: bool)
    ensures culled <==>
      && (mins.x < maxs.x || mins.y < maxs.y || mins.z < maxs.z)
      && exists plane :: CornersBeyond(plane, mvp, mins, maxs)
  {
    hide Beyond, Corner, Mat4.TransformVec4;
    if maxs.x <= mins.x && maxs.y <= mins.y && maxs.z <= mins.z {
      return false;
    }
    var c := new Vec4[8];
    for i := 0 to 8
      invariant forall k | 0 <= k < i :: c[k] == mvp.TransformVec4(Point(Corner(k, mins, maxs)))
    {
      c[i] := mvp.TransformVec4(Point(Corner(i, mins, maxs)));
    }
    for p := 0 to 6
      invariant forall k | 0 <= k < 8 :: c[k] == mvp.TransformVec4(Point(Corner(k, mins, maxs)))
      invariant forall k | 0 <= k < p :: !CornersBeyond(PLANES[k], mvp, mins, maxs)
    {
      var all := AllBeyond(PLANES[p], c);
      if all {
        forall k | 0 <= k < 8
          ensures Beyond(PLANES[p], mvp.TransformVec4(Point(Corner(k, mins, maxs))))
        {
          assert Beyond(PLANES[p], c[k]);
        }
        assert CornersBeyond(PLANES[p], mvp, mins, maxs);
        return true;
      }
    }
    forall plane: Plane
      ensures !CornersBeyond(plane, mvp, mins, maxs)
    {
      var k := match plane case Left => 0 case Right => 1 case Bottom => 2 case Top => 3 case Near => 4 case Far => 5;
      assert PLANES[k] == plane;
    }
    return false;
  }

  // ---------- Soundness of culling ----------

  /** How far a clip-space point is past a plane: a linear form of the point. */
  function Excess(plane: Plane, c: Vec4): real {
    match plane
    case Left => -c.x - c.w
    case Right => c.x - c.w
    case Bottom => -c.y - c.w
    case Top => c.y - c.w
    case Near => -c.z - c.w
    case Far => c.z - c.w
  }

  /** The row of the matrix that Excess reads, as an affine form of the point. */
  function ExcessRow(plane: Plane, m: Mat4): Vec4 {
    Vec4(Excess(plane, m.c0), Excess(plane, m.c1), Excess(plane, m.c2), Excess(plane, m.c3))
  }

  lemma ExcessIsForm(plane: Plane, m: Mat4, p: Vec3)
    ensures var r := ExcessRow(plane, m); Excess(plane, m.TransformVec4(Point(p))) == Form(r.x, r.y, r.z, r.w, p)
  {}

  /** Every corner picked by signs is one of the eight. */
  lemma PickedCorner(a: real, b: real, c: real, mins: Vec3, maxs: Vec3) returns (i: int)
    ensures 0 <= i < 8 && Corner(i, mins, maxs) == HighCorner(a, b, c, mins, maxs)
  {
    i := (if a >= 0.0 then 1 else 0) + (if b >= 0.0 then 2 else 0) + (if c >= 0.0 then 4 else 0);
  }

  /** If the eight corners are on or beyond a plane, so is every point of the box. */
  lemma WholeBoxBeyond(plane: Plane, m: Mat4, mins: Vec3, maxs: Vec3, p: Vec3)
    requires CornersBeyond(plane, m, mins, maxs) && InBox(mins, maxs, p)
    ensures Beyond(plane, m.TransformVec4(Point(p)))
  {
    hide Form, Mat4.TransformVec4, ExcessRow, Corner, HighCorner;
    var r := ExcessRow(plane, m);
    // The lowest corner of the form is on or beyond the plane, and p is at least as far.
    var i := PickedCorner(-r.x, -r.y, -r.z, mins, maxs);
    var q := Corner(i, mins, maxs);
    assert Beyond(plane, m.TransformVec4(Point(q)));
    ExcessIsForm(plane, m, q);
    ExcessIsForm(plane, m, p);
    LowCornerIsLowest(r.x, r.y, r.z, r.w, mins, maxs, p);
  }

  ghost predicate BoxBeyond(plane: Plane, m: Mat4, mins: Vec3, maxs: Vec3) {
    forall p | InBox(mins, maxs, p) :: Beyond(plane, m.TransformVec4(Point(p)))
  }

  lemma CornerInBox(i: int, mins: Vec3, maxs: Vec3)
    requires 0 <= i < 8 && mins.AtMost(maxs)
    ensures InBox(mins, maxs, Corner(i, mins, maxs))
  {}

  /** The eight corners decide for the whole box. */
  lemma CornersDecide(plane: Plane, m: Mat4, mins: Vec3, maxs: Vec3)
    requires mins.AtMost(maxs)
    ensures CornersBeyond(plane, m, mins, maxs) <==> BoxBeyond(plane, m, mins, maxs)
  {
    hide Mat4.TransformVec4, Beyond, Corner, InBox;
    if CornersBeyond(plane, m, mins, maxs) {
      forall p | InBox(mins, maxs, p)
        ensures Beyond(plane, m.TransformVec4(Point(p)))
      {
        WholeBoxBeyond(plane, m, mins, maxs, p);
      }
    }
    forall i | 0 <= i < 8
      ensures InBox(mins, maxs, Corner(i, mins, maxs))
    {
      CornerInBox(i, mins, maxs);
    }
  }

  /** What a cull means: one plane has the whole box on or beyond it, and the box is more than a point. */
  ghost predicate Cullable(mvp: Mat4, mins: Vec3, maxs: Vec3) {
    mins != maxs && exists plane :: BoxBeyond(plane, mvp, mins, maxs)
  }

  lemma CullsExactlyBoxesBeyondAPlane(mvp: Mat4, mins: Vec3, maxs: Vec3)
    requires mins.AtMost(maxs)
    ensures Cullable(mvp, mins, maxs) <==>
            && (mins.x < maxs.x || mins.y < maxs.y || mins.z < maxs.z)
            && exists plane :: CornersBeyond(plane, mvp, mins, maxs)
  {
    hide CornersBeyond, BoxBeyond;
    assert mins != maxs <==> mins.x < maxs.x || mins.y < maxs.y || mins.z < maxs.z;
    forall plane: Plane
      ensures CornersBeyond(plane, mvp, mins, maxs) <==> BoxBeyond(plane, mvp, mins, maxs)
    {
      CornersDecide(plane, mvp, mins, maxs);
    }
  }

  /** Culling against a projection never drops a box that reaches strictly inside the view frustum. */
  lemma BoxInFrustumIsNotCulled(api: GraphicsApi, f: Frustum, mins: Vec3, maxs: Vec3, p: Vec3)
    requires f.Valid() && f.StrictlyContains(p) && InBox(mins, maxs, p)
    ensures !Cullable(CreateProjection(api, f), mins, maxs)
  {
    hide CreateProjection, Mat4.TransformVec4, InBox, Frustum.StrictlyContains;
    InsideAllPlanes(api, f, p);
  }

  lemma MovedByAffine(m: Mat4, p: Vec3)
    requires m.IsAffine(0.0)
    ensures m.HomogeneousW(p) == 1.0 && m.TransformVec4(Point(p)) == Point(m.TransformVec3(p))
  {}

  /** So does culling against a projection times an affine matrix: a box of the model is kept if one of its points
      is moved strictly inside the frustum. */
  lemma MovedBoxIsNotCulled(api: GraphicsApi, f: Frustum, modelView: Mat4, mins: Vec3, maxs: Vec3, p: Vec3)
    requires f.Valid() && modelView.IsAffine(0.0) && InBox(mins, maxs, p)
    requires f.StrictlyContains(modelView.TransformVec3(p))
    ensures !Cullable(CreateProjection(api, f).Multiply(modelView), mins, maxs)
  {
    MovedByAffine(modelView, p);
    hide CreateProjection, Mat4.TransformVec4, Mat4.Multiply, InBox, Frustum.StrictlyContains;
    TransformTwice(CreateProjection(api, f), modelView, Point(p));
    InsideAllPlanes(api, f, modelView.TransformVec3(p));
  }

  /** A point on or beyond a face of the frustum, at depth d. The faces are those of the frustum, except that where the
      clip volume starts at 0 the near test is only failed at about half the distance of the near plane. */
  predicate BeyondFace(api: GraphicsApi, f: Frustum, plane: Plane, v: Vec3) {
    var d := -v.z;
    match plane
    case Left => v.x <= f.left * d
    case Right => f.right * d <= v.x
    case Bottom => if api.Vulkan? then f.up * d <= v.y else v.y <= f.down * d
    case Top => if api.Vulkan? then v.y <= f.down * d else f.up * d <= v.y
    case Near =>
      if SymmetricDepth(api) then d <= f.nearZ
      else if f.Infinite() then 2.0 * d <= f.nearZ
      else d * (2.0 * f.farZ - f.nearZ) <= f.farZ * f.nearZ
    case Far => !f.Infinite() && f.farZ <= d
  }

  lemma BeyondIff(api: GraphicsApi, f: Frustum, plane: Plane, v: Vec3)
    requires f.Valid()
    ensures Beyond(plane, CreateProjection(api, f).TransformVec4(Point(v))) <==> BeyondFace(api, f, plane, v)
  {
    hide CreateProjection, Mat4.TransformVec4, Frustum.Infinite;
    match plane {
      case Left => HorizontalExtent(api, f, v);
      case Right => HorizontalExtent(api, f, v);
      case Bottom => VerticalEnds(api, f, v);
      case Top => VerticalEnds(api, f, v);
      case Near =>
        if SymmetricDepth(api) {
          DepthExtent(api, f, v);
        } else {
          NearTest(api, f, v);
        }
      case Far =>
        DepthExtent(api, f, v);
    }
  }

  /** Exactly which boxes culling against a projection times an affine matrix drops: those that the matrix moves,
      as a whole, on or beyond one face. */
  lemma CulledIff(api: GraphicsApi, f: Frustum, modelView: Mat4, mins: Vec3, maxs: Vec3)
    requires f.Valid() && modelView.IsAffine(0.0)
    ensures Cullable(CreateProjection(api, f).Multiply(modelView), mins, maxs) <==>
            mins != maxs && exists plane :: MovedBeyond(api, f, plane, modelView, mins, maxs)
  {
    hide CreateProjection, Mat4.TransformVec4, Mat4.Multiply, Beyond, BeyondFace, InBox, Mat4.IsAffine;
    var mvp := CreateProjection(api, f).Multiply(modelView);
    forall plane: Plane
      ensures BoxBeyond(plane, mvp, mins, maxs) <==> MovedBeyond(api, f, plane, modelView, mins, maxs)
    {
      forall p
        ensures Beyond(plane, mvp.TransformVec4(Point(p))) <==> BeyondFace(api, f, plane, Moved(modelView, p))
      {
        MovedByAffine(modelView, p);
        TransformTwice(CreateProjection(api, f), modelView, Point(p));
        BeyondIff(api, f, plane, Moved(modelView, p));
      }
    }
  }

  /** XrMatrix4x4f_TransformVector3f for a matrix that is affine. */
  function Moved(m: Mat4, p: Vec3): Vec3
    requires m.IsAffine(0.0)
  {
    m.TransformVec3(p)
  }

  ghost predicate MovedBeyond(api: GraphicsApi, f: Frustum, plane: Plane, m: Mat4, mins: Vec3, maxs: Vec3)
    requires m.IsAffine(0.0)
  {
    forall p | InBox(mins, maxs, p) :: BeyondFace(api, f, plane, Moved(m, p))
  }

  /** Between the sides of the frustum. */
  predicate BetweenSides(f: Frustum, v: Vec3) {
    var d := -v.z;
    f.left * d < v.x < f.right * d && f.down * d < v.y < f.up * d
  }

  lemma NoFaceBeyond(api: GraphicsApi, f: Frustum, plane: Plane, v: Vec3)
    requires BetweenSides(f, v) && !SymmetricDepth(api) && f.Infinite() && f.nearZ < 2.0 * -v.z
    ensures !BeyondFace(api, f, plane, v)
  {}

  lemma BeforeNear(f: Frustum, mins: Vec3, maxs: Vec3, v: Vec3)
    requires InBox(mins, maxs, v) && -mins.z < f.nearZ
    ensures -v.z < f.nearZ
  {}

  /** So where the clip volume starts at 0 a box wholly in front of the near plane is kept if one of its points is
      between the sides and beyond half the distance of that plane. */
  lemma KeptBeforeNear(api: GraphicsApi, f: Frustum, mins: Vec3, maxs: Vec3, p: Vec3)
    requires f.Valid() && !SymmetricDepth(api) && f.Infinite() && InBox(mins, maxs, p)
    requires BetweenSides(f, p) && f.nearZ < 2.0 * -p.z && -mins.z < f.nearZ
    ensures forall q | InBox(mins, maxs, q) :: -q.z < f.nearZ
    ensures !Cullable(CreateProjection(api, f), mins, maxs)
  {
    hide CreateProjection, Mat4.TransformVec4, Beyond, BeyondFace, BetweenSides, InBox;
    forall q | InBox(mins, maxs, q) ensures -q.z < f.nearZ {
      BeforeNear(f, mins, maxs, q);
    }
    forall plane: Plane ensures !Beyond(plane, CreateProjection(api, f).TransformVec4(Point(p))) {
      BeyondIff(api, f, plane, p);
      NoFaceBeyond(api, f, plane, p);
    }
  }

  /** Cullable in terms of clip space, plane by plane. */
  lemma CullableIff(mvp: Mat4, mins: Vec3, maxs: Vec3)
    ensures Cullable(mvp, mins, maxs) <==>
      && mins != maxs
      && (|| (forall p | InBox(mins, maxs, p) :: var c := mvp.TransformVec4(Point(p)); c.x <= -c.w)
          || (forall p | InBox(mins, maxs, p) :: var c := mvp.TransformVec4(Point(p)); c.w <= c.x)
          || (forall p | InBox(mins, maxs, p) :: var c := mvp.TransformVec4(Point(p)); c.y <= -c.w)
          || (forall p | InBox(mins, maxs, p) :: var c := mvp.TransformVec4(Point(p)); c.w <= c.y)
          || (forall p | InBox(mins, maxs, p) :: var c := mvp.TransformVec4(Point(p)); c.z <= -c.w)
          || (forall p | InBox(mins, maxs, p) :: var c := mvp.TransformVec4(Point(p)); c.w <= c.z))
  {
    hide Mat4.TransformVec4, InBox;
    assert (exists plane :: BoxBeyond(plane, mvp, mins, maxs)) <==>
      || BoxBeyond(Left, mvp, mins, maxs) || BoxBeyond(Right, mvp, mins, maxs)
      || BoxBeyond(Bottom, mvp, mins, maxs) || BoxBeyond(Top, mvp, mins, maxs)
      || BoxBeyond(Near, mvp, mins, maxs) || BoxBeyond(Far, mvp, mins, maxs);
  }

  /** The method, on a box: a point is never culled, and any other box exactly when all its points are on or beyond
      one of the six planes of clip space. */
  method CullBox(mvp: Mat4, mins: Vec3, maxs: Vec3) returns (culled: bool)
    requires mins.AtMost(maxs)
    ensures culled <==>
      && mins != maxs
      && (|| (forall p | InBox(mins, maxs, p) :: var c := mvp.TransformVec4(Point(p)); c.x <= -c.w)
          || (forall p | InBox(mins, maxs, p) :: var c := mvp.TransformVec4(Point(p)); c.w <= c.x)
          || (forall p | InBox(mins, maxs, p) :: var c := mvp.TransformVec4(Point(p)); c.y <= -c.w)
          || (forall p | InBox(mins, maxs, p) :: var c := mvp.TransformVec4(Point(p)); c.w <= c.y)
          || (forall p | InBox(mins, maxs, p) :: var c := mvp.TransformVec4(Point(p)); c.z <= -c.w)
          || (forall p | InBox(mins, maxs, p) :: var c := mvp.TransformVec4(Point(p)); c.w <= c.z))
    ensures culled <==> Cullable(mvp, mins, maxs)
  {
    hide Cullable, CornersBeyond, Mat4.TransformVec4, InBox;
    culled := CullBounds(mvp, mins, maxs);
    CullsExactlyBoxesBeyondAPlane(mvp, mins, maxs);
    CullableIff(mvp, mins, maxs);
  }

  /** A flat box wholly beyond the right plane. */
  method FlatBoxIsCulled() returns (culled: bool)
    ensures culled
  {
    var mins, maxs := Vec3(2.0, 0.0, 0.0), Vec3(3.0, 1.0, 0.0);
    forall i | 0 <= i < 8
      ensures Beyond(Right, MAT_IDENTITY.TransformVec4(Point(Corner(i, mins, maxs))))
    {
      assert Corner(i, mins, maxs).x >= 2.0;
    }
    assert CornersBeyond(Right, MAT_IDENTITY, mins, maxs);
    culled := CullBounds(MAT_IDENTITY, mins, maxs);
  }
}
