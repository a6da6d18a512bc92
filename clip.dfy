/**
 * Frustum clipping (src/clip.c): Sutherland-Hodgman clipping of a bounded
 * polygon against the six frustum planes, followed by fan re-triangulation.
 *
 * The polygon record is a class over two fixed-capacity arrays that
 * `ClipAgainstPlane` rewrites in place. What a pass produces is specified by
 * the value-level function `ClipPoly`, which walks the edges in the source's
 * order; the lemmas below state what that function guarantees.
 */
module Clip {
  import opened Geometry

  const MAX_NUM_POLYGON_VERTICES: nat := 10
  const MAX_NUM_POLYGON_TRIANGLES: nat := 10

  /** Plane indices, in the order `ClipPolygon` applies them. */
  const LEFT_FRUSTUM_PLANE: nat := 0
  const RIGHT_FRUSTUM_PLANE: nat := 1
  const TOP_FRUSTUM_PLANE: nat := 2
  const BOTTOM_FRUSTUM_PLANE: nat := 3
  const NEAR_FRUSTUM_PLANE: nat := 4
  const FAR_FRUSTUM_PLANE: nat := 5
  const NUM_PLANES: nat := 6

  /** A plane given by a point on it and its inward-pointing normal. */
  datatype Plane = Plane(point: Vec3, normal: Vec3)

  /** The value held by a polygon: vertices and texture coordinates, index-aligned. */
  datatype Poly = Poly(verts: seq<Vec3>, uvs: seq<Tex2>)

  /** A triangle handed to the rasterizer: three points and their texture coordinates. */
  datatype Triangle = Triangle(a: Vec4, b: Vec4, c: Vec4, uvA: Tex2, uvB: Tex2, uvC: Tex2)

  predicate WellFormed(p: Poly) {
    |p.verts| == |p.uvs|
  }

  function Concat(p: Poly, q: Poly): Poly {
    Poly(p.verts + q.verts, p.uvs + q.uvs)
  }

  const Empty: Poly := Poly([], [])

  /** float_lerp. */
  function Lerp(a: real, b: real, t: real): (r: real)
    ensures t == 0.0 ==> r == a
    ensures t == 1.0 ==> r == b
  {
    a + t * (b - a)
  }

  /** For a factor in [0, 1] the interpolated value lies between the two ends. */
  lemma LerpBetween(a: real, b: real, t: real)
    requires 0.0 <= t <= 1.0
    ensures MinReal(a, b) <= Lerp(a, b, t) <= MaxReal(a, b)
  {
    if a <= b {
      MulUnit(t, b - a);
    } else {
      MulUnit(t, a - b);
      assert t * (b - a) == -(t * (a - b));
    }
  }

  lemma MulUnit(t: real, d: real)
    requires 0.0 <= t <= 1.0 && d >= 0.0
    ensures 0.0 <= t * d <= d
  {
    assert d - t * d == (1.0 - t) * d;
  }

  function LerpVec3(a: Vec3, b: Vec3, t: real): Vec3 {
    Vec3(Lerp(a.x, b.x, t), Lerp(a.y, b.y, t), Lerp(a.z, b.z, t))
  }

  function LerpTex2(a: Tex2, b: Tex2, t: real): Tex2 {
    Tex2(Lerp(a.u, b.u, t), Lerp(a.v, b.v, t))
  }

  /** Signed distance (scaled by the normal's length) of a vertex from a plane. */
  function Dist(v: Vec3, plane: Plane): real {
    Dot3(Sub3(v, plane.point), plane.normal)
  }

  /** Strictly inside: a vertex lying exactly on the plane is not inside. */
  predicate Inside(v: Vec3, plane: Plane) {
    Dist(v, plane) > 0.0
  }

  /** The edge visited with vertex `i` as its current end starts at `Prev(n, i)`. */
  function Prev(n: nat, i: nat): (j: nat)
    requires i < n
    ensures j < n
    ensures (j + 1) % n == i
  {
    if i == 0 then
      assert n % n == 0;
      n - 1
    else
      assert i % n == i;
      i - 1
  }

  /** The edge ending at vertex `i` changes side: the product of its end distances is negative. */
  predicate Crosses(p: Poly, plane: Plane, i: nat)
    requires i < |p.verts|
  {
    Dist(p.verts[Prev(|p.verts|, i)], plane) * Dist(p.verts[i], plane) < 0.0
  }

  lemma NegativeProduct(a: real, b: real)
    requires a * b < 0.0
    ensures (a < 0.0 < b) || (b < 0.0 < a)
  {
    ProductSigns(a, b);
  }

  lemma ProductSigns(a: real, b: real)
    ensures a >= 0.0 && b >= 0.0 ==> a * b >= 0.0
    ensures a <= 0.0 && b <= 0.0 ==> a * b >= 0.0
    ensures a > 0.0 && b < 0.0 ==> a * b < 0.0 && b * a < 0.0
  {
    if a <= 0.0 && b <= 0.0 {
      assert a * b == (-a) * (-b);
    }
    if a > 0.0 && b < 0.0 {
      assert a * b == -(a * (-b));
    }
  }

  /** An edge crosses exactly when its two ends lie strictly on opposite sides. */
  lemma CrossesIff(p: Poly, plane: Plane, i: nat)
    requires i < |p.verts|
    ensures var dp, dc := Dist(p.verts[Prev(|p.verts|, i)], plane), Dist(p.verts[i], plane);
      Crosses(p, plane, i) <==> (dp < 0.0 < dc) || (dc < 0.0 < dp)
  {
    var dp, dc := Dist(p.verts[Prev(|p.verts|, i)], plane), Dist(p.verts[i], plane);
    ProductSigns(dp, dc);
    ProductSigns(dc, dp);
  }

  /** The interpolation factor t = d_prev / (d_prev - d_cur) of a crossing edge. */
  function Factor(p: Poly, plane: Plane, i: nat): (t: real)
    requires i < |p.verts| && Crosses(p, plane, i)
    ensures 0.0 < t < 1.0
  {
    var dp := Dist(p.verts[Prev(|p.verts|, i)], plane);
    var dc := Dist(p.verts[i], plane);
    NegativeProduct(dp, dc);
    FactorInUnitInterval(dp, dc);
    dp / (dp - dc)
  }

  lemma FactorInUnitInterval(dp: real, dc: real)
    requires (dp < 0.0 < dc) || (dc < 0.0 < dp)
    ensures 0.0 < dp / (dp - dc) < 1.0
  {
    if dp > 0.0 {
      assert dp - dc > dp;
    } else {
      assert dp - dc < dp;
    }
  }

  function IntersectionVertex(p: Poly, plane: Plane, i: nat): Vec3
    requires i < |p.verts| && Crosses(p, plane, i)
  {
    LerpVec3(p.verts[Prev(|p.verts|, i)], p.verts[i], Factor(p, plane, i))
  }

  /** The texture coordinate of an intersection uses the same factor as its position. */
  function IntersectionTexcoord(p: Poly, plane: Plane, i: nat): Tex2
    requires WellFormed(p) && i < |p.verts| && Crosses(p, plane, i)
  {
    LerpTex2(p.uvs[Prev(|p.verts|, i)], p.uvs[i], Factor(p, plane, i))
  }

  /**
   * What visiting vertex `i` emits: the intersection of the edge ending at
   * `i` (if it crosses), then vertex `i` itself (if strictly inside).
   */
  function Step(p: Poly, plane: Plane, i: nat): Poly
    requires WellFormed(p) && i < |p.verts|
  {
    var cut := if Crosses(p, plane, i)
      then Poly([IntersectionVertex(p, plane, i)], [IntersectionTexcoord(p, plane, i)])
      else Empty;
    var keep := if Inside(p.verts[i], plane) then Poly([p.verts[i]], [p.uvs[i]]) else Empty;
    Concat(cut, keep)
  }

  /** Step, written with the two distances as the pass computes them. */
  function EdgeOutput(pv: Vec3, pt: Tex2, cv: Vec3, ct: Tex2, dp: real, dc: real): (r: Poly)
    ensures WellFormed(r) && |r.verts| <= 2
    ensures |r.verts| == (if dc * dp < 0.0 then 1 else 0) + (if dc > 0.0 then 1 else 0)
  {
    var cut := if dc * dp < 0.0
      then
        assert dp - dc != 0.0 by { ProductSigns(dp, dc); ProductSigns(dc, dp); }
        Poly([LerpVec3(pv, cv, dp / (dp - dc))], [LerpTex2(pt, ct, dp / (dp - dc))])
      else Empty;
    Concat(cut, if dc > 0.0 then Poly([cv], [ct]) else Empty)
  }

  lemma StepComputed(p: Poly, plane: Plane, i: nat, dp: real, dc: real)
    requires WellFormed(p) && i < |p.verts|
    requires dp == Dist(p.verts[Prev(|p.verts|, i)], plane) && dc == Dist(p.verts[i], plane)
    ensures Step(p, plane, i) == EdgeOutput(p.verts[Prev(|p.verts|, i)], p.uvs[Prev(|p.verts|, i)], p.verts[i], p.uvs[i], dp, dc)
  {
    assert dc * dp == dp * dc;
    if dc * dp < 0.0 {
      NegativeProduct(dp, dc);
    }
  }

  /** The output after visiting vertices 0 .. k-1. */
  function ClipPrefix(p: Poly, plane: Plane, k: nat): (r: Poly)
    requires WellFormed(p) && k <= |p.verts|
    ensures WellFormed(r)
    ensures |r.verts| <= 2 * k
  {
    if k == 0 then Empty else Concat(ClipPrefix(p, plane, k - 1), Step(p, plane, k - 1))
  }

  /** One clipping pass: the polygon that clip_polygon_against_plane leaves behind. */
  function ClipPoly(p: Poly, plane: Plane): (r: Poly)
    requires WellFormed(p)
    ensures WellFormed(r)
    ensures |p.verts| == 0 ==> r == Empty
  {
    ClipPrefix(p, plane, |p.verts|)
  }

  /** Number of vertices among 0 .. k-1 that are strictly inside. */
  function InsideCount(p: Poly, plane: Plane, k: nat): nat
    requires k <= |p.verts|
  {
    if k == 0 then 0
    else InsideCount(p, plane, k - 1) + (if Inside(p.verts[k - 1], plane) then 1 else 0)
  }

  /** Number of edges ending at vertices 0 .. k-1 that change side. */
  function CrossingCount(p: Poly, plane: Plane, k: nat): nat
    requires k <= |p.verts|
  {
    if k == 0 then 0
    else CrossingCount(p, plane, k - 1) + (if Crosses(p, plane, k - 1) then 1 else 0)
  }

  lemma {:induction false} ClipPrefixCount(p: Poly, plane: Plane, k: nat)
    requires WellFormed(p) && k <= |p.verts|
    ensures |ClipPrefix(p, plane, k).verts| == InsideCount(p, plane, k) + CrossingCount(p, plane, k)
  {
    if k > 0 {
      ClipPrefixCount(p, plane, k - 1);
    }
  }

  /** The counting rule: output size = vertices strictly inside + edges that change side. */
  lemma ClipCount(p: Poly, plane: Plane)
    requires WellFormed(p)
    ensures |ClipPoly(p, plane).verts| == |ClipPoly(p, plane).uvs|
    ensures |ClipPoly(p, plane).verts| == InsideCount(p, plane, |p.verts|) + CrossingCount(p, plane, |p.verts|)
  {
    ClipPrefixCount(p, plane, |p.verts|);
  }

  lemma ClipPrefixMonotone(p: Poly, plane: Plane, k: nat, m: nat)
    requires WellFormed(p) && k <= m <= |p.verts|
    ensures ClipPrefix(p, plane, k).verts <= ClipPrefix(p, plane, m).verts
    ensures ClipPrefix(p, plane, k).uvs <= ClipPrefix(p, plane, m).uvs
  {
    var a := ClipPrefix(p, plane, k);
    var j := k;
    while j < m
      invariant k <= j <= m
      invariant a.verts <= ClipPrefix(p, plane, j).verts && a.uvs <= ClipPrefix(p, plane, j).uvs
    {
      ClipPrefixGrows(p, plane, a, j);
      j := j + 1;
    }
  }

  /** Visiting one more vertex only appends to the output, so a prefix of the output stays one. */
  lemma ClipPrefixGrows(p: Poly, plane: Plane, a: Poly, j: nat)
    requires WellFormed(p) && j < |p.verts|
    requires a.verts <= ClipPrefix(p, plane, j).verts && a.uvs <= ClipPrefix(p, plane, j).uvs
    ensures a.verts <= ClipPrefix(p, plane, j + 1).verts && a.uvs <= ClipPrefix(p, plane, j + 1).uvs
  {
    PrefixOfConcat(a.verts, ClipPrefix(p, plane, j).verts, Step(p, plane, j).verts);
    PrefixOfConcat(a.uvs, ClipPrefix(p, plane, j).uvs, Step(p, plane, j).uvs);
  }

  lemma PrefixOfConcat<T>(a: seq<T>, b: seq<T>, c: seq<T>)
    requires a <= b
    ensures a <= b + c
  {
    assert (b + c)[..|a|] == b[..|a|];
  }

  /** On the intersection of a crossing edge, the signed distance is zero (exact arithmetic). */
  lemma DistLerp(a: Vec3, b: Vec3, t: real, plane: Plane)
    ensures Dist(LerpVec3(a, b, t), plane) == Dist(a, plane) + t * (Dist(b, plane) - Dist(a, plane))
  {
    var n := plane.normal;
    var q := plane.point;
    calc {
      Dist(LerpVec3(a, b, t), plane);
      (a.x + t * (b.x - a.x) - q.x) * n.x + (a.y + t * (b.y - a.y) - q.y) * n.y
        + (a.z + t * (b.z - a.z) - q.z) * n.z;
      { assert (a.x + t * (b.x - a.x) - q.x) * n.x == (a.x - q.x) * n.x + t * ((b.x - q.x) * n.x - (a.x - q.x) * n.x);
        assert (a.y + t * (b.y - a.y) - q.y) * n.y == (a.y - q.y) * n.y + t * ((b.y - q.y) * n.y - (a.y - q.y) * n.y);
        assert (a.z + t * (b.z - a.z) - q.z) * n.z == (a.z - q.z) * n.z + t * ((b.z - q.z) * n.z - (a.z - q.z) * n.z); }
      Dist(a, plane) + t * (Dist(b, plane) - Dist(a, plane));
    }
  }

  lemma IntersectionOnPlane(p: Poly, plane: Plane, i: nat)
    requires i < |p.verts| && Crosses(p, plane, i)
    ensures 0.0 < Factor(p, plane, i) < 1.0
    ensures Dist(IntersectionVertex(p, plane, i), plane) == 0.0
  {
    var dp := Dist(p.verts[Prev(|p.verts|, i)], plane);
    var dc := Dist(p.verts[i], plane);
    var t := Factor(p, plane, i);
    DistLerp(p.verts[Prev(|p.verts|, i)], p.verts[i], t, plane);
    NegativeProduct(dp, dc);
    assert t * (dp - dc) == dp;
    assert t * (dc - dp) == -dp;
  }

  /** An output corner that is an input corner strictly inside the plane. */
  ghost predicate KeptCorner(p: Poly, plane: Plane, v: Vec3, uv: Tex2) {
    exists i :: 0 <= i < |p.verts| && i < |p.uvs| && Inside(p.verts[i], plane) && v == p.verts[i] && uv == p.uvs[i]
  }

  /** An output corner that is the intersection of a crossing edge, position and texcoord by the same factor. */
  ghost predicate CutCorner(p: Poly, plane: Plane, v: Vec3, uv: Tex2)
    requires WellFormed(p)
  {
    exists i :: (0 <= i < |p.verts| && Crosses(p, plane, i)
                 && v == IntersectionVertex(p, plane, i) && uv == IntersectionTexcoord(p, plane, i))
  }

  lemma {:induction false} ClipPrefixOrigin(p: Poly, plane: Plane, k: nat)
    requires WellFormed(p) && k <= |p.verts|
    ensures forall j :: 0 <= j < |ClipPrefix(p, plane, k).verts| ==>
      KeptCorner(p, plane, ClipPrefix(p, plane, k).verts[j], ClipPrefix(p, plane, k).uvs[j])
      || CutCorner(p, plane, ClipPrefix(p, plane, k).verts[j], ClipPrefix(p, plane, k).uvs[j])
  {
    if k > 0 {
      ClipPrefixOrigin(p, plane, k - 1);
      var r := ClipPrefix(p, plane, k);
      var r0 := ClipPrefix(p, plane, k - 1);
      forall j | 0 <= j < |r.verts|
        ensures KeptCorner(p, plane, r.verts[j], r.uvs[j]) || CutCorner(p, plane, r.verts[j], r.uvs[j])
      {
        if j >= |r0.verts| {
          var i := k - 1;
          if Crosses(p, plane, i) && j == |r0.verts| {
            assert CutCorner(p, plane, r.verts[j], r.uvs[j]);
          } else {
            assert Inside(p.verts[i], plane) && r.verts[j] == p.verts[i] && r.uvs[j] == p.uvs[i];
            assert KeptCorner(p, plane, r.verts[j], r.uvs[j]);
          }
        } else {
          assert r.verts[j] == r0.verts[j] && r.uvs[j] == r0.uvs[j];
        }
      }
    }
  }

  /**
   * Every output corner either is an input corner strictly inside the plane,
   * or lies on a crossing edge, with its texture coordinate interpolated by
   * the same factor as its position.
   */
  lemma ClipOrigin(p: Poly, plane: Plane)
    requires WellFormed(p)
    ensures forall j :: 0 <= j < |ClipPoly(p, plane).verts| ==>
      KeptCorner(p, plane, ClipPoly(p, plane).verts[j], ClipPoly(p, plane).uvs[j])
      || CutCorner(p, plane, ClipPoly(p, plane).verts[j], ClipPoly(p, plane).uvs[j])
  {
    ClipPrefixOrigin(p, plane, |p.verts|);
  }

  /** No output vertex lies strictly outside the plane. */
  lemma ClipInClosedHalfSpace(p: Poly, plane: Plane)
    requires WellFormed(p)
    ensures forall j :: 0 <= j < |ClipPoly(p, plane).verts| ==> Dist(ClipPoly(p, plane).verts[j], plane) >= 0.0
  {
    var r := ClipPoly(p, plane);
    ClipOrigin(p, plane);
    forall j | 0 <= j < |r.verts| ensures Dist(r.verts[j], plane) >= 0.0 {
      if !KeptCorner(p, plane, r.verts[j], r.uvs[j]) {
        var i :| 0 <= i < |p.verts| && Crosses(p, plane, i)
          && r.verts[j] == IntersectionVertex(p, plane, i) && r.uvs[j] == IntersectionTexcoord(p, plane, i);
        IntersectionOnPlane(p, plane, i);
      }
    }
  }

  lemma {:induction false} ClipPrefixKeeps(p: Poly, plane: Plane, k: nat, i: nat)
    requires WellFormed(p) && i < k <= |p.verts| && Inside(p.verts[i], plane)
    ensures exists j :: (0 <= j < |ClipPrefix(p, plane, k).verts|
                         && ClipPrefix(p, plane, k).verts[j] == p.verts[i] && ClipPrefix(p, plane, k).uvs[j] == p.uvs[i])
  {
    var r := ClipPrefix(p, plane, k);
    var r0 := ClipPrefix(p, plane, k - 1);
    if i == k - 1 {
      var j := |r.verts| - 1;
      assert r.verts[j] == p.verts[i] && r.uvs[j] == p.uvs[i];
    } else {
      ClipPrefixKeeps(p, plane, k - 1, i);
      var j :| 0 <= j < |r0.verts| && r0.verts[j] == p.verts[i] && r0.uvs[j] == p.uvs[i];
      assert r.verts[j] == r0.verts[j] && r.uvs[j] == r0.uvs[j];
    }
  }

  /** Every input vertex strictly inside survives, still paired with its texture coordinate. */
  lemma ClipKeepsInside(p: Poly, plane: Plane, i: nat)
    requires WellFormed(p) && i < |p.verts| && Inside(p.verts[i], plane)
    ensures exists j :: (0 <= j < |ClipPoly(p, plane).verts|
                         && ClipPoly(p, plane).verts[j] == p.verts[i] && ClipPoly(p, plane).uvs[j] == p.uvs[i])
  {
    ClipPrefixKeeps(p, plane, |p.verts|, i);
    var r := ClipPrefix(p, plane, |p.verts|);
    var j :| 0 <= j < |r.verts| && r.verts[j] == p.verts[i] && r.uvs[j] == p.uvs[i];
    assert ClipPoly(p, plane).verts[j] == p.verts[i];
  }

  /** All vertices strictly inside: the pass leaves count, order, vertices and texcoords unchanged. */
  lemma {:induction false} ClipAllInside(p: Poly, plane: Plane)
    requires WellFormed(p)
    requires forall i :: 0 <= i < |p.verts| ==> Inside(p.verts[i], plane)
    ensures ClipPoly(p, plane) == p
  {
    var n := |p.verts|;
    var k := 0;
    while k < n
      invariant k <= n
      invariant ClipPrefix(p, plane, k) == Poly(p.verts[..k], p.uvs[..k])
    {
      AllInsideStep(p, plane, k);
      k := k + 1;
    }
    assert p.verts[..n] == p.verts && p.uvs[..n] == p.uvs;
  }

  /** A vertex strictly inside reached from a vertex strictly inside: the visit emits just that vertex. */
  lemma KeptStep(p: Poly, plane: Plane, k: nat)
    requires WellFormed(p) && k < |p.verts|
    requires Inside(p.verts[Prev(|p.verts|, k)], plane) && Inside(p.verts[k], plane)
    ensures Step(p, plane, k) == Poly([p.verts[k]], [p.uvs[k]])
  {
    CrossesIff(p, plane, k);
  }

  /** A vertex strictly inside reached from a vertex strictly inside extends an unchanged prefix by itself. */
  lemma AllInsideStep(p: Poly, plane: Plane, k: nat)
    requires WellFormed(p) && k < |p.verts|
    requires Inside(p.verts[Prev(|p.verts|, k)], plane) && Inside(p.verts[k], plane)
    requires ClipPrefix(p, plane, k) == Poly(p.verts[..k], p.uvs[..k])
    ensures ClipPrefix(p, plane, k + 1) == Poly(p.verts[..k + 1], p.uvs[..k + 1])
  {
    KeptStep(p, plane, k);
    ExtendByCorner(ClipPrefix(p, plane, k), Step(p, plane, k), ClipPrefix(p, plane, k + 1), p.verts, p.uvs, k);
  }

  /** A copy of the first k corners followed by corner k is a copy of the first k + 1. */
  lemma ExtendByCorner(a: Poly, e: Poly, b: Poly, vs: seq<Vec3>, ts: seq<Tex2>, k: nat)
    requires k < |vs| && k < |ts|
    requires a == Poly(vs[..k], ts[..k]) && e == Poly([vs[k]], [ts[k]]) && b == Concat(a, e)
    ensures b == Poly(vs[..k + 1], ts[..k + 1])
  {
    assert vs[..k + 1] == vs[..k] + [vs[k]];
    assert ts[..k + 1] == ts[..k] + [ts[k]];
  }

  /** No vertex strictly inside: the pass empties the polygon. */
  lemma {:induction false} ClipNoneInside(p: Poly, plane: Plane)
    requires WellFormed(p)
    requires forall i :: 0 <= i < |p.verts| ==> !Inside(p.verts[i], plane)
    ensures ClipPoly(p, plane) == Empty
  {
    var n := |p.verts|;
    var k := 0;
    while k < n
      invariant k <= n
      invariant ClipPrefix(p, plane, k) == Empty
    {
      var i := Prev(n, k);
      CrossesIff(p, plane, k);
      k := k + 1;
    }
  }

  /**
   * Clipping never brings a vertex back across another plane: if every vertex
   * lies strictly outside plane `q`, so does every vertex after a pass against
   * any plane.
   */
  lemma ClipKeepsOutside(p: Poly, plane: Plane, q: Plane)
    requires WellFormed(p)
    requires forall i :: 0 <= i < |p.verts| ==> Dist(p.verts[i], q) < 0.0
    ensures forall j :: 0 <= j < |ClipPoly(p, plane).verts| ==> Dist(ClipPoly(p, plane).verts[j], q) < 0.0
  {
    var r := ClipPoly(p, plane);
    ClipOrigin(p, plane);
    forall j | 0 <= j < |r.verts| ensures Dist(r.verts[j], q) < 0.0 {
      if !KeptCorner(p, plane, r.verts[j], r.uvs[j]) {
        var i :| 0 <= i < |p.verts| && Crosses(p, plane, i)
          && r.verts[j] == IntersectionVertex(p, plane, i) && r.uvs[j] == IntersectionTexcoord(p, plane, i);
        CutCornerOutside(p, plane, q, i);
      }
    }
  }

  lemma CutCornerOutside(p: Poly, plane: Plane, q: Plane, i: nat)
    requires i < |p.verts| && Crosses(p, plane, i)
    requires Dist(p.verts[Prev(|p.verts|, i)], q) < 0.0 && Dist(p.verts[i], q) < 0.0
    ensures Dist(IntersectionVertex(p, plane, i), q) < 0.0
  {
    var a := p.verts[Prev(|p.verts|, i)];
    var t := Factor(p, plane, i);
    DistLerp(a, p.verts[i], t, q);
    ConvexNegative(Dist(a, q), Dist(p.verts[i], q), t);
  }

  lemma ConvexNegative(da: real, db: real, t: real)
    requires da < 0.0 && db < 0.0 && 0.0 < t < 1.0
    ensures da + t * (db - da) < 0.0
  {
    assert da + t * (db - da) == (1.0 - t) * da + t * db;
    assert (1.0 - t) * da < 0.0;
    assert t * db < 0.0;
  }

  /** A triangle with exactly one vertex strictly outside and two strictly inside becomes a quad. */
  lemma TriangleStraddlingOnePlane(p: Poly, plane: Plane, o: nat)
    requires WellFormed(p) && |p.verts| == 3 && o < 3
    requires Dist(p.verts[o], plane) < 0.0
    requires forall i :: 0 <= i < 3 && i != o ==> Inside(p.verts[i], plane)
    ensures |ClipPoly(p, plane).verts| == 4
  {
    ClipCount(p, plane);
    CrossesIff(p, plane, 0);
    CrossesIff(p, plane, 1);
    CrossesIff(p, plane, 2);
    assert Inside(p.verts[0], plane) == (o != 0);
    assert Inside(p.verts[1], plane) == (o != 1);
    assert Inside(p.verts[2], plane) == (o != 2);
    assert InsideCount(p, plane, 1) == if o == 0 then 0 else 1;
    assert InsideCount(p, plane, 2) == if o == 2 then 2 else 1;
    assert InsideCount(p, plane, 3) == 2;
    assert Crosses(p, plane, 0) == (o != 1);
    assert Crosses(p, plane, 1) == (o != 2);
    assert Crosses(p, plane, 2) == (o != 0);
    assert CrossingCount(p, plane, 1) == if o == 1 then 0 else 1;
    assert CrossingCount(p, plane, 2) == if o == 0 then 2 else 1;
    assert CrossingCount(p, plane, 3) == 2;
  }

  /** The polygon after the passes against planes[0] .. planes[k-1], in that order. */
  function ClipThrough(p: Poly, planes: seq<Plane>, k: nat): (r: Poly)
    requires WellFormed(p) && k <= |planes|
    ensures WellFormed(r)
  {
    if k == 0 then p else ClipPoly(ClipThrough(p, planes, k - 1), planes[k - 1])
  }

  /** Every intermediate polygon of the six passes fits the fixed capacity. */
  ghost predicate FitsCapacity(p: Poly, planes: seq<Plane>)
    requires WellFormed(p) && |planes| == NUM_PLANES
  {
    forall k :: 1 <= k <= NUM_PLANES ==> |ClipThrough(p, planes, k).verts| <= MAX_NUM_POLYGON_VERTICES
  }

  /** Clipping a polygon strictly inside every plane returns it unchanged. */
  lemma {:induction false} ClipThroughAllInside(p: Poly, planes: seq<Plane>, k: nat)
    requires WellFormed(p) && k <= |planes|
    requires forall m, i :: 0 <= m < |planes| && 0 <= i < |p.verts| ==> Inside(p.verts[i], planes[m])
    ensures ClipThrough(p, planes, k) == p
  {
    if k > 0 {
      ClipThroughAllInside(p, planes, k - 1);
      ClipAllInside(p, planes[k - 1]);
    }
  }

  /** An empty polygon stays empty through any number of passes. */
  lemma {:induction false} ClipThroughEmpty(p: Poly, planes: seq<Plane>, k: nat)
    requires WellFormed(p) && k <= |planes| && p.verts == []
    ensures ClipThrough(p, planes, k) == Empty
  {
    if k > 0 {
      ClipThroughEmpty(p, planes, k - 1);
    }
  }

  /**
   * A polygon lying entirely strictly outside one of the planes (a triangle
   * behind the near plane, say) is clipped away completely.
   */
  lemma {:induction false} ClipThroughOutside(p: Poly, planes: seq<Plane>, m: nat, k: nat)
    requires WellFormed(p) && m < |planes| && k <= |planes|
    requires forall i :: 0 <= i < |p.verts| ==> Dist(p.verts[i], planes[m]) < 0.0
    ensures k <= m ==> forall j :: 0 <= j < |ClipThrough(p, planes, k).verts| ==>
      Dist(ClipThrough(p, planes, k).verts[j], planes[m]) < 0.0
    ensures k > m ==> ClipThrough(p, planes, k) == Empty
  {
    if k <= m {
      OutsideBeforeCut(p, planes, m, k);
    } else {
      EmptyAfterCut(p, planes, m, k);
    }
  }

  /** The passes before plane m keep every corner strictly outside plane m. */
  lemma {:induction false} OutsideBeforeCut(p: Poly, planes: seq<Plane>, m: nat, k: nat)
    requires WellFormed(p) && m < |planes| && k <= m
    requires forall i :: 0 <= i < |p.verts| ==> Dist(p.verts[i], planes[m]) < 0.0
    ensures forall j :: 0 <= j < |ClipThrough(p, planes, k).verts| ==>
      Dist(ClipThrough(p, planes, k).verts[j], planes[m]) < 0.0
  {
    if k > 0 {
      OutsideBeforeCut(p, planes, m, k - 1);
      ClipKeepsOutside(ClipThrough(p, planes, k - 1), planes[k - 1], planes[m]);
    }
  }

  /** The pass against plane m empties the polygon, and the later passes keep it empty. */
  lemma {:induction false} EmptyAfterCut(p: Poly, planes: seq<Plane>, m: nat, k: nat)
    requires WellFormed(p) && m < k <= |planes|
    requires forall i :: 0 <= i < |p.verts| ==> Dist(p.verts[i], planes[m]) < 0.0
    ensures ClipThrough(p, planes, k) == Empty
  {
    if k - 1 == m {
      OutsideBeforeCut(p, planes, m, m);
      ClipNoneInside(ClipThrough(p, planes, m), planes[m]);
    } else {
      EmptyAfterCut(p, planes, m, k - 1);
    }
  }

  /** Fan triangle i of a polygon: corners 0, i+1 and i+2. */
  function FanTriangle(p: Poly, i: nat): Triangle
    requires WellFormed(p) && i + 2 < |p.verts|
  {
    Triangle(Vec4FromVec3(p.verts[0]), Vec4FromVec3(p.verts[i + 1]), Vec4FromVec3(p.verts[i + 2]),
             p.uvs[0], p.uvs[i + 1], p.uvs[i + 2])
  }

  /**
   * The fan of an n-gon (n >= 3) has n - 2 triangles, every corner of the
   * polygon is a corner of one of them, and consecutive triangles share the
   * edge from corner 0 to corner i+2.
   */
  lemma FanCoversPolygon(p: Poly, j: nat)
    requires WellFormed(p) && 3 <= |p.verts| && j < |p.verts|
    ensures exists i :: (0 <= i < |p.verts| - 2 &&
                         (FanTriangle(p, i).a == Vec4FromVec3(p.verts[j]) || FanTriangle(p, i).b == Vec4FromVec3(p.verts[j])
                          || FanTriangle(p, i).c == Vec4FromVec3(p.verts[j])))
    ensures forall i :: 0 <= i < |p.verts| - 3 ==>
      FanTriangle(p, i).a == FanTriangle(p, i + 1).a && FanTriangle(p, i).c == FanTriangle(p, i + 1).b
  {
    if j == 0 {
      assert FanTriangle(p, 0).a == Vec4FromVec3(p.verts[j]);
    } else if j == 1 {
      assert FanTriangle(p, 0).b == Vec4FromVec3(p.verts[j]);
    } else {
      assert FanTriangle(p, j - 2).c == Vec4FromVec3(p.verts[j]);
    }
  }

  /** polygon_t: a fixed-capacity record that the clipping pass overwrites in place. */
  class Polygon {
    const vertices: array<Vec3>
    const texcoords: array<Tex2>
    var numVertices: int

    ghost predicate Valid()
      reads this
    {
      vertices.Length == MAX_NUM_POLYGON_VERTICES && texcoords.Length == MAX_NUM_POLYGON_VERTICES
      && 0 <= numVertices <= MAX_NUM_POLYGON_VERTICES
    }

    /** The polygon's value: its first numVertices vertices and texcoords. */
    ghost function Contents(): (p: Poly)
      reads this, vertices, texcoords
      requires Valid()
      ensures WellFormed(p) && |p.verts| == numVertices
    {
      Poly(vertices[..numVertices], texcoords[..numVertices])
    }

    /** polygon_from_triangle: three vertices and texcoords, in argument order. */
    constructor FromTriangle(v0: Vec3, v1: Vec3, v2: Vec3, t0: Tex2, t1: Tex2, t2: Tex2)
      ensures Valid() && fresh(vertices) && fresh(texcoords)
      ensures numVertices == 3
      ensures Contents() == Poly([v0, v1, v2], [t0, t1, t2])
    {
      var vs := new Vec3[MAX_NUM_POLYGON_VERTICES](_ => Vec3(0.0, 0.0, 0.0));
      var ts := new Tex2[MAX_NUM_POLYGON_VERTICES](_ => Tex2(0.0, 0.0));
      vs[0], vs[1], vs[2] := v0, v1, v2;
      ts[0], ts[1], ts[2] := t0, t1, t2;
      vertices := vs;
      texcoords := ts;
      numVertices := 3;
    }

    /**
     * clip_polygon_against_plane. The source does not check the output
     * capacity, so the caller must ensure the pass yields at most 10 corners.
     */
    method ClipAgainstPlane(plane: Plane)
      requires Valid()
      requires |ClipPoly(Contents(), plane).verts| <= MAX_NUM_POLYGON_VERTICES
      modifies this, vertices, texcoords
      ensures Valid()
      ensures Contents() == ClipPoly(old(Contents()), plane)
    {
      var insideVertices, insideTexcoords, numInside := CollectInside(vertices, texcoords, numVertices, plane);
      CopyBack(insideVertices, insideTexcoords, vertices, texcoords, numInside);
      numVertices := numInside;
    }

    /** The final copy of the inside list over the polygon's own buffers. */
    static method CopyBack(fromVs: array<Vec3>, fromTs: array<Tex2>, vs: array<Vec3>, ts: array<Tex2>, count: int)
      requires 0 <= count <= fromVs.Length && count <= fromTs.Length && count <= vs.Length && count <= ts.Length
      requires fromVs != vs && fromTs != ts
      modifies vs, ts
      ensures vs[..count] == fromVs[..count] && ts[..count] == fromTs[..count]
    {
      var i := 0;
      while i < count
        invariant 0 <= i <= count
        invariant vs[..i] == fromVs[..i] && ts[..i] == fromTs[..i]
      {
        vs[i] := fromVs[i];
        ts[i] := fromTs[i];
        i := i + 1;
      }
    }

    /**
     * The walk over the edges of clip_polygon_against_plane: builds the
     * inside list in two fresh buffers of MAX_NUM_POLYGON_VERTICES entries.
     */
    static method CollectInside(vertices: array<Vec3>, texcoords: array<Tex2>, n: int, plane: Plane)
      returns (insideVertices: array<Vec3>, insideTexcoords: array<Tex2>, numInside: int)
      requires 0 <= n <= vertices.Length && n <= texcoords.Length
      requires |ClipPoly(Poly(vertices[..n], texcoords[..n]), plane).verts| <= MAX_NUM_POLYGON_VERTICES
      ensures fresh(insideVertices) && fresh(insideTexcoords)
      ensures insideVertices.Length == insideTexcoords.Length == MAX_NUM_POLYGON_VERTICES
      ensures 0 <= numInside <= MAX_NUM_POLYGON_VERTICES
      ensures var r := ClipPoly(Poly(vertices[..n], texcoords[..n]), plane);
        insideVertices[..numInside] == r.verts && insideTexcoords[..numInside] == r.uvs
    {
      insideVertices := new Vec3[MAX_NUM_POLYGON_VERTICES](_ => Vec3(0.0, 0.0, 0.0));
      insideTexcoords := new Tex2[MAX_NUM_POLYGON_VERTICES](_ => Tex2(0.0, 0.0));
      numInside := 0;
      if n == 0 {
        return;
      }
      numInside := WalkEdges(vertices, texcoords, n, plane, insideVertices, insideTexcoords);
    }

    /** The loop of the walk, for a non-empty polygon, writing into the two inside buffers. */
    static method WalkEdges(vertices: array<Vec3>, texcoords: array<Tex2>, n: int, plane: Plane,
                            insideVertices: array<Vec3>, insideTexcoords: array<Tex2>)
      returns (numInside: int)
      requires 0 < n <= vertices.Length && n <= texcoords.Length
      requires insideVertices != vertices && insideTexcoords != texcoords
      requires insideVertices.Length == insideTexcoords.Length == MAX_NUM_POLYGON_VERTICES
      requires |ClipPoly(Poly(vertices[..n], texcoords[..n]), plane).verts| <= MAX_NUM_POLYGON_VERTICES
      modifies insideVertices, insideTexcoords
      ensures 0 <= numInside <= MAX_NUM_POLYGON_VERTICES
      ensures var r := ClipPoly(Poly(vertices[..n], texcoords[..n]), plane);
        insideVertices[..numInside] == r.verts && insideTexcoords[..numInside] == r.uvs
    {
      ghost var p := Poly(vertices[..n], texcoords[..n]);
      numInside := 0;
      var current := 0;
      var previous := n - 1;
      var currentDot := Dist(vertices[current], plane);
      var previousDot := Dist(vertices[previous], plane);
      while current != n
        invariant 0 <= current <= n && 0 <= previous < n
        invariant current < n ==> previous == Prev(n, current) && currentDot == Dist(p.verts[current], plane)
        invariant previousDot == Dist(p.verts[previous], plane)
        invariant Collected(p, plane, current, insideVertices[..], insideTexcoords[..], numInside)
      {
        var pv, pt, cv, ct := vertices[previous], texcoords[previous], vertices[current], texcoords[current];
        CollectStep(p, plane, current, pv, pt, cv, ct, previousDot, currentDot);
        ghost var vs0, ts0, count0 := insideVertices[..], insideTexcoords[..], numInside;
        numInside := EmitEdge(insideVertices, insideTexcoords, numInside, pv, pt, cv, ct, previousDot, currentDot);
        CollectedStep(p, plane, current, EdgeOutput(pv, pt, cv, ct, previousDot, currentDot), vs0, ts0, count0,
          insideVertices[..], insideTexcoords[..], numInside);
        previous := current;
        previousDot := currentDot;
        current := current + 1;
        if current < n {
          currentDot := Dist(vertices[current], plane);
        }
      }
    }

    /** The first `count` entries of the inside buffers hold the output after visiting vertices 0 .. k-1. */
    static ghost predicate Collected(p: Poly, plane: Plane, k: nat, vs: seq<Vec3>, ts: seq<Tex2>, count: int)
      requires WellFormed(p) && k <= |p.verts|
    {
      0 <= count <= |vs| && count <= |ts| && count == |ClipPrefix(p, plane, k).verts|
      && vs[..count] == ClipPrefix(p, plane, k).verts && ts[..count] == ClipPrefix(p, plane, k).uvs
    }

    /** Appending the output of visiting vertex k keeps the buffers in step with the prefix. */
    static lemma CollectedStep(p: Poly, plane: Plane, k: nat, e: Poly,
                               vs0: seq<Vec3>, ts0: seq<Tex2>, count0: int, vs: seq<Vec3>, ts: seq<Tex2>, count: int)
      requires WellFormed(p) && k < |p.verts|
      requires Collected(p, plane, k, vs0, ts0, count0)
      requires ClipPrefix(p, plane, k + 1) == Concat(ClipPrefix(p, plane, k), e)
      requires count == count0 + |e.verts| <= |vs| && count <= |ts|
      requires vs[..count] == vs0[..count0] + e.verts && ts[..count] == ts0[..count0] + e.uvs
      ensures Collected(p, plane, k + 1, vs, ts, count)
    {
    }

    /**
     * Visiting vertex k, whose edge runs from (pv, pt) to (cv, ct), appends
     * the edge's output to the prefix, and the prefix never outgrows the
     * whole pass.
     */
    static lemma CollectStep(p: Poly, plane: Plane, k: nat, pv: Vec3, pt: Tex2, cv: Vec3, ct: Tex2, dp: real, dc: real)
      requires WellFormed(p) && k < |p.verts|
      requires pv == p.verts[Prev(|p.verts|, k)] && pt == p.uvs[Prev(|p.verts|, k)]
      requires cv == p.verts[k] && ct == p.uvs[k]
      requires dp == Dist(pv, plane) && dc == Dist(cv, plane)
      ensures ClipPrefix(p, plane, k + 1) == Concat(ClipPrefix(p, plane, k), EdgeOutput(pv, pt, cv, ct, dp, dc))
      ensures |ClipPrefix(p, plane, k).verts| + |EdgeOutput(pv, pt, cv, ct, dp, dc).verts| <= |ClipPoly(p, plane).verts|
    {
      StepComputed(p, plane, k, dp, dc);
      ClipPrefixMonotone(p, plane, k + 1, |p.verts|);
    }

    /**
     * One visit of the walk: the intersection of the edge previous -> current
     * when its ends lie strictly on opposite sides, then the current vertex
     * when it lies strictly inside.
     */
    static method EmitEdge(vs: array<Vec3>, ts: array<Tex2>, count: int,
                           pv: Vec3, pt: Tex2, cv: Vec3, ct: Tex2, previousDot: real, currentDot: real)
      returns (newCount: int)
      requires vs != ts as object
      requires 0 <= count && count + |EdgeOutput(pv, pt, cv, ct, previousDot, currentDot).verts| <= vs.Length
      requires vs.Length == ts.Length
      modifies vs, ts
      ensures var e := EdgeOutput(pv, pt, cv, ct, previousDot, currentDot);
        newCount == count + |e.verts| &&
        vs[..newCount] == old(vs[..count]) + e.verts && ts[..newCount] == old(ts[..count]) + e.uvs
    {
      newCount := count;
      if currentDot * previousDot < 0.0 {
        ProductSigns(previousDot, currentDot);
        ProductSigns(currentDot, previousDot);
        var t := previousDot / (previousDot - currentDot);
        newCount := Append(vs, ts, newCount, LerpVec3(pv, cv, t), LerpTex2(pt, ct, t));
      }
      if currentDot > 0.0 {
        newCount := Append(vs, ts, newCount, cv, ct);
      }
    }

    /** Stores one corner at the end of the inside list and counts it. */
    static method Append(vs: array<Vec3>, ts: array<Tex2>, count: nat, v: Vec3, t: Tex2) returns (newCount: nat)
      requires count < vs.Length && count < ts.Length
      modifies vs, ts
      ensures newCount == count + 1
      ensures vs[..newCount] == old(vs[..count]) + [v]
      ensures ts[..newCount] == old(ts[..count]) + [t]
    {
      vs[count] := v;
      ts[count] := t;
      newCount := count + 1;
    }

    /** clip_polygon: the six passes in the order LEFT, RIGHT, TOP, BOTTOM, NEAR, FAR. */
    method ClipPolygon(planes: seq<Plane>)
      requires Valid() && |planes| == NUM_PLANES
      requires FitsCapacity(Contents(), planes)
      modifies this, vertices, texcoords
      ensures Valid()
      ensures Contents() == ClipThrough(old(Contents()), planes, NUM_PLANES)
    {
      ghost var p := Contents();
      assert |ClipThrough(p, planes, 1).verts| <= MAX_NUM_POLYGON_VERTICES;
      ClipAgainstPlane(planes[LEFT_FRUSTUM_PLANE]);
      assert Contents() == ClipThrough(p, planes, 1);
      assert |ClipThrough(p, planes, 2).verts| <= MAX_NUM_POLYGON_VERTICES;
      ClipAgainstPlane(planes[RIGHT_FRUSTUM_PLANE]);
      assert Contents() == ClipThrough(p, planes, 2);
      assert |ClipThrough(p, planes, 3).verts| <= MAX_NUM_POLYGON_VERTICES;
      ClipAgainstPlane(planes[TOP_FRUSTUM_PLANE]);
      assert Contents() == ClipThrough(p, planes, 3);
      assert |ClipThrough(p, planes, 4).verts| <= MAX_NUM_POLYGON_VERTICES;
      ClipAgainstPlane(planes[BOTTOM_FRUSTUM_PLANE]);
      assert Contents() == ClipThrough(p, planes, 4);
      assert |ClipThrough(p, planes, 5).verts| <= MAX_NUM_POLYGON_VERTICES;
      ClipAgainstPlane(planes[NEAR_FRUSTUM_PLANE]);
      assert Contents() == ClipThrough(p, planes, 5);
      assert |ClipThrough(p, planes, 6).verts| <= MAX_NUM_POLYGON_VERTICES;
      ClipAgainstPlane(planes[FAR_FRUSTUM_PLANE]);
    }

    /**
     * triangles_from_polygon: fan triangle i is (0, i+1, i+2) with matching
     * texcoords; the reported count is numVertices - 2, negative below 2.
     */
    method TrianglesFromPolygon(triangles: array<Triangle>) returns (numTriangles: int)
      requires Valid()
      requires numVertices - 2 <= triangles.Length
      modifies triangles
      ensures numTriangles == numVertices - 2
      ensures forall i :: 0 <= i < numTriangles ==> triangles[i] == FanTriangle(Contents(), i)
      ensures forall i :: 0 <= i < triangles.Length && i >= numTriangles ==> triangles[i] == old(triangles[i])
    {
      var i := 0;
      while i < numVertices - 2
        invariant 0 <= i <= if numVertices >= 2 then numVertices - 2 else 0
        invariant forall k :: 0 <= k < i ==> triangles[k] == FanTriangle(Contents(), k)
        invariant forall k :: 0 <= k < triangles.Length && k >= i ==> triangles[k] == old(triangles[k])
      {
        var index0 := 0;
        var index1 := i + 1;
        var index2 := i + 2;
        triangles[i] := Triangle(Vec4FromVec3(vertices[index0]), Vec4FromVec3(vertices[index1]),
                                 Vec4FromVec3(vertices[index2]),
                                 texcoords[index0], texcoords[index1], texcoords[index2]);
        i := i + 1;
      }
      numTriangles := numVertices - 2;
    }
  }
}
