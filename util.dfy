/**
 * barycentric_weights of src/util.c: the weights of a screen point with
 * respect to a projected triangle, from ratios of 2D cross products, with
 * the first two weights clamped and the third taken as the remainder.
 */
module Util {
  import opened Geometry

  function Sub2(a: Vec2, b: Vec2): Vec2 {
    Vec2(a.x - b.x, a.y - b.y)
  }

  /** The 2D cross product u.x * v.y - u.y * v.x. */
  function Cross2(u: Vec2, v: Vec2): real {
    u.x * v.y - u.y * v.x
  }

  /** area_full: AC x AB, twice the signed area of the triangle. */
  function AreaFull(a: Vec2, b: Vec2, c: Vec2): real {
    Cross2(Sub2(c, a), Sub2(b, a))
  }

  /** The weight of `a` before clamping: PC x PB over the full area. */
  function RawAlpha(a: Vec2, b: Vec2, c: Vec2, p: Vec2): real
    requires AreaFull(a, b, c) != 0.0
  {
    Cross2(Sub2(c, p), Sub2(b, p)) / AreaFull(a, b, c)
  }

  /** The weight of `b` before clamping: AC x AP over the full area. */
  function RawBeta(a: Vec2, b: Vec2, c: Vec2, p: Vec2): real
    requires AreaFull(a, b, c) != 0.0
  {
    Cross2(Sub2(c, a), Sub2(p, a)) / AreaFull(a, b, c)
  }

  /** The two clamps applied in turn: above 1 becomes 0.99999, below 0 becomes 0.00001. */
  function Clamp(t: real): (r: real)
    ensures 0.0 <= r <= 1.0
    ensures 0.0 <= t <= 1.0 ==> r == t
    ensures t > 1.0 ==> r == 0.99999
    ensures t < 0.0 ==> r == 0.00001
  {
    var t1 := if t > 1.0 then 0.99999 else t;
    if t1 < 0.0 then 0.00001 else t1
  }

  /**
   * barycentric_weights(a, b, c, p). The source divides by the full area
   * without checking it, so a degenerate triangle is excluded.
   */
  function BarycentricWeights(a: Vec2, b: Vec2, c: Vec2, p: Vec2): (r: Vec3)
    requires AreaFull(a, b, c) != 0.0
    ensures 0.0 <= r.x <= 1.0 && 0.0 <= r.y <= 1.0
    ensures r.x + r.y + r.z == 1.0
    ensures r.z < 0.0 <==> r.x + r.y > 1.0
  {
    var alpha := Clamp(RawAlpha(a, b, c, p));
    var beta := Clamp(RawBeta(a, b, c, p));
    Vec3(alpha, beta, 1.0 - alpha - beta)
  }

  /** At the three corners the weights are (1, 0, 0), (0, 1, 0) and (0, 0, 1). */
  lemma CornerWeights(a: Vec2, b: Vec2, c: Vec2)
    requires AreaFull(a, b, c) != 0.0
    ensures BarycentricWeights(a, b, c, a) == Vec3(1.0, 0.0, 0.0)
    ensures BarycentricWeights(a, b, c, b) == Vec3(0.0, 1.0, 0.0)
    ensures BarycentricWeights(a, b, c, c) == Vec3(0.0, 0.0, 1.0)
  {
    var area := AreaFull(a, b, c);
    assert Cross2(Sub2(c, a), Sub2(b, a)) == area;
    assert area / area == 1.0;
    assert RawAlpha(a, b, c, a) == 1.0;
    assert RawBeta(a, b, c, b) == 1.0;
    assert Cross2(Sub2(c, b), Sub2(b, b)) == 0.0;
    assert Cross2(Sub2(c, c), Sub2(b, c)) == 0.0;
    assert Cross2(Sub2(c, a), Sub2(c, a)) == 0.0;
  }

  /**
   * The unclamped weights are the true barycentric coordinates: with the
   * third weight taken as the remainder, they recombine the corners into p.
   */
  lemma RawWeightsReconstruct(a: Vec2, b: Vec2, c: Vec2, p: Vec2)
    requires AreaFull(a, b, c) != 0.0
    ensures var alpha, beta := RawAlpha(a, b, c, p), RawBeta(a, b, c, p);
      var gamma := 1.0 - alpha - beta;
      alpha * a.x + beta * b.x + gamma * c.x == p.x &&
      alpha * a.y + beta * b.y + gamma * c.y == p.y
  {
    var area := AreaFull(a, b, c);
    var na := Cross2(Sub2(c, p), Sub2(b, p));
    var nb := Cross2(Sub2(c, a), Sub2(p, a));
    CramerNumerators(a, b, c, p);
    var alpha, beta := na / area, nb / area;
    ScaleBack(alpha, beta, area, a.x - c.x, b.x - c.x, p.x - c.x);
    ScaleBack(alpha, beta, area, a.y - c.y, b.y - c.y, p.y - c.y);
  }

  /** Dividing `na * u + nb * v == area * q` through by a nonzero area. */
  lemma ScaleBack(alpha: real, beta: real, area: real, u: real, v: real, q: real)
    requires area != 0.0
    requires (alpha * area) * u + (beta * area) * v == area * q
    ensures alpha * u + beta * v == q
  {
    assert area * (alpha * u + beta * v - q) == 0.0;
  }

  /** The polynomial identity behind RawWeightsReconstruct, with c moved to the origin. */
  lemma CramerNumerators(a: Vec2, b: Vec2, c: Vec2, p: Vec2)
    ensures var area := AreaFull(a, b, c);
      var na := Cross2(Sub2(c, p), Sub2(b, p));
      var nb := Cross2(Sub2(c, a), Sub2(p, a));
      na * (a.x - c.x) + nb * (b.x - c.x) == area * (p.x - c.x) &&
      na * (a.y - c.y) + nb * (b.y - c.y) == area * (p.y - c.y)
  {
    var ax, ay, bx, bY, px, py := a.x - c.x, a.y - c.y, b.x - c.x, b.y - c.y, p.x - c.x, p.y - c.y;
    var area := ay * bx - ax * bY;
    var na := py * bx - px * bY;
    var nb := ay * px - ax * py;
    assert AreaFull(a, b, c) == area;
    assert Cross2(Sub2(c, p), Sub2(b, p)) == na;
    assert Cross2(Sub2(c, a), Sub2(p, a)) == nb;
    assert na * ax + nb * bx == area * px;
    assert na * ay + nb * bY == area * py;
  }

  /**
   * Inside the triangle (both raw weights in [0, 1]) nothing is clamped and
   * the weights are the exact barycentric coordinates of p.
   */
  lemma InsideUnclamped(a: Vec2, b: Vec2, c: Vec2, p: Vec2)
    requires AreaFull(a, b, c) != 0.0
    requires 0.0 <= RawAlpha(a, b, c, p) <= 1.0 && 0.0 <= RawBeta(a, b, c, p) <= 1.0
    ensures var r := BarycentricWeights(a, b, c, p);
      r.x * a.x + r.y * b.x + r.z * c.x == p.x &&
      r.x * a.y + r.y * b.y + r.z * c.y == p.y
  {
    RawWeightsReconstruct(a, b, c, p);
  }
}
