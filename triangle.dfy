/**
 * src/triangle.c: the set-up half of draw_filled_triangle. The three
 * vertices are sorted by y with three compare-and-swap steps, and the
 * point M where the horizontal through the middle vertex meets the long
 * edge P0-P2 is computed. The two fills it then calls
 * (fill_flat_bottom_triangle, fill_flat_top_triangle) have empty bodies in
 * the source, so the model ends with the points it would pass to them.
 */
module Triangle {
  import opened Geometry

  /** An integer screen point; the sort moves each x together with its y. */
  datatype Point = Point(x: int, y: int)

  /** int_swap: the two values trade places. */
  method IntSwap(a: int, b: int) returns (a': int, b': int)
    ensures a' == b && b' == a
  {
    var tmp := a;
    a' := b;
    b' := tmp;
  }

  /**
   * The sort at the top of draw_filled_triangle: three strict compare-and-
   * swap steps on (y0, y1), (y1, y2), (y0, y1), each exchanging the x's
   * with the y's. The result is ordered by y and is a rearrangement of the
   * input points; input already in order is left exactly as it was.
   */
  method SortByY(p0: Point, p1: Point, p2: Point) returns (q0: Point, q1: Point, q2: Point)
    ensures q0.y <= q1.y <= q2.y
    ensures multiset{q0, q1, q2} == multiset{p0, p1, p2}
    ensures p0.y <= p1.y <= p2.y ==> q0 == p0 && q1 == p1 && q2 == p2
  {
    var x0, y0, x1, y1, x2, y2 := p0.x, p0.y, p1.x, p1.y, p2.x, p2.y;
    // the points now held in slots 0, 1, 2
    ghost var a, b, c := p0, p1, p2;
    if y0 > y1 {
      y0, y1 := IntSwap(y0, y1);
      x0, x1 := IntSwap(x0, x1);
      a, b := b, a;
    }
    if y1 > y2 {
      y1, y2 := IntSwap(y1, y2);
      x1, x2 := IntSwap(x1, x2);
      b, c := c, b;
    }
    if y0 > y1 {
      y0, y1 := IntSwap(y0, y1);
      x0, x1 := IntSwap(x0, x1);
      a, b := b, a;
    }
    assert Point(x0, y0) == a && Point(x1, y1) == b && Point(x2, y2) == c;
    assert multiset{a, b, c} == multiset{p0, p1, p2} by {
      PermutationsOfThree(p0, p1, p2, a, b, c);
    }
    q0, q1, q2 := Point(x0, y0), Point(x1, y1), Point(x2, y2);
  }

  /** A triple drawn from three points, each once, is a rearrangement of them. */
  lemma PermutationsOfThree(p0: Point, p1: Point, p2: Point, a: Point, b: Point, c: Point)
    requires (a, b, c) in {(p0, p1, p2), (p0, p2, p1), (p1, p0, p2), (p1, p2, p0), (p2, p0, p1), (p2, p1, p0)}
    ensures multiset{a, b, c} == multiset{p0, p1, p2}
  {
  }

  /**
   * The x of M before conversion: the point of the edge P0-P2 at height
   * y1, evaluated as the source groups it, (x2 - x0) * (y1 - y0) / (y2 - y0) + x0.
   */
  function EdgeXAt(p0: Point, y1: int, p2: Point): real
    requires p0.y != p2.y
  {
    (p2.x - p0.x) as real * (y1 - p0.y) as real / (p2.y - p0.y) as real + p0.x as real
  }

  /**
   * `int Mx = ...`: the float converted to int, which truncates. For
   * sorted points M lies between x0 and x2, and it is x0 when the middle
   * vertex is level with P0 and x2 when it is level with P2.
   */
  function MidpointX(p0: Point, p1: Point, p2: Point): (mx: int)
    requires p0.y <= p1.y <= p2.y && p0.y < p2.y
    ensures MinInt(p0.x, p2.x) <= mx <= MaxInt(p0.x, p2.x)
    ensures p1.y == p0.y ==> mx == p0.x
    ensures p1.y == p2.y ==> mx == p2.x
  {
    MidpointFacts(p0, p1, p2);
    Trunc(EdgeXAt(p0, p1.y, p2))
  }

  lemma MidpointFacts(p0: Point, p1: Point, p2: Point)
    requires p0.y <= p1.y <= p2.y && p0.y < p2.y
    ensures MinInt(p0.x, p2.x) <= Trunc(EdgeXAt(p0, p1.y, p2)) <= MaxInt(p0.x, p2.x)
    ensures p1.y == p0.y ==> Trunc(EdgeXAt(p0, p1.y, p2)) == p0.x
    ensures p1.y == p2.y ==> Trunc(EdgeXAt(p0, p1.y, p2)) == p2.x
  {
    EdgeBetween(p0, p1.y, p2);
    TruncBetween(EdgeXAt(p0, p1.y, p2), MinInt(p0.x, p2.x), MaxInt(p0.x, p2.x));
    if p1.y == p0.y {
      TruncBetween(EdgeXAt(p0, p1.y, p2), p0.x, p0.x);
    }
    if p1.y == p2.y {
      TruncBetween(EdgeXAt(p0, p1.y, p2), p2.x, p2.x);
    }
  }

  function MinInt(a: int, b: int): int { if a < b then a else b }
  function MaxInt(a: int, b: int): int { if a > b then a else b }

  /** At a height between y0 and y2 the edge P0-P2 lies between x0 and x2. */
  lemma EdgeBetween(p0: Point, y1: int, p2: Point)
    requires p0.y <= y1 <= p2.y && p0.y < p2.y
    ensures MinInt(p0.x, p2.x) as real <= EdgeXAt(p0, y1, p2) <= MaxInt(p0.x, p2.x) as real
    ensures y1 == p0.y ==> EdgeXAt(p0, y1, p2) == p0.x as real
    ensures y1 == p2.y ==> EdgeXAt(p0, y1, p2) == p2.x as real
  {
    var x0, x2 := p0.x as real, p2.x as real;
    var n, d := (y1 - p0.y) as real, (p2.y - p0.y) as real;
    var t := n / d;
    FractionWithin(n, d);
    assert EdgeXAt(p0, y1, p2) == (x2 - x0) * t + x0 by {
      assert (p2.x - p0.x) as real == x2 - x0;
      ScaleDiv(x2 - x0, n, d);
    }
    Interpolate(x0, x2, t);
    if p0.x <= p2.x {
      assert MinInt(p0.x, p2.x) == p0.x && MaxInt(p0.x, p2.x) == p2.x;
    } else {
      assert MinInt(p0.x, p2.x) == p2.x && MaxInt(p0.x, p2.x) == p0.x;
    }
    if y1 == p0.y {
      assert t == 0.0;
    }
    if y1 == p2.y {
      assert t == 1.0;
    }
  }

  /** The point a fraction t of the way from x0 to x2 lies between them, at x0 for t = 0 and at x2 for t = 1. */
  lemma Interpolate(x0: real, x2: real, t: real)
    requires 0.0 <= t <= 1.0
    ensures x0 <= x2 ==> x0 <= (x2 - x0) * t + x0 <= x2
    ensures x2 < x0 ==> x2 <= (x2 - x0) * t + x0 <= x0
    ensures t == 0.0 ==> (x2 - x0) * t + x0 == x0
    ensures t == 1.0 ==> (x2 - x0) * t + x0 == x2
  {
    var d := x2 - x0;
    var e := d * t;
    if x0 <= x2 {
      ScaleWithin(d, t);
      assert 0.0 <= e <= d;
    } else {
      ScaleWithinNegative(d, t);
      assert d <= e <= 0.0;
    }
  }

  lemma ScaleWithinNegative(d: real, t: real)
    requires d <= 0.0 && 0.0 <= t <= 1.0
    ensures d <= d * t <= 0.0
  {
    assert d * t - d == -d * (1.0 - t);
  }

  lemma FractionWithin(n: real, d: real)
    requires 0.0 <= n <= d && 0.0 < d
    ensures 0.0 <= n / d <= 1.0
    ensures n == d ==> n / d == 1.0
  {
    assert n / d * d == n;
  }

  lemma ScaleDiv(a: real, n: real, d: real)
    requires d != 0.0
    ensures a * n / d == a * (n / d)
  {
  }

  lemma ScaleWithin(d: real, t: real)
    requires 0.0 <= d && 0.0 <= t <= 1.0
    ensures 0.0 <= d * t <= d
  {
    assert d - d * t == d * (1.0 - t);
  }

  /**
   * draw_filled_triangle up to the two fill calls: the sorted vertices and
   * M = (Mx, My), with My the middle vertex's y. The division by y2 - y0
   * needs the three vertices not all on one row.
   */
  method FilledTriangleSplit(p0: Point, p1: Point, p2: Point) returns (q0: Point, q1: Point, m: Point, q2: Point)
    requires !(p0.y == p1.y == p2.y)
    ensures q0.y <= q1.y <= q2.y && q0.y < q2.y
    ensures multiset{q0, q1, q2} == multiset{p0, p1, p2}
    ensures m == Point(MidpointX(q0, q1, q2), q1.y)
    ensures MinInt(q0.x, q2.x) <= m.x <= MaxInt(q0.x, q2.x)
  {
    q0, q1, q2 := SortByY(p0, p1, p2);
    SortedSpread(p0, p1, p2, q0, q1, q2);
    var mx := MidpointX(q0, q1, q2);
    var my := q1.y;
    m := Point(mx, my);
  }

  /** Sorted points that are a rearrangement of points not all on one row span more than one row. */
  lemma SortedSpread(p0: Point, p1: Point, p2: Point, q0: Point, q1: Point, q2: Point)
    requires !(p0.y == p1.y == p2.y)
    requires q0.y <= q1.y <= q2.y && multiset{q0, q1, q2} == multiset{p0, p1, p2}
    ensures q0.y < q2.y
  {
    if q0.y == q2.y {
      assert false;
    }
  }
}
