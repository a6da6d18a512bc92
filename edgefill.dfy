/**
 * src-tr/main.c: triangle filling by edge functions. Every pixel of the
 * triangle's bounding box is visited row by row; three edge functions,
 * stepped incrementally, decide whether the pixel centre is inside, with
 * the top-left rule breaking ties on shared edges; inside pixels get a
 * colour interpolated from red, green and blue corners, packed into a
 * 32-bit word and written through draw_pixel.
 */
module EdgeFill {
  import opened Geometry
  import opened Raster
  import opened FrameBuffer

  // ---------------------------------------------------------------------
  // Edge functions and the top-left rule
  // ---------------------------------------------------------------------

  /** edge_cross(a, b, p): the 2D cross product of a->b with a->p. */
  function EdgeCross(a: Vec2, b: Vec2, p: Vec2): (r: real)
    ensures p == a || p == b || a == b ==> r == 0.0
  {
    (b.x - a.x) * (p.y - a.y) - (b.y - a.y) * (p.x - a.x)
  }

  /** is_top_left(start, end): a flat edge pointing right, or an edge pointing up. */
  predicate IsTopLeft(start: Vec2, end: Vec2): (t: bool)
    ensures t ==> start != end
    ensures end.y < start.y ==> t
    ensures start.y < end.y ==> !t
    ensures start.y == end.y ==> (t <==> start.x < end.x)
  {
    var ex, ey := end.x - start.x, end.y - start.y;
    (ey == 0.0 && ex > 0.0) || ey < 0.0
  }

  /** The bias of an edge: 0 on a top or left edge, -0.0001 otherwise. */
  function Bias(start: Vec2, end: Vec2): (r: real)
    ensures IsTopLeft(start, end) <==> r == 0.0
    ensures !IsTopLeft(start, end) <==> r < 0.0
    ensures !IsTopLeft(start, end) ==> r == -0.0001
  {
    if IsTopLeft(start, end) then 0.0 else -0.0001
  }

  /** The edge function vanishes at both ends of its edge. */
  lemma EdgeCrossAtEnds(a: Vec2, b: Vec2)
    ensures EdgeCross(a, b, a) == 0.0 && EdgeCross(a, b, b) == 0.0
  {
  }

  /** Reversing the edge negates the edge function. */
  lemma EdgeCrossReversed(a: Vec2, b: Vec2, p: Vec2)
    ensures EdgeCross(b, a, p) == -EdgeCross(a, b, p)
  {
  }

  /** Of an edge and its reverse exactly one is top-left; of a point-edge neither. */
  lemma TopLeftExclusive(s: Vec2, e: Vec2)
    ensures !(IsTopLeft(s, e) && IsTopLeft(e, s))
    ensures s != e ==> IsTopLeft(s, e) || IsTopLeft(e, s)
  {
  }

  /**
   * The three edges of a triangle always include one that is not top-left,
   * because the three edge vectors sum to zero.
   */
  lemma NotAllTopLeft(v0: Vec2, v1: Vec2, v2: Vec2)
    ensures Bias(v0, v1) + Bias(v1, v2) + Bias(v2, v0) <= -0.0001
  {
  }

  /** The three edge functions at any point add up to the doubled triangle area. */
  lemma EdgeSum(v0: Vec2, v1: Vec2, v2: Vec2, p: Vec2)
    ensures EdgeCross(v0, v1, p) + EdgeCross(v1, v2, p) + EdgeCross(v2, v0, p) == EdgeCross(v0, v1, v2)
  {
  }

  /**
   * The edge functions, divided by the area, are the barycentric weights of
   * p: the edge opposite a corner weighs that corner.
   */
  lemma EdgeBarycentric(v0: Vec2, v1: Vec2, v2: Vec2, p: Vec2)
    ensures var e0, e1, e2 := EdgeCross(v0, v1, p), EdgeCross(v1, v2, p), EdgeCross(v2, v0, p);
      e1 * v0.x + e2 * v1.x + e0 * v2.x == EdgeCross(v0, v1, v2) * p.x &&
      e1 * v0.y + e2 * v1.y + e0 * v2.y == EdgeCross(v0, v1, v2) * p.y
  {
    var ax, ay, bx, bY, px, py := v0.x - v2.x, v0.y - v2.y, v1.x - v2.x, v1.y - v2.y, p.x - v2.x, p.y - v2.y;
    var e0, e1, e2 := EdgeCross(v0, v1, p), EdgeCross(v1, v2, p), EdgeCross(v2, v0, p);
    assert e1 == -bx * py + bY * px;
    assert e2 == ax * py - ay * px;
    assert EdgeCross(v0, v1, v2) == ax * bY - ay * bx;
    assert e1 * ax + e2 * bx == EdgeCross(v0, v1, v2) * px;
    assert e1 * ay + e2 * bY == EdgeCross(v0, v1, v2) * py;
  }

  // ---------------------------------------------------------------------
  // Pixel centres, weights and the inside test
  // ---------------------------------------------------------------------

  /** The point tested for pixel (x, y): the middle of the pixel. */
  function PixelCenter(x: int, y: int): Vec2 {
    Vec2(x as real + 0.5, y as real + 0.5)
  }

  /** w0, w1 and w2 at pixel (x, y), biased by the top-left rule. */
  function EdgeWeights(v0: Vec2, v1: Vec2, v2: Vec2, x: int, y: int): Vec3 {
    var p := PixelCenter(x, y);
    Vec3(EdgeCross(v0, v1, p) + Bias(v0, v1),
         EdgeCross(v1, v2, p) + Bias(v1, v2),
         EdgeCross(v2, v0, p) + Bias(v2, v0))
  }

  /** is_inside: all three weights are non-negative. */
  predicate Inside(w: Vec3) {
    w.x >= 0.0 && w.y >= 0.0 && w.z >= 0.0
  }

  /** One column to the right adds `a.y - b.y` to an edge function. */
  lemma ColumnStep(a: Vec2, b: Vec2, x: int, y: int)
    ensures EdgeCross(a, b, PixelCenter(x + 1, y)) == EdgeCross(a, b, PixelCenter(x, y)) + (a.y - b.y)
  {
  }

  /** One row down adds `b.x - a.x` to an edge function. */
  lemma RowStep(a: Vec2, b: Vec2, x: int, y: int)
    ensures EdgeCross(a, b, PixelCenter(x, y + 1)) == EdgeCross(a, b, PixelCenter(x, y)) + (b.x - a.x)
  {
  }

  /**
   * An inside pixel forces a positive area (the biases sum below zero), so
   * clockwise and degenerate triangles draw nothing and the divisions by
   * the area are safe; each weight is at most the area.
   */
  lemma InsideBounds(v0: Vec2, v1: Vec2, v2: Vec2, x: int, y: int)
    requires Inside(EdgeWeights(v0, v1, v2, x, y))
    ensures EdgeCross(v0, v1, v2) > 0.0
    ensures var w := EdgeWeights(v0, v1, v2, x, y);
      w.x + w.y + w.z <= EdgeCross(v0, v1, v2)
  {
    EdgeSum(v0, v1, v2, PixelCenter(x, y));
    NotAllTopLeft(v0, v1, v2);
  }

  /**
   * The top-left rule makes fills exclusive: of two triangles sharing the
   * edge v1-v2 from opposite sides, as render() draws them, no pixel is
   * inside both.
   */
  lemma SharedEdgeExclusive(v0: Vec2, v1: Vec2, v2: Vec2, v3: Vec2, x: int, y: int)
    ensures !(Inside(EdgeWeights(v0, v1, v2, x, y)) && Inside(EdgeWeights(v3, v2, v1, x, y)))
  {
    EdgeCrossReversed(v1, v2, PixelCenter(x, y));
    TopLeftExclusive(v1, v2);
  }

  // ---------------------------------------------------------------------
  // Bounding box
  // ---------------------------------------------------------------------

  function Min3(a: real, b: real, c: real): real { MinReal(MinReal(a, b), c) }
  function Max3(a: real, b: real, c: real): real { MaxReal(MaxReal(a, b), c) }

  function BoxXMin(v0: Vec2, v1: Vec2, v2: Vec2): int { Floor(Min3(v0.x, v1.x, v2.x)) }
  function BoxYMin(v0: Vec2, v1: Vec2, v2: Vec2): int { Floor(Min3(v0.y, v1.y, v2.y)) }
  function BoxXMax(v0: Vec2, v1: Vec2, v2: Vec2): int { Ceil(Max3(v0.x, v1.x, v2.x)) }
  function BoxYMax(v0: Vec2, v1: Vec2, v2: Vec2): int { Ceil(Max3(v0.y, v1.y, v2.y)) }

  /** A combination with non-negative weights summing to `total` stays within the extremes. */
  lemma WeightedBetween(e0: real, e1: real, e2: real, a: real, b: real, c: real, q: real, total: real)
    requires 0.0 <= e0 && 0.0 <= e1 && 0.0 <= e2 && e0 + e1 + e2 == total && 0.0 < total
    requires e0 * a + e1 * b + e2 * c == total * q
    ensures Min3(a, b, c) <= q <= Max3(a, b, c)
  {
    var lo, hi := Min3(a, b, c), Max3(a, b, c);
    NonNegProduct(e0, a - lo);
    NonNegProduct(e1, b - lo);
    NonNegProduct(e2, c - lo);
    assert total * (q - lo) == e0 * (a - lo) + e1 * (b - lo) + e2 * (c - lo);
    PositiveFactor(total, q - lo);
    NonNegProduct(e0, hi - a);
    NonNegProduct(e1, hi - b);
    NonNegProduct(e2, hi - c);
    assert total * (hi - q) == e0 * (hi - a) + e1 * (hi - b) + e2 * (hi - c);
    PositiveFactor(total, hi - q);
  }

  lemma NonNegProduct(a: real, b: real)
    requires 0.0 <= a && 0.0 <= b
    ensures 0.0 <= a * b
  {
  }

  /** A non-negative product with a positive factor has a non-negative other factor. */
  lemma PositiveFactor(t: real, z: real)
    requires 0.0 < t && 0.0 <= t * z
    ensures 0.0 <= z
  {
    assert z == (t * z) / t;
  }

  /** The centre of an inside pixel lies within the extremes of the corners. */
  lemma InsideCenter(v0: Vec2, v1: Vec2, v2: Vec2, x: int, y: int)
    requires Inside(EdgeWeights(v0, v1, v2, x, y))
    ensures Min3(v0.x, v1.x, v2.x) <= PixelCenter(x, y).x <= Max3(v0.x, v1.x, v2.x)
    ensures Min3(v0.y, v1.y, v2.y) <= PixelCenter(x, y).y <= Max3(v0.y, v1.y, v2.y)
  {
    var p := PixelCenter(x, y);
    InsideEdges(v0, v1, v2, x, y);
    EdgeSum(v0, v1, v2, p);
    EdgeBarycentric(v0, v1, v2, p);
    CenterBetween(EdgeCross(v0, v1, p), EdgeCross(v1, v2, p), EdgeCross(v2, v0, p), EdgeCross(v0, v1, v2), v0, v1, v2, p);
  }

  /** At an inside pixel the three unbiased edge functions are non-negative and the area positive. */
  lemma InsideEdges(v0: Vec2, v1: Vec2, v2: Vec2, x: int, y: int)
    requires Inside(EdgeWeights(v0, v1, v2, x, y))
    ensures var p := PixelCenter(x, y);
      0.0 <= EdgeCross(v0, v1, p) && 0.0 <= EdgeCross(v1, v2, p) && 0.0 <= EdgeCross(v2, v0, p)
    ensures EdgeCross(v0, v1, v2) > 0.0
  {
    InsideBounds(v0, v1, v2, x, y);
  }

  /** Non-negative barycentric weights place p within the extremes of the corners, coordinate by coordinate. */
  lemma CenterBetween(e0: real, e1: real, e2: real, area: real, v0: Vec2, v1: Vec2, v2: Vec2, p: Vec2)
    requires 0.0 <= e0 && 0.0 <= e1 && 0.0 <= e2 && e0 + e1 + e2 == area && 0.0 < area
    requires e1 * v0.x + e2 * v1.x + e0 * v2.x == area * p.x
    requires e1 * v0.y + e2 * v1.y + e0 * v2.y == area * p.y
    ensures Min3(v0.x, v1.x, v2.x) <= p.x <= Max3(v0.x, v1.x, v2.x)
    ensures Min3(v0.y, v1.y, v2.y) <= p.y <= Max3(v0.y, v1.y, v2.y)
  {
    WeightedBetween(e1, e2, e0, v0.x, v1.x, v2.x, p.x, area);
    WeightedBetween(e1, e2, e0, v0.y, v1.y, v2.y, p.y, area);
  }

  /**
   * The box misses no inside pixel: every pixel whose centre passes the
   * inside test lies within [floor(min), ceil(max)] on both axes.
   */
  lemma InsideWithinBox(v0: Vec2, v1: Vec2, v2: Vec2, x: int, y: int)
    requires Inside(EdgeWeights(v0, v1, v2, x, y))
    ensures BoxXMin(v0, v1, v2) <= x <= BoxXMax(v0, v1, v2)
    ensures BoxYMin(v0, v1, v2) <= y <= BoxYMax(v0, v1, v2)
  {
    InsideCenter(v0, v1, v2, x, y);
  }

  // ---------------------------------------------------------------------
  // Colour
  // ---------------------------------------------------------------------

  datatype Rgb = Rgb(r: uint8, g: uint8, b: uint8)

  /** The corner colours: red, green, blue. */
  const Colors: seq<Rgb> := [Rgb(0xFF, 0x00, 0x00), Rgb(0x00, 0xFF, 0x00), Rgb(0x00, 0x00, 0xFF)]

  /** The conversion of a C `int` to `uint32_t`: modulo 2^32. */
  function ToWord(n: int): bv32 {
    (n % 0x1_0000_0000) as bv32
  }

  /** The packing of lines 126-130: OR in a value, shift left by 8, four times. */
  function Pack(a: int, b: int, g: int, r: int): bv32 {
    var c0: bv32 := 0;
    var c1 := (c0 | ToWord(a)) << 8;
    var c2 := (c1 | ToWord(b)) << 8;
    var c3 := (c2 | ToWord(g)) << 8;
    c3 | ToWord(r)
  }

  /** With every channel in [0, 255] the packing lays out 0xAABBGGRR. */
  lemma PackLayout(a: uint8, b: uint8, g: uint8, r: uint8)
    ensures Pack(a, b, g, r) == ((a as bv32) << 24) | ((b as bv32) << 16) | ((g as bv32) << 8) | (r as bv32)
  {
    assert ToWord(a) == a as bv32 && ToWord(b) == b as bv32 && ToWord(g) == g as bv32 && ToWord(r) == r as bv32;
  }

  /** One channel: the weighted sum of the corner channels, truncated to int. */
  function Channel(alpha: real, beta: real, gamma: real, c0: uint8, c1: uint8, c2: uint8): int {
    Trunc(alpha * c0 as real + beta * c1 as real + gamma * c2 as real)
  }

  /** Weights in [0, 1] with sum at most 1 keep every channel in [0, 255]. */
  lemma ChannelInRange(alpha: real, beta: real, gamma: real, c0: uint8, c1: uint8, c2: uint8)
    requires 0.0 <= alpha && 0.0 <= beta && 0.0 <= gamma && alpha + beta + gamma <= 1.0
    ensures 0 <= Channel(alpha, beta, gamma, c0, c1, c2) <= 0xFF
  {
    NonNegProduct(alpha, c0 as real);
    NonNegProduct(beta, c1 as real);
    NonNegProduct(gamma, c2 as real);
    NonNegProduct(alpha, 255.0 - c0 as real);
    NonNegProduct(beta, 255.0 - c1 as real);
    NonNegProduct(gamma, 255.0 - c2 as real);
    assert alpha * 255.0 + beta * 255.0 + gamma * 255.0 <= 255.0;
    TruncBetween(alpha * c0 as real + beta * c1 as real + gamma * c2 as real, 0, 0xFF);
  }

  /**
   * The colour for weights alpha, beta, gamma (w0, w1, w2 as fractions of
   * the area): the corner colours mixed by the weights, packed behind an
   * opaque alpha byte.
   */
  function Shade(alpha: real, beta: real, gamma: real): uint32 {
    Pack(0xFF,
         Channel(alpha, beta, gamma, Colors[0].b, Colors[1].b, Colors[2].b),
         Channel(alpha, beta, gamma, Colors[0].g, Colors[1].g, Colors[2].g),
         Channel(alpha, beta, gamma, Colors[0].r, Colors[1].r, Colors[2].r)) as int
  }

  /** The colour triangle_fill writes at an inside pixel (x, y). */
  function ShadeAt(v0: Vec2, v1: Vec2, v2: Vec2, x: int, y: int): uint32
    requires Inside(EdgeWeights(v0, v1, v2, x, y))
  {
    InsideBounds(v0, v1, v2, x, y);
    var w, area := EdgeWeights(v0, v1, v2, x, y), EdgeCross(v0, v1, v2);
    Shade(w.x / area, w.y / area, w.z / area)
  }

  /**
   * For weights in [0, 1] summing to at most 1 (as those of an inside pixel
   * do, by WeightsOfArea) the colour word packs an opaque alpha with red,
   * green and blue channels that are alpha, beta and gamma scaled to 255 and
   * truncated, each within [0, 255], so PackLayout gives its bytes.
   */
  lemma ShadeLayout(alpha: real, beta: real, gamma: real)
    requires 0.0 <= alpha && 0.0 <= beta && 0.0 <= gamma && alpha + beta + gamma <= 1.0
    ensures var r, g, b := Trunc(alpha * 255.0), Trunc(beta * 255.0), Trunc(gamma * 255.0);
      0 <= r <= 0xFF && 0 <= g <= 0xFF && 0 <= b <= 0xFF &&
      Shade(alpha, beta, gamma) == Pack(0xFF, b, g, r) as int
  {
    assert Colors[0] == Rgb(0xFF, 0, 0) && Colors[1] == Rgb(0, 0xFF, 0) && Colors[2] == Rgb(0, 0, 0xFF);
    PrimaryChannels(alpha, beta, gamma);
    ChannelInRange(alpha, beta, gamma, 0xFF, 0, 0);
    ChannelInRange(alpha, beta, gamma, 0, 0xFF, 0);
    ChannelInRange(alpha, beta, gamma, 0, 0, 0xFF);
  }

  /** The weights of an inside pixel, as fractions of the area, meet ShadeLayout's requirement. */
  lemma InsideFractions(v0: Vec2, v1: Vec2, v2: Vec2, x: int, y: int)
    requires Inside(EdgeWeights(v0, v1, v2, x, y))
    ensures var w, area := EdgeWeights(v0, v1, v2, x, y), EdgeCross(v0, v1, v2);
      area > 0.0 && 0.0 <= w.x / area && 0.0 <= w.y / area && 0.0 <= w.z / area &&
      w.x / area + w.y / area + w.z / area <= 1.0
  {
    InsideBounds(v0, v1, v2, x, y);
    var w := EdgeWeights(v0, v1, v2, x, y);
    WeightsOfArea(w.x, w.y, w.z, EdgeCross(v0, v1, v2));
  }

  /** With pure red, green and blue corners each channel is one weight scaled to 255. */
  lemma PrimaryChannels(alpha: real, beta: real, gamma: real)
    ensures Channel(alpha, beta, gamma, 0xFF, 0, 0) == Trunc(alpha * 255.0)
    ensures Channel(alpha, beta, gamma, 0, 0xFF, 0) == Trunc(beta * 255.0)
    ensures Channel(alpha, beta, gamma, 0, 0, 0xFF) == Trunc(gamma * 255.0)
  {
  }

  /** Weights bounded by a positive area, as fractions of it, sum to at most 1. */
  lemma WeightsOfArea(wx: real, wy: real, wz: real, area: real)
    requires 0.0 <= wx && 0.0 <= wy && 0.0 <= wz && 0.0 < area && wx + wy + wz <= area
    ensures 0.0 <= wx / area && 0.0 <= wy / area && 0.0 <= wz / area
    ensures wx / area + wy / area + wz / area <= 1.0
  {
    assert wx / area + wy / area + wz / area == (wx + wy + wz) / area;
  }

  // ---------------------------------------------------------------------
  // The traversal, on buffer values
  // ---------------------------------------------------------------------

  /** The visit of pixel (x, y): an inside pixel is drawn at its uint8_t coordinates. */
  function PaintAt(s: seq<uint32>, w: int, h: int, v0: Vec2, v1: Vec2, v2: Vec2, x: int, y: int): (r: seq<uint32>)
    requires Screen(w, h, |s|)
    ensures |r| == |s|
  {
    if Inside(EdgeWeights(v0, v1, v2, x, y)) then
      Plot(s, w, h, ToUint8(x), ToUint8(y), ShadeAt(v0, v1, v2, x, y))
    else
      s
  }

  /** Pixels x..xMax of row y, left to right. */
  function FillRow(s: seq<uint32>, w: int, h: int, v0: Vec2, v1: Vec2, v2: Vec2, y: int, x: int, xMax: int): (r: seq<uint32>)
    requires Screen(w, h, |s|)
    ensures |r| == |s|
    decreases xMax + 1 - x
  {
    if x > xMax then s
    else FillRow(PaintAt(s, w, h, v0, v1, v2, x, y), w, h, v0, v1, v2, y, x + 1, xMax)
  }

  /** Rows y..yMax, top to bottom, each over columns xMin..xMax. */
  function FillBox(s: seq<uint32>, w: int, h: int, v0: Vec2, v1: Vec2, v2: Vec2, y: int, yMax: int, xMin: int, xMax: int): (r: seq<uint32>)
    requires Screen(w, h, |s|)
    ensures |r| == |s|
    decreases yMax + 1 - y
  {
    if y > yMax then s
    else FillBox(FillRow(s, w, h, v0, v1, v2, y, xMin, xMax), w, h, v0, v1, v2, y + 1, yMax, xMin, xMax)
  }

  /** triangle_fill on a buffer value: the whole bounding box, row by row. */
  function Fill(s: seq<uint32>, w: int, h: int, v0: Vec2, v1: Vec2, v2: Vec2): (r: seq<uint32>)
    requires Screen(w, h, |s|)
    ensures |r| == |s|
  {
    FillBox(s, w, h, v0, v1, v2, BoxYMin(v0, v1, v2), BoxYMax(v0, v1, v2), BoxXMin(v0, v1, v2), BoxXMax(v0, v1, v2))
  }

  /** A triangle with no positive area (clockwise or degenerate) leaves a row unchanged. */
  lemma {:induction false} FillRowNoArea(s: seq<uint32>, w: int, h: int, v0: Vec2, v1: Vec2, v2: Vec2, y: int, x: int, xMax: int)
    requires Screen(w, h, |s|) && EdgeCross(v0, v1, v2) <= 0.0
    ensures FillRow(s, w, h, v0, v1, v2, y, x, xMax) == s
    decreases xMax + 1 - x
  {
    if x <= xMax {
      if Inside(EdgeWeights(v0, v1, v2, x, y)) {
        InsideBounds(v0, v1, v2, x, y);
        assert false;
      }
      FillRowNoArea(s, w, h, v0, v1, v2, y, x + 1, xMax);
    }
  }

  lemma {:induction false} FillBoxNoArea(s: seq<uint32>, w: int, h: int, v0: Vec2, v1: Vec2, v2: Vec2, y: int, yMax: int, xMin: int, xMax: int)
    requires Screen(w, h, |s|) && EdgeCross(v0, v1, v2) <= 0.0
    ensures FillBox(s, w, h, v0, v1, v2, y, yMax, xMin, xMax) == s
    decreases yMax + 1 - y
  {
    if y <= yMax {
      FillRowNoArea(s, w, h, v0, v1, v2, y, xMin, xMax);
      FillBoxNoArea(s, w, h, v0, v1, v2, y + 1, yMax, xMin, xMax);
    }
  }

  /** Clockwise and degenerate triangles draw nothing. */
  lemma FillNoArea(s: seq<uint32>, w: int, h: int, v0: Vec2, v1: Vec2, v2: Vec2)
    requires Screen(w, h, |s|) && EdgeCross(v0, v1, v2) <= 0.0
    ensures Fill(s, w, h, v0, v1, v2) == s
  {
    FillBoxNoArea(s, w, h, v0, v1, v2, BoxYMin(v0, v1, v2), BoxYMax(v0, v1, v2), BoxXMin(v0, v1, v2), BoxXMax(v0, v1, v2));
  }

  /**
   * Row y seen cell by cell, for coordinates that fit a uint8_t: a cell of
   * the row within [x, xMax] takes its colour exactly when it is inside,
   * and every other cell keeps its value.
   */
  lemma {:induction false} FillRowCells(s: seq<uint32>, w: int, h: int, v0: Vec2, v1: Vec2, v2: Vec2, y: int, x: int, xMax: int)
    requires Screen(w, h, |s|)
    requires 0 <= y < 0x100 && 0 <= x && xMax < 0x100
    ensures forall col, row :: InWindow(w, h, col, row) ==>
      Cell(FillRow(s, w, h, v0, v1, v2, y, x, xMax), w, h, col, row) ==
        if row == y && x <= col <= xMax && Inside(EdgeWeights(v0, v1, v2, col, row))
        then ShadeAt(v0, v1, v2, col, row)
        else Cell(s, w, h, col, row)
    decreases xMax + 1 - x
  {
    if x <= xMax {
      var s1 := PaintAt(s, w, h, v0, v1, v2, x, y);
      assert FillRow(s, w, h, v0, v1, v2, y, x, xMax) == FillRow(s1, w, h, v0, v1, v2, y, x + 1, xMax);
      FillRowCells(s1, w, h, v0, v1, v2, y, x + 1, xMax);
      PaintAtCells(s, w, h, v0, v1, v2, x, y);
      forall col, row | InWindow(w, h, col, row)
        ensures Cell(FillRow(s, w, h, v0, v1, v2, y, x, xMax), w, h, col, row) ==
          if row == y && x <= col <= xMax && Inside(EdgeWeights(v0, v1, v2, col, row))
          then ShadeAt(v0, v1, v2, col, row)
          else Cell(s, w, h, col, row)
      {
        if col == x && row == y {
          assert Cell(FillRow(s, w, h, v0, v1, v2, y, x, xMax), w, h, col, row) == Cell(s1, w, h, col, row);
        }
      }
    }
  }

  /** One pixel of the row: its cell takes the colour exactly when it is inside, and no other cell changes. */
  lemma PaintAtCells(s: seq<uint32>, w: int, h: int, v0: Vec2, v1: Vec2, v2: Vec2, x: int, y: int)
    requires Screen(w, h, |s|)
    requires 0 <= x < 0x100 && 0 <= y < 0x100
    ensures forall col, row :: InWindow(w, h, col, row) ==>
      Cell(PaintAt(s, w, h, v0, v1, v2, x, y), w, h, col, row) ==
        if col == x && row == y && Inside(EdgeWeights(v0, v1, v2, x, y))
        then ShadeAt(v0, v1, v2, x, y)
        else Cell(s, w, h, col, row)
  {
    if Inside(EdgeWeights(v0, v1, v2, x, y)) {
      assert ToUint8(x) == x && ToUint8(y) == y;
      PlotCells(s, w, h, x, y, ShadeAt(v0, v1, v2, x, y));
    }
  }

  lemma {:induction false} FillBoxCells(s: seq<uint32>, w: int, h: int, v0: Vec2, v1: Vec2, v2: Vec2, y: int, yMax: int, xMin: int, xMax: int)
    requires Screen(w, h, |s|)
    requires 0 <= y && yMax < 0x100 && 0 <= xMin && xMax < 0x100
    ensures forall col, row :: InWindow(w, h, col, row) ==>
      Cell(FillBox(s, w, h, v0, v1, v2, y, yMax, xMin, xMax), w, h, col, row) ==
        if y <= row <= yMax && xMin <= col <= xMax && Inside(EdgeWeights(v0, v1, v2, col, row))
        then ShadeAt(v0, v1, v2, col, row)
        else Cell(s, w, h, col, row)
    decreases yMax + 1 - y
  {
    if y <= yMax {
      var s1 := FillRow(s, w, h, v0, v1, v2, y, xMin, xMax);
      assert FillBox(s, w, h, v0, v1, v2, y, yMax, xMin, xMax) == FillBox(s1, w, h, v0, v1, v2, y + 1, yMax, xMin, xMax);
      FillRowCells(s, w, h, v0, v1, v2, y, xMin, xMax);
      FillBoxCells(s1, w, h, v0, v1, v2, y + 1, yMax, xMin, xMax);
      forall col, row | InWindow(w, h, col, row)
        ensures Cell(FillBox(s, w, h, v0, v1, v2, y, yMax, xMin, xMax), w, h, col, row) ==
          if y <= row <= yMax && xMin <= col <= xMax && Inside(EdgeWeights(v0, v1, v2, col, row))
          then ShadeAt(v0, v1, v2, col, row)
          else Cell(s, w, h, col, row)
      {
        assert Cell(s1, w, h, col, row) ==
          if row == y && xMin <= col <= xMax && Inside(EdgeWeights(v0, v1, v2, col, row))
          then ShadeAt(v0, v1, v2, col, row)
          else Cell(s, w, h, col, row);
      }
    }
  }

  /**
   * When the bounding box fits the uint8_t coordinate range, triangle_fill
   * draws exactly the pixels whose three weights are non-negative, each in
   * its interpolated colour, and leaves every other cell as it was.
   */
  lemma FillCells(s: seq<uint32>, w: int, h: int, v0: Vec2, v1: Vec2, v2: Vec2)
    requires Screen(w, h, |s|)
    requires 0 <= BoxXMin(v0, v1, v2) && BoxXMax(v0, v1, v2) < 0x100
    requires 0 <= BoxYMin(v0, v1, v2) && BoxYMax(v0, v1, v2) < 0x100
    ensures forall col, row :: InWindow(w, h, col, row) ==>
      Cell(Fill(s, w, h, v0, v1, v2), w, h, col, row) ==
        if Inside(EdgeWeights(v0, v1, v2, col, row)) then ShadeAt(v0, v1, v2, col, row)
        else Cell(s, w, h, col, row)
  {
    FillBoxCells(s, w, h, v0, v1, v2, BoxYMin(v0, v1, v2), BoxYMax(v0, v1, v2), BoxXMin(v0, v1, v2), BoxXMax(v0, v1, v2));
    forall col, row | InWindow(w, h, col, row) && Inside(EdgeWeights(v0, v1, v2, col, row))
      ensures BoxXMin(v0, v1, v2) <= col <= BoxXMax(v0, v1, v2) && BoxYMin(v0, v1, v2) <= row <= BoxYMax(v0, v1, v2)
    {
      InsideWithinBox(v0, v1, v2, col, row);
    }
  }

  // ---------------------------------------------------------------------
  // triangle_fill
  // ---------------------------------------------------------------------

  /**
   * triangle_fill(v0, v1, v2): the incremental traversal computes, at every
   * pixel, exactly the weights EdgeWeights defines, so the framebuffer ends
   * as Fill describes.
   */
  method TriangleFill(fb: FrameBuffer, v0: Vec2, v1: Vec2, v2: Vec2)
    requires fb.Valid()
    modifies fb.framebuffer
    ensures fb.framebuffer[..] == Fill(old(fb.framebuffer[..]), fb.screenWidth, fb.screenHeight, v0, v1, v2)
  {
    ghost var s0 := fb.framebuffer[..];
    var area := EdgeCross(v0, v1, v2);

    var xMin := Floor(MinReal(MinReal(v0.x, v1.x), v2.x));
    var yMin := Floor(MinReal(MinReal(v0.y, v1.y), v2.y));
    var xMax := Ceil(MaxReal(MaxReal(v0.x, v1.x), v2.x));
    var yMax := Ceil(MaxReal(MaxReal(v0.y, v1.y), v2.y));

    var deltaW0Row := v1.x - v0.x;
    var deltaW1Row := v2.x - v1.x;
    var deltaW2Row := v0.x - v2.x;

    var bias0 := if IsTopLeft(v0, v1) then 0.0 else -0.0001;
    var bias1 := if IsTopLeft(v1, v2) then 0.0 else -0.0001;
    var bias2 := if IsTopLeft(v2, v0) then 0.0 else -0.0001;

    var p := Vec2(xMin as real + 0.5, yMin as real + 0.5);
    var w0Row := EdgeCross(v0, v1, p) + bias0;
    var w1Row := EdgeCross(v1, v2, p) + bias1;
    var w2Row := EdgeCross(v2, v0, p) + bias2;

    var y := yMin;
    while y <= yMax
      invariant yMin <= y <= yMax + 1
      invariant EdgeWeights(v0, v1, v2, xMin, y) == Vec3(w0Row, w1Row, w2Row)
      invariant FillBox(fb.framebuffer[..], fb.screenWidth, fb.screenHeight, v0, v1, v2, y, yMax, xMin, xMax)
        == FillBox(s0, fb.screenWidth, fb.screenHeight, v0, v1, v2, yMin, yMax, xMin, xMax)
      decreases yMax + 1 - y
    {
      FillScanline(fb, v0, v1, v2, area, y, xMin, xMax, w0Row, w1Row, w2Row);
      RowStep(v0, v1, xMin, y);
      RowStep(v1, v2, xMin, y);
      RowStep(v2, v0, xMin, y);
      w0Row := w0Row + deltaW0Row;
      w1Row := w1Row + deltaW1Row;
      w2Row := w2Row + deltaW2Row;
      y := y + 1;
    }
  }

  /**
   * The body of the inside branch of triangle_fill: the three channels
   * mixed from the corner colours, then shifted and OR-ed behind alpha 0xFF.
   */
  method InterpColor(alpha: real, beta: real, gamma: real) returns (interpColor: uint32)
    ensures interpColor == Shade(alpha, beta, gamma)
  {
    var a := 0xFF;
    var r := Channel(alpha, beta, gamma, Colors[0].r, Colors[1].r, Colors[2].r);
    var g := Channel(alpha, beta, gamma, Colors[0].g, Colors[1].g, Colors[2].g);
    var b := Channel(alpha, beta, gamma, Colors[0].b, Colors[1].b, Colors[2].b);
    interpColor := Pack(a, b, g, r) as int;
  }

  /** At an inside pixel the running weights over the area give the colour ShadeAt names. */
  lemma ShadeComputed(v0: Vec2, v1: Vec2, v2: Vec2, x: int, y: int, w0: real, w1: real, w2: real, area: real)
    requires area == EdgeCross(v0, v1, v2) && EdgeWeights(v0, v1, v2, x, y) == Vec3(w0, w1, w2)
    requires w0 >= 0.0 && w1 >= 0.0 && w2 >= 0.0
    ensures area > 0.0
    ensures Inside(EdgeWeights(v0, v1, v2, x, y)) && Shade(w0 / area, w1 / area, w2 / area) == ShadeAt(v0, v1, v2, x, y)
  {
    InsideBounds(v0, v1, v2, x, y);
  }

  /** Painting pixel x of the row moves the rest of the row's work one column on. */
  lemma ScanlineStep(s0: seq<uint32>, before: seq<uint32>, after: seq<uint32>, w: int, h: int,
                     v0: Vec2, v1: Vec2, v2: Vec2, y: int, x: int, xMin: int, xMax: int)
    requires Screen(w, h, |s0|) && Screen(w, h, |before|) && x <= xMax
    requires FillRow(before, w, h, v0, v1, v2, y, x, xMax) == FillRow(s0, w, h, v0, v1, v2, y, xMin, xMax)
    requires after == PaintAt(before, w, h, v0, v1, v2, x, y)
    ensures FillRow(after, w, h, v0, v1, v2, y, x + 1, xMax) == FillRow(s0, w, h, v0, v1, v2, y, xMin, xMax)
  {
  }

  /** The inner loop of triangle_fill: row y from xMin to xMax. */
  method FillScanline(fb: FrameBuffer, v0: Vec2, v1: Vec2, v2: Vec2, area: real, y: int, xMin: int, xMax: int,
                      w0Row: real, w1Row: real, w2Row: real)
    requires fb.Valid() && area == EdgeCross(v0, v1, v2) && xMin <= xMax + 1
    requires EdgeWeights(v0, v1, v2, xMin, y) == Vec3(w0Row, w1Row, w2Row)
    modifies fb.framebuffer
    ensures fb.framebuffer[..] == FillRow(old(fb.framebuffer[..]), fb.screenWidth, fb.screenHeight, v0, v1, v2, y, xMin, xMax)
  {
    ghost var s0 := fb.framebuffer[..];
    var deltaW0Col := v0.y - v1.y;
    var deltaW1Col := v1.y - v2.y;
    var deltaW2Col := v2.y - v0.y;
    var w0, w1, w2 := w0Row, w1Row, w2Row;
    var x := xMin;
    while x <= xMax
      invariant xMin <= x <= xMax + 1
      invariant EdgeWeights(v0, v1, v2, x, y) == Vec3(w0, w1, w2)
      invariant FillRow(fb.framebuffer[..], fb.screenWidth, fb.screenHeight, v0, v1, v2, y, x, xMax)
        == FillRow(s0, fb.screenWidth, fb.screenHeight, v0, v1, v2, y, xMin, xMax)
      decreases xMax + 1 - x
    {
      ghost var before := fb.framebuffer[..];
      var isInside := w0 >= 0.0 && w1 >= 0.0 && w2 >= 0.0;
      if isInside {
        ShadeComputed(v0, v1, v2, x, y, w0, w1, w2, area);
        var interpColor := InterpColor(w0 / area, w1 / area, w2 / area);
        fb.DrawPixel(ToUint8(x), ToUint8(y), interpColor);
      }
      assert fb.framebuffer[..] == PaintAt(before, fb.screenWidth, fb.screenHeight, v0, v1, v2, x, y);
      ScanlineStep(s0, before, fb.framebuffer[..], fb.screenWidth, fb.screenHeight, v0, v1, v2, y, x, xMin, xMax);
      ColumnStep(v0, v1, x, y);
      ColumnStep(v1, v2, x, y);
      ColumnStep(v2, v0, x, y);
      w0 := w0 + deltaW0Col;
      w1 := w1 + deltaW1Col;
      w2 := w2 + deltaW2Col;
      x := x + 1;
    }
  }
}
