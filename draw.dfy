/**
 * src/draw.c: the pixel writers that take the colour buffer and the window
 * size as parameters. The colour buffer is an array of `uint32` cells in
 * row-major order; every routine is specified by what it does to each
 * window cell and by leaving the cells past the window untouched.
 */
module Draw {
  import opened Geometry
  import opened Raster
  import Util

  /**
   * draw_pixel: writes the cell (x, y) when 0 <= x < windowWidth and
   * 0 <= y < windowHeight, and nothing otherwise.
   */
  method DrawPixel(x: int, y: int, color: uint32, windowWidth: int, windowHeight: int, colorBuffer: array<uint32>)
    requires Screen(windowWidth, windowHeight, colorBuffer.Length)
    modifies colorBuffer
    ensures colorBuffer[..] == Plot(old(colorBuffer[..]), windowWidth, windowHeight, x, y, color)
  {
    if x < 0 {
      return;
    }
    if windowWidth <= x {
      return;
    }
    if y < 0 {
      return;
    }
    if windowHeight <= y {
      return;
    }
    IdxInRange(windowWidth, windowHeight, x, y);
    colorBuffer[windowWidth * y + x] := color;
  }

  /** A grid row: a nonzero multiple of 10 below 10 * (windowHeight / 10). */
  predicate GridRow(windowHeight: int, row: int) {
    row % 10 == 0 && 1 <= row / 10 < windowHeight / 10
  }

  /** A grid column: a nonzero multiple of 10 below 10 * (windowWidth / 10). */
  predicate GridColumn(windowWidth: int, col: int) {
    col % 10 == 0 && 1 <= col / 10 < windowWidth / 10
  }

  predicate OnGrid(windowWidth: int, windowHeight: int, col: int, row: int) {
    GridRow(windowHeight, row) || GridColumn(windowWidth, col)
  }

  /** The grid never covers the top row or the left column, and stays inside the window. */
  lemma GridInsideWindow(windowWidth: int, windowHeight: int, col: int, row: int)
    requires 0 <= col && 0 <= row && OnGrid(windowWidth, windowHeight, col, row)
    ensures GridRow(windowHeight, row) ==> 10 <= row < windowHeight
    ensures GridColumn(windowWidth, col) ==> 10 <= col < windowWidth
  {
  }

  /**
   * What draw_grid leaves: a window cell holds the colour exactly when it
   * is on a grid row or a grid column, every other cell and every entry
   * past the window as before.
   */
  ghost predicate GridDrawn(s0: seq<uint32>, s: seq<uint32>, windowWidth: int, windowHeight: int, color: uint32)
    requires |s0| == |s| && Screen(windowWidth, windowHeight, |s0|)
  {
    (forall col, row :: InWindow(windowWidth, windowHeight, col, row) ==>
       Cell(s, windowWidth, windowHeight, col, row) ==
         if OnGrid(windowWidth, windowHeight, col, row) then color else Cell(s0, windowWidth, windowHeight, col, row))
    && (forall k :: windowWidth * windowHeight <= k < |s| ==> s[k] == s0[k])
  }

  /**
   * draw_grid: the rows y * 10 for 1 <= y < windowHeight / 10, then the
   * columns x * 10 for 1 <= x < windowWidth / 10, each across the window.
   */
  method DrawGrid(color: uint32, windowWidth: int, windowHeight: int, colorBuffer: array<uint32>)
    requires Screen(windowWidth, windowHeight, colorBuffer.Length)
    modifies colorBuffer
    ensures GridDrawn(old(colorBuffer[..]), colorBuffer[..], windowWidth, windowHeight, color)
  {
    ghost var s0 := colorBuffer[..];
    var nx := windowWidth / 10;
    var ny := windowHeight / 10;
    var y := 1;
    while y < ny
      invariant 1 <= y && (y <= ny || y == 1)
      invariant GridPrefix(s0, colorBuffer[..], windowWidth, windowHeight, y, 1, color)
    {
      ghost var before := colorBuffer[..];
      GridLine(color, windowWidth, windowHeight, colorBuffer, y * 10, true);
      GridLineStep(s0, before, colorBuffer[..], windowWidth, windowHeight, y, 1, true, color);
      y := y + 1;
    }
    var x := 1;
    while x < nx
      invariant 1 <= x && (x <= nx || x == 1)
      invariant GridPrefix(s0, colorBuffer[..], windowWidth, windowHeight, y, x, color)
    {
      ghost var before := colorBuffer[..];
      GridLine(color, windowWidth, windowHeight, colorBuffer, x * 10, false);
      GridLineStep(s0, before, colorBuffer[..], windowWidth, windowHeight, y, x, false, color);
      x := x + 1;
    }
    GridPrefixDone(s0, colorBuffer[..], windowWidth, windowHeight, y, x, color);
  }

  /**
   * draw_grid part-way: rows 10k with 1 <= k < rows and columns 10k with
   * 1 <= k < cols hold the colour, every other cell and the tail as in s0.
   */
  ghost predicate GridPrefix(s0: seq<uint32>, s: seq<uint32>, windowWidth: int, windowHeight: int,
                             rows: int, cols: int, color: uint32)
  {
    |s0| == |s| && Screen(windowWidth, windowHeight, |s0|)
    && (forall col, row :: InWindow(windowWidth, windowHeight, col, row) ==>
          Cell(s, windowWidth, windowHeight, col, row) ==
            if (row % 10 == 0 && 1 <= row / 10 < rows) || (col % 10 == 0 && 1 <= col / 10 < cols) then color
            else Cell(s0, windowWidth, windowHeight, col, row))
    && (forall k :: windowWidth * windowHeight <= k < |s| ==> s[k] == s0[k])
  }

  /** Drawing grid line k (row 10k or column 10k) extends the drawn rows or columns by one. */
  lemma GridLineStep(s0: seq<uint32>, before: seq<uint32>, after: seq<uint32>, windowWidth: int, windowHeight: int,
                     rows: int, cols: int, horizontal: bool, color: uint32)
    requires GridPrefix(s0, before, windowWidth, windowHeight, rows, cols, color)
    requires |after| == |before|
    requires 1 <= rows && 1 <= cols
    requires forall col, row :: InWindow(windowWidth, windowHeight, col, row) ==>
      Cell(after, windowWidth, windowHeight, col, row) ==
        if (if horizontal then row == rows * 10 else col == cols * 10) then color
        else Cell(before, windowWidth, windowHeight, col, row)
    requires forall k :: windowWidth * windowHeight <= k < |after| ==> after[k] == before[k]
    ensures horizontal ==> GridPrefix(s0, after, windowWidth, windowHeight, rows + 1, cols, color)
    ensures !horizontal ==> GridPrefix(s0, after, windowWidth, windowHeight, rows, cols + 1, color)
  {
    var line := if horizontal then rows else cols;
    forall col, row | InWindow(windowWidth, windowHeight, col, row)
      ensures Cell(after, windowWidth, windowHeight, col, row) ==
        if (row % 10 == 0 && 1 <= row / 10 < rows + (if horizontal then 1 else 0))
           || (col % 10 == 0 && 1 <= col / 10 < cols + (if horizontal then 0 else 1)) then color
        else Cell(s0, windowWidth, windowHeight, col, row)
    {
      var at := if horizontal then row else col;
      assert at == line * 10 <==> at % 10 == 0 && at / 10 == line;
    }
  }

  /** Once both loops have run to their bounds the grid is complete. */
  lemma GridPrefixDone(s0: seq<uint32>, s: seq<uint32>, windowWidth: int, windowHeight: int,
                       rows: int, cols: int, color: uint32)
    requires GridPrefix(s0, s, windowWidth, windowHeight, rows, cols, color)
    requires rows == windowHeight / 10 || (rows == 1 && windowHeight / 10 <= 1)
    requires cols == windowWidth / 10 || (cols == 1 && windowWidth / 10 <= 1)
    ensures GridDrawn(s0, s, windowWidth, windowHeight, color)
  {
  }

  /**
   * One inner loop of draw_grid: the whole row `at` when `horizontal`,
   * otherwise the whole column `at`.
   */
  method GridLine(color: uint32, windowWidth: int, windowHeight: int, colorBuffer: array<uint32>, at: int, horizontal: bool)
    requires Screen(windowWidth, windowHeight, colorBuffer.Length)
    requires 0 <= at && (if horizontal then at < windowHeight else at < windowWidth)
    modifies colorBuffer
    ensures forall col, row :: InWindow(windowWidth, windowHeight, col, row) ==>
      Cell(colorBuffer[..], windowWidth, windowHeight, col, row) ==
        if (if horizontal then row == at else col == at) then color
        else Cell(old(colorBuffer[..]), windowWidth, windowHeight, col, row)
    ensures forall k :: windowWidth * windowHeight <= k < colorBuffer.Length ==> colorBuffer[k] == old(colorBuffer[k])
  {
    ghost var s0 := colorBuffer[..];
    var i := 0;
    var n := if horizontal then windowWidth else windowHeight;
    while i < n
      invariant 0 <= i <= n
      invariant LinePrefix(s0, colorBuffer[..], windowWidth, windowHeight, at, horizontal, i, color)
    {
      LinePrefixStep(s0, colorBuffer[..], windowWidth, windowHeight, at, horizontal, i, color);
      if horizontal {
        SetCell(colorBuffer, windowWidth, windowHeight, i, at, color);
      } else {
        SetCell(colorBuffer, windowWidth, windowHeight, at, i, color);
      }
      i := i + 1;
    }
    LinePrefixDone(s0, colorBuffer[..], windowWidth, windowHeight, at, horizontal, color);
  }

  /** The argument checks of draw_rectangle, which return before any write. */
  predicate RectangleRejected(x: int, y: int, w: int, h: int, windowWidth: int, windowHeight: int) {
    x < 0 || x >= windowWidth || y < 0 || y >= windowHeight ||
    w <= 0 || w > windowWidth || h <= 0 || h > windowHeight
  }

  /**
   * What draw_rectangle leaves: nothing changes when the arguments are
   * rejected; otherwise a window cell holds the colour exactly when it is
   * one of (x + i, y + j), i < w, j < h. Entries past the window never change.
   */
  ghost predicate RectangleDrawn(s0: seq<uint32>, s: seq<uint32>, x: int, y: int, w: int, h: int, color: uint32,
                                 windowWidth: int, windowHeight: int)
    requires |s0| == |s| && Screen(windowWidth, windowHeight, |s0|)
  {
    (RectangleRejected(x, y, w, h, windowWidth, windowHeight) ==> s == s0)
    && (forall col, row :: InWindow(windowWidth, windowHeight, col, row) ==>
          Cell(s, windowWidth, windowHeight, col, row) ==
            if !RectangleRejected(x, y, w, h, windowWidth, windowHeight) && x <= col < x + w && y <= row < y + h then color
            else Cell(s0, windowWidth, windowHeight, col, row))
    && (forall k :: windowWidth * windowHeight <= k < |s| ==> s[k] == s0[k])
  }

  /**
   * The cells with left <= col < right and top <= row < bottom that lie in
   * the window hold v; every other cell and every entry past the window are
   * as in s0.
   */
  ghost predicate BoxPainted(s0: seq<uint32>, s: seq<uint32>, windowWidth: int, windowHeight: int,
                             left: int, right: int, top: int, bottom: int, v: uint32)
    requires |s0| == |s| && Screen(windowWidth, windowHeight, |s0|)
  {
    (forall col, row :: InWindow(windowWidth, windowHeight, col, row) ==>
       Cell(s, windowWidth, windowHeight, col, row) ==
         if left <= col < right && top <= row < bottom then v else Cell(s0, windowWidth, windowHeight, col, row))
    && (forall k :: windowWidth * windowHeight <= k < |s| ==> s[k] == s0[k])
  }

  /** Plotting the next cell of a row extends the painted run by one column. */
  lemma BoxRowStep(s0: seq<uint32>, before: seq<uint32>, after: seq<uint32>, windowWidth: int, windowHeight: int,
                   left: int, right: int, row: int, v: uint32)
    requires |s0| == |before| && Screen(windowWidth, windowHeight, |s0|) && left <= right
    requires BoxPainted(s0, before, windowWidth, windowHeight, left, right, row, row + 1, v)
    requires after == Plot(before, windowWidth, windowHeight, right, row, v)
    ensures BoxPainted(s0, after, windowWidth, windowHeight, left, right + 1, row, row + 1, v)
  {
    PlotCells(before, windowWidth, windowHeight, right, row, v);
  }

  /** Painting the row below a painted band extends the band by one row. */
  lemma BoxBandStep(s0: seq<uint32>, before: seq<uint32>, after: seq<uint32>, windowWidth: int, windowHeight: int,
                    left: int, right: int, top: int, bottom: int, v: uint32)
    requires |s0| == |before| == |after| && Screen(windowWidth, windowHeight, |s0|) && top <= bottom
    requires BoxPainted(s0, before, windowWidth, windowHeight, left, right, top, bottom, v)
    requires BoxPainted(before, after, windowWidth, windowHeight, left, right, bottom, bottom + 1, v)
    ensures BoxPainted(s0, after, windowWidth, windowHeight, left, right, top, bottom + 1, v)
  {
  }

  /**
   * draw_rectangle: after the argument checks, every cell (x + i, y + j)
   * with i < w and j < h that lies in the window takes the colour.
   */
  method DrawRectangle(x: int, y: int, w: int, h: int, color: uint32,
                       windowWidth: int, windowHeight: int, colorBuffer: array<uint32>)
    requires Screen(windowWidth, windowHeight, colorBuffer.Length)
    modifies colorBuffer
    ensures RectangleDrawn(old(colorBuffer[..]), colorBuffer[..], x, y, w, h, color, windowWidth, windowHeight)
  {
    if x < 0 || x >= windowWidth {
      return;
    }
    if y < 0 || y >= windowHeight {
      return;
    }
    if w <= 0 || w > windowWidth {
      return;
    }
    if h <= 0 || h > windowHeight {
      return;
    }
    ghost var s0 := colorBuffer[..];
    var j := 0;
    while j < h
      invariant 0 <= j <= h
      invariant BoxPainted(s0, colorBuffer[..], windowWidth, windowHeight, x, x + w, y, y + j, color)
    {
      ghost var before := colorBuffer[..];
      RectangleRow(x, y + j, w, color, windowWidth, windowHeight, colorBuffer);
      BoxBandStep(s0, before, colorBuffer[..], windowWidth, windowHeight, x, x + w, y, y + j, color);
      j := j + 1;
    }
  }

  /** The inner loop of draw_rectangle: the cells (x + i, row), i < w, that lie in the window. */
  method RectangleRow(x: int, row: int, w: int, color: uint32,
                      windowWidth: int, windowHeight: int, colorBuffer: array<uint32>)
    requires Screen(windowWidth, windowHeight, colorBuffer.Length) && 0 <= w
    modifies colorBuffer
    ensures BoxPainted(old(colorBuffer[..]), colorBuffer[..], windowWidth, windowHeight, x, x + w, row, row + 1, color)
  {
    ghost var s0 := colorBuffer[..];
    var i := 0;
    while i < w
      invariant 0 <= i <= w
      invariant BoxPainted(s0, colorBuffer[..], windowWidth, windowHeight, x, x + i, row, row + 1, color)
    {
      ghost var before := colorBuffer[..];
      if row < windowHeight && x + i < windowWidth {
        DrawPixel(x + i, row, color, windowWidth, windowHeight, colorBuffer);
      }
      BoxRowStep(s0, before, colorBuffer[..], windowWidth, windowHeight, x, x + i, row, color);
      i := i + 1;
    }
  }

  /** The number of steps of the DDA walk: the larger of |dx| and |dy|. */
  function SideLength(x0: int, y0: int, x1: int, y1: int): nat {
    if Abs(x1 - x0) >= Abs(y1 - y0) then Abs(x1 - x0) else Abs(y1 - y0)
  }

  /**
   * The per-step increment delta / side. When side is 0 the source divides
   * 0 by 0; the increment is then never used, and is taken as 0 here.
   */
  function Increment(delta: int, side: nat): real {
    if side == 0 then 0.0 else delta as real / side as real
  }

  /** The i-th point of the DDA walk under exact arithmetic, rounded as C `round` does. */
  function LinePoint(x0: int, y0: int, x1: int, y1: int, i: int): (int, int) {
    var side := SideLength(x0, y0, x1, y1);
    (Round(Walk(x0 as real, Increment(x1 - x0, side), i)),
     Round(Walk(y0 as real, Increment(y1 - y0, side), i)))
  }

  /** An accumulator started at `start` after `i` additions of `inc`, under exact arithmetic. */
  function Walk(start: real, inc: real, i: int): real {
    start + i as real * inc
  }

  /** The buffer after plotting the first k points of the walk, in order. */
  function PlotLine(s: seq<uint32>, windowWidth: int, windowHeight: int,
                    x0: int, y0: int, x1: int, y1: int, color: uint32, k: nat): (r: seq<uint32>)
    requires Screen(windowWidth, windowHeight, |s|)
    ensures |r| == |s|
  {
    if k == 0 then s
    else
      var p := LinePoint(x0, y0, x1, y1, k - 1);
      Plot(PlotLine(s, windowWidth, windowHeight, x0, y0, x1, y1, color, k - 1), windowWidth, windowHeight, p.0, p.1, color)
  }

  /**
   * draw_line: plots SideLength + 1 points through draw_pixel, advancing
   * (current_x, current_y) by the increments after each one.
   */
  method DrawLine(x0: int, y0: int, x1: int, y1: int, color: uint32,
                  windowWidth: int, windowHeight: int, colorBuffer: array<uint32>)
    requires Screen(windowWidth, windowHeight, colorBuffer.Length)
    modifies colorBuffer
    ensures colorBuffer[..] == PlotLine(old(colorBuffer[..]), windowWidth, windowHeight, x0, y0, x1, y1, color,
                                        SideLength(x0, y0, x1, y1) + 1)
  {
    ghost var s0 := colorBuffer[..];
    var deltaX := x1 - x0;
    var deltaY := y1 - y0;
    var sideLength := if Abs(deltaX) >= Abs(deltaY) then Abs(deltaX) else Abs(deltaY);
    assert sideLength == SideLength(x0, y0, x1, y1);
    var xInc := Increment(deltaX, sideLength);
    var yInc := Increment(deltaY, sideLength);
    var currentX := x0 as real;
    var currentY := y0 as real;
    var i := 0;
    while i <= sideLength
      invariant 0 <= i <= sideLength + 1
      invariant currentX == Walk(x0 as real, xInc, i) && currentY == Walk(y0 as real, yInc, i)
      invariant colorBuffer[..] == PlotLine(s0, windowWidth, windowHeight, x0, y0, x1, y1, color, i)
    {
      PlotLineStep(s0, windowWidth, windowHeight, x0, y0, x1, y1, color, i);
      DrawPixel(Round(currentX), Round(currentY), color, windowWidth, windowHeight, colorBuffer);
      Accumulate(x0 as real, i, xInc);
      Accumulate(y0 as real, i, yInc);
      currentX := currentX + xInc;
      currentY := currentY + yInc;
      i := i + 1;
    }
  }

  lemma PlotLineStep(s: seq<uint32>, windowWidth: int, windowHeight: int,
                     x0: int, y0: int, x1: int, y1: int, color: uint32, k: nat)
    requires Screen(windowWidth, windowHeight, |s|)
    ensures var p := LinePoint(x0, y0, x1, y1, k);
      PlotLine(s, windowWidth, windowHeight, x0, y0, x1, y1, color, k + 1) ==
      Plot(PlotLine(s, windowWidth, windowHeight, x0, y0, x1, y1, color, k), windowWidth, windowHeight, p.0, p.1, color)
  {
  }

  /** One more step of an accumulator started at `start`. */
  lemma Accumulate(start: real, i: int, inc: real)
    ensures Walk(start, inc, i) + inc == Walk(start, inc, i + 1)
  {
  }

  /** Under exact arithmetic the walk starts at (x0, y0) and ends at (x1, y1). */
  lemma LineEnds(x0: int, y0: int, x1: int, y1: int)
    ensures LinePoint(x0, y0, x1, y1, 0) == (x0, y0)
    ensures LinePoint(x0, y0, x1, y1, SideLength(x0, y0, x1, y1)) == (x1, y1)
  {
    var side := SideLength(x0, y0, x1, y1);
    RoundOfInteger(x0);
    RoundOfInteger(y0);
    LastCoordinate(x0, x1 - x0, side);
    LastCoordinate(y0, y1 - y0, side);
  }

  lemma LastCoordinate(v0: int, d: int, side: nat)
    requires side == 0 ==> d == 0
    ensures Round(Walk(v0 as real, Increment(d, side), side)) == v0 + d
  {
    if side != 0 {
      assert side as real * (d as real / side as real) == d as real;
    }
    assert Walk(v0 as real, Increment(d, side), side) == (v0 + d) as real;
    RoundOfInteger(v0 + d);
  }

  /**
   * Each step moves at most one pixel along either axis, and exactly one
   * along the longer one.
   */
  lemma IncrementsBounded(x0: int, y0: int, x1: int, y1: int)
    ensures var side := SideLength(x0, y0, x1, y1);
      var dx, dy := Increment(x1 - x0, side), Increment(y1 - y0, side);
      -1.0 <= dx <= 1.0 && -1.0 <= dy <= 1.0 &&
      (side > 0 ==> dx == 1.0 || dx == -1.0 || dy == 1.0 || dy == -1.0)
  {
    var side := SideLength(x0, y0, x1, y1);
    if side > 0 {
      UnitRatio(x1 - x0, side);
      UnitRatio(y1 - y0, side);
    }
  }

  lemma UnitRatio(d: int, side: nat)
    requires 0 < side && Abs(d) <= side
    ensures -1.0 <= d as real / side as real <= 1.0
    ensures Abs(d) == side ==> d as real / side as real == 1.0 || d as real / side as real == -1.0
  {
  }

  /**
   * What plotting the first k points does to each window cell: a cell
   * takes the colour exactly when one of those points falls on it.
   */
  lemma {:induction false} PlotLineCells(s: seq<uint32>, windowWidth: int, windowHeight: int,
                                         x0: int, y0: int, x1: int, y1: int, color: uint32, k: nat)
    requires Screen(windowWidth, windowHeight, |s|)
    ensures forall col, row :: InWindow(windowWidth, windowHeight, col, row) ==>
      Cell(PlotLine(s, windowWidth, windowHeight, x0, y0, x1, y1, color, k), windowWidth, windowHeight, col, row) ==
        if exists i :: 0 <= i < k && LinePoint(x0, y0, x1, y1, i) == (col, row) then color
        else Cell(s, windowWidth, windowHeight, col, row)
    ensures forall j :: windowWidth * windowHeight <= j < |s| ==>
      PlotLine(s, windowWidth, windowHeight, x0, y0, x1, y1, color, k)[j] == s[j]
  {
    if k > 0 {
      var prev := PlotLine(s, windowWidth, windowHeight, x0, y0, x1, y1, color, k - 1);
      var p := LinePoint(x0, y0, x1, y1, k - 1);
      PlotLineCells(s, windowWidth, windowHeight, x0, y0, x1, y1, color, k - 1);
      PlotCells(prev, windowWidth, windowHeight, p.0, p.1, color);
      forall col, row | InWindow(windowWidth, windowHeight, col, row)
        ensures (exists i :: 0 <= i < k && LinePoint(x0, y0, x1, y1, i) == (col, row)) <==>
          (col, row) == p || exists i :: 0 <= i < k - 1 && LinePoint(x0, y0, x1, y1, i) == (col, row)
      {
        if exists i :: 0 <= i < k && LinePoint(x0, y0, x1, y1, i) == (col, row) {
          var i :| 0 <= i < k && LinePoint(x0, y0, x1, y1, i) == (col, row);
          if i < k - 1 {
            assert exists i :: 0 <= i < k - 1 && LinePoint(x0, y0, x1, y1, i) == (col, row);
          }
        }
      }
    }
  }

  /** A texture as upng holds it: its size and its texels in row-major order. */
  datatype Texture = Texture(width: int, height: int, texels: seq<uint32>)

  predicate ValidTexture(t: Texture) {
    0 < t.width && 0 < t.height && t.width * t.height <= |t.texels|
  }

  /** abs((int)(coord * size)) % size: always a valid texel column or row. */
  function TexelAddress(coord: real, size: int): (i: int)
    requires 0 < size
    ensures 0 <= i < size
  {
    Abs(Trunc(coord * size as real)) % size
  }

  /** The texel that draw_texel reads for the coordinates (u, v). */
  function TexelAt(t: Texture, u: real, v: real): uint32
    requires ValidTexture(t)
  {
    var tx := TexelAddress(u, t.width);
    var ty := TexelAddress(v, t.height);
    IdxInRange(t.width, t.height, tx, ty);
    t.texels[t.width * ty + tx]
  }

  /** The weights draw_texel uses for the pixel (x, y). */
  function PixelWeights(x: int, y: int, a: Vec4, b: Vec4, c: Vec4): Vec3
    requires Util.AreaFull(Vec2FromVec4(a), Vec2FromVec4(b), Vec2FromVec4(c)) != 0.0
  {
    Util.BarycentricWeights(Vec2FromVec4(a), Vec2FromVec4(b), Vec2FromVec4(c), Vec2(x as real, y as real))
  }

  /** 1/w interpolated with the weights. */
  function ReciprocalW(a: Vec4, b: Vec4, c: Vec4, wt: Vec3): real
    requires a.w != 0.0 && b.w != 0.0 && c.w != 0.0
  {
    (1.0 / a.w) * wt.x + (1.0 / b.w) * wt.y + (1.0 / c.w) * wt.z
  }

  /** u/w and v/w interpolated with the weights, then divided by the interpolated 1/w. */
  function PerspectiveUV(a: Vec4, b: Vec4, c: Vec4, uvA: Tex2, uvB: Tex2, uvC: Tex2, wt: Vec3): Tex2
    requires a.w != 0.0 && b.w != 0.0 && c.w != 0.0 && ReciprocalW(a, b, c, wt) != 0.0
  {
    var u := (uvA.u / a.w) * wt.x + (uvB.u / b.w) * wt.y + (uvC.u / c.w) * wt.z;
    var v := (uvA.v / a.w) * wt.x + (uvB.v / b.w) * wt.y + (uvC.v / c.w) * wt.z;
    var r := ReciprocalW(a, b, c, wt);
    Tex2(u / r, v / r)
  }

  /**
   * The divisions draw_texel performs are all defined: a nondegenerate
   * projected triangle, nonzero w at each corner and a nonzero interpolated 1/w.
   */
  predicate TexelDefined(x: int, y: int, a: Vec4, b: Vec4, c: Vec4) {
    Util.AreaFull(Vec2FromVec4(a), Vec2FromVec4(b), Vec2FromVec4(c)) != 0.0 &&
    a.w != 0.0 && b.w != 0.0 && c.w != 0.0 &&
    ReciprocalW(a, b, c, PixelWeights(x, y, a, b, c)) != 0.0
  }

  /** The depth compared against the z-buffer: 1 minus the interpolated 1/w. */
  function TexelDepth(x: int, y: int, a: Vec4, b: Vec4, c: Vec4): real
    requires TexelDefined(x, y, a, b, c)
  {
    1.0 - ReciprocalW(a, b, c, PixelWeights(x, y, a, b, c))
  }

  /** The colour draw_texel takes from the texture for the pixel (x, y). */
  function TexelColor(x: int, y: int, a: Vec4, b: Vec4, c: Vec4, uvA: Tex2, uvB: Tex2, uvC: Tex2, t: Texture): uint32
    requires TexelDefined(x, y, a, b, c) && ValidTexture(t)
  {
    var uv := PerspectiveUV(a, b, c, uvA, uvB, uvC, PixelWeights(x, y, a, b, c));
    TexelAt(t, uv.u, uv.v)
  }

  /**
   * draw_texel: when the new depth is strictly below the stored one, the
   * pixel takes the texel colour and the z-buffer cell the new depth;
   * otherwise neither buffer changes. The z-buffer index is not checked by
   * the source, so (x, y) must lie in the window.
   */
  method DrawTexel(x: int, y: int, pointA: Vec4, pointB: Vec4, pointC: Vec4,
                   uvA: Tex2, uvB: Tex2, uvC: Tex2, texture: Texture,
                   windowWidth: int, windowHeight: int, colorBuffer: array<uint32>, zBuffer: array<real>)
    requires Screen(windowWidth, windowHeight, colorBuffer.Length) && Screen(windowWidth, windowHeight, zBuffer.Length)
    requires InWindow(windowWidth, windowHeight, x, y)
    requires TexelDefined(x, y, pointA, pointB, pointC) && ValidTexture(texture)
    modifies colorBuffer, zBuffer
    ensures var depth := TexelDepth(x, y, pointA, pointB, pointC);
      if depth < Cell(old(zBuffer[..]), windowWidth, windowHeight, x, y) then
        zBuffer[..] == Plot(old(zBuffer[..]), windowWidth, windowHeight, x, y, depth) &&
        colorBuffer[..] == Plot(old(colorBuffer[..]), windowWidth, windowHeight, x, y,
                                TexelColor(x, y, pointA, pointB, pointC, uvA, uvB, uvC, texture))
      else
        zBuffer[..] == old(zBuffer[..]) && colorBuffer[..] == old(colorBuffer[..])
    ensures Cell(zBuffer[..], windowWidth, windowHeight, x, y) <= Cell(old(zBuffer[..]), windowWidth, windowHeight, x, y)
  {
    // The weights of (x, y), then 1/w and the perspective-correct (u, v).
    var weights := PixelWeights(x, y, pointA, pointB, pointC);
    var interpolatedReciprocalW := ReciprocalW(pointA, pointB, pointC, weights);
    var interpolated := PerspectiveUV(pointA, pointB, pointC, uvA, uvB, uvC, weights);
    var textureWidth := texture.width;
    var textureHeight := texture.height;
    var texX := TexelAddress(interpolated.u, textureWidth);
    var texY := TexelAddress(interpolated.v, textureHeight);
    interpolatedReciprocalW := 1.0 - interpolatedReciprocalW;
    IdxInRange(windowWidth, windowHeight, x, y);
    assert zBuffer[windowWidth * y + x] == Cell(zBuffer[..], windowWidth, windowHeight, x, y);
    if interpolatedReciprocalW < zBuffer[windowWidth * y + x] {
      IdxInRange(textureWidth, textureHeight, texX, texY);
      DrawPixel(x, y, texture.texels[textureWidth * texY + texX], windowWidth, windowHeight, colorBuffer);
      ghost var z0 := zBuffer[..];
      zBuffer[windowWidth * y + x] := interpolatedReciprocalW;
      assert zBuffer[..] == Plot(z0, windowWidth, windowHeight, x, y, interpolatedReciprocalW);
    }
  }

  /**
   * At a corner of the triangle (weights (1, 0, 0)) the perspective-correct
   * coordinates are that corner's own texture coordinates.
   */
  lemma PerspectiveAtCorner(a: Vec4, b: Vec4, c: Vec4, uvA: Tex2, uvB: Tex2, uvC: Tex2)
    requires a.w != 0.0 && b.w != 0.0 && c.w != 0.0
    ensures ReciprocalW(a, b, c, Vec3(1.0, 0.0, 0.0)) != 0.0
    ensures PerspectiveUV(a, b, c, uvA, uvB, uvC, Vec3(1.0, 0.0, 0.0)) == uvA
  {
    assert ReciprocalW(a, b, c, Vec3(1.0, 0.0, 0.0)) == 1.0 / a.w;
    assert (uvA.u / a.w) / (1.0 / a.w) == uvA.u;
    assert (uvA.v / a.w) / (1.0 / a.w) == uvA.v;
  }

  /**
   * The pixel at the projected position of corner a reads the texture at
   * uv_a: its weights are (1, 0, 0).
   */
  lemma TexelAtCornerA(a: Vec4, b: Vec4, c: Vec4, uvA: Tex2, uvB: Tex2, uvC: Tex2)
    requires Util.AreaFull(Vec2FromVec4(a), Vec2FromVec4(b), Vec2FromVec4(c)) != 0.0
    requires a.w != 0.0 && b.w != 0.0 && c.w != 0.0
    ensures var wt := Util.BarycentricWeights(Vec2FromVec4(a), Vec2FromVec4(b), Vec2FromVec4(c), Vec2FromVec4(a));
      ReciprocalW(a, b, c, wt) != 0.0 && PerspectiveUV(a, b, c, uvA, uvB, uvC, wt) == uvA
  {
    Util.CornerWeights(Vec2FromVec4(a), Vec2FromVec4(b), Vec2FromVec4(c));
    PerspectiveAtCorner(a, b, c, uvA, uvB, uvC);
  }

  /**
   * With the same w at all three corners there is no perspective to undo:
   * the coordinates are the plain weighted average of the corners'.
   */
  lemma AffineWhenSameW(a: Vec4, b: Vec4, c: Vec4, uvA: Tex2, uvB: Tex2, uvC: Tex2, wt: Vec3)
    requires a.w != 0.0 && a.w == b.w == c.w && wt.x + wt.y + wt.z == 1.0
    ensures ReciprocalW(a, b, c, wt) == 1.0 / a.w
    ensures PerspectiveUV(a, b, c, uvA, uvB, uvC, wt) ==
      Tex2(uvA.u * wt.x + uvB.u * wt.y + uvC.u * wt.z, uvA.v * wt.x + uvB.v * wt.y + uvC.v * wt.z)
  {
    var w := a.w;
    assert ReciprocalW(a, b, c, wt) == (wt.x + wt.y + wt.z) / w;
    assert (uvA.u / w) * wt.x + (uvB.u / w) * wt.y + (uvC.u / w) * wt.z == (uvA.u * wt.x + uvB.u * wt.y + uvC.u * wt.z) / w;
    assert (uvA.v / w) * wt.x + (uvB.v / w) * wt.y + (uvC.v / w) * wt.z == (uvA.v * wt.x + uvB.v * wt.y + uvC.v * wt.z) / w;
  }
}
