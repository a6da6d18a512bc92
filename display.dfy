/**
 * src/display.c: the same pixel writers as src/draw.c, but over the global
 * window_width, window_height and color_buffer. The globals become the
 * fields of one Display object; the drawing routines whose logic is the
 * same as draw.c's delegate to module Draw, and draw_pixel (written with
 * one combined condition here) and clear_color_buffer are modelled anew.
 */
module Display {
  import opened Geometry
  import opened Raster
  import Draw

  /**
   * The buffer after clearing rows 0 .. y - 1: those rows hold the colour,
   * the other rows and the bytes past the window are the original's.
   */
  ghost predicate ClearedAbove(s0: seq<uint32>, s: seq<uint32>, w: int, h: int, y: int, color: uint32)
    requires |s0| == |s| && Screen(w, h, |s0|)
  {
    (forall col, row :: InWindow(w, h, col, row) ==>
       Cell(s, w, h, col, row) == if row < y then color else Cell(s0, w, h, col, row))
    && (forall k :: w * h <= k < |s| ==> s[k] == s0[k])
  }

  /** Clearing row y extends the cleared rows by one. */
  lemma ClearStep(s0: seq<uint32>, before: seq<uint32>, after: seq<uint32>, w: int, h: int, y: int, color: uint32)
    requires |s0| == |before| == |after| && Screen(w, h, |s0|)
    requires ClearedAbove(s0, before, w, h, y, color)
    requires forall col, row :: InWindow(w, h, col, row) ==>
      Cell(after, w, h, col, row) == if row == y then color else Cell(before, w, h, col, row)
    requires forall k :: w * h <= k < |after| ==> after[k] == before[k]
    ensures ClearedAbove(s0, after, w, h, y + 1, color)
  {
  }

  /**
   * The globals are set once, by the window set-up that is not modelled, and
   * none of the modelled routines assigns them, so they are constant fields.
   */
  class Display {
    const windowWidth: int
    const windowHeight: int
    const colorBuffer: array<uint32>

    /** The buffer holds at least window_width * window_height cells. */
    ghost predicate Valid()
    {
      Screen(windowWidth, windowHeight, colorBuffer.Length)
    }

    /** Binds the globals to a window size and a buffer allocated elsewhere. */
    constructor (width: int, height: int, buffer: array<uint32>)
      requires Screen(width, height, buffer.Length)
      ensures Valid()
      ensures windowWidth == width && windowHeight == height && colorBuffer == buffer
    {
      windowWidth := width;
      windowHeight := height;
      colorBuffer := buffer;
    }

    /** draw_pixel: one combined bounds test, then the write. */
    method DrawPixel(x: int, y: int, color: uint32)
      requires Valid()
      modifies colorBuffer
      ensures colorBuffer[..] == Plot(old(colorBuffer[..]), windowWidth, windowHeight, x, y, color)
    {
      if 0 <= x && x < windowWidth && 0 <= y && y < windowHeight {
        IdxInRange(windowWidth, windowHeight, x, y);
        colorBuffer[windowWidth * y + x] := color;
      }
    }

    /** draw_grid over the globals. */
    method DrawGrid(color: uint32)
      requires Valid()
      modifies colorBuffer
      ensures Draw.GridDrawn(old(colorBuffer[..]), colorBuffer[..], windowWidth, windowHeight, color)
    {
      Draw.DrawGrid(color, windowWidth, windowHeight, colorBuffer);
    }

    /** draw_rectangle over the globals. */
    method DrawRectangle(x: int, y: int, w: int, h: int, color: uint32)
      requires Valid()
      modifies colorBuffer
      ensures Draw.RectangleDrawn(old(colorBuffer[..]), colorBuffer[..], x, y, w, h, color, windowWidth, windowHeight)
    {
      Draw.DrawRectangle(x, y, w, h, color, windowWidth, windowHeight, colorBuffer);
    }

    /** clear_color_buffer: every window cell takes the colour, row by row. */
    method ClearColorBuffer(color: uint32)
      requires Valid()
      modifies colorBuffer
      ensures forall col, row :: InWindow(windowWidth, windowHeight, col, row) ==>
        Cell(colorBuffer[..], windowWidth, windowHeight, col, row) == color
      ensures forall k :: windowWidth * windowHeight <= k < colorBuffer.Length ==> colorBuffer[k] == old(colorBuffer[k])
    {
      ghost var s0 := colorBuffer[..];
      var y := 0;
      while y < windowHeight
        invariant 0 <= y <= windowHeight
        invariant ClearedAbove(s0, colorBuffer[..], windowWidth, windowHeight, y, color)
      {
        ghost var before := colorBuffer[..];
        ClearRow(y, color);
        ClearStep(s0, before, colorBuffer[..], windowWidth, windowHeight, y, color);
        y := y + 1;
      }
    }

    /** The inner loop of clear_color_buffer: row y, left to right. */
    method ClearRow(y: int, color: uint32)
      requires Valid() && 0 <= y < windowHeight
      modifies colorBuffer
      ensures forall col, row :: InWindow(windowWidth, windowHeight, col, row) ==>
        Cell(colorBuffer[..], windowWidth, windowHeight, col, row) ==
          if row == y then color else Cell(old(colorBuffer[..]), windowWidth, windowHeight, col, row)
      ensures forall k :: windowWidth * windowHeight <= k < colorBuffer.Length ==> colorBuffer[k] == old(colorBuffer[k])
    {
      ghost var s0 := colorBuffer[..];
      var x := 0;
      while x < windowWidth
        invariant 0 <= x <= windowWidth
        invariant LinePrefix(s0, colorBuffer[..], windowWidth, windowHeight, y, true, x, color)
      {
        LinePrefixStep(s0, colorBuffer[..], windowWidth, windowHeight, y, true, x, color);
        SetCell(colorBuffer, windowWidth, windowHeight, x, y, color);
        x := x + 1;
      }
      LinePrefixDone(s0, colorBuffer[..], windowWidth, windowHeight, y, true, color);
    }
  }
}
