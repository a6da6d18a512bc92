/**
 * src-tr/display.c: the triangle-rasterization demo's own framebuffer of
 * SCREEN_WIDTH * SCREEN_HEIGHT colour words. SCREEN_WIDTH and SCREEN_HEIGHT
 * come from a header that is not part of this model, so they are the
 * constant fields of the FrameBuffer object, fixed when it is created.
 */
module FrameBuffer {
  import opened Geometry
  import opened Raster

  /** C `uint16_t`, the type of clear_framebuffer's loop counter. */
  type uint16 = x: int | 0 <= x < 0x1_0000

  /**
   * The conversion of a C `int` argument to a `uint8_t` parameter: the value
   * modulo 256, so negative or large coordinates wrap into [0, 256).
   */
  function ToUint8(n: int): (r: uint8)
    ensures 0 <= n < 0x100 ==> r == n
    ensures (r - n) % 0x100 == 0
  {
    n % 0x100
  }

  /** Two coordinates that differ by a multiple of 256 reach the same uint8_t. */
  lemma ToUint8Wraps(n: int, k: int)
    ensures ToUint8(n + 0x100 * k) == ToUint8(n)
  {
    assert (n + 0x100 * k) - ToUint8(n) == 0x100 * ((n - ToUint8(n)) / 0x100 + k);
  }

  class FrameBuffer {
    const screenWidth: int
    const screenHeight: int
    const framebuffer: array<uint32>

    /** The buffer has exactly SCREEN_WIDTH * SCREEN_HEIGHT cells. */
    ghost predicate Valid()
    {
      0 <= screenWidth && 0 <= screenHeight && framebuffer.Length == screenWidth * screenHeight
    }

    /**
     * The allocation in create_window: one uint32_t per screen cell. The
     * initial contents are unspecified in C; here they are whatever Dafny
     * initialises them to, and no property depends on them.
     */
    constructor (width: int, height: int)
      requires 0 <= width && 0 <= height
      ensures Valid() && screenWidth == width && screenHeight == height
      ensures fresh(framebuffer)
    {
      screenWidth := width;
      screenHeight := height;
      framebuffer := new uint32[width * height];
    }

    /**
     * draw_pixel with `uint8_t` coordinates: the `x < 0` and `y < 0` tests
     * cannot hold, so the write happens exactly when x and y are below the
     * screen size, and it touches exactly that one cell.
     */
    method DrawPixel(x: uint8, y: uint8, color: uint32)
      requires Valid()
      modifies framebuffer
      ensures framebuffer[..] == Plot(old(framebuffer[..]), screenWidth, screenHeight, x, y, color)
      ensures x < screenWidth && y < screenHeight ==> framebuffer[screenWidth * y + x] == color
      ensures forall k :: 0 <= k < framebuffer.Length && k != screenWidth * y + x ==> framebuffer[k] == old(framebuffer[k])
    {
      if x < 0 || x >= screenWidth || y < 0 || y >= screenHeight {
        return;
      }
      IdxInRange(screenWidth, screenHeight, x, y);
      framebuffer[screenWidth * y + x] := color;
    }

    /**
     * clear_framebuffer: a `uint16_t` counter runs over every cell. The
     * counter only reaches the bound when the cell count fits in 16 bits;
     * otherwise it wraps to 0 before the loop can end, so that is required.
     */
    method ClearFramebuffer(color: uint32)
      requires Valid() && screenWidth * screenHeight <= 0xFFFF
      modifies framebuffer
      ensures forall k :: 0 <= k < framebuffer.Length ==> framebuffer[k] == color
    {
      var i: uint16 := 0;
      while i < screenWidth * screenHeight
        invariant i <= screenWidth * screenHeight
        invariant forall k :: 0 <= k < i ==> framebuffer[k] == color
        decreases screenWidth * screenHeight - i
      {
        framebuffer[i] := color;
        i := (i + 1) % 0x1_0000;
      }
    }
  }
}
