/**
 * src/save.c: flip_pixels_vertically, which turns a captured image upside
 * down in place before it is written out. The buffer is `height` rows of
 * `pitch` bytes; rows y and height - 1 - y are exchanged through a
 * temporary row for every y below height / 2. The `width` argument is not
 * used, and a failed allocation of the temporary row (a parameter here)
 * leaves the buffer as it was.
 */
module Save {
  import opened Geometry
  import opened Raster

  /** C's `n / 2` on int: the quotient truncated toward zero. */
  function Half(n: int): (r: int)
    ensures n >= 0 ==> r == n / 2
    ensures n < 0 ==> r <= 0
    ensures r == Trunc(n as real / 2.0)
  {
    if n >= 0 then n / 2 else -((-n) / 2)
  }

  /** The buffer holds `height` rows of `pitch` bytes (nothing is required of a non-positive height). */
  predicate Rows(height: int, pitch: int, len: int) {
    0 <= pitch && (0 < height ==> pitch * height <= len)
  }

  /** The byte a flipped buffer holds at address k of the first height * pitch bytes. */
  function FlippedAt(s: seq<uint8>, height: int, pitch: int, k: int): uint8
    requires 0 < height && Rows(height, pitch, |s|) && 0 <= k < pitch * height
  {
    CellOfIdx(pitch, height, k);
    IdxInRange(pitch, height, k % pitch, height - 1 - k / pitch);
    s[Idx(pitch, k % pitch, height - 1 - k / pitch)]
  }

  /** The image upside down: row r takes row height - 1 - r, the bytes past the rows stay. */
  function Flip(s: seq<uint8>, height: int, pitch: int): (r: seq<uint8>)
    requires Rows(height, pitch, |s|)
    ensures |r| == |s|
  {
    if height <= 0 then s
    else seq(|s|, k requires 0 <= k < |s| => if k < pitch * height then FlippedAt(s, height, pitch, k) else s[k])
  }

  /**
   * Flip cell by cell: byte `col` of row `row` comes from the same byte of
   * row height - 1 - row (so the middle row of an odd height stays put), and
   * no byte past the height * pitch bytes changes.
   */
  lemma FlipCells(s: seq<uint8>, height: int, pitch: int)
    requires 0 <= height && Rows(height, pitch, |s|)
    ensures forall col, row :: InWindow(pitch, height, col, row) ==>
      Cell(Flip(s, height, pitch), pitch, height, col, row) == Cell(s, pitch, height, col, height - 1 - row)
    ensures forall k :: pitch * height <= k < |s| ==> Flip(s, height, pitch)[k] == s[k]
  {
    forall col, row | InWindow(pitch, height, col, row)
      ensures Cell(Flip(s, height, pitch), pitch, height, col, row) == Cell(s, pitch, height, col, height - 1 - row)
    {
      IdxInRange(pitch, height, col, row);
      IdxDivMod(pitch, col, row);
    }
  }

  /** Flipping twice restores the buffer. */
  lemma FlipInvolution(s: seq<uint8>, height: int, pitch: int)
    requires Rows(height, pitch, |s|)
    ensures Flip(Flip(s, height, pitch), height, pitch) == s
  {
    if height > 0 {
      var f := Flip(s, height, pitch);
      FlipCells(s, height, pitch);
      FlipCells(f, height, pitch);
      CellsDetermine(Flip(f, height, pitch), s, pitch, height);
    }
  }

  /**
   * A one-row memcpy: row `dstRow` of `dst` (rows of `pitch` bytes) takes
   * the bytes of row `srcRow` of `src`. Source and destination are
   * different rows when they are the same buffer, as memcpy requires.
   */
  method CopyRow(src: array<uint8>, srcHeight: int, srcRow: int, dst: array<uint8>, dstHeight: int, dstRow: int, pitch: int)
    requires Screen(pitch, srcHeight, src.Length) && 0 <= srcRow < srcHeight
    requires Screen(pitch, dstHeight, dst.Length) && 0 <= dstRow < dstHeight
    requires src == dst ==> srcHeight == dstHeight && srcRow != dstRow
    modifies dst
    ensures forall col, row :: InWindow(pitch, dstHeight, col, row) ==>
      Cell(dst[..], pitch, dstHeight, col, row) ==
        if row == dstRow then Cell(old(src[..]), pitch, srcHeight, col, srcRow) else Cell(old(dst[..]), pitch, dstHeight, col, row)
    ensures forall k :: pitch * dstHeight <= k < dst.Length ==> dst[k] == old(dst[k])
  {
    ghost var s0, d0 := src[..], dst[..];
    var c := 0;
    while c < pitch
      invariant 0 <= c <= pitch
      invariant forall col, row :: InWindow(pitch, dstHeight, col, row) ==>
        Cell(dst[..], pitch, dstHeight, col, row) ==
          if row == dstRow && col < c then Cell(s0, pitch, srcHeight, col, srcRow) else Cell(d0, pitch, dstHeight, col, row)
      invariant forall k :: pitch * dstHeight <= k < dst.Length ==> dst[k] == d0[k]
      invariant src != dst ==> src[..] == s0
    {
      IdxInRange(pitch, srcHeight, c, srcRow);
      assert Cell(src[..], pitch, srcHeight, c, srcRow) == Cell(s0, pitch, srcHeight, c, srcRow);
      var b := src[Idx(pitch, c, srcRow)];
      SetCell(dst, pitch, dstHeight, c, dstRow, b);
      c := c + 1;
    }
  }

  /** One iteration of the loop: rows r1 and r2 exchanged through the temporary row. */
  method SwapRows(pixels: array<uint8>, tempRow: array<uint8>, height: int, pitch: int, r1: int, r2: int)
    requires Screen(pitch, height, pixels.Length) && tempRow.Length == pitch && tempRow != pixels
    requires 0 <= r1 < height && 0 <= r2 < height && r1 != r2
    modifies pixels, tempRow
    ensures forall col, row :: InWindow(pitch, height, col, row) ==>
      Cell(pixels[..], pitch, height, col, row) ==
        if row == r1 then Cell(old(pixels[..]), pitch, height, col, r2)
        else if row == r2 then Cell(old(pixels[..]), pitch, height, col, r1)
        else Cell(old(pixels[..]), pitch, height, col, row)
    ensures forall k :: pitch * height <= k < pixels.Length ==> pixels[k] == old(pixels[k])
  {
    CopyRow(pixels, height, r1, tempRow, 1, 0, pitch);
    CopyRow(pixels, height, r2, pixels, height, r1, pitch);
    CopyRow(tempRow, 1, 0, pixels, height, r2, pitch);
  }

  /**
   * The row of the original image that row `row` holds after the first `y`
   * exchanges: the outer `y` rows at each end are flipped, the band between
   * them is untouched.
   */
  function SourceRow(height: int, y: int, row: int): (r: int)
    requires 0 <= row < height
    ensures 0 <= r < height
  {
    if row < y || height - 1 - y < row then height - 1 - row else row
  }

  /**
   * The buffer after the first `y` exchanges: every row holds row
   * SourceRow(height, y, row) of the original, and the bytes past the rows
   * are the original's.
   */
  ghost predicate FlippedBand(s0: seq<uint8>, s: seq<uint8>, height: int, pitch: int, y: int)
    requires |s0| == |s| && Screen(pitch, height, |s0|)
  {
    (forall col, row :: InWindow(pitch, height, col, row) ==>
       Cell(s, pitch, height, col, row) == Cell(s0, pitch, height, col, SourceRow(height, y, row)))
    && (forall k :: pitch * height <= k < |s| ==> s[k] == s0[k])
  }

  /** Exchanging rows y and height - 1 - y extends the flipped band by one row at each end. */
  lemma FlipStep(s0: seq<uint8>, before: seq<uint8>, after: seq<uint8>, height: int, pitch: int, y: int)
    requires |s0| == |before| == |after| && Screen(pitch, height, |s0|) && 0 <= y < height - 1 - y
    requires FlippedBand(s0, before, height, pitch, y)
    requires forall col, row :: InWindow(pitch, height, col, row) ==>
      Cell(after, pitch, height, col, row) ==
        if row == y then Cell(before, pitch, height, col, height - 1 - y)
        else if row == height - 1 - y then Cell(before, pitch, height, col, y)
        else Cell(before, pitch, height, col, row)
    requires forall k :: pitch * height <= k < |after| ==> after[k] == before[k]
    ensures FlippedBand(s0, after, height, pitch, y + 1)
  {
    forall col, row | InWindow(pitch, height, col, row)
      ensures Cell(after, pitch, height, col, row) == Cell(s0, pitch, height, col, SourceRow(height, y + 1, row))
    {
      if row == y {
        assert SourceRow(height, y, height - 1 - y) == height - 1 - y;
      } else if row == height - 1 - y {
        assert SourceRow(height, y, y) == y;
      } else {
        assert SourceRow(height, y, row) == SourceRow(height, y + 1, row);
      }
    }
  }

  /** Once the band covers half the rows, the buffer is the flipped image. */
  lemma FlipDone(s0: seq<uint8>, s: seq<uint8>, height: int, pitch: int)
    requires |s0| == |s| && Screen(pitch, height, |s0|) && 0 < height
    requires FlippedBand(s0, s, height, pitch, Half(height))
    ensures s == Flip(s0, height, pitch)
  {
    var y := Half(height);
    assert forall row :: 0 <= row < height ==> SourceRow(height, y, row) == height - 1 - row;
    FlipCells(s0, height, pitch);
    CellsDetermine(s, Flip(s0, height, pitch), pitch, height);
  }

  /**
   * flip_pixels_vertically(pixels, width, height, pitch): with the
   * temporary row allocated the buffer ends flipped, otherwise unchanged.
   */
  method FlipPixelsVertically(pixels: array<uint8>, width: int, height: int, pitch: int, allocOk: bool)
    requires Rows(height, pitch, pixels.Length)
    modifies pixels
    ensures pixels[..] == if allocOk then Flip(old(pixels[..]), height, pitch) else old(pixels[..])
  {
    if !allocOk {
      return;
    }
    var tempRow := new uint8[pitch];
    ghost var s0 := pixels[..];
    if height <= 0 {
      // Half(height) <= 0: the loop does not run.
      assert Flip(s0, height, pitch) == s0;
      return;
    }
    var y := 0;
    while y < Half(height)
      invariant 0 <= y <= Half(height)
      invariant FlippedBand(s0, pixels[..], height, pitch, y)
    {
      ghost var before := pixels[..];
      SwapRows(pixels, tempRow, height, pitch, y, height - 1 - y);
      FlipStep(s0, before, pixels[..], height, pitch, y);
      y := y + 1;
    }
    FlipDone(s0, pixels[..], height, pitch);
  }
}
