/**
 * The screen-cell view shared by the pixel writers: a row-major buffer of
 * `w * h` cells where cell (x, y) lives at index `w * y + x`, and the
 * bounds-checked single-pixel write that every drawing routine is built on.
 */
module Raster {
  import opened Geometry

  /** The row-major address of cell (x, y) in a buffer `w` cells wide. */
  function Idx(w: int, x: int, y: int): int {
    w * y + x
  }

  predicate InWindow(w: int, h: int, x: int, y: int) {
    0 <= x < w && 0 <= y < h
  }

  /** A buffer large enough for a `w` by `h` window. */
  predicate Screen(w: int, h: int, len: int) {
    0 <= w && 0 <= h && w * h <= len
  }

  /** Every cell of the window has an address inside the first `w * h` entries. */
  lemma IdxInRange(w: int, h: int, x: int, y: int)
    requires InWindow(w, h, x, y)
    ensures 0 <= Idx(w, x, y) < w * h
  {
    assert w * y <= w * (h - 1) by {
      MulMonotone(w, y, h - 1);
    }
    assert w * (h - 1) == w * h - w;
  }

  lemma MulMonotone(a: int, b: int, c: int)
    requires 0 <= a && b <= c
    ensures a * b <= a * c
  {
    assert a * c - a * b == a * (c - b);
    assert 0 <= a * (c - b);
  }

  lemma MulSucc(a: int, b: int)
    ensures a * (b + 1) == a * b + a
  {
  }

  /** Distinct cells of one row width have distinct addresses. */
  lemma {:induction false} IdxInjective(w: int, x1: int, y1: int, x2: int, y2: int)
    requires 0 <= x1 < w && 0 <= x2 < w
    requires Idx(w, x1, y1) == Idx(w, x2, y2)
    ensures x1 == x2 && y1 == y2
  {
    if y1 < y2 {
      MulMonotone(w, y1 + 1, y2);
      MulSucc(w, y1);
      assert false;
    } else if y2 < y1 {
      MulMonotone(w, y2 + 1, y1);
      MulSucc(w, y2);
      assert false;
    }
  }

  /** Address arithmetic inverts: the row is the quotient, the column the remainder. */
  lemma IdxDivMod(w: int, x: int, y: int)
    requires 0 <= x < w
    ensures Idx(w, x, y) / w == y && Idx(w, x, y) % w == x
  {
    var k := Idx(w, x, y);
    IdxInjective(w, k % w, k / w, x, y);
  }

  /** Every address below `w * h` belongs to exactly one window cell. */
  lemma CellOfIdx(w: int, h: int, k: int)
    requires 0 <= k < w * h && 0 < w
    ensures InWindow(w, h, k % w, k / w) && Idx(w, k % w, k / w) == k
  {
    if k / w >= h {
      MulMonotone(w, h, k / w);
    }
  }

  /** The content of window cell (col, row). */
  function Cell<T>(s: seq<T>, w: int, h: int, col: int, row: int): T
    requires Screen(w, h, |s|) && InWindow(w, h, col, row)
  {
    IdxInRange(w, h, col, row);
    s[Idx(w, col, row)]
  }

  /**
   * A bounds-checked write of one cell, on a buffer value: the cell (x, y)
   * takes `c` when it lies in the window, and nothing changes otherwise.
   */
  function Plot<T>(s: seq<T>, w: int, h: int, x: int, y: int, c: T): (r: seq<T>)
    requires Screen(w, h, |s|)
    ensures |r| == |s|
    ensures InWindow(w, h, x, y) ==> 0 <= Idx(w, x, y) < w * h && r[Idx(w, x, y)] == c
    ensures !InWindow(w, h, x, y) ==> r == s
    ensures forall k :: 0 <= k < |r| && k != Idx(w, x, y) ==> r[k] == s[k]
  {
    if InWindow(w, h, x, y) then
      var i := Idx(w, x, y);
      IdxInRange(w, h, x, y);
      s[i := c]
    else
      s
  }

  /**
   * Plot seen cell by cell: only the addressed cell of the window may
   * change, and nothing past the window's `w * h` cells changes.
   */
  lemma PlotCells<T>(s: seq<T>, w: int, h: int, x: int, y: int, c: T)
    requires Screen(w, h, |s|)
    ensures forall col, row :: InWindow(w, h, col, row) ==>
      Cell(Plot(s, w, h, x, y, c), w, h, col, row) == if col == x && row == y then c else Cell(s, w, h, col, row)
    ensures forall k :: w * h <= k < |s| ==> Plot(s, w, h, x, y, c)[k] == s[k]
  {
    var r := Plot(s, w, h, x, y, c);
    forall col, row | InWindow(w, h, col, row)
      ensures Cell(r, w, h, col, row) == if col == x && row == y then c else Cell(s, w, h, col, row)
    {
      IdxInRange(w, h, col, row);
      var i := Idx(w, col, row);
      assert Cell(r, w, h, col, row) == r[i] && Cell(s, w, h, col, row) == s[i];
      if InWindow(w, h, x, y) && i == Idx(w, x, y) {
        IdxInjective(w, col, row, x, y);
      }
    }
    forall k | w * h <= k < |s|
      ensures r[k] == s[k]
    {
      if InWindow(w, h, x, y) {
        IdxInRange(w, h, x, y);
      }
    }
  }

  /** Two buffers with the same cells and the same entries past the window are equal. */
  lemma CellsDetermine<T>(a: seq<T>, b: seq<T>, w: int, h: int)
    requires |a| == |b| && Screen(w, h, |a|)
    requires forall col, row :: InWindow(w, h, col, row) ==> Cell(a, w, h, col, row) == Cell(b, w, h, col, row)
    requires forall k :: w * h <= k < |a| ==> a[k] == b[k]
    ensures a == b
  {
    forall k | 0 <= k < |a|
      ensures a[k] == b[k]
    {
      if k < w * h {
        CellOfIdx(w, h, k);
        assert Cell(a, w, h, k % w, k / w) == a[k] && Cell(b, w, h, k % w, k / w) == b[k];
      }
    }
  }

  /**
   * The first `i` cells of one line of the window hold `v`: row `at` from
   * column 0 when `horizontal`, otherwise column `at` from row 0. Every other
   * cell and every entry past the window is as in `s0`.
   */
  ghost predicate LinePrefix<T>(s0: seq<T>, s: seq<T>, w: int, h: int, at: int, horizontal: bool, i: int, v: T)
    requires |s0| == |s| && Screen(w, h, |s0|)
  {
    (forall col, row :: InWindow(w, h, col, row) ==>
       Cell(s, w, h, col, row) ==
         if (if horizontal then row == at && col < i else col == at && row < i) then v else Cell(s0, w, h, col, row))
    && (forall k :: w * h <= k < |s| ==> s[k] == s0[k])
  }

  /** Writing the next cell of the line extends the prefix by one. */
  lemma LinePrefixStep<T>(s0: seq<T>, before: seq<T>, w: int, h: int, at: int, horizontal: bool, i: int, v: T)
    requires |s0| == |before| && Screen(w, h, |s0|) && 0 <= i && 0 <= at
    requires if horizontal then i < w && at < h else at < w && i < h
    requires LinePrefix(s0, before, w, h, at, horizontal, i, v)
    ensures var after := if horizontal then Plot(before, w, h, i, at, v) else Plot(before, w, h, at, i, v);
      LinePrefix(s0, after, w, h, at, horizontal, i + 1, v)
  {
    if horizontal {
      PlotCells(before, w, h, i, at, v);
    } else {
      PlotCells(before, w, h, at, i, v);
    }
  }

  /** A prefix that covers the whole line: exactly that line holds `v`. */
  lemma LinePrefixDone<T>(s0: seq<T>, s: seq<T>, w: int, h: int, at: int, horizontal: bool, v: T)
    requires |s0| == |s| && Screen(w, h, |s0|)
    requires LinePrefix(s0, s, w, h, at, horizontal, if horizontal then w else h, v)
    ensures forall col, row :: InWindow(w, h, col, row) ==>
      Cell(s, w, h, col, row) == if (if horizontal then row == at else col == at) then v else Cell(s0, w, h, col, row)
    ensures forall k :: w * h <= k < |s| ==> s[k] == s0[k]
  {
  }

  /** One in-window cell write to a buffer array, seen through Plot and cell by cell. */
  method SetCell<T>(buffer: array<T>, w: int, h: int, col: int, row: int, value: T)
    requires Screen(w, h, buffer.Length) && InWindow(w, h, col, row)
    modifies buffer
    ensures buffer[..] == Plot(old(buffer[..]), w, h, col, row, value)
    ensures forall c, r :: InWindow(w, h, c, r) ==>
      Cell(buffer[..], w, h, c, r) == if c == col && r == row then value else Cell(old(buffer[..]), w, h, c, r)
    ensures forall k :: w * h <= k < buffer.Length ==> buffer[k] == old(buffer[k])
  {
    PlotCells(buffer[..], w, h, col, row, value);
    IdxInRange(w, h, col, row);
    buffer[Idx(w, col, row)] := value;
  }
}
