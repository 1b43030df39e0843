/** Small failure-compatible wrapper used where the source passes a pointer that may be null. */
module Wrappers {
  datatype Option<+T> = None | Some(value: T)
}

/**
 * Pixel buffers addressed the way the host layer addresses them: a flat
 * array of 32-bit pixels in which row r starts at index r * stride.
 * The copy loops of drawBitmap, drawTextAt and drawScreen all have the
 * same shape (an outer row loop moving a `line` pointer by the stride, an
 * inner column loop), so they are modelled by one loop, CopyRect, whose
 * result is the specification function Blitted.
 */
module Raster {

  /** A 32-bit ARGB (or RGBA) pixel as stored in a window buffer or an Android bitmap. */
  type Pixel = bv32

  /** ANativeWindow_Buffer: the locked surface of a native window, `stride` pixels per row. */
  class WindowBuffer {
    const bits: array<Pixel>
    const stride: nat

    constructor (bits: array<Pixel>, stride: nat)
      ensures this.bits == bits && this.stride == stride
    {
      this.bits := bits;
      this.stride := stride;
    }
  }

  /** Buffer pixel `at` exists and holds pixel `from` of the source. */
  predicate HoldsPixel(buf: seq<Pixel>, at: int, src: seq<Pixel>, from: int) {
    0 <= at < |buf| && 0 <= from < |src| && buf[at] == src[from]
  }

  /** Buffer index i lies in the w x h rectangle whose top-left corner is column x of row y. */
  predicate InRect(i: int, stride: nat, x: nat, y: nat, w: nat, h: nat) {
    0 <= i && stride > 0 && y <= i / stride < y + h && x <= i % stride < x + w
  }

  /**
   * Every destination pixel of the rectangle lies inside a buffer of `len`
   * pixels, and no row of the rectangle runs past the end of its buffer row.
   */
  predicate DestFits(len: nat, stride: nat, x: nat, y: nat, w: nat, h: nat) {
    x + w <= stride && (w == 0 || h == 0 || (y + h - 1) * stride + x + w <= len)
  }

  /** Every pixel read from a source of row width `width` lies inside its `len` pixels. */
  predicate SourceFits(len: nat, width: nat, u: nat, v: nat, w: nat, h: nat) {
    w == 0 || h == 0 || width * (v + h - 1) + u + w <= len
  }

  /** Index of the source pixel (u + dx, v + dy) in a source whose rows are `width` pixels long. */
  function SourceIndex(width: nat, u: nat, v: nat, dx: nat, dy: nat): nat {
    width * (v + dy) + u + dx
  }

  lemma MulMonotone(a: nat, b: nat, k: nat)
    requires a <= b
    ensures a * k <= b * k
  {
  }

  lemma SourceIndexInBounds(len: nat, width: nat, u: nat, v: nat, w: nat, h: nat, dx: nat, dy: nat)
    requires SourceFits(len, width, u, v, w, h) && dx < w && dy < h
    ensures SourceIndex(width, u, v, dx, dy) < len
  {
    MulMonotone(v + dy, v + h - 1, width);
  }

  lemma DestIndexInBounds(len: nat, stride: nat, x: nat, y: nat, w: nat, h: nat, dx: nat, dy: nat)
    requires DestFits(len, stride, x, y, w, h) && dx < w && dy < h
    ensures (y + dy) * stride + x + dx < len
  {
    MulMonotone(y + dy, y + h - 1, stride);
  }

  /** The source pixel that lands at offset (dx, dy) of the rectangle. */
  function SourcePixel(src: seq<Pixel>, width: nat, u: nat, v: nat, w: nat, h: nat, dx: nat, dy: nat): Pixel
    requires SourceFits(|src|, width, u, v, w, h) && dx < w && dy < h
  {
    SourceIndexInBounds(|src|, width, u, v, w, h, dx, dy);
    src[SourceIndex(width, u, v, dx, dy)]
  }

  /**
   * The buffer `dst` after the w x h block of `src` at (u, v) has been
   * copied to (x, y): pixels of the destination rectangle take their source
   * pixel, every other pixel keeps its value.
   */
  function Blitted(dst: seq<Pixel>, stride: nat, x: nat, y: nat,
                   src: seq<Pixel>, width: nat, u: nat, v: nat, w: nat, h: nat): (r: seq<Pixel>)
    requires SourceFits(|src|, width, u, v, w, h)
    ensures |r| == |dst|
  {
    seq(|dst|, i requires 0 <= i < |dst| =>
      if InRect(i, stride, x, y, w, h)
      then SourcePixel(src, width, u, v, w, h, i % stride - x, i / stride - y)
      else dst[i])
  }

  /** Row and column of a buffer index are recovered by division by the stride. */
  lemma {:induction false} RowColOf(row: nat, col: nat, stride: nat)
    requires col < stride
    ensures (row * stride + col) / stride == row
    ensures (row * stride + col) % stride == col
  {
    var i := row * stride + col;
    var q, m := i / stride, i % stride;
    assert i == q * stride + m;
    if q > row {
      MulMonotone(row + 1, q, stride);
      assert false;
    } else if q < row {
      MulMonotone(q + 1, row, stride);
      assert false;
    }
  }

  /** Inside the destination rectangle the result holds exactly the corresponding source pixel. */
  lemma BlittedInside(dst: seq<Pixel>, stride: nat, x: nat, y: nat,
                      src: seq<Pixel>, width: nat, u: nat, v: nat, w: nat, h: nat, dx: nat, dy: nat)
    requires DestFits(|dst|, stride, x, y, w, h) && SourceFits(|src|, width, u, v, w, h)
    requires dx < w && dy < h
    ensures HoldsPixel(Blitted(dst, stride, x, y, src, width, u, v, w, h), (y + dy) * stride + x + dx,
                       src, width * (v + dy) + u + dx)
  {
    DestIndexInBounds(|dst|, stride, x, y, w, h, dx, dy);
    SourceIndexInBounds(|src|, width, u, v, w, h, dx, dy);
    var i := (y + dy) * stride + x + dx;
    assert i / stride - y == dy && i % stride - x == dx by {
      RowColOf(y + dy, x + dx, stride);
    }
    BlittedAt(dst, stride, x, y, src, width, u, v, w, h, i);
  }

  /** The definition of Blitted at one index. */
  lemma BlittedAt(dst: seq<Pixel>, stride: nat, x: nat, y: nat,
                  src: seq<Pixel>, width: nat, u: nat, v: nat, w: nat, h: nat, i: nat)
    requires SourceFits(|src|, width, u, v, w, h) && i < |dst|
    ensures Blitted(dst, stride, x, y, src, width, u, v, w, h)[i]
            == if InRect(i, stride, x, y, w, h)
               then SourcePixel(src, width, u, v, w, h, i % stride - x, i / stride - y)
               else dst[i]
  {
  }

  /** Outside the destination rectangle (row and column given explicitly) nothing changes. */
  lemma BlittedOutside(dst: seq<Pixel>, stride: nat, x: nat, y: nat,
                       src: seq<Pixel>, width: nat, u: nat, v: nat, w: nat, h: nat, row: nat, col: nat)
    requires SourceFits(|src|, width, u, v, w, h)
    requires col < stride && row * stride + col < |dst|
    requires !(y <= row < y + h && x <= col < x + w)
    ensures Blitted(dst, stride, x, y, src, width, u, v, w, h)[row * stride + col] == dst[row * stride + col]
  {
    RowColOf(row, col, stride);
  }

  /** An empty rectangle writes nothing. */
  lemma BlittedEmpty(dst: seq<Pixel>, stride: nat, x: nat, y: nat,
                     src: seq<Pixel>, width: nat, u: nat, v: nat, w: nat, h: nat)
    requires w == 0 || h == 0
    ensures Blitted(dst, stride, x, y, src, width, u, v, w, h) == dst
  {
  }

  lemma SourceFitsRows(len: nat, width: nat, u: nat, v: nat, w: nat, h: nat, row: nat)
    requires SourceFits(len, width, u, v, w, h) && row < h
    ensures SourceFits(len, width, u, v, w, row) && SourceFits(len, width, u, v, w, row + 1)
    ensures SourceFits(len, width, u, v + row, w, 1)
  {
    if w > 0 && row > 0 {
      MulMonotone(v + row - 1, v + h - 1, width);
    }
    MulMonotone(v + row, v + h - 1, width);
  }

  /** Copying one more pixel of a single-row rectangle is one array update. */
  lemma ExtendRow(d: seq<Pixel>, stride: nat, x: nat, r: nat, src: seq<Pixel>, width: nat, u: nat, vr: nat, c: nat)
    requires x + c < stride && r * stride + x + c < |d|
    requires width * vr + u + c < |src|
    ensures SourceFits(|src|, width, u, vr, c, 1) && SourceFits(|src|, width, u, vr, c + 1, 1)
    ensures Blitted(d, stride, x, r, src, width, u, vr, c + 1, 1)
            == Blitted(d, stride, x, r, src, width, u, vr, c, 1)[r * stride + x + c := src[width * vr + u + c]]
  {
    var j := r * stride + x + c;
    var a := Blitted(d, stride, x, r, src, width, u, vr, c + 1, 1);
    var b := Blitted(d, stride, x, r, src, width, u, vr, c, 1)[j := src[width * vr + u + c]];
    assert j / stride == r && j % stride == x + c by {
      RowColOf(r, x + c, stride);
    }
    forall i | 0 <= i < |d|
      ensures a[i] == b[i]
    {
      BlittedAt(d, stride, x, r, src, width, u, vr, c + 1, 1, i);
      BlittedAt(d, stride, x, r, src, width, u, vr, c, 1, i);
      if i / stride == r && i % stride == x + c {
        SameRowCol(i, j, stride);
      }
    }
  }

  /** Two indices with the same row and column are equal. */
  lemma SameRowCol(i: nat, j: nat, stride: nat)
    requires stride > 0 && i / stride == j / stride && i % stride == j % stride
    ensures i == j
  {
  }

  /** A w x row rectangle followed by the single row below it is the w x (row + 1) rectangle. */
  lemma AppendRow(d: seq<Pixel>, stride: nat, x: nat, y: nat, src: seq<Pixel>, width: nat, u: nat, v: nat, w: nat, h: nat, row: nat)
    requires SourceFits(|src|, width, u, v, w, h) && row < h
    ensures SourceFits(|src|, width, u, v, w, row) && SourceFits(|src|, width, u, v, w, row + 1)
    ensures SourceFits(|src|, width, u, v + row, w, 1)
    ensures Blitted(Blitted(d, stride, x, y, src, width, u, v, w, row), stride, x, y + row, src, width, u, v + row, w, 1)
            == Blitted(d, stride, x, y, src, width, u, v, w, row + 1)
  {
    SourceFitsRows(|src|, width, u, v, w, h, row);
  }

  /** Each row of a rectangle that fits is a single-row rectangle that fits. */
  lemma DestFitsRow(len: nat, stride: nat, x: nat, y: nat, w: nat, h: nat, row: nat)
    requires DestFits(len, stride, x, y, w, h) && row < h
    ensures DestFits(len, stride, x, y + row, w, 1)
  {
    MulMonotone(y + row, y + h - 1, stride);
  }

  /**
   * The copy loop: for every row of the rectangle, `line` is the offset of
   * the destination row, and CopyRow copies its columns.
   */
  method CopyRect(dst: array<Pixel>, stride: nat, x: nat, y: nat,
                  src: seq<Pixel>, width: nat, u: nat, v: nat, w: nat, h: nat)
    requires DestFits(dst.Length, stride, x, y, w, h)
    requires SourceFits(|src|, width, u, v, w, h)
    modifies dst
    ensures dst[..] == Blitted(old(dst[..]), stride, x, y, src, width, u, v, w, h)
  {
    ghost var before := dst[..];
    var line := y * stride;
    var row := 0;
    while row < h
      invariant 0 <= row <= h
      invariant line == (y + row) * stride
      invariant SourceFits(|src|, width, u, v, w, row)
      invariant dst[..] == Blitted(before, stride, x, y, src, width, u, v, w, row)
    {
      AppendRow(before, stride, x, y, src, width, u, v, w, h, row);
      DestFitsRow(dst.Length, stride, x, y, w, h, row);
      CopyRow(dst, line, stride, x, y + row, src, width, u, row + v, w);
      line := line + stride;
      row := row + 1;
    }
  }

  /** The inner loop: the w pixels of source row vr go to the columns from x on of the row at offset `line`. */
  method CopyRow(dst: array<Pixel>, line: nat, stride: nat, x: nat, r: nat,
                 src: seq<Pixel>, width: nat, u: nat, vr: nat, w: nat)
    requires line == r * stride
    requires DestFits(dst.Length, stride, x, r, w, 1)
    requires SourceFits(|src|, width, u, vr, w, 1)
    modifies dst
    ensures dst[..] == Blitted(old(dst[..]), stride, x, r, src, width, u, vr, w, 1)
  {
    ghost var done := dst[..];
    var col := 0;
    while col < w
      invariant 0 <= col <= w
      invariant SourceFits(|src|, width, u, vr, col, 1)
      invariant dst[..] == Blitted(done, stride, x, r, src, width, u, vr, col, 1)
    {
      var target, from := line + x + col, width * vr + col + u;
      ExtendRow(done, stride, x, r, src, width, u, vr, col);
      dst[target] := src[from];
      col := col + 1;
    }
  }
}
