/**
 * DisplayControllerAndroid (controllers/display_android.cpp): the emulator
 * hands it one scanline of palette indices at a time, it packs them into a
 * 160 x 144 ARGB frame, and drawScreen copies that frame into the locked
 * native window buffer.
 */
module Display {
  import opened Wrappers
  import opened Raster

  const DISPLAY_WIDTH: nat := 160
  const DISPLAY_HEIGHT: nat := 144
  const FRAME_SIZE: nat := DISPLAY_WIDTH * DISPLAY_HEIGHT

  /** A palette colour: the three channel bytes color[0], color[1], color[2]. */
  datatype Color = Color(red: bv8, green: bv8, blue: bv8)

  /** The pixel drawScanLine stores for a colour: opaque alpha, then red, green and blue. */
  function Argb(c: Color): Pixel {
    (0xFF << 24) | ((c.red as Pixel) << 16) | ((c.green as Pixel) << 8) | (c.blue as Pixel)
  }

  function Alpha(p: Pixel): bv8 {
    (p >> 24) as bv8
  }

  /** The low byte of a pixel value. */
  function LowByte(x: Pixel): bv8 {
    (x & 0xFF) as bv8
  }

  /** The colour channels of a pixel, read back in the order Argb packs them. */
  function Channels(p: Pixel): Color {
    Color(LowByte(p >> 16), LowByte(p >> 8), LowByte(p))
  }

  /** Packing loses nothing: every packed pixel is opaque and its channels are the colour's. */
  lemma ArgbRoundTrip(c: Color)
    ensures Alpha(Argb(c)) == 0xFF
    ensures Channels(Argb(c)) == c
  {
    ArgbAlpha(c);
    ArgbRed(c);
    ArgbGreen(c);
    ArgbBlue(c);
  }

  /** The top byte of a packed pixel is the opaque alpha 0xFF. */
  lemma ArgbAlpha(c: Color)
    ensures Argb(c) >> 24 == 0xFF
  {
    PackedChannels(c.red as Pixel, c.green as Pixel, c.blue as Pixel);
  }

  /** Bits 16 to 23 of a packed pixel are the red channel. */
  lemma ArgbRed(c: Color)
    ensures LowByte(Argb(c) >> 16) == c.red
  {
    PackedChannels(c.red as Pixel, c.green as Pixel, c.blue as Pixel);
    LowByteOf(Argb(c) >> 16, c.red);
  }

  /** Bits 8 to 15 of a packed pixel are the green channel. */
  lemma ArgbGreen(c: Color)
    ensures LowByte(Argb(c) >> 8) == c.green
  {
    PackedChannels(c.red as Pixel, c.green as Pixel, c.blue as Pixel);
    LowByteOf(Argb(c) >> 8, c.green);
  }

  /** The low byte of a packed pixel is the blue channel. */
  lemma ArgbBlue(c: Color)
    ensures LowByte(Argb(c)) == c.blue
  {
    PackedChannels(c.red as Pixel, c.green as Pixel, c.blue as Pixel);
    LowByteOf(Argb(c), c.blue);
  }

  /** A value whose low byte is v reads back as v. */
  lemma LowByteOf(x: Pixel, v: bv8)
    requires x & 0xFF == v as Pixel
    ensures LowByte(x) == v
  {
  }

  /** The bit arithmetic behind ArgbRoundTrip: each byte or-ed in at its offset is read back by shifting and masking. */
  lemma PackedChannels(r: Pixel, g: Pixel, b: Pixel)
    requires r < 256 && g < 256 && b < 256
    ensures ((0xFF << 24) | (r << 16) | (g << 8) | b) >> 24 == 0xFF
    ensures (((0xFF << 24) | (r << 16) | (g << 8) | b) >> 16) & 0xFF == r
    ensures (((0xFF << 24) | (r << 16) | (g << 8) | b) >> 8) & 0xFF == g
    ensures ((0xFF << 24) | (r << 16) | (g << 8) | b) & 0xFF == b
  {
  }

  /** Distinct colours give distinct pixels. */
  lemma ArgbInjective(c: Color, d: Color)
    requires Argb(c) == Argb(d)
    ensures c == d
  {
    ArgbRoundTrip(c);
    ArgbRoundTrip(d);
  }

  /** Every palette index of the first 160 entries of a scanline selects a palette colour. */
  predicate RowInPalette(row: seq<bv8>, palette: seq<Color>) {
    |row| >= DISPLAY_WIDTH && forall x :: 0 <= x < DISPLAY_WIDTH ==> row[x] as int < |palette|
  }

  /** The frame after drawScanLine(y, row): row y holds the packed palette colours, every other pixel is kept. */
  function ScanLined(px: seq<Pixel>, y: nat, row: seq<bv8>, palette: seq<Color>): (r: seq<Pixel>)
    requires RowInPalette(row, palette)
    ensures |r| == |px|
    ensures forall i :: y * DISPLAY_WIDTH <= i < y * DISPLAY_WIDTH + DISPLAY_WIDTH && i < |px| ==>
              r[i] == Argb(palette[row[i - y * DISPLAY_WIDTH]]) && Alpha(r[i]) == 0xFF
    ensures forall i :: 0 <= i < |px| && !(y * DISPLAY_WIDTH <= i < y * DISPLAY_WIDTH + DISPLAY_WIDTH) ==> r[i] == px[i]
  {
    var r := seq(|px|, i requires 0 <= i < |px| =>
      if y * DISPLAY_WIDTH <= i < y * DISPLAY_WIDTH + DISPLAY_WIDTH
      then Argb(palette[row[i - y * DISPLAY_WIDTH]])
      else px[i]);
    forall i | y * DISPLAY_WIDTH <= i < y * DISPLAY_WIDTH + DISPLAY_WIDTH && i < |px|
      ensures Alpha(r[i]) == 0xFF
    {
      ArgbRoundTrip(palette[row[i - y * DISPLAY_WIDTH]]);
    }
    r
  }

  /** One drawScanLine call the emulator makes: the row number and the palette indices of that row. */
  datatype ScanLine = ScanLine(y: nat, row: seq<bv8>)

  /** Every scanline names a row of the frame and selects palette colours only. */
  predicate LinesInPalette(lines: seq<ScanLine>, palette: seq<Color>) {
    forall i :: 0 <= i < |lines| ==> lines[i].y < DISPLAY_HEIGHT && RowInPalette(lines[i].row, palette)
  }

  /** The frame after the scanlines, drawn one after the other in order. */
  function ScanLinesDrawn(px: seq<Pixel>, lines: seq<ScanLine>, palette: seq<Color>): (r: seq<Pixel>)
    requires LinesInPalette(lines, palette)
    ensures |r| == |px|
    decreases |lines|
  {
    if lines == [] then px
    else ScanLinesDrawn(ScanLined(px, lines[0].y, lines[0].row, palette), lines[1..], palette)
  }

  /** A frame pixel in a row that no scanline names keeps its value. */
  lemma {:induction false} ScanLinesDrawnOutside(px: seq<Pixel>, lines: seq<ScanLine>, palette: seq<Color>, i: nat)
    requires LinesInPalette(lines, palette) && i < |px|
    requires forall k :: 0 <= k < |lines| ==> !(lines[k].y * DISPLAY_WIDTH <= i < lines[k].y * DISPLAY_WIDTH + DISPLAY_WIDTH)
    ensures ScanLinesDrawn(px, lines, palette)[i] == px[i]
    decreases |lines|
  {
    if lines != [] {
      var next := ScanLined(px, lines[0].y, lines[0].row, palette);
      assert forall k :: 0 <= k < |lines[1..]| ==> lines[1..][k] == lines[k + 1];
      ScanLinesDrawnOutside(next, lines[1..], palette, i);
    }
  }

  /** The last scanline that names row y decides it: pixel y 160 + x holds the packed colour of that line's index x. */
  lemma {:induction false} ScanLinesDrawnLast(px: seq<Pixel>, lines: seq<ScanLine>, palette: seq<Color>, k: nat, x: nat)
    requires LinesInPalette(lines, palette) && |px| == FRAME_SIZE
    requires k < |lines| && x < DISPLAY_WIDTH
    requires forall j :: k < j < |lines| ==> lines[j].y != lines[k].y
    ensures ScanLinesDrawn(px, lines, palette)[lines[k].y * DISPLAY_WIDTH + x] == Argb(palette[lines[k].row[x]])
    decreases |lines|
  {
    var next := ScanLined(px, lines[0].y, lines[0].row, palette);
    assert forall j :: 0 <= j < |lines[1..]| ==> lines[1..][j] == lines[j + 1];
    if k == 0 {
      var i := lines[0].y * DISPLAY_WIDTH + x;
      forall j | 0 <= j < |lines[1..]|
        ensures !(lines[1..][j].y * DISPLAY_WIDTH <= i < lines[1..][j].y * DISPLAY_WIDTH + DISPLAY_WIDTH)
      {
        RowOfIndex(lines[1..][j].y, lines[0].y, x);
      }
      ScanLinesDrawnOutside(next, lines[1..], palette, i);
    } else {
      ScanLinesDrawnLast(next, lines[1..], palette, k - 1, x);
    }
  }

  /** A frame index in row y is in no other row. */
  lemma RowOfIndex(z: nat, y: nat, x: nat)
    requires x < DISPLAY_WIDTH && z != y
    ensures !(z * DISPLAY_WIDTH <= y * DISPLAY_WIDTH + x < z * DISPLAY_WIDTH + DISPLAY_WIDTH)
  {
    if z < y {
      assert z * DISPLAY_WIDTH + DISPLAY_WIDTH <= y * DISPLAY_WIDTH;
    } else {
      assert y * DISPLAY_WIDTH + DISPLAY_WIDTH <= z * DISPLAY_WIDTH;
    }
  }

  /** The frame copy drawScreen makes: the whole 160 x 144 frame to the top-left corner of the window buffer. */
  function FrameShown(dst: seq<Pixel>, stride: nat, frame: seq<Pixel>): (r: seq<Pixel>)
    requires |frame| == FRAME_SIZE
    ensures |r| == |dst|
  {
    Blitted(dst, stride, 0, 0, frame, DISPLAY_WIDTH, 0, 0, DISPLAY_WIDTH, DISPLAY_HEIGHT)
  }

  /** The window buffer has room for the frame: 160 columns and 144 rows. */
  predicate FrameFits(len: nat, stride: nat) {
    DestFits(len, stride, 0, 0, DISPLAY_WIDTH, DISPLAY_HEIGHT)
  }

  /** After the copy, window pixel (x, y) holds frame pixel y * 160 + x. */
  lemma FrameShownAt(dst: seq<Pixel>, stride: nat, frame: seq<Pixel>, x: nat, y: nat)
    requires |frame| == FRAME_SIZE && FrameFits(|dst|, stride) && x < DISPLAY_WIDTH && y < DISPLAY_HEIGHT
    ensures HoldsPixel(FrameShown(dst, stride, frame), y * stride + x, frame, y * DISPLAY_WIDTH + x)
  {
    BlittedInside(dst, stride, 0, 0, frame, DISPLAY_WIDTH, 0, 0, DISPLAY_WIDTH, DISPLAY_HEIGHT, x, y);
    assert DISPLAY_WIDTH * (0 + y) + 0 + x == y * DISPLAY_WIDTH + x;
  }

  /** Window pixels right of column 160 or below row 144 are not touched by the copy. */
  lemma FrameShownOutside(dst: seq<Pixel>, stride: nat, frame: seq<Pixel>, row: nat, col: nat)
    requires |frame| == FRAME_SIZE
    requires col < stride && row * stride + col < |dst|
    requires row >= DISPLAY_HEIGHT || col >= DISPLAY_WIDTH
    ensures FrameShown(dst, stride, frame)[row * stride + col] == dst[row * stride + col]
  {
    BlittedOutside(dst, stride, 0, 0, frame, DISPLAY_WIDTH, 0, 0, DISPLAY_WIDTH, DISPLAY_HEIGHT, row, col);
  }

  /**
   * The display controller. `window` is the native window set by the frame
   * loop, identified with the buffer a lock of it yields; `buffer` is the
   * ANativeWindow_Buffer filled by the last successful lock.
   */
  class DisplayController {
    var window: Option<WindowBuffer>
    var buffer: Option<WindowBuffer>
    const pixels: array<Pixel>
    var windowAcquired: bool

    /**
     * The frame has its fixed size, an acquired window always has its
     * buffer, and that buffer is not the frame itself.
     */
    ghost predicate Valid()
      reads this
    {
      pixels.Length == FRAME_SIZE && (windowAcquired ==> buffer.Some?) &&
      (buffer.Some? ==> buffer.value.bits != pixels)
    }

    constructor ()
      ensures Valid() && fresh(pixels)
      ensures window.None? && buffer.None? && !windowAcquired
    {
      window := None;
      buffer := None;
      pixels := new Pixel[FRAME_SIZE];
      windowAcquired := false;
    }

    /** setWindow: replace the window reference, nothing else. */
    method SetWindow(w: Option<WindowBuffer>)
      modifies this
      ensures window == w
      ensures buffer == old(buffer) && windowAcquired == old(windowAcquired)
    {
      window := w;
    }

    /** drawScanLine(y, row): pack the 160 palette indices of row into frame row y. */
    method DrawScanLine(y: nat, row: seq<bv8>, palette: seq<Color>)
      requires Valid() && y < DISPLAY_HEIGHT && RowInPalette(row, palette)
      modifies pixels
      ensures pixels[..] == ScanLined(old(pixels[..]), y, row, palette)
    {
      ghost var before := pixels[..];
      var x := 0;
      while x < DISPLAY_WIDTH
        invariant 0 <= x <= DISPLAY_WIDTH
        invariant forall i :: 0 <= i < pixels.Length ==>
          pixels[i] == if y * DISPLAY_WIDTH <= i < y * DISPLAY_WIDTH + x then Argb(palette[row[i - y * DISPLAY_WIDTH]]) else before[i]
      {
        var color := palette[row[x]];
        pixels[y * DISPLAY_WIDTH + x] := Argb(color);
        x := x + 1;
      }
      assert pixels[..] == ScanLined(before, y, row, palette);
    }

    /**
     * drawScreen: with no window nothing happens; a failed lock clears
     * windowAcquired; a successful one sets it and copies the frame. The
     * lock's outcome is `lockOk`.
     */
    method DrawScreen(lockOk: bool)
      requires Valid()
      requires window.Some? ==> window.value.bits != pixels
      requires window.Some? && lockOk ==> FrameFits(window.value.bits.Length, window.value.stride)
      modifies this, if window.Some? then {window.value.bits} else {}
      ensures Valid() && window == old(window)
      ensures window.None? ==> windowAcquired == old(windowAcquired) && buffer == old(buffer)
      ensures window.Some? ==> windowAcquired == lockOk
      ensures window.Some? && !lockOk ==> buffer == old(buffer) && window.value.bits[..] == old(window.value.bits[..])
      ensures window.Some? && lockOk ==>
        buffer == window &&
        window.value.bits[..] == FrameShown(old(window.value.bits[..]), window.value.stride, pixels[..])
      ensures pixels[..] == old(pixels[..])
    {
      if window.None? {
        return;
      }
      var w := window.value;
      if !lockOk {
        windowAcquired := false;
        return;
      }
      buffer := window;
      windowAcquired := true;
      CopyRect(w.bits, w.stride, 0, 0, pixels[..], DISPLAY_WIDTH, 0, 0, DISPLAY_WIDTH, DISPLAY_HEIGHT);
    }
  }
}
