/**
 * drawTextAt and measureTextWidth (ui/draw_text.cpp): text drawn from a
 * fixed font sheet of 26 glyphs per row and three bands of rows
 * (upper-case letters, lower-case letters, digits and punctuation).
 */
module DrawText {
  import opened Wrappers
  import opened Raster
  import opened CStrings

  const CHAR_WIDTH: nat := 7
  const CHAR_SPACING: nat := 1
  const CHAR_ACTUAL_WIDTH: nat := CHAR_WIDTH + CHAR_SPACING
  /** FBA_CHAR_HEIGHT */
  const FONT_HEIGHT: nat := 7
  /** The font sheet is 26 glyphs wide, whatever the bitmap's own width. */
  const FONT_WIDTH: nat := 26 * CHAR_WIDTH
  /** Pixels of the three glyph bands: every read of drawTextAt lies below this. */
  const FONT_SHEET_SIZE: nat := FONT_WIDTH * 3 * FONT_HEIGHT

  const ERR_LOCK: int := -3
  const ERR_UNLOCK: int := -4

  /** A glyph of the font sheet: its column `index` and the first sheet row `band` of its band. */
  datatype Glyph = Glyph(index: nat, band: nat)

  /** The glyph a character selects; a space selects none and only moves the pen. */
  function GlyphOf(c: Byte): (g: Option<Glyph>)
    ensures g.None? <==> c == ' ' as Byte
    ensures g.Some? ==> g.value.index < 26
    ensures g.Some? ==> g.value.band == 0 || g.value.band == FONT_HEIGHT || g.value.band == 2 * FONT_HEIGHT
  {
    if 65 <= c <= 90 then Some(Glyph(c as nat - 65, 0))
    else if 97 <= c <= 122 then Some(Glyph(c as nat - 97, FONT_HEIGHT))
    else if 48 <= c <= 57 then Some(Glyph(c as nat - 48, 2 * FONT_HEIGHT))
    else if c == 32 then None
    else if c == 33 then Some(Glyph(10, 2 * FONT_HEIGHT))
    else if c == 46 then Some(Glyph(12, 2 * FONT_HEIGHT))
    else if c == 44 then Some(Glyph(13, 2 * FONT_HEIGHT))
    else Some(Glyph(11, 2 * FONT_HEIGHT))
  }

  /** The glyph of each character class, as the font sheet is laid out. */
  lemma GlyphClasses(c: Byte)
    ensures 'A' as Byte <= c <= 'Z' as Byte ==> GlyphOf(c) == Some(Glyph(c as nat - 'A' as nat, 0))
    ensures 'a' as Byte <= c <= 'z' as Byte ==> GlyphOf(c) == Some(Glyph(c as nat - 'a' as nat, FONT_HEIGHT))
    ensures '0' as Byte <= c <= '9' as Byte ==> GlyphOf(c) == Some(Glyph(c as nat - '0' as nat, 2 * FONT_HEIGHT))
    ensures c == '!' as Byte ==> GlyphOf(c) == Some(Glyph(10, 2 * FONT_HEIGHT))
    ensures c == '.' as Byte ==> GlyphOf(c) == Some(Glyph(12, 2 * FONT_HEIGHT))
    ensures c == ',' as Byte ==> GlyphOf(c) == Some(Glyph(13, 2 * FONT_HEIGHT))
    ensures c == '?' as Byte ==> GlyphOf(c) == Some(Glyph(11, 2 * FONT_HEIGHT))
  {
  }

  /** Every glyph block lies inside the three bands of the 182-pixel-wide font sheet. */
  lemma GlyphInSheet(c: Byte, fontLen: nat)
    requires GlyphOf(c).Some? && fontLen >= FONT_SHEET_SIZE
    ensures SourceFits(fontLen, FONT_WIDTH, CHAR_WIDTH * GlyphOf(c).value.index, GlyphOf(c).value.band, CHAR_WIDTH, FONT_HEIGHT)
    ensures CHAR_WIDTH * GlyphOf(c).value.index + CHAR_WIDTH <= FONT_WIDTH
  {
  }

  /** The text drawTextAt and measureTextWidth work on: `len` bytes, or up to the NUL when `len` is 0. */
  predicate TextArgsOk(text: seq<Byte>, len: nat) {
    if len == 0 then NUL in text else len <= |text|
  }

  function TextChars(text: seq<Byte>, len: nat): (chars: seq<Byte>)
    requires TextArgsOk(text, len)
    ensures len != 0 ==> |chars| == len
  {
    if len == 0 then CStr(text) else text[..len]
  }

  /** Width in pixels of n characters: each advances by 8, and the last one's spacing column is not counted. */
  function TextWidth(n: nat): nat {
    if n != 0 then n * CHAR_ACTUAL_WIDTH - CHAR_SPACING else 0
  }

  /** measureTextWidth(text, len). */
  function MeasureTextWidth(text: seq<Byte>, len: nat): (width: nat)
    requires TextArgsOk(text, len)
    ensures width == TextWidth(|TextChars(text, len)|)
    ensures width == 0 <==> |TextChars(text, len)| == 0
    ensures width != 0 ==> width % CHAR_ACTUAL_WIDTH == CHAR_WIDTH
  {
    var n := if len == 0 then StrLen(text) else len;
    if n != 0 then n * CHAR_ACTUAL_WIDTH - CHAR_SPACING else 0
  }

  /** The whole text box (n characters at (x, y), 7 rows high) lies inside the buffer rows. */
  predicate TextFits(bufLen: nat, stride: nat, x: nat, y: nat, n: nat) {
    x + TextWidth(n) <= stride && (n == 0 || (y + FONT_HEIGHT - 1) * stride + x + TextWidth(n) <= bufLen)
  }

  /** The buffer after character c has been drawn with the pen at column `pen`. */
  function GlyphDrawn(d: seq<Pixel>, stride: nat, font: seq<Pixel>, c: Byte, pen: nat, y: nat): (r: seq<Pixel>)
    requires |font| >= FONT_SHEET_SIZE
    ensures |r| == |d|
  {
    match GlyphOf(c)
    case None => d
    case Some(g) =>
      GlyphInSheet(c, |font|);
      Blitted(d, stride, pen, y, font, FONT_WIDTH, CHAR_WIDTH * g.index, g.band, CHAR_WIDTH, FONT_HEIGHT)
  }

  /** The buffer after the characters have been drawn one after the other, character i with the pen at x + 8 i. */
  function TextDrawn(d: seq<Pixel>, stride: nat, font: seq<Pixel>, chars: seq<Byte>, x: nat, y: nat): (r: seq<Pixel>)
    requires |font| >= FONT_SHEET_SIZE
    ensures |r| == |d|
    decreases |chars|
  {
    if chars == [] then d
    else
      var n := |chars| - 1;
      GlyphDrawn(TextDrawn(d, stride, font, chars[..n], x, y), stride, font, chars[n], x + CHAR_ACTUAL_WIDTH * n, y)
  }

  /** Pixel (row, col) belongs to the 7 x 7 block of a non-space character of the text. */
  predicate InGlyphBox(chars: seq<Byte>, x: nat, y: nat, row: nat, col: nat) {
    && y <= row < y + FONT_HEIGHT
    && x <= col < x + CHAR_ACTUAL_WIDTH * |chars|
    && (col - x) % CHAR_ACTUAL_WIDTH < CHAR_WIDTH
    && chars[(col - x) / CHAR_ACTUAL_WIDTH] != ' ' as Byte
  }

  /** Unfolds TextDrawn once: the last character is drawn over the buffer holding all the others. */
  lemma TextDrawnLast(d: seq<Pixel>, stride: nat, font: seq<Pixel>, chars: seq<Byte>, x: nat, y: nat)
    requires |font| >= FONT_SHEET_SIZE && chars != []
    ensures TextDrawn(d, stride, font, chars, x, y)
            == GlyphDrawn(TextDrawn(d, stride, font, chars[..|chars| - 1], x, y), stride, font,
                          chars[|chars| - 1], x + CHAR_ACTUAL_WIDTH * (|chars| - 1), y)
  {
  }

  /** A glyph drawn with the pen at `pen` holds, at offset (dx, dy) of its block, its font pixel. */
  lemma GlyphPixel(d: seq<Pixel>, stride: nat, font: seq<Pixel>, c: Byte, g: Glyph, pen: nat, y: nat, dx: nat, dy: nat)
    requires |font| >= FONT_SHEET_SIZE && GlyphOf(c) == Some(g)
    requires DestFits(|d|, stride, pen, y, CHAR_WIDTH, FONT_HEIGHT) && dx < CHAR_WIDTH && dy < FONT_HEIGHT
    ensures HoldsPixel(GlyphDrawn(d, stride, font, c, pen, y), (y + dy) * stride + pen + dx,
                     font, FONT_WIDTH * (g.band + dy) + dx + CHAR_WIDTH * g.index)
  {
    GlyphInSheet(c, |font|);
    assert GlyphDrawn(d, stride, font, c, pen, y)
        == Blitted(d, stride, pen, y, font, FONT_WIDTH, CHAR_WIDTH * g.index, g.band, CHAR_WIDTH, FONT_HEIGHT);
    BlittedInside(d, stride, pen, y, font, FONT_WIDTH, CHAR_WIDTH * g.index, g.band, CHAR_WIDTH, FONT_HEIGHT, dx, dy);
  }

  /**
   * Character i, whose glyph is g, writes at offset (dx, dy) of its block
   * the font pixel 182 (band + dy) + dx + 7 index; later characters do not
   * overwrite it.
   */
  lemma {:induction false} TextGlyphPixel(d: seq<Pixel>, stride: nat, font: seq<Pixel>, chars: seq<Byte>,
                                          x: nat, y: nat, i: nat, g: Glyph, dx: nat, dy: nat)
    requires |font| >= FONT_SHEET_SIZE && TextFits(|d|, stride, x, y, |chars|)
    requires i < |chars| && GlyphOf(chars[i]) == Some(g) && dx < CHAR_WIDTH && dy < FONT_HEIGHT
    ensures HoldsPixel(TextDrawn(d, stride, font, chars, x, y), (y + dy) * stride + (x + CHAR_ACTUAL_WIDTH * i) + dx,
                     font, FONT_WIDTH * (g.band + dy) + dx + CHAR_WIDTH * g.index)
    decreases |chars|
  {
    var n := |chars| - 1;
    var pen := x + CHAR_ACTUAL_WIDTH * i;
    var prefix := TextDrawn(d, stride, font, chars[..n], x, y);
    TextDrawnLast(d, stride, font, chars, x, y);
    GlyphFits(|d|, stride, x, y, |chars|, i);
    if i == n {
      GlyphPixel(prefix, stride, font, chars[i], g, pen, y, dx, dy);
    } else {
      assert TextFits(|d|, stride, x, y, n);
      assert chars[..n][i] == chars[i];
      TextGlyphPixel(d, stride, font, chars[..n], x, y, i, g, dx, dy);
      GlyphUntouchedByLater(prefix, stride, font, chars[n], x + CHAR_ACTUAL_WIDTH * n, y, y + dy, pen + dx);
    }
  }

  /** A glyph drawn with the pen at `last` leaves every column left of `last` alone. */
  lemma GlyphUntouchedByLater(d: seq<Pixel>, stride: nat, font: seq<Pixel>, c: Byte, last: nat, y: nat, row: nat, col: nat)
    requires |font| >= FONT_SHEET_SIZE
    requires col < last && col < stride && row * stride + col < |d|
    ensures GlyphDrawn(d, stride, font, c, last, y)[row * stride + col] == d[row * stride + col]
  {
    match GlyphOf(c)
    case None =>
    case Some(h) =>
      GlyphInSheet(c, |font|);
      BlittedOutside(d, stride, last, y, font, FONT_WIDTH, CHAR_WIDTH * h.index, h.band, CHAR_WIDTH, FONT_HEIGHT, row, col);
  }

  /**
   * Every pixel outside the glyph blocks of the non-space characters keeps
   * its value: the spacing column, the spaces and everything beyond the text.
   */
  lemma {:induction false} TextDrawnOutside(d: seq<Pixel>, stride: nat, font: seq<Pixel>, chars: seq<Byte>,
                                            x: nat, y: nat, row: nat, col: nat)
    requires |font| >= FONT_SHEET_SIZE
    requires col < stride && row * stride + col < |d|
    requires !InGlyphBox(chars, x, y, row, col)
    ensures TextDrawn(d, stride, font, chars, x, y)[row * stride + col] == d[row * stride + col]
    decreases |chars|
  {
    if chars != [] {
      var n := |chars| - 1;
      var prefix := TextDrawn(d, stride, font, chars[..n], x, y);
      var last := x + CHAR_ACTUAL_WIDTH * n;
      if x <= col < last {
        assert (col - x) / CHAR_ACTUAL_WIDTH < n;
        assert chars[..n][(col - x) / CHAR_ACTUAL_WIDTH] == chars[(col - x) / CHAR_ACTUAL_WIDTH];
      }
      assert !InGlyphBox(chars[..n], x, y, row, col);
      TextDrawnOutside(d, stride, font, chars[..n], x, y, row, col);
      match GlyphOf(chars[n])
      case None =>
      case Some(h) =>
        GlyphInSheet(chars[n], |font|);
        BlittedOutside(prefix, stride, last, y, font, FONT_WIDTH, CHAR_WIDTH * h.index, h.band, CHAR_WIDTH, FONT_HEIGHT, row, col);
    }
  }

  /** No column at or beyond x + measureTextWidth changes: the width measured is the width drawn. */
  lemma TextWithinMeasuredWidth(d: seq<Pixel>, stride: nat, font: seq<Pixel>, text: seq<Byte>, len: nat,
                                x: nat, y: nat, row: nat, col: nat)
    requires |font| >= FONT_SHEET_SIZE && TextArgsOk(text, len)
    requires col < stride && row * stride + col < |d|
    requires col >= x + MeasureTextWidth(text, len)
    ensures TextDrawn(d, stride, font, TextChars(text, len), x, y)[row * stride + col] == d[row * stride + col]
  {
    var chars := TextChars(text, len);
    TextDrawnOutside(d, stride, font, chars, x, y, row, col);
  }

  lemma GlyphFits(bufLen: nat, stride: nat, x: nat, y: nat, n: nat, i: nat)
    requires TextFits(bufLen, stride, x, y, n) && i < n
    ensures DestFits(bufLen, stride, x + CHAR_ACTUAL_WIDTH * i, y, CHAR_WIDTH, FONT_HEIGHT)
  {
  }

  /**
   * drawTextAt(env, buffer, font, text, len, x, y). Locking and unlocking
   * the font bitmap are platform calls; only their success is modelled.
   */
  method DrawTextAt(buffer: WindowBuffer, font: seq<Pixel>, lockOk: bool, unlockOk: bool,
                    text: seq<Byte>, len: nat, x: nat, y: nat) returns (code: int)
    requires lockOk && unlockOk ==>
      TextArgsOk(text, len) && |font| >= FONT_SHEET_SIZE &&
      TextFits(buffer.bits.Length, buffer.stride, x, y, |TextChars(text, len)|)
    modifies buffer.bits
    ensures !lockOk ==> code == ERR_LOCK
    ensures lockOk && !unlockOk ==> code == ERR_UNLOCK
    ensures lockOk && unlockOk ==> code == 0
    ensures buffer.bits[..] ==
      if code == 0 then TextDrawn(old(buffer.bits[..]), buffer.stride, font, TextChars(text, len), x, y)
      else old(buffer.bits[..])
  {
    if !lockOk {
      return ERR_LOCK;
    }
    if !unlockOk {
      return ERR_UNLOCK;
    }
    var n := if len == 0 then StrLen(text) else len;
    assert TextChars(text, len) == text[..n];
    DrawChars(buffer, font, text, n, x, y);
    return 0;
  }

  /** drawTextAt's loop over the first n characters, the pen starting at x and advancing 8 columns each. */
  method DrawChars(buffer: WindowBuffer, font: seq<Pixel>, text: seq<Byte>, n: nat, x: nat, y: nat)
    requires n <= |text| && |font| >= FONT_SHEET_SIZE
    requires TextFits(buffer.bits.Length, buffer.stride, x, y, n)
    modifies buffer.bits
    ensures buffer.bits[..] == TextDrawn(old(buffer.bits[..]), buffer.stride, font, text[..n], x, y)
  {
    ghost var before := buffer.bits[..];
    var i := 0;
    var pen := x;
    while i < n
      invariant 0 <= i <= n
      invariant pen == x + CHAR_ACTUAL_WIDTH * i
      invariant buffer.bits[..] == TextDrawn(before, buffer.stride, font, text[..i], x, y)
    {
      assert text[..i + 1][..i] == text[..i] && text[..i + 1][i] == text[i];
      TextDrawnLast(before, buffer.stride, font, text[..i + 1], x, y);
      GlyphFits(buffer.bits.Length, buffer.stride, x, y, n, i);
      DrawGlyph(buffer, font, text[i], pen, y);
      pen := pen + CHAR_ACTUAL_WIDTH;
      i := i + 1;
    }
  }

  /**
   * One pass of drawTextAt's loop: the glyph of c, if it has one, is copied
   * row by row from the font sheet to the pen position; a space draws nothing.
   */
  method DrawGlyph(buffer: WindowBuffer, font: seq<Pixel>, c: Byte, pen: nat, y: nat)
    requires |font| >= FONT_SHEET_SIZE
    requires DestFits(buffer.bits.Length, buffer.stride, pen, y, CHAR_WIDTH, FONT_HEIGHT)
    modifies buffer.bits
    ensures buffer.bits[..] == GlyphDrawn(old(buffer.bits[..]), buffer.stride, font, c, pen, y)
  {
    match GlyphOf(c) {
      case None =>
      case Some(g) =>
        GlyphInSheet(c, |font|);
        CopyRect(buffer.bits, buffer.stride, pen, y, font, FONT_WIDTH, CHAR_WIDTH * g.index, g.band, CHAR_WIDTH, FONT_HEIGHT);
    }
  }
}
