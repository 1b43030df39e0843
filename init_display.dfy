/**
 * initDisplay (engine/init_display.cpp): the key rectangles laid out from
 * the buffer size, the buffer size stored, the bitmaps fetched and the key
 * latch reset. The float scale that turns the window size into the buffer
 * size is not modelled: bufferWidth and bufferHeight are inputs, and the
 * platform calls (setBuffersGeometry, loadBitmap) are outcomes.
 */
module InitDisplay {
  import opened Wrappers
  import opened DrawBitmap
  import opened Engine

  const DPAD_X: int := 10
  /** The D-pad square is drawn 90 rows above the bottom of the buffer. */
  const DPAD_ROWS_ABOVE_BOTTOM: int := 90
  const DPAD_SIZE: int := 50

  /** C integer division, which truncates toward zero. */
  function CDiv(n: int, d: int): int
    requires d > 0
  {
    if n >= 0 then n / d else -((-n) / d)
  }

  /** The eight key rectangles for a W x H buffer, as initDisplay assigns them. */
  function KeyLayout(w: int, h: int): Layout {
    var dpadY := h - DPAD_ROWS_ABOVE_BOTTOM;
    Layout(
      UiObj(DPAD_X + 17, dpadY, 16, 16),
      UiObj(DPAD_X + 17, dpadY + 34, 16, 16),
      UiObj(DPAD_X, dpadY + 17, 16, 16),
      UiObj(DPAD_X + 34, dpadY + 17, 16, 16),
      UiObj(w - 30, h - 90, 25, 25),
      UiObj(w - 60, h - 60, 25, 25),
      UiObj(CDiv(w, 2) - 35, h - 20, 25, 10),
      UiObj(CDiv(w, 2) + 10, h - 20, 25, 10))
  }

  /** Rectangle r lies inside rectangle q. */
  predicate Within(r: UiObj, q: UiObj) {
    q.x <= r.x && r.x + r.width <= q.x + q.width && q.y <= r.y && r.y + r.height <= q.y + q.height
  }

  /** The two rectangles share no point: they are apart horizontally or vertically. */
  predicate Disjoint(r: UiObj, q: UiObj) {
    r.x + r.width <= q.x || q.x + q.width <= r.x || r.y + r.height <= q.y || q.y + q.height <= r.y
  }

  /** The 50 x 50 square the D-pad sprite covers, its corner at (keyLeft.x, keyUp.y). */
  function DpadSquare(l: Layout): UiObj {
    UiObj(l.left.x, l.up.y, DPAD_SIZE, DPAD_SIZE)
  }

  /**
   * The four D-pad keys are 16 x 16, pairwise disjoint, and lie inside the
   * D-pad square, whose corner is (10, H - 90).
   */
  lemma DpadKeysInSquare(w: int, h: int)
    ensures var l := KeyLayout(w, h);
      && DpadSquare(l) == UiObj(DPAD_X, h - 90, DPAD_SIZE, DPAD_SIZE)
      && Within(l.up, DpadSquare(l)) && Within(l.down, DpadSquare(l))
      && Within(l.left, DpadSquare(l)) && Within(l.right, DpadSquare(l))
      && Disjoint(l.up, l.down) && Disjoint(l.up, l.left) && Disjoint(l.up, l.right)
      && Disjoint(l.down, l.left) && Disjoint(l.down, l.right) && Disjoint(l.left, l.right)
  {
  }

  /** A and B are 25 x 25 and share no column; Select and Start are 25 x 10 on one row, Select to the left. */
  lemma ActionKeysApart(w: int, h: int)
    ensures var l := KeyLayout(w, h);
      && l.a.width == 25 && l.a.height == 25 && l.b.width == 25 && l.b.height == 25
      && l.b.x + l.b.width <= l.a.x
      && l.select.y == l.start.y && l.select.x + l.select.width < l.start.x
      && Disjoint(l.a, l.b) && Disjoint(l.select, l.start)
  {
  }

  /** Rectangle r lies inside the W x H buffer. */
  predicate InBuffer(r: UiObj, w: int, h: int) {
    0 <= r.x && r.x + r.width <= w && 0 <= r.y && r.y + r.height <= h
  }

  /** Once the buffer is at least 70 x 90, every key rectangle lies inside it. */
  lemma KeysInBuffer(w: int, h: int)
    requires w >= 70 && h >= 90
    ensures var l := KeyLayout(w, h);
      && InBuffer(l.up, w, h) && InBuffer(l.down, w, h) && InBuffer(l.left, w, h) && InBuffer(l.right, w, h)
      && InBuffer(l.a, w, h) && InBuffer(l.b, w, h) && InBuffer(l.select, w, h) && InBuffer(l.start, w, h)
      && InBuffer(DpadSquare(l), w, h)
  {
    assert CDiv(w, 2) == w / 2;
    assert 35 <= w / 2 && w / 2 + 35 <= w;
  }

  /** The width bound of KeysInBuffer is needed: below 70 columns Select starts left of the buffer. */
  lemma NarrowBufferPushesSelectOut(w: int, h: int)
    requires 0 <= w < 70
    ensures KeyLayout(w, h).select.x < 0
  {
    assert CDiv(w, 2) == w / 2;
  }

  /**
   * The key layout block of initDisplay: a template rectangle is filled in
   * and copied into each key field in turn, exactly as the source does; the
   * last edit to the template is read by nothing.
   */
  method LayOutKeys(e: EngineState, bufferWidth: int, bufferHeight: int)
    modifies e
    ensures e.Keys() == KeyLayout(bufferWidth, bufferHeight)
    ensures e.Setup() == old(e.Setup()) && e.SpriteBitmaps() == old(e.SpriteBitmaps())
    ensures e.animating == old(e.animating) && e.activePointerIds == old(e.activePointerIds)
  {
    var dpadX := DPAD_X;
    var dpadY := bufferHeight - DPAD_ROWS_ABOVE_BOTTOM;

    var template := UiObj(dpadX + 17, dpadY, 16, 16);
    e.keyUp := template;

    template := template.(x := dpadX + 17, y := dpadY + 34);
    e.keyDown := template;

    template := template.(x := dpadX, y := dpadY + 17);
    e.keyLeft := template;

    template := template.(x := dpadX + 34, y := dpadY + 17);
    e.keyRight := template;

    template := template.(x := bufferWidth - 30, y := bufferHeight - 90, width := 25, height := 25);
    e.keyA := template;

    template := template.(x := bufferWidth - 60, y := bufferHeight - 60);
    e.keyB := template;

    template := template.(width := 25, height := 10);
    template := template.(x := CDiv(bufferWidth, 2) - 35, y := bufferHeight - 20);
    e.keySelect := template;

    template := template.(x := CDiv(bufferWidth, 2) + 10, y := bufferHeight - 20);
    e.keyStart := template;

    template := template.(x := CDiv(160 - 25, 2), y := 144 + 10);
  }

  /**
   * initDisplay(engine): the buffer size is stored, the keys are laid out,
   * the bitmaps are fetched and the key latch is reset. `geometryResult` is
   * the result of ANativeWindow_setBuffersGeometry, `buttons` and `font`
   * what loadBitmap returns.
   */
  method InitDisplay(e: EngineState, bufferWidth: int, bufferHeight: int, geometryResult: int,
                     buttons: Option<Bitmap>, font: Option<Bitmap>) returns (result: int)
    modifies e
    ensures result == geometryResult
    ensures e.bufferWidth == bufferWidth && e.bufferHeight == bufferHeight
    ensures e.Keys() == KeyLayout(bufferWidth, bufferHeight)
    ensures e.bitmapButtons == if buttons.Some? then buttons else old(e.bitmapButtons)
    ensures e.bitmapFontsUppercase == if font.Some? then font else old(e.bitmapFontsUppercase)
    ensures e.keyLatch == 0
    ensures e.window == old(e.window) && e.animating == old(e.animating)
    ensures e.activePointerIds == old(e.activePointerIds) && e.SpriteBitmaps() == old(e.SpriteBitmaps())
  {
    e.bufferWidth := bufferWidth;
    e.bufferHeight := bufferHeight;

    LayOutKeys(e, bufferWidth, bufferHeight);

    result := geometryResult;

    // A bitmap replaces the stored one only when loadBitmap returned one.
    e.bitmapButtons := if buttons.Some? then buttons else e.bitmapButtons;
    e.bitmapFontsUppercase := if font.Some? then font else e.bitmapFontsUppercase;

    e.keyLatch := 0;
  }
}
