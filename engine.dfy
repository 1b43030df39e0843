/**
 * The shared engine record (engine/engine.h): the bitmaps, the buffer
 * size, the eight key rectangles, the animating flag, the key latch and the
 * list of active pointer ids. source/main.cpp is written against the older
 * record of state/engine.h, which holds one bitmap per control sprite
 * instead of bitmapButtons; those five handles are fields here too. The
 * JNI environment, the android_app pointer, the window size in pixels and
 * the float uiScale are not modelled; `window` stands for app->window.
 */
module Engine {
  import opened Wrappers
  import opened Raster
  import opened DrawBitmap

  /** ui_obj: a rectangle of buffer pixels. */
  datatype UiObj = UiObj(x: int, y: int, width: int, height: int)

  /** The eight key rectangles. */
  datatype Layout = Layout(up: UiObj, down: UiObj, left: UiObj, right: UiObj,
                           a: UiObj, b: UiObj, select: UiObj, start: UiObj)

  class EngineState {
    var window: Option<WindowBuffer>
    var bitmapButtons: Option<Bitmap>
    var bitmapFontsUppercase: Option<Bitmap>
    /** The sprite bitmaps of state/engine.h. */
    var bitmapDpad: Option<Bitmap>
    var bitmapKeyA: Option<Bitmap>
    var bitmapKeyB: Option<Bitmap>
    var bitmapKeyStart: Option<Bitmap>
    var bitmapKeySelect: Option<Bitmap>
    var bufferWidth: int
    var bufferHeight: int
    var keyUp: UiObj
    var keyDown: UiObj
    var keyLeft: UiObj
    var keyRight: UiObj
    var keyA: UiObj
    var keyB: UiObj
    var keyStart: UiObj
    var keySelect: UiObj
    var animating: bool
    var keyLatch: int
    var activePointerIds: seq<nat>

    /** The record android_main starts from: every field zero (memset), no window yet. */
    constructor ()
      ensures window.None? && bitmapButtons.None? && bitmapFontsUppercase.None?
      ensures SpriteBitmaps() == [None, None, None, None, None]
      ensures bufferWidth == 0 && bufferHeight == 0
      ensures Keys() == Layout(UiObj(0, 0, 0, 0), UiObj(0, 0, 0, 0), UiObj(0, 0, 0, 0), UiObj(0, 0, 0, 0),
                               UiObj(0, 0, 0, 0), UiObj(0, 0, 0, 0), UiObj(0, 0, 0, 0), UiObj(0, 0, 0, 0))
      ensures !animating && keyLatch == 0 && activePointerIds == []
    {
      var zero := UiObj(0, 0, 0, 0);
      window, bitmapButtons, bitmapFontsUppercase := None, None, None;
      bitmapDpad, bitmapKeyA, bitmapKeyB, bitmapKeyStart, bitmapKeySelect := None, None, None, None, None;
      bufferWidth, bufferHeight := 0, 0;
      keyUp, keyDown, keyLeft, keyRight := zero, zero, zero, zero;
      keyA, keyB, keyStart, keySelect := zero, zero, zero, zero;
      animating, keyLatch, activePointerIds := false, 0, [];
    }

    /** The current key rectangles as one value. */
    function Keys(): Layout
      reads this
    {
      Layout(keyUp, keyDown, keyLeft, keyRight, keyA, keyB, keySelect, keyStart)
    }

    /** The window, the atlas and font bitmaps, the buffer size and the key latch. */
    function Setup(): (Option<WindowBuffer>, Option<Bitmap>, Option<Bitmap>, int, int, int)
      reads this
    {
      (window, bitmapButtons, bitmapFontsUppercase, bufferWidth, bufferHeight, keyLatch)
    }

    /** The five sprite bitmaps in BITMAP_TYPE order: D-pad, A, B, Start, Select. */
    function SpriteBitmaps(): seq<Option<Bitmap>>
      reads this
    {
      [bitmapDpad, bitmapKeyA, bitmapKeyB, bitmapKeyStart, bitmapKeySelect]
    }
  }
}
