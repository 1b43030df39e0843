/**
 * drawBitmap: copy a block of an Android bitmap into a locked window
 * buffer (ui/draw_bitmap.cpp). The three AndroidBitmap calls are platform
 * calls; only whether each succeeds is modelled.
 */
module DrawBitmap {
  import opened Wrappers
  import opened Raster

  /** An Android bitmap: the width and height reported by AndroidBitmap_getInfo and its pixels, row by row. */
  datatype Bitmap = Bitmap(width: nat, height: nat, pixels: seq<Pixel>)

  /** Whether AndroidBitmap_getInfo, AndroidBitmap_lockPixels and AndroidBitmap_unlockPixels succeed in one call. */
  datatype BitmapCalls = BitmapCalls(infoOk: bool, lockOk: bool, unlockOk: bool)

  const ERR_NULL_BITMAP: int := -1
  const ERR_INFO: int := -2
  const ERR_LOCK: int := -3
  const ERR_UNLOCK: int := -4

  /** The blit goes ahead: the bitmap is not null and all three platform calls succeed. */
  predicate Succeeds(bitmap: Option<Bitmap>, calls: BitmapCalls) {
    bitmap.Some? && calls.infoOk && calls.lockOk && calls.unlockOk
  }

  /**
   * The result code of the sub-rectangle drawBitmap: the first failing step
   * decides it, 0 when none fails.
   */
  function BlitStatus(bitmap: Option<Bitmap>, calls: BitmapCalls): (code: int)
    ensures code == 0 <==> Succeeds(bitmap, calls)
    ensures bitmap.None? ==> code == ERR_NULL_BITMAP
    ensures bitmap.Some? && !calls.infoOk ==> code == ERR_INFO
    ensures bitmap.Some? && calls.infoOk && !calls.lockOk ==> code == ERR_LOCK
    ensures bitmap.Some? && calls.infoOk && calls.lockOk && !calls.unlockOk ==> code == ERR_UNLOCK
  {
    if bitmap.None? then ERR_NULL_BITMAP
    else if !calls.infoOk then ERR_INFO
    else if !calls.lockOk then ERR_LOCK
    else if !calls.unlockOk then ERR_UNLOCK
    else 0
  }

  /** Every pixel the blit touches, in the bitmap and in the window buffer, exists. */
  predicate RectFits(len: nat, stride: nat, b: Bitmap, u: nat, v: nat, w: nat, h: nat, x: nat, y: nat) {
    DestFits(len, stride, x, y, w, h) && SourceFits(|b.pixels|, b.width, u, v, w, h)
  }

  /** The window buffer after drawBitmap(bitmap, u, v, w, h, x, y): the blitted buffer on success, untouched otherwise. */
  function RectDrawn(d: seq<Pixel>, stride: nat, bitmap: Option<Bitmap>, calls: BitmapCalls,
                     u: nat, v: nat, w: nat, h: nat, x: nat, y: nat): (r: seq<Pixel>)
    requires Succeeds(bitmap, calls) ==> SourceFits(|bitmap.value.pixels|, bitmap.value.width, u, v, w, h)
    ensures |r| == |d|
  {
    if Succeeds(bitmap, calls)
    then Blitted(d, stride, x, y, bitmap.value.pixels, bitmap.value.width, u, v, w, h)
    else d
  }

  /** drawBitmap(env, buffer, bitmap, u, v, w, h, x, y): copy the w x h block at (u, v) to (x, y). */
  method DrawBitmapRect(buffer: WindowBuffer, bitmap: Option<Bitmap>, calls: BitmapCalls,
                        u: nat, v: nat, w: nat, h: nat, x: nat, y: nat) returns (code: int)
    requires Succeeds(bitmap, calls) ==> RectFits(buffer.bits.Length, buffer.stride, bitmap.value, u, v, w, h, x, y)
    modifies buffer.bits
    ensures code == BlitStatus(bitmap, calls)
    ensures buffer.bits[..] == RectDrawn(old(buffer.bits[..]), buffer.stride, bitmap, calls, u, v, w, h, x, y)
  {
    if bitmap.None? {
      return ERR_NULL_BITMAP;
    }
    if !calls.infoOk {
      return ERR_INFO;
    }
    if !calls.lockOk {
      return ERR_LOCK;
    }
    if !calls.unlockOk {
      return ERR_UNLOCK;
    }
    var info := bitmap.value;
    CopyRect(buffer.bits, buffer.stride, x, y, info.pixels, info.width, u, v, w, h);
    return 0;
  }

  /**
   * drawBitmap(env, buffer, bitmap, x, y): the whole bitmap at (x, y). It
   * queries the bitmap info itself (`infoOk`) and then delegates, so the
   * delegated call makes its own three platform calls (`inner`).
   */
  method DrawBitmap(buffer: WindowBuffer, bitmap: Option<Bitmap>, infoOk: bool, inner: BitmapCalls,
                    x: nat, y: nat) returns (code: int)
    requires bitmap.Some? && infoOk && Succeeds(bitmap, inner) ==>
      RectFits(buffer.bits.Length, buffer.stride, bitmap.value, 0, 0, bitmap.value.width, bitmap.value.height, x, y)
    modifies buffer.bits
    ensures bitmap.None? ==> code == ERR_NULL_BITMAP
    ensures bitmap.Some? && !infoOk ==> code == ERR_INFO
    ensures bitmap.Some? && infoOk ==> code == BlitStatus(bitmap, inner)
    ensures buffer.bits[..] ==
      if bitmap.Some? && infoOk
      then RectDrawn(old(buffer.bits[..]), buffer.stride, bitmap, inner, 0, 0, bitmap.value.width, bitmap.value.height, x, y)
      else old(buffer.bits[..])
  {
    if bitmap.None? {
      return ERR_NULL_BITMAP;
    }
    if !infoOk {
      return ERR_INFO;
    }
    var info := bitmap.value;
    code := DrawBitmapRect(buffer, bitmap, inner, 0, 0, info.width, info.height, x, y);
  }

  /** A correctly sized bitmap always fits as a whole: every read of the whole-bitmap overload is in bounds. */
  lemma WholeBitmapSourceFits(b: Bitmap)
    requires |b.pixels| == b.width * b.height
    ensures SourceFits(|b.pixels|, b.width, 0, 0, b.width, b.height)
  {
  }

  /** After a successful drawBitmap each rectangle pixel holds its bitmap pixel. */
  lemma RectDrawnInside(d: seq<Pixel>, stride: nat, b: Bitmap, calls: BitmapCalls,
                        u: nat, v: nat, w: nat, h: nat, x: nat, y: nat, dx: nat, dy: nat)
    requires Succeeds(Some(b), calls) && RectFits(|d|, stride, b, u, v, w, h, x, y)
    requires dx < w && dy < h
    ensures HoldsPixel(RectDrawn(d, stride, Some(b), calls, u, v, w, h, x, y), (y + dy) * stride + x + dx,
                       b.pixels, b.width * (v + dy) + u + dx)
  {
    BlittedInside(d, stride, x, y, b.pixels, b.width, u, v, w, h, dx, dy);
  }

  /** drawBitmap changes no pixel outside its destination rectangle, whatever the outcome. */
  lemma RectDrawnOutside(d: seq<Pixel>, stride: nat, bitmap: Option<Bitmap>, calls: BitmapCalls,
                         u: nat, v: nat, w: nat, h: nat, x: nat, y: nat, row: nat, col: nat)
    requires Succeeds(bitmap, calls) ==> SourceFits(|bitmap.value.pixels|, bitmap.value.width, u, v, w, h)
    requires col < stride && row * stride + col < |d|
    requires !(y <= row < y + h && x <= col < x + w)
    ensures RectDrawn(d, stride, bitmap, calls, u, v, w, h, x, y)[row * stride + col] == d[row * stride + col]
  {
    if Succeeds(bitmap, calls) {
      BlittedOutside(d, stride, x, y, bitmap.value.pixels, bitmap.value.width, u, v, w, h, row, col);
    }
  }

  /** An error code means no pixel was written; so does an empty rectangle. */
  lemma RectDrawnUnchanged(d: seq<Pixel>, stride: nat, bitmap: Option<Bitmap>, calls: BitmapCalls,
                           u: nat, v: nat, w: nat, h: nat, x: nat, y: nat)
    requires Succeeds(bitmap, calls) ==> SourceFits(|bitmap.value.pixels|, bitmap.value.width, u, v, w, h)
    requires BlitStatus(bitmap, calls) != 0 || w == 0 || h == 0
    ensures RectDrawn(d, stride, bitmap, calls, u, v, w, h, x, y) == d
  {
    if Succeeds(bitmap, calls) {
      BlittedEmpty(d, stride, x, y, bitmap.value.pixels, bitmap.value.width, u, v, w, h);
    }
  }
}
