/**
 * drawControls (ui/draw_controls.cpp): five blocks of the buttons sprite
 * atlas, each drawn with the sub-rectangle drawBitmap at the position of its
 * key. Each blit is guarded on its own: a failing one does not stop the
 * next, and later blits overwrite earlier ones where they overlap.
 */
module DrawControls {
  import opened Wrappers
  import opened Raster
  import opened DrawBitmap
  import opened Engine

  /** C's conversion of an int argument to a uint parameter. */
  function Uint32(n: int): nat {
    n % 0x1_0000_0000
  }

  /** One atlas blit: the w x h block at (u, v) of the atlas, drawn with its corner at (x, y). */
  datatype Sprite = Sprite(u: nat, v: nat, w: nat, h: nat, x: int, y: int)

  /** The atlas table of drawControls, in drawing order: D-pad, A, B, Start, Select. */
  function ControlSprites(l: Layout): (s: seq<Sprite>)
    ensures |s| == 5
  {
    [ Sprite(0, 0, 50, 50, l.left.x, l.up.y),
      Sprite(50, 0, 25, 25, l.a.x, l.a.y),
      Sprite(50, 25, 25, 25, l.b.x, l.b.y),
      Sprite(75, 0, 25, 10, l.start.x, l.start.y),
      Sprite(75, 10, 25, 10, l.select.x, l.select.y) ]
  }

  /** Every pixel a blit of s touches exists, in the atlas and in the window buffer. */
  predicate SpriteFits(len: nat, stride: nat, atlas: Bitmap, s: Sprite) {
    RectFits(len, stride, atlas, s.u, s.v, s.w, s.h, Uint32(s.x), Uint32(s.y))
  }

  /** Each blit that goes ahead stays inside the atlas and the window buffer. */
  predicate SpritesFit(len: nat, stride: nat, bitmap: Option<Bitmap>, calls: seq<BitmapCalls>, sprites: seq<Sprite>) {
    |calls| == |sprites| &&
    forall j :: 0 <= j < |sprites| && Succeeds(bitmap, calls[j]) ==> SpriteFits(len, stride, bitmap.value, sprites[j])
  }

  /** The buffer after one guarded blit. */
  function SpriteDrawn(d: seq<Pixel>, stride: nat, bitmap: Option<Bitmap>, call: BitmapCalls, s: Sprite): (r: seq<Pixel>)
    requires Succeeds(bitmap, call) ==> SpriteFits(|d|, stride, bitmap.value, s)
    ensures |r| == |d|
  {
    RectDrawn(d, stride, bitmap, call, s.u, s.v, s.w, s.h, Uint32(s.x), Uint32(s.y))
  }

  /** The buffer after the blits, in order; calls[j] holds the platform outcomes of blit j. */
  function SpritesDrawn(d: seq<Pixel>, stride: nat, bitmap: Option<Bitmap>, calls: seq<BitmapCalls>, sprites: seq<Sprite>): (r: seq<Pixel>)
    requires SpritesFit(|d|, stride, bitmap, calls, sprites)
    ensures |r| == |d|
    decreases |sprites|
  {
    if sprites == [] then d
    else
      var first := SpriteDrawn(d, stride, bitmap, calls[0], sprites[0]);
      assert SpritesFit(|first|, stride, bitmap, calls[1..], sprites[1..]) by {
        forall j | 0 <= j < |sprites| - 1 && Succeeds(bitmap, calls[1..][j])
          ensures SpriteFits(|first|, stride, bitmap.value, sprites[1..][j])
        {
          assert calls[1..][j] == calls[j + 1] && sprites[1..][j] == sprites[j + 1];
        }
      }
      SpritesDrawn(first, stride, bitmap, calls[1..], sprites[1..])
  }

  /** Buffer pixel (row, col) lies in the destination rectangle of sprite s. */
  predicate InSprite(s: Sprite, row: nat, col: nat) {
    Uint32(s.y) <= row < Uint32(s.y) + s.h && Uint32(s.x) <= col < Uint32(s.x) + s.w
  }

  lemma SpritesFitTail(len: nat, stride: nat, bitmap: Option<Bitmap>, calls: seq<BitmapCalls>, sprites: seq<Sprite>)
    requires SpritesFit(len, stride, bitmap, calls, sprites) && sprites != []
    ensures SpritesFit(len, stride, bitmap, calls[1..], sprites[1..])
  {
    forall j | 0 <= j < |sprites| - 1 && Succeeds(bitmap, calls[1..][j])
      ensures SpriteFits(len, stride, bitmap.value, sprites[1..][j])
    {
      assert calls[1..][j] == calls[j + 1] && sprites[1..][j] == sprites[j + 1];
    }
  }

  /** Pixels outside every sprite rectangle are never written, whatever each blit's outcome. */
  lemma {:induction false} SpritesDrawnOutside(d: seq<Pixel>, stride: nat, bitmap: Option<Bitmap>, calls: seq<BitmapCalls>,
                                               sprites: seq<Sprite>, row: nat, col: nat)
    requires SpritesFit(|d|, stride, bitmap, calls, sprites)
    requires col < stride && row * stride + col < |d|
    requires forall j :: 0 <= j < |sprites| ==> !InSprite(sprites[j], row, col)
    ensures SpritesDrawn(d, stride, bitmap, calls, sprites)[row * stride + col] == d[row * stride + col]
    decreases |sprites|
  {
    if sprites != [] {
      var s := sprites[0];
      var first := SpriteDrawn(d, stride, bitmap, calls[0], s);
      RectDrawnOutside(d, stride, bitmap, calls[0], s.u, s.v, s.w, s.h, Uint32(s.x), Uint32(s.y), row, col);
      SpritesFitTail(|d|, stride, bitmap, calls, sprites);
      assert forall j :: 0 <= j < |sprites| - 1 ==> sprites[1..][j] == sprites[j + 1];
      SpritesDrawnOutside(first, stride, bitmap, calls[1..], sprites[1..], row, col);
    }
  }

  /** With no buttons bitmap not a single pixel changes. */
  lemma {:induction false} SpritesDrawnNullBitmap(d: seq<Pixel>, stride: nat, calls: seq<BitmapCalls>, sprites: seq<Sprite>)
    requires SpritesFit(|d|, stride, None, calls, sprites)
    ensures SpritesDrawn(d, stride, None, calls, sprites) == d
    decreases |sprites|
  {
    if sprites != [] {
      SpritesFitTail(|d|, stride, None, calls, sprites);
      SpritesDrawnNullBitmap(d, stride, calls[1..], sprites[1..]);
    }
  }

  /**
   * A pixel of sprite j's rectangle that no later sprite covers holds the
   * atlas pixel blit j copied there, provided blit j went ahead: earlier
   * blits are overwritten and later ones leave it alone.
   */
  lemma {:induction false} SpriteShows(d: seq<Pixel>, stride: nat, atlas: Bitmap, calls: seq<BitmapCalls>,
                                       sprites: seq<Sprite>, j: nat, dx: nat, dy: nat)
    requires SpritesFit(|d|, stride, Some(atlas), calls, sprites)
    requires j < |sprites| && Succeeds(Some(atlas), calls[j])
    requires dx < sprites[j].w && dy < sprites[j].h
    requires forall k :: j < k < |sprites| ==>
      !InSprite(sprites[k], Uint32(sprites[j].y) + dy, Uint32(sprites[j].x) + dx)
    ensures HoldsPixel(SpritesDrawn(d, stride, Some(atlas), calls, sprites), (Uint32(sprites[j].y) + dy) * stride + Uint32(sprites[j].x) + dx,
                       atlas.pixels, atlas.width * (sprites[j].v + dy) + sprites[j].u + dx)
    decreases |sprites|
  {
    var s := sprites[0];
    var first := SpriteDrawn(d, stride, Some(atlas), calls[0], s);
    SpritesFitTail(|d|, stride, Some(atlas), calls, sprites);
    var t := sprites[j];
    var row, col := Uint32(t.y) + dy, Uint32(t.x) + dx;
    assert SpritesDrawn(d, stride, Some(atlas), calls, sprites)
        == SpritesDrawn(first, stride, Some(atlas), calls[1..], sprites[1..]);
    if j == 0 {
      assert first == RectDrawn(d, stride, Some(atlas), calls[0], s.u, s.v, s.w, s.h, Uint32(s.x), Uint32(s.y));
      RectDrawnInside(d, stride, atlas, calls[0], s.u, s.v, s.w, s.h, Uint32(s.x), Uint32(s.y), dx, dy);
      assert forall k :: 0 <= k < |sprites| - 1 ==> sprites[1..][k] == sprites[k + 1];
      SpritesDrawnOutside(first, stride, Some(atlas), calls[1..], sprites[1..], row, col);
    } else {
      assert sprites[1..][j - 1] == t && calls[1..][j - 1] == calls[j];
      assert forall k :: j - 1 < k < |sprites| - 1 ==> sprites[1..][k] == sprites[k + 1];
      SpriteShows(first, stride, atlas, calls[1..], sprites[1..], j - 1, dx, dy);
    }
  }

  /** The Select key is drawn last, so every pixel of its rectangle shows its atlas block when its blit succeeds. */
  lemma SelectOnTop(d: seq<Pixel>, stride: nat, atlas: Bitmap, calls: seq<BitmapCalls>, l: Layout, dx: nat, dy: nat)
    requires SpritesFit(|d|, stride, Some(atlas), calls, ControlSprites(l))
    requires Succeeds(Some(atlas), calls[4]) && dx < 25 && dy < 10
    ensures HoldsPixel(SpritesDrawn(d, stride, Some(atlas), calls, ControlSprites(l)), (Uint32(l.select.y) + dy) * stride + Uint32(l.select.x) + dx,
                       atlas.pixels, atlas.width * (10 + dy) + 75 + dx)
  {
    SpriteShows(d, stride, atlas, calls, ControlSprites(l), 4, dx, dy);
  }

  /**
   * drawControls(engine, buffer): the five guarded blits; calls[j] holds the
   * platform outcomes of blit j. The return codes are only logged.
   */
  method DrawControls(e: EngineState, buffer: WindowBuffer, calls: seq<BitmapCalls>)
    requires SpritesFit(buffer.bits.Length, buffer.stride, e.bitmapButtons, calls, ControlSprites(e.Keys()))
    modifies buffer.bits
    ensures buffer.bits[..] == SpritesDrawn(old(buffer.bits[..]), buffer.stride, e.bitmapButtons, calls, ControlSprites(e.Keys()))
  {
    ghost var before := buffer.bits[..];
    ghost var sprites := ControlSprites(e.Keys());
    var bitmap := e.bitmapButtons;
    var code: int;
    if bitmap.Some? {
      code := DrawBitmapRect(buffer, bitmap, calls[0], 0, 0, 50, 50, Uint32(e.keyLeft.x), Uint32(e.keyUp.y));
    }
    if bitmap.Some? {
      code := DrawBitmapRect(buffer, bitmap, calls[1], 50, 0, 25, 25, Uint32(e.keyA.x), Uint32(e.keyA.y));
    }
    if bitmap.Some? {
      code := DrawBitmapRect(buffer, bitmap, calls[2], 50, 25, 25, 25, Uint32(e.keyB.x), Uint32(e.keyB.y));
    }
    if bitmap.Some? {
      code := DrawBitmapRect(buffer, bitmap, calls[3], 75, 0, 25, 10, Uint32(e.keyStart.x), Uint32(e.keyStart.y));
    }
    if bitmap.Some? {
      code := DrawBitmapRect(buffer, bitmap, calls[4], 75, 10, 25, 10, Uint32(e.keySelect.x), Uint32(e.keySelect.y));
    }
    if bitmap.None? {
      SpritesDrawnNullBitmap(before, buffer.stride, calls, sprites);
    } else {
      SpritesDrawnUnfold(before, buffer.stride, bitmap, calls, sprites);
    }
  }

  /** Five blits in a row are SpritesDrawn of the five-entry table. */
  lemma SpritesDrawnUnfold(d: seq<Pixel>, stride: nat, bitmap: Option<Bitmap>, calls: seq<BitmapCalls>, sprites: seq<Sprite>)
    requires |sprites| == 5 && SpritesFit(|d|, stride, bitmap, calls, sprites)
    ensures var d1 := SpriteDrawn(d, stride, bitmap, calls[0], sprites[0]);
            var d2 := SpriteDrawn(d1, stride, bitmap, calls[1], sprites[1]);
            var d3 := SpriteDrawn(d2, stride, bitmap, calls[2], sprites[2]);
            var d4 := SpriteDrawn(d3, stride, bitmap, calls[3], sprites[3]);
            SpritesDrawn(d, stride, bitmap, calls, sprites) == SpriteDrawn(d4, stride, bitmap, calls[4], sprites[4])
  {
    var c1, s1 := calls[1..], sprites[1..];
    var c2, s2 := c1[1..], s1[1..];
    var c3, s3 := c2[1..], s2[1..];
    var c4, s4 := c3[1..], s3[1..];
    assert c1[0] == calls[1] && s1[0] == sprites[1];
    assert c2[0] == calls[2] && s2[0] == sprites[2];
    assert c3[0] == calls[3] && s3[0] == sprites[3];
    assert c4[0] == calls[4] && s4[0] == sprites[4] && s4[1..] == [];
    SpritesFitTail(|d|, stride, bitmap, calls, sprites);
    SpritesFitTail(|d|, stride, bitmap, c1, s1);
    SpritesFitTail(|d|, stride, bitmap, c2, s2);
    SpritesFitTail(|d|, stride, bitmap, c3, s3);
    var d1 := SpriteDrawn(d, stride, bitmap, calls[0], sprites[0]);
    var d2 := SpriteDrawn(d1, stride, bitmap, calls[1], sprites[1]);
    var d3 := SpriteDrawn(d2, stride, bitmap, calls[2], sprites[2]);
    var d4 := SpriteDrawn(d3, stride, bitmap, calls[3], sprites[3]);
    assert SpritesDrawn(d4, stride, bitmap, c4, s4) == SpriteDrawn(d4, stride, bitmap, calls[4], sprites[4]);
    assert SpritesDrawn(d3, stride, bitmap, c3, s3) == SpritesDrawn(d4, stride, bitmap, c4, s4);
    assert SpritesDrawn(d2, stride, bitmap, c2, s2) == SpritesDrawn(d3, stride, bitmap, c3, s3);
    assert SpritesDrawn(d1, stride, bitmap, c1, s1) == SpritesDrawn(d2, stride, bitmap, c2, s2);
  }
}
