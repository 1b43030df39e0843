/**
 * The native activity of source/main.cpp: hit testing, the list of active
 * pointers and the joypad flags recomputed from it, the lifecycle commands,
 * the frame step, and the reader of the ROM-path message. Android's input
 * queue, looper, window and JNI calls are not modelled: an event is a
 * value, and whatever the platform or the engine answers is a parameter.
 */
module NativeMain {
  import opened Wrappers
  import opened CStrings
  import opened Raster
  import opened DrawBitmap
  import opened Engine
  import opened Joypad
  import opened Display
  import opened DrawControls
  import opened InitDisplay
  import opened Emulator
  import opened MessagePipe

  // The AMOTION_EVENT_ACTION_* constants of the NDK's input.h.
  const ACTION_MASK: bv32 := 0xff
  const ACTION_POINTER_INDEX_MASK: bv32 := 0xff00
  const ACTION_POINTER_INDEX_SHIFT: nat := 8
  const ACTION_DOWN: bv32 := 0
  const ACTION_UP: bv32 := 1
  const ACTION_POINTER_DOWN: bv32 := 5
  const ACTION_POINTER_UP: bv32 := 6

  /** One pointer of a motion event: its id and its position, already multiplied by uiScale. */
  datatype Pointer = Pointer(id: nat, x: real, y: real)

  /** An input event: a motion event with its action word and its pointers, or an event of any other type. */
  datatype InputEvent = MotionEvent(action: bv32, pointers: seq<Pointer>) | OtherEvent

  /** action & AMOTION_EVENT_ACTION_MASK. */
  function ActionCode(action: bv32): bv32 {
    action & ACTION_MASK
  }

  /** The pointer index packed into a POINTER_DOWN or POINTER_UP action. */
  function ActionPointerIndex(action: bv32): (index: nat)
    ensures index < 256
  {
    PointerIndexBits(action);
    ((action & ACTION_POINTER_INDEX_MASK) >> ACTION_POINTER_INDEX_SHIFT) as nat
  }

  lemma PointerIndexBits(action: bv32)
    ensures ((action & ACTION_POINTER_INDEX_MASK) >> ACTION_POINTER_INDEX_SHIFT) as nat < 256
  {
    assert (action & ACTION_POINTER_INDEX_MASK) >> ACTION_POINTER_INDEX_SHIFT <= 0xff;
  }

  /**
   * What Android guarantees of a motion event: it has a pointer, and the
   * index in a POINTER_DOWN or POINTER_UP action names one of its pointers.
   */
  predicate WellFormed(action: bv32, pointers: seq<Pointer>) {
    |pointers| >= 1 &&
    (ActionCode(action) == ACTION_POINTER_DOWN || ActionCode(action) == ACTION_POINTER_UP ==>
       ActionPointerIndex(action) < |pointers|)
  }

  // ---------------------------------------------------------------- hit testing

  /** isTouched: the point lies in the half-open rectangle [x, x + width) x [y, y + height). */
  function IsTouched(obj: UiObj, x: real, y: real): (touched: bool)
    ensures touched ==> obj.width > 0 && obj.height > 0
  {
    x >= obj.x as real && x < (obj.x + obj.width) as real &&
    y >= obj.y as real && y < (obj.y + obj.height) as real
  }

  /** The top-left corner belongs to a non-empty rectangle; the column and the row just past it do not. */
  lemma IsTouchedHalfOpen(obj: UiObj, x: real, y: real)
    ensures IsTouched(obj, obj.x as real, obj.y as real) <==> obj.width > 0 && obj.height > 0
    ensures !IsTouched(obj, (obj.x + obj.width) as real, y)
    ensures !IsTouched(obj, x, (obj.y + obj.height) as real)
  {
  }

  /** No point touches two disjoint rectangles. */
  lemma DisjointNotBothTouched(r: UiObj, q: UiObj, x: real, y: real)
    requires Disjoint(r, q)
    ensures !(IsTouched(r, x, y) && IsTouched(q, x, y))
  {
  }

  /**
   * With the layout initDisplay computes, one pointer presses at most one
   * D-pad direction, never both A and B, and never both Select and Start.
   */
  lemma OnePointerOneKey(w: int, h: int, x: real, y: real)
    ensures var l := KeyLayout(w, h);
      && (IsTouched(l.up, x, y) ==> !IsTouched(l.down, x, y) && !IsTouched(l.left, x, y) && !IsTouched(l.right, x, y))
      && (IsTouched(l.down, x, y) ==> !IsTouched(l.left, x, y) && !IsTouched(l.right, x, y))
      && (IsTouched(l.left, x, y) ==> !IsTouched(l.right, x, y))
      && !(IsTouched(l.a, x, y) && IsTouched(l.b, x, y))
      && !(IsTouched(l.select, x, y) && IsTouched(l.start, x, y))
  {
    var l := KeyLayout(w, h);
    DpadKeysInSquare(w, h);
    ActionKeysApart(w, h);
    DisjointNotBothTouched(l.up, l.down, x, y);
    DisjointNotBothTouched(l.up, l.left, x, y);
    DisjointNotBothTouched(l.up, l.right, x, y);
    DisjointNotBothTouched(l.down, l.left, x, y);
    DisjointNotBothTouched(l.down, l.right, x, y);
    DisjointNotBothTouched(l.left, l.right, x, y);
    DisjointNotBothTouched(l.a, l.b, x, y);
    DisjointNotBothTouched(l.select, l.start, x, y);
  }

  // ---------------------------------------------------------------- pointer lookup

  /** The index of the first pointer of the event with the id, or -1 when none has it. */
  function IndexOfPointer(ps: seq<Pointer>, id: nat): (index: int)
    ensures -1 <= index < |ps|
    ensures index >= 0 ==> ps[index].id == id && forall j :: 0 <= j < index ==> ps[j].id != id
    ensures index == -1 ==> forall j :: 0 <= j < |ps| ==> ps[j].id != id
  {
    if ps == [] then -1
    else if ps[0].id == id then 0
    else
      var k := IndexOfPointer(ps[1..], id);
      assert forall j :: 1 <= j < |ps| ==> ps[j] == ps[1..][j - 1];
      if k == -1 then -1 else k + 1
  }

  /** findPointerIndex(event, id): the search loop over the event's pointers. */
  method FindPointerIndex(ps: seq<Pointer>, id: nat) returns (index: int)
    ensures index == IndexOfPointer(ps, id)
  {
    var i := 0;
    while i < |ps|
      invariant 0 <= i <= |ps|
      invariant forall j :: 0 <= j < i ==> ps[j].id != id
    {
      if ps[i].id == id {
        return i;
      }
      i := i + 1;
    }
    return -1;
  }

  // ---------------------------------------------------------------- the pointer list

  /** activePointerIds after erasing the first occurrence of id; a list without id is kept. */
  function RemoveFirst(ids: seq<nat>, id: nat): (r: seq<nat>)
    ensures id !in ids ==> r == ids
    ensures id in ids ==> |r| == |ids| - 1
  {
    if ids == [] then []
    else if ids[0] == id then ids[1..]
    else [ids[0]] + RemoveFirst(ids[1..], id)
  }

  /** Erasing takes away exactly one copy of the id: the list loses that one entry and keeps every other. */
  lemma {:induction false} RemoveFirstCount(ids: seq<nat>, id: nat)
    requires id in ids
    ensures multiset(RemoveFirst(ids, id)) == multiset(ids) - multiset{id}
  {
    assert ids == [ids[0]] + ids[1..];
    if ids[0] != id {
      RemoveFirstCount(ids[1..], id);
    }
  }

  /** The erased entry is the first occurrence, and every other id keeps its place in the order. */
  lemma {:induction false} RemoveFirstAt(ids: seq<nat>, id: nat, k: nat)
    requires k < |ids| && ids[k] == id && id !in ids[..k]
    ensures RemoveFirst(ids, id) == ids[..k] + ids[k + 1..]
  {
    if k == 0 {
      assert ids[..0] + ids[1..] == ids[1..];
    } else {
      assert ids[0] in ids[..k];
      assert ids[1..][..k - 1] == ids[1..k];
      RemoveFirstAt(ids[1..], id, k - 1);
      assert ids[..k] == [ids[0]] + ids[1..][..k - 1];
      assert ids[k + 1..] == ids[1..][k..];
    }
  }

  /** A pointer that went down and came up leaves the list it found, when its id was not on it yet. */
  lemma RemoveFirstUndoesPush(ids: seq<nat>, id: nat)
    requires id !in ids
    ensures RemoveFirst(ids + [id], id) == ids
  {
    var s := ids + [id];
    assert s[|ids|] == id && s[..|ids|] == ids;
    RemoveFirstAt(s, id, |ids|);
    assert s[|ids| + 1..] == [];
  }

  /** The erase loop of the POINTER_UP case: scan the list and erase at the first match. */
  method EraseFirst(ids: seq<nat>, id: nat) returns (r: seq<nat>)
    ensures r == RemoveFirst(ids, id)
  {
    var i := 0;
    while i < |ids|
      invariant 0 <= i <= |ids|
      invariant id !in ids[..i]
    {
      if ids[i] == id {
        RemoveFirstAt(ids, id, i);
        return ids[..i] + ids[i + 1..];
      }
      assert ids[..i + 1] == ids[..i] + [ids[i]];
      i := i + 1;
    }
    assert ids[..i] == ids;
    return ids;
  }

  /** The ACTION_UP case as written: pop_back, whose behaviour on an empty vector is undefined (None). */
  function PopBackAsWritten(ids: seq<nat>): (r: Option<seq<nat>>)
    ensures r.None? <==> ids == []
    ensures r.Some? ==> ids == r.value + [ids[|ids| - 1]]
  {
    if ids == [] then None else Some(ids[..|ids| - 1])
  }

  /** The ACTION_UP case as intended: the last id is removed, and an empty list stays empty. */
  function PopLast(ids: seq<nat>): (r: seq<nat>)
    ensures ids != [] ==> ids == r + [ids[|ids| - 1]]
    ensures ids == [] ==> r == []
  {
    if ids == [] then [] else ids[..|ids| - 1]
  }

  /** Where pop_back is defined the corrected step agrees with it, and pop after push restores the list. */
  lemma PopLastAgrees(ids: seq<nat>, id: nat)
    ensures ids != [] ==> PopBackAsWritten(ids) == Some(PopLast(ids))
    ensures PopLast(ids + [id]) == ids
  {
    assert (ids + [id])[..|ids|] == ids;
  }

  /** activePointerIds after a motion event of a loaded session, with the ACTION_UP step corrected. */
  function PointersAfter(ids: seq<nat>, action: bv32, ps: seq<Pointer>): seq<nat>
    requires WellFormed(action, ps)
  {
    var code := ActionCode(action);
    if code == ACTION_DOWN then ids + [ps[0].id]
    else if code == ACTION_POINTER_DOWN then ids + [ps[ActionPointerIndex(action)].id]
    else if code == ACTION_UP then PopLast(ids)
    else if code == ACTION_POINTER_UP then RemoveFirst(ids, ps[ActionPointerIndex(action)].id)
    else ids
  }

  /** The same step as written; None where pop_back runs on an empty list. */
  function PointersAfterAsWritten(ids: seq<nat>, action: bv32, ps: seq<Pointer>): Option<seq<nat>>
    requires WellFormed(action, ps)
  {
    if ActionCode(action) == ACTION_UP then PopBackAsWritten(ids) else Some(PointersAfter(ids, action, ps))
  }

  /**
   * The two agree except on one input: ACTION_UP with an empty list, where
   * the code as written is undefined.
   */
  lemma AsWrittenDiffersOnlyOnEmptyUp(ids: seq<nat>, action: bv32, ps: seq<Pointer>)
    requires WellFormed(action, ps)
    ensures PointersAfterAsWritten(ids, action, ps).None? <==> ActionCode(action) == ACTION_UP && ids == []
    ensures PointersAfterAsWritten(ids, action, ps).Some? ==>
      PointersAfterAsWritten(ids, action, ps).value == PointersAfter(ids, action, ps)
  {
    if ids != [] {
      PopLastAgrees(ids, 0);
    }
  }

  /** The ids a motion event adds to or removes from the list. */
  lemma PointerListSteps(ids: seq<nat>, action: bv32, ps: seq<Pointer>)
    requires WellFormed(action, ps)
    ensures ActionCode(action) == ACTION_DOWN ==> PointersAfter(ids, action, ps) == ids + [ps[0].id]
    ensures ActionCode(action) == ACTION_POINTER_DOWN ==>
      PointersAfter(ids, action, ps) == ids + [ps[ActionPointerIndex(action)].id]
    ensures ActionCode(action) == ACTION_UP && ids != [] ==> PointersAfter(ids, action, ps) + [ids[|ids| - 1]] == ids
    ensures ActionCode(action) == ACTION_POINTER_UP ==>
      var id := ps[ActionPointerIndex(action)].id;
      (id !in ids ==> PointersAfter(ids, action, ps) == ids) &&
      (id in ids ==> multiset(PointersAfter(ids, action, ps)) == multiset(ids) - multiset{id})
    ensures ActionCode(action) !in {ACTION_DOWN, ACTION_POINTER_DOWN, ACTION_UP, ACTION_POINTER_UP} ==>
      PointersAfter(ids, action, ps) == ids
  {
    if ActionCode(action) == ACTION_POINTER_UP {
      var id := ps[ActionPointerIndex(action)].id;
      if id in ids {
        RemoveFirstCount(ids, id);
      }
    }
  }

  // ---------------------------------------------------------------- the joypad flags

  /** The rectangle of a key. */
  function KeyRect(l: Layout, k: JoypadKey): UiObj
    requires Listed(k)
  {
    match k
    case KeyA => l.a
    case KeyB => l.b
    case KeyLeft => l.left
    case KeyUp => l.up
    case KeyRight => l.right
    case KeyDown => l.down
    case KeyStart => l.start
    case KeySelect => l.select
  }

  /** The event has a pointer with the id, and the first such pointer lies in r. */
  predicate PointerTouches(ps: seq<Pointer>, id: nat, r: UiObj) {
    var k := IndexOfPointer(ps, id);
    k != -1 && IsTouched(r, ps[k].x, ps[k].y)
  }

  /**
   * Whether a key is down after the event: the active ids taken in order,
   * oldest first, each pressing the key when it is present and touches r.
   */
  predicate AnyTouches(ids: seq<nat>, ps: seq<Pointer>, r: UiObj)
    decreases |ids|
  {
    |ids| > 0 && (AnyTouches(ids[..|ids| - 1], ps, r) || PointerTouches(ps, ids[|ids| - 1], r))
  }

  /** The key is down exactly when some active id is present in the event with its point inside r. */
  lemma {:induction false} AnyTouchesExists(ids: seq<nat>, ps: seq<Pointer>, r: UiObj)
    ensures AnyTouches(ids, ps, r) <==> exists j :: 0 <= j < |ids| && PointerTouches(ps, ids[j], r)
    decreases |ids|
  {
    if |ids| > 0 {
      var front := ids[..|ids| - 1];
      AnyTouchesExists(front, ps, r);
      if exists j :: 0 <= j < |ids| && PointerTouches(ps, ids[j], r) {
        var j :| 0 <= j < |ids| && PointerTouches(ps, ids[j], r);
        if j < |front| {
          assert front[j] == ids[j];
        }
      }
      if exists j :: 0 <= j < |front| && PointerTouches(ps, front[j], r) {
        var j :| 0 <= j < |front| && PointerTouches(ps, front[j], r);
        assert ids[j] == front[j];
      }
    }
  }

  /** Taking one more id of the list into account. */
  lemma AnyTouchesExtend(ids: seq<nat>, i: nat, ps: seq<Pointer>, r: UiObj)
    requires i < |ids|
    ensures AnyTouches(ids[..i + 1], ps, r) == (AnyTouches(ids[..i], ps, r) || PointerTouches(ps, ids[i], r))
  {
    assert ids[..i + 1][..i] == ids[..i];
  }

  /** Ids absent from the event contribute nothing: an empty event presses no key. */
  lemma {:induction false} NoPointersNoKeys(ids: seq<nat>, r: UiObj)
    ensures !AnyTouches(ids, [], r)
    decreases |ids|
  {
    if |ids| > 0 {
      NoPointersNoKeys(ids[..|ids| - 1], r);
    }
  }

  /**
   * handleInputPointer: every key whose rectangle holds the pointer is
   * pressed; no flag is cleared. The eight tests run in the source's order,
   * four in each of the two helpers below.
   */
  method HandleInputPointer(e: EngineState, joypad: JoypadController, p: Pointer)
    modifies joypad
    ensures joypad.a == (old(joypad.a) || IsTouched(e.keyA, p.x, p.y))
    ensures joypad.b == (old(joypad.b) || IsTouched(e.keyB, p.x, p.y))
    ensures joypad.left == (old(joypad.left) || IsTouched(e.keyLeft, p.x, p.y))
    ensures joypad.up == (old(joypad.up) || IsTouched(e.keyUp, p.x, p.y))
    ensures joypad.right == (old(joypad.right) || IsTouched(e.keyRight, p.x, p.y))
    ensures joypad.down == (old(joypad.down) || IsTouched(e.keyDown, p.x, p.y))
    ensures joypad.start == (old(joypad.start) || IsTouched(e.keyStart, p.x, p.y))
    ensures joypad.select == (old(joypad.select) || IsTouched(e.keySelect, p.x, p.y))
  {
    TestKeysAToUp(e, joypad, p);
    TestKeysRightToSelect(e, joypad, p);
  }

  /** The tests of keyA, keyB, keyLeft and keyUp. */
  method TestKeysAToUp(e: EngineState, joypad: JoypadController, p: Pointer)
    modifies joypad
    ensures joypad.a == (old(joypad.a) || IsTouched(e.keyA, p.x, p.y))
    ensures joypad.b == (old(joypad.b) || IsTouched(e.keyB, p.x, p.y))
    ensures joypad.left == (old(joypad.left) || IsTouched(e.keyLeft, p.x, p.y))
    ensures joypad.up == (old(joypad.up) || IsTouched(e.keyUp, p.x, p.y))
    ensures joypad.right == old(joypad.right) && joypad.down == old(joypad.down) && joypad.start == old(joypad.start) && joypad.select == old(joypad.select)
  {
    var touched := IsTouched(e.keyA, p.x, p.y);
    if touched {
      joypad.a := true;
    }
    touched := IsTouched(e.keyB, p.x, p.y);
    if touched {
      joypad.b := true;
    }
    touched := IsTouched(e.keyLeft, p.x, p.y);
    if touched {
      joypad.left := true;
    }
    touched := IsTouched(e.keyUp, p.x, p.y);
    if touched {
      joypad.up := true;
    }
  }

  /** The tests of keyRight, keyDown, keyStart and keySelect. */
  method TestKeysRightToSelect(e: EngineState, joypad: JoypadController, p: Pointer)
    modifies joypad
    ensures joypad.right == (old(joypad.right) || IsTouched(e.keyRight, p.x, p.y))
    ensures joypad.down == (old(joypad.down) || IsTouched(e.keyDown, p.x, p.y))
    ensures joypad.start == (old(joypad.start) || IsTouched(e.keyStart, p.x, p.y))
    ensures joypad.select == (old(joypad.select) || IsTouched(e.keySelect, p.x, p.y))
    ensures joypad.a == old(joypad.a) && joypad.b == old(joypad.b) && joypad.left == old(joypad.left) && joypad.up == old(joypad.up)
  {
    var touched := IsTouched(e.keyRight, p.x, p.y);
    if touched {
      joypad.right := true;
    }
    touched := IsTouched(e.keyDown, p.x, p.y);
    if touched {
      joypad.down := true;
    }
    touched := IsTouched(e.keyStart, p.x, p.y);
    if touched {
      joypad.start := true;
    }
    touched := IsTouched(e.keySelect, p.x, p.y);
    if touched {
      joypad.select := true;
    }
  }

  /** Eight flags, each matching its key's rectangle, are the key-by-key statement. */
  lemma FlagsShowTouches(joypad: JoypadController, l: Layout, ids: seq<nat>, ps: seq<Pointer>)
    requires joypad.a == AnyTouches(ids, ps, l.a)
    requires joypad.b == AnyTouches(ids, ps, l.b)
    requires joypad.left == AnyTouches(ids, ps, l.left)
    requires joypad.up == AnyTouches(ids, ps, l.up)
    requires joypad.right == AnyTouches(ids, ps, l.right)
    requires joypad.down == AnyTouches(ids, ps, l.down)
    requires joypad.start == AnyTouches(ids, ps, l.start)
    requires joypad.select == AnyTouches(ids, ps, l.select)
    ensures forall k :: Listed(k) ==> (joypad.IsKeyPressed(k) <==> AnyTouches(ids, ps, KeyRect(l, k)))
    ensures forall k :: !Listed(k) ==> !joypad.IsKeyPressed(k)
  {
  }

  /** The eight flags are cleared before the active pointers are taken into account. */
  method ClearKeys(joypad: JoypadController)
    modifies joypad
    ensures !joypad.a && !joypad.b && !joypad.left && !joypad.up
    ensures !joypad.right && !joypad.down && !joypad.start && !joypad.select
  {
    joypad.a := false;
    joypad.b := false;
    joypad.start := false;
    joypad.select := false;
    joypad.left := false;
    joypad.up := false;
    joypad.right := false;
    joypad.down := false;
  }

  /** Clear the eight flags, then press the keys under each active pointer present in the event. */
  method RecomputeJoypad(e: EngineState, joypad: JoypadController, ps: seq<Pointer>)
    modifies joypad
    ensures forall k :: Listed(k) ==> (joypad.IsKeyPressed(k) <==> AnyTouches(e.activePointerIds, ps, KeyRect(e.Keys(), k)))
    ensures forall k :: !Listed(k) ==> !joypad.IsKeyPressed(k)
  {
    ClearKeys(joypad);

    var ids := e.activePointerIds;
    var i := 0;
    while i < |ids|
      invariant 0 <= i <= |ids|
      invariant joypad.a == AnyTouches(ids[..i], ps, e.keyA)
      invariant joypad.b == AnyTouches(ids[..i], ps, e.keyB)
      invariant joypad.left == AnyTouches(ids[..i], ps, e.keyLeft)
      invariant joypad.up == AnyTouches(ids[..i], ps, e.keyUp)
      invariant joypad.right == AnyTouches(ids[..i], ps, e.keyRight)
      invariant joypad.down == AnyTouches(ids[..i], ps, e.keyDown)
      invariant joypad.start == AnyTouches(ids[..i], ps, e.keyStart)
      invariant joypad.select == AnyTouches(ids[..i], ps, e.keySelect)
    {
      TakePointer(e, joypad, ps, ids[i]);
      AnyTouchesExtend(ids, i, ps, e.keyA);
      AnyTouchesExtend(ids, i, ps, e.keyB);
      AnyTouchesExtend(ids, i, ps, e.keyLeft);
      AnyTouchesExtend(ids, i, ps, e.keyUp);
      AnyTouchesExtend(ids, i, ps, e.keyRight);
      AnyTouchesExtend(ids, i, ps, e.keyDown);
      AnyTouchesExtend(ids, i, ps, e.keyStart);
      AnyTouchesExtend(ids, i, ps, e.keySelect);
      i := i + 1;
    }
    assert ids[..i] == ids;
    FlagsShowTouches(joypad, e.Keys(), ids, ps);
  }

  /** One pass of the loop: the pointer with the id, if the event has one, presses its keys. */
  method TakePointer(e: EngineState, joypad: JoypadController, ps: seq<Pointer>, id: nat)
    modifies joypad
    ensures joypad.a == (old(joypad.a) || PointerTouches(ps, id, e.keyA))
    ensures joypad.b == (old(joypad.b) || PointerTouches(ps, id, e.keyB))
    ensures joypad.left == (old(joypad.left) || PointerTouches(ps, id, e.keyLeft))
    ensures joypad.up == (old(joypad.up) || PointerTouches(ps, id, e.keyUp))
    ensures joypad.right == (old(joypad.right) || PointerTouches(ps, id, e.keyRight))
    ensures joypad.down == (old(joypad.down) || PointerTouches(ps, id, e.keyDown))
    ensures joypad.start == (old(joypad.start) || PointerTouches(ps, id, e.keyStart))
    ensures joypad.select == (old(joypad.select) || PointerTouches(ps, id, e.keySelect))
  {
    var pointerIndex := FindPointerIndex(ps, id);
    if pointerIndex != -1 {
      HandleInputPointer(e, joypad, ps[pointerIndex]);
    }
  }

  /**
   * engine_handle_input(app, event), returning the handler's result and
   * whether the ROM picker was requested. The ACTION_UP step is the
   * corrected PopLast.
   */
  method HandleInput(e: EngineState, joypad: JoypadController, emu: Emulator, ev: InputEvent)
    returns (handled: int, pickRom: bool)
    requires ev.MotionEvent? ==> WellFormed(ev.action, ev.pointers)
    modifies e, joypad
    ensures ev.OtherEvent? ==> handled == 0 && !pickRom
    ensures ev.MotionEvent? ==> handled == 1
    ensures pickRom <==> ev.MotionEvent? && emu.status != Loaded
    ensures ev.OtherEvent? || pickRom ==> unchanged(joypad) && e.activePointerIds == old(e.activePointerIds)
    ensures ev.MotionEvent? && !pickRom ==>
      e.activePointerIds == PointersAfter(old(e.activePointerIds), ev.action, ev.pointers) &&
      (forall k :: Listed(k) ==> (joypad.IsKeyPressed(k) <==> AnyTouches(e.activePointerIds, ev.pointers, KeyRect(e.Keys(), k)))) &&
      (forall k :: !Listed(k) ==> !joypad.IsKeyPressed(k))
    ensures e.Keys() == old(e.Keys()) && e.Setup() == old(e.Setup()) && e.SpriteBitmaps() == old(e.SpriteBitmaps())
    ensures e.animating == old(e.animating)
  {
    if ev.OtherEvent? {
      return 0, false;
    }
    if emu.status != Loaded {
      return 1, true;
    }
    var action := ev.action;
    var ps := ev.pointers;
    var flags := ActionCode(action);
    var ids := e.activePointerIds;
    if flags == ACTION_DOWN {
      // Only the primary pointer takes part in ACTION_DOWN.
      ids := ids + [ps[0].id];
    } else if flags == ACTION_POINTER_DOWN {
      var pointerIndex := ActionPointerIndex(action);
      ids := ids + [ps[pointerIndex].id];
    } else if flags == ACTION_UP {
      ids := PopLast(ids);
    } else if flags == ACTION_POINTER_UP {
      var pointerId := ps[ActionPointerIndex(action)].id;
      ids := EraseFirst(ids, pointerId);
    }
    e.activePointerIds := ids;
    RecomputeJoypad(e, joypad, ps);
    return 1, false;
  }

  // ---------------------------------------------------------------- lifecycle commands

  /** The APP_CMD_* commands the handler distinguishes, and any other. */
  datatype AppCmd = InitWindow | TermWindow | GainedFocus | LostFocus | SaveStateCmd | OtherCmd(code: int)

  /** The four window and focus commands, each of which clears the pointer list. */
  predicate ClearsPointers(cmd: AppCmd) {
    cmd.InitWindow? || cmd.TermWindow? || cmd.GainedFocus? || cmd.LostFocus?
  }

  /** The commands that draw a frame: INIT_WINDOW with a window, and LOST_FOCUS. */
  predicate DrawsFrame(cmd: AppCmd, window: Option<WindowBuffer>) {
    (cmd.InitWindow? && window.Some?) || cmd.LostFocus?
  }

  /** The animating flag after a command: set by GAINED_FOCUS, cleared by LOST_FOCUS and TERM_WINDOW. */
  function AnimatingAfter(animating: bool, cmd: AppCmd): (r: bool)
    ensures cmd.GainedFocus? ==> r
    ensures cmd.LostFocus? || cmd.TermWindow? ==> !r
    ensures !cmd.GainedFocus? && !cmd.LostFocus? && !cmd.TermWindow? ==> r == animating
  {
    match cmd
    case GainedFocus => true
    case LostFocus => false
    case TermWindow => false
    case _ => animating
  }

  /**
   * A finger that is on the screen when a lifecycle command empties the
   * list (HandleCmd) ends in an ACTION_UP that the code as written pops
   * from an empty vector; the corrected step leaves the list empty.
   */
  lemma UpAfterLifecycleCommand(p: Pointer)
    ensures PointersAfter([], ACTION_DOWN, [p]) == [p.id]
    ensures PointersAfterAsWritten([], ACTION_UP, [p]) == None
    ensures PointersAfter([], ACTION_UP, [p]) == []
  {
    assert ActionCode(ACTION_DOWN) == ACTION_DOWN;
    assert ActionCode(ACTION_UP) == ACTION_UP;
  }

  /** engine_term_display: the five sprite bitmaps are released and animation stops. */
  method TermDisplay(e: EngineState)
    modifies e
    ensures e.SpriteBitmaps() == [None, None, None, None, None]
    ensures !e.animating
    ensures e.Keys() == old(e.Keys()) && e.Setup() == old(e.Setup())
    ensures e.activePointerIds == old(e.activePointerIds)
  {
    e.bitmapDpad := None;
    e.bitmapKeyA := None;
    e.bitmapKeyB := None;
    e.bitmapKeyStart := None;
    e.bitmapKeySelect := None;
    e.animating := false;
  }

  /** The handle after a load: the bitmap loadBitmap returned, or the old handle when it returned null. */
  function Fetched(stored: Option<Bitmap>, loaded: Option<Bitmap>): (r: Option<Bitmap>)
    ensures loaded.Some? ==> r == loaded
    ensures loaded.None? ==> r == stored
  {
    if loaded.Some? then loaded else stored
  }

  /**
   * engine_init_display of source/main.cpp: the buffer size, the same key
   * layout as initDisplay, and the five sprite bitmaps, each replaced only
   * when loadBitmap returned one. `sprites` are those answers in
   * BITMAP_TYPE order; the key latch and the atlas bitmaps are not touched.
   */
  method EngineInitDisplay(e: EngineState, bufferWidth: int, bufferHeight: int, geometryResult: int,
                           sprites: seq<Option<Bitmap>>) returns (result: int)
    requires |sprites| == 5
    modifies e
    ensures result == geometryResult
    ensures e.bufferWidth == bufferWidth && e.bufferHeight == bufferHeight
    ensures e.Keys() == KeyLayout(bufferWidth, bufferHeight)
    ensures e.bitmapDpad == Fetched(old(e.bitmapDpad), sprites[0]) && e.bitmapKeyA == Fetched(old(e.bitmapKeyA), sprites[1])
    ensures e.bitmapKeyB == Fetched(old(e.bitmapKeyB), sprites[2]) && e.bitmapKeyStart == Fetched(old(e.bitmapKeyStart), sprites[3])
    ensures e.bitmapKeySelect == Fetched(old(e.bitmapKeySelect), sprites[4])
    ensures e.window == old(e.window) && e.bitmapButtons == old(e.bitmapButtons)
    ensures e.bitmapFontsUppercase == old(e.bitmapFontsUppercase) && e.keyLatch == old(e.keyLatch)
    ensures e.animating == old(e.animating) && e.activePointerIds == old(e.activePointerIds)
  {
    e.bufferWidth := bufferWidth;
    e.bufferHeight := bufferHeight;
    LayOutKeys(e, bufferWidth, bufferHeight);
    result := geometryResult;
    FetchSprites(e, sprites);
  }

  /** The five loadBitmap results of engine_init_display, in BITMAP_TYPE order. */
  method FetchSprites(e: EngineState, sprites: seq<Option<Bitmap>>)
    requires |sprites| == 5
    modifies e
    ensures e.bitmapDpad == Fetched(old(e.bitmapDpad), sprites[0]) && e.bitmapKeyA == Fetched(old(e.bitmapKeyA), sprites[1])
    ensures e.bitmapKeyB == Fetched(old(e.bitmapKeyB), sprites[2]) && e.bitmapKeyStart == Fetched(old(e.bitmapKeyStart), sprites[3])
    ensures e.bitmapKeySelect == Fetched(old(e.bitmapKeySelect), sprites[4])
    ensures e.Keys() == old(e.Keys()) && e.Setup() == old(e.Setup())
    ensures e.animating == old(e.animating) && e.activePointerIds == old(e.activePointerIds)
  {
    e.bitmapDpad := Fetched(e.bitmapDpad, sprites[0]);
    e.bitmapKeyA := Fetched(e.bitmapKeyA, sprites[1]);
    e.bitmapKeyB := Fetched(e.bitmapKeyB, sprites[2]);
    e.bitmapKeyStart := Fetched(e.bitmapKeyStart, sprites[3]);
    e.bitmapKeySelect := Fetched(e.bitmapKeySelect, sprites[4]);
  }

  // ---------------------------------------------------------------- the frame step

  /**
   * What the engine and the platform do during one frame: whether doTick's
   * code has the FB_RET_NEW_FRAME bit, the drawScanLine calls the engine
   * makes during the tick and the palette they index, whether doTick then
   * called drawScreen and if so whether the window lock succeeded, and the
   * outcomes of the five control blits.
   */
  datatype FrameOutcome = FrameOutcome(newFrame: bool, lines: seq<ScanLine>, palette: seq<Color>,
                                       screen: Option<bool>, blits: seq<BitmapCalls>)

  /** The control sprites fit the buffer b, when there is one. */
  predicate ControlsFit(b: Option<WindowBuffer>, bitmap: Option<Bitmap>, blits: seq<BitmapCalls>, l: Layout) {
    b.Some? ==> SpritesFit(b.value.bits.Length, b.value.stride, bitmap, blits, ControlSprites(l))
  }

  /**
   * What a frame needs of the engine and the window buffers: the scanlines
   * name frame rows and palette colours, the window is not the frame, holds
   * the frame when the lock succeeds, and it and the last locked buffer hold
   * the control sprites.
   */
  predicate FrameReady(window: Option<WindowBuffer>, buffer: Option<WindowBuffer>, pixels: array<Pixel>,
                       bitmap: Option<Bitmap>, frame: FrameOutcome, l: Layout) {
    LinesInPalette(frame.lines, frame.palette) &&
    (window.Some? ==> window.value.bits != pixels) &&
    (window.Some? && frame.screen == Some(true) ==> FrameFits(window.value.bits.Length, window.value.stride)) &&
    ControlsFit(window, bitmap, frame.blits, l) && ControlsFit(buffer, bitmap, frame.blits, l)
  }

  /** The engine calls of one frame: a tick exactly when a cartridge is loaded. */
  function TickCalls(status: CartridgeStatus): seq<Call> {
    if status == Loaded then [DoTick] else []
  }

  /** The drawScanLine calls the engine makes during doTick, one after the other. */
  method TickScanLines(display: DisplayController, lines: seq<ScanLine>, palette: seq<Color>)
    requires display.Valid() && LinesInPalette(lines, palette)
    modifies display.pixels
    ensures display.pixels[..] == ScanLinesDrawn(old(display.pixels[..]), lines, palette)
  {
    var i := 0;
    while i < |lines|
      invariant 0 <= i <= |lines| && display.Valid()
      invariant LinesInPalette(lines[i..], palette)
      invariant ScanLinesDrawn(display.pixels[..], lines[i..], palette) == ScanLinesDrawn(old(display.pixels[..]), lines, palette)
    {
      display.DrawScanLine(lines[i].y, lines[i].row, palette);
      assert lines[i..][1..] == lines[i + 1..];
      i := i + 1;
    }
  }

  /** Whether the tick's drawScreen reaches the window lock: a cartridge is loaded, drawScreen is called and a window is set. */
  predicate LocksWindow(status: CartridgeStatus, frame: FrameOutcome, window: Option<WindowBuffer>) {
    status == Loaded && frame.screen.Some? && window.Some?
  }

  /** Whether the tick copies the frame into the window: the lock is reached and succeeds. */
  predicate CopiesFrame(status: CartridgeStatus, frame: FrameOutcome, window: Option<WindowBuffer>) {
    LocksWindow(status, frame, window) && frame.screen.value
  }

  /**
   * The contents of the array `bits` after the controls step: the sprites
   * drawn over `before` when `bits` is the array of the posted buffer
   * `target`, and `before` otherwise.
   */
  function ControlsDrawnOn(bits: array<Pixel>, before: seq<Pixel>, posted: bool, target: Option<WindowBuffer>,
                           bitmap: Option<Bitmap>, blits: seq<BitmapCalls>, l: Layout): seq<Pixel>
    requires posted ==> target.Some?
    requires posted && target.value.bits == bits ==> SpritesFit(|before|, target.value.stride, bitmap, blits, ControlSprites(l))
  {
    if posted && target.value.bits == bits
    then SpritesDrawn(before, target.value.stride, bitmap, blits, ControlSprites(l))
    else before
  }

  /**
   * What one engine_draw_frame leaves behind. With a cartridge loaded, the
   * engine is ticked with the window handed to the display and taken back,
   * its scanlines are drawn into the frame, and its drawScreen (if any)
   * records whether the lock succeeded and, if it did, copies that frame
   * into the window and makes the window the current buffer. The buffer is
   * posted exactly for a new frame in an acquired window, with the controls
   * drawn over it. The window and the last locked buffer `last` hold exactly
   * that: nothing else is written into either.
   */
  twostate predicate FrameStep(e: EngineState, display: DisplayController, emu: Emulator, frame: FrameOutcome,
                               last: Option<WindowBuffer>, posted: bool)
    requires last == old(display.buffer)
    requires LinesInPalette(frame.lines, frame.palette)
    requires ControlsFit(e.window, e.bitmapButtons, frame.blits, e.Keys())
    requires ControlsFit(last, e.bitmapButtons, frame.blits, e.Keys())
    reads e, display, emu, display.pixels
    reads if e.window.Some? then {e.window.value.bits} else {}
    reads if last.Some? then {last.value.bits} else {}
  {
    e.window == old(e.window) && e.bitmapButtons == old(e.bitmapButtons) &&
    display.Valid() &&
    emu.calls == old(emu.calls) + TickCalls(old(emu.status)) &&
    emu.status == old(emu.status) && emu.savePath == old(emu.savePath) && emu.snapshot == old(emu.snapshot) &&
    display.window == (if old(emu.status) == Loaded then None else old(display.window)) &&
    display.pixels[..] == (if old(emu.status) == Loaded
                           then ScanLinesDrawn(old(display.pixels[..]), frame.lines, frame.palette)
                           else old(display.pixels[..])) &&
    display.windowAcquired == (if LocksWindow(old(emu.status), frame, e.window)
                               then frame.screen.value else old(display.windowAcquired)) &&
    display.buffer == (if CopiesFrame(old(emu.status), frame, e.window) then e.window else last) &&
    (posted <==> old(emu.status) == Loaded && frame.newFrame && display.windowAcquired) &&
    (e.window.Some? ==>
      e.window.value.bits[..] ==
        ControlsDrawnOn(e.window.value.bits,
                        if CopiesFrame(old(emu.status), frame, e.window)
                        then FrameShown(old(e.window.value.bits[..]), e.window.value.stride, display.pixels[..])
                        else old(e.window.value.bits[..]),
                        posted, display.buffer, e.bitmapButtons, frame.blits, e.Keys())) &&
    (last.Some? && (e.window.Some? ==> last.value.bits != e.window.value.bits) ==>
      last.value.bits[..] ==
        ControlsDrawnOn(last.value.bits, old(last.value.bits[..]), posted, display.buffer,
                        e.bitmapButtons, frame.blits, e.Keys()))
  }

  /**
   * The tick of engine_draw_frame: with a cartridge loaded, the window is
   * handed to the display, doTick draws its scanlines and, if it calls
   * drawScreen, copies the frame into the window when the lock succeeds;
   * the window is then taken back. `frameReady` is doTick's
   * FB_RET_NEW_FRAME bit.
   */
  method TickWithWindow(window: Option<WindowBuffer>, display: DisplayController, emu: Emulator, frame: FrameOutcome)
    returns (frameReady: bool)
    requires display.Valid() && LinesInPalette(frame.lines, frame.palette)
    requires window.Some? ==> window.value.bits != display.pixels
    requires window.Some? && frame.screen == Some(true) ==> FrameFits(window.value.bits.Length, window.value.stride)
    modifies display, emu, display.pixels
    modifies if window.Some? then {window.value.bits} else {}
    ensures display.Valid()
    ensures emu.calls == old(emu.calls) + TickCalls(old(emu.status))
    ensures emu.status == old(emu.status) && emu.savePath == old(emu.savePath) && emu.snapshot == old(emu.snapshot)
    ensures display.window == if old(emu.status) == Loaded then None else old(display.window)
    ensures frameReady <==> old(emu.status) == Loaded && frame.newFrame
    ensures display.pixels[..] == if old(emu.status) == Loaded
                                  then ScanLinesDrawn(old(display.pixels[..]), frame.lines, frame.palette)
                                  else old(display.pixels[..])
    ensures display.windowAcquired == if LocksWindow(old(emu.status), frame, window)
                                      then frame.screen.value else old(display.windowAcquired)
    ensures display.buffer == if CopiesFrame(old(emu.status), frame, window) then window else old(display.buffer)
    ensures window.Some? ==>
      window.value.bits[..] == if CopiesFrame(old(emu.status), frame, window)
                               then FrameShown(old(window.value.bits[..]), window.value.stride, display.pixels[..])
                               else old(window.value.bits[..])
  {
    frameReady := false;
    if emu.status == Loaded {
      display.SetWindow(window);
      frameReady := emu.DoTickCall(frame.newFrame);
      TickScanLines(display, frame.lines, frame.palette);
      if frame.screen.Some? {
        display.DrawScreen(frame.screen.value);
      }
      display.SetWindow(None);
    }
  }

  /** engine_draw_frame(engine): one frame step; `posted` says whether the buffer was posted. */
  method DrawFrame(e: EngineState, display: DisplayController, emu: Emulator, frame: FrameOutcome)
    returns (posted: bool)
    requires display.Valid()
    requires FrameReady(e.window, display.buffer, display.pixels, e.bitmapButtons, frame, e.Keys())
    modifies display, emu, display.pixels
    modifies if e.window.Some? then {e.window.value.bits} else {}
    modifies if display.buffer.Some? then {display.buffer.value.bits} else {}
    ensures FrameStep(e, display, emu, frame, old(display.buffer), posted)
  {
    var frameReady := TickWithWindow(e.window, display, emu, frame);
    posted := frameReady && display.windowAcquired;
    if posted {
      DrawControls.DrawControls(e, display.buffer.value, frame.blits);
    }
  }

  /** The sizes initDisplay receives with INIT_WINDOW: buffer width and height and the setBuffersGeometry result. */
  datatype Geometry = Geometry(bufferWidth: int, bufferHeight: int, result: int)

  /** APP_CMD_INIT_WINDOW with a window: the pointer list is cleared, the display initialised and a frame drawn. */
  method InitWindowCmd(e: EngineState, display: DisplayController, emu: Emulator,
                       geometry: Geometry, sprites: seq<Option<Bitmap>>, frame: FrameOutcome)
    returns (posted: bool)
    requires |sprites| == 5 && display.Valid() && e.window.Some?
    requires FrameReady(e.window, display.buffer, display.pixels, e.bitmapButtons, frame,
                        KeyLayout(geometry.bufferWidth, geometry.bufferHeight))
    modifies e, display, emu, display.pixels
    modifies if e.window.Some? then {e.window.value.bits} else {}
    modifies if display.buffer.Some? then {display.buffer.value.bits} else {}
    ensures e.window == old(e.window) && e.bitmapButtons == old(e.bitmapButtons)
    ensures e.bitmapFontsUppercase == old(e.bitmapFontsUppercase) && e.keyLatch == old(e.keyLatch)
    ensures e.activePointerIds == [] && e.animating == old(e.animating)
    ensures e.bufferWidth == geometry.bufferWidth && e.bufferHeight == geometry.bufferHeight
    ensures e.Keys() == KeyLayout(geometry.bufferWidth, geometry.bufferHeight)
    ensures e.bitmapDpad == Fetched(old(e.bitmapDpad), sprites[0]) && e.bitmapKeyA == Fetched(old(e.bitmapKeyA), sprites[1])
    ensures e.bitmapKeyB == Fetched(old(e.bitmapKeyB), sprites[2]) && e.bitmapKeyStart == Fetched(old(e.bitmapKeyStart), sprites[3])
    ensures e.bitmapKeySelect == Fetched(old(e.bitmapKeySelect), sprites[4])
    ensures FrameStep(e, display, emu, frame, old(display.buffer), posted)
  {
    e.activePointerIds := [];
    var result := EngineInitDisplay(e, geometry.bufferWidth, geometry.bufferHeight, geometry.result, sprites);
    posted := DrawFrame(e, display, emu, frame);
  }

  /** APP_CMD_LOST_FOCUS: the pointer list is cleared, animation stops and a frame is drawn. */
  method LostFocusCmd(e: EngineState, display: DisplayController, emu: Emulator, frame: FrameOutcome)
    returns (posted: bool)
    requires display.Valid()
    requires FrameReady(e.window, display.buffer, display.pixels, e.bitmapButtons, frame, e.Keys())
    modifies e, display, emu, display.pixels
    modifies if e.window.Some? then {e.window.value.bits} else {}
    modifies if display.buffer.Some? then {display.buffer.value.bits} else {}
    ensures e.Setup() == old(e.Setup()) && e.Keys() == old(e.Keys()) && e.SpriteBitmaps() == old(e.SpriteBitmaps())
    ensures e.activePointerIds == [] && !e.animating
    ensures FrameStep(e, display, emu, frame, old(display.buffer), posted)
  {
    e.activePointerIds := [];
    e.animating := false;
    posted := DrawFrame(e, display, emu, frame);
  }

  /**
   * engine_handle_cmd(app, cmd): the pointer list and the animating flag
   * after each command; INIT_WINDOW with a window initialises the display
   * and draws a frame, LOST_FOCUS draws a frame, TERM_WINDOW releases the
   * sprites, and every other command draws nothing and calls nothing.
   */
  method HandleCmd(e: EngineState, display: DisplayController, emu: Emulator, cmd: AppCmd,
                   geometry: Geometry, sprites: seq<Option<Bitmap>>, frame: FrameOutcome)
    returns (posted: bool)
    requires |sprites| == 5 && display.Valid()
    requires DrawsFrame(cmd, e.window) ==>
      FrameReady(e.window, display.buffer, display.pixels, e.bitmapButtons, frame,
                 if cmd.InitWindow? then KeyLayout(geometry.bufferWidth, geometry.bufferHeight) else e.Keys())
    modifies e, display, emu, display.pixels
    modifies if e.window.Some? then {e.window.value.bits} else {}
    modifies if display.buffer.Some? then {display.buffer.value.bits} else {}
    ensures display.Valid()
    ensures e.window == old(e.window) && e.bitmapButtons == old(e.bitmapButtons)
    ensures e.bitmapFontsUppercase == old(e.bitmapFontsUppercase) && e.keyLatch == old(e.keyLatch)
    ensures e.activePointerIds == if ClearsPointers(cmd) then [] else old(e.activePointerIds)
    ensures e.animating == AnimatingAfter(old(e.animating), cmd)
    ensures cmd.InitWindow? && old(e.window).Some? ==>
      e.bufferWidth == geometry.bufferWidth && e.bufferHeight == geometry.bufferHeight &&
      e.Keys() == KeyLayout(geometry.bufferWidth, geometry.bufferHeight) &&
      e.bitmapDpad == Fetched(old(e.bitmapDpad), sprites[0]) && e.bitmapKeyA == Fetched(old(e.bitmapKeyA), sprites[1]) &&
      e.bitmapKeyB == Fetched(old(e.bitmapKeyB), sprites[2]) && e.bitmapKeyStart == Fetched(old(e.bitmapKeyStart), sprites[3]) &&
      e.bitmapKeySelect == Fetched(old(e.bitmapKeySelect), sprites[4])
    ensures !(cmd.InitWindow? && old(e.window).Some?) ==>
      e.Keys() == old(e.Keys()) && e.bufferWidth == old(e.bufferWidth) && e.bufferHeight == old(e.bufferHeight)
    ensures DrawsFrame(cmd, old(e.window)) ==> FrameStep(e, display, emu, frame, old(display.buffer), posted)
    ensures !DrawsFrame(cmd, old(e.window)) ==>
      !posted && unchanged(emu) && unchanged(display) && display.pixels[..] == old(display.pixels[..]) &&
      (e.window.Some? ==> e.window.value.bits[..] == old(e.window.value.bits[..])) &&
      (display.buffer.Some? ==> display.buffer.value.bits[..] == old(display.buffer.value.bits[..]))
    ensures cmd.TermWindow? ==> e.SpriteBitmaps() == [None, None, None, None, None]
    ensures !(cmd.InitWindow? && old(e.window).Some?) && !cmd.TermWindow? ==> e.SpriteBitmaps() == old(e.SpriteBitmaps())
  {
    posted := false;
    match cmd {
      case SaveStateCmd =>
      case InitWindow =>
        if e.window.Some? {
          posted := InitWindowCmd(e, display, emu, geometry, sprites, frame);
        } else {
          e.activePointerIds := [];
        }
      case TermWindow =>
        e.activePointerIds := [];
        TermDisplay(e);
      case GainedFocus =>
        e.activePointerIds := [];
        e.animating := true;
      case LostFocus =>
        posted := LostFocusCmd(e, display, emu, frame);
      case OtherCmd(_) =>
    }
  }

  // ---------------------------------------------------------------- the ROM-path message

  /** The number of bytes handleCustomMessage takes from the pipe: the size_t, then up to that many path bytes. */
  function MessageLength(bytes: seq<Byte>): (n: nat)
    requires |bytes| >= SIZE_T_BYTES
    ensures SIZE_T_BYTES <= n <= |bytes|
  {
    var strln := FromLittleEndian(bytes[..SIZE_T_BYTES]);
    SIZE_T_BYTES + (if strln <= |bytes| - SIZE_T_BYTES then strln else |bytes| - SIZE_T_BYTES)
  }

  /**
   * The path handleCustomMessage hands to loadGame: the bytes read into the
   * zero-filled buffer of strln + 1 bytes, up to the first NUL.
   */
  function ReceivedPath(bytes: seq<Byte>): (path: seq<Byte>)
    requires |bytes| >= SIZE_T_BYTES
    ensures NoNul(path) && |path| <= MessageLength(bytes) - SIZE_T_BYTES
  {
    var strln := FromLittleEndian(bytes[..SIZE_T_BYTES]);
    var data := bytes[SIZE_T_BYTES..MessageLength(bytes)];
    var buf := data + seq(strln + 1 - |data|, _ => NUL);
    assert buf[|data|] == NUL;
    CStrEndsBy(buf, |data|);
    CStr(buf)
  }

  /**
   * handleCustomMessage: read the length, read that many bytes into a
   * zero-filled buffer one byte longer, and load the game at that path.
   * `outcome` is the status loadGame reports; it is only logged.
   */
  method HandleCustomMessage(pipe: Pipe, emu: Emulator, outcome: CartridgeStatus) returns (handled: int)
    requires |pipe.bytes| >= SIZE_T_BYTES
    modifies pipe, emu
    ensures handled == 1
    ensures emu.calls == old(emu.calls) + [LoadGame(ReceivedPath(old(pipe.bytes)))]
    ensures emu.status == outcome && emu.savePath == old(emu.savePath) && emu.snapshot == old(emu.snapshot)
    ensures pipe.bytes == old(pipe.bytes)[MessageLength(old(pipe.bytes))..]
  {
    ghost var before := pipe.bytes;
    var lengthBytes := pipe.Read(SIZE_T_BYTES);
    ghost var mid := pipe.bytes;
    var strln := FromLittleEndian(lengthBytes);
    var romPath := new Byte[strln + 1](_ => NUL);
    var data := pipe.Read(strln);
    assert lengthBytes == before[..SIZE_T_BYTES] && mid == before[SIZE_T_BYTES..];
    assert |data| == MessageLength(before) - SIZE_T_BYTES;
    assert data == mid[..|data|] && pipe.bytes == mid[|data|..];
    assert data == before[SIZE_T_BYTES..MessageLength(before)] && pipe.bytes == before[MessageLength(before)..];
    forall i | 0 <= i < |data| {
      romPath[i] := data[i];
    }
    assert romPath[..] == data + seq(strln + 1 - |data|, _ => NUL);
    assert romPath[..][strln] == NUL;
    var result := emu.LoadGameCall(CStr(romPath[..]), outcome);
    handled := 1;
  }

  /**
   * The handoff round trip: whatever follows it in the pipe, the message
   * romPicked writes for a C string is read back as exactly that string,
   * and exactly the message is consumed.
   */
  lemma PathHandoffRoundTrip(path: seq<Byte>, rest: seq<Byte>)
    requires NUL in path && |path| < Pow256(SIZE_T_BYTES)
    ensures var bytes := LittleEndian(StrLen(path), SIZE_T_BYTES) + CStr(path) + rest;
      |bytes| >= SIZE_T_BYTES &&
      ReceivedPath(bytes) == CStr(path) &&
      bytes[MessageLength(bytes)..] == rest
  {
    var n := StrLen(path);
    var p := CStr(path);
    var bytes := LittleEndian(n, SIZE_T_BYTES) + p + rest;
    assert bytes[..SIZE_T_BYTES] == LittleEndian(n, SIZE_T_BYTES);
    LittleEndianRoundTrip(n, SIZE_T_BYTES);
    assert MessageLength(bytes) == SIZE_T_BYTES + n;
    assert bytes[SIZE_T_BYTES..SIZE_T_BYTES + n] == p;
    assert bytes[SIZE_T_BYTES + n..] == rest;
    var buf := p + seq(1, _ => NUL);
    assert buf == p + [NUL] + [];
    CStrOfTerminated(p, []);
  }
}
