# FunkyBoyAndroid host layer, modelled in Dafny

FunkyBoyAndroid runs the FunkyBoy Game Boy emulator in an Android native activity. This project models the native host layer around the emulation engine:

- **Overlay and frame rasteriser.** drawTextAt and measureTextWidth, both drawBitmap overloads and drawControls draw into a locked window buffer. DisplayControllerAndroid packs palette scanlines into a 160 x 144 ARGB frame and copies that frame into the window.
- **Touch input state machine.** initDisplay lays out the eight key rectangles. engine_handle_input keeps the list of active pointer ids and recomputes the eight joypad flags from it. JoypadControllerAndroid answers isKeyPressed. engine_handle_cmd handles the lifecycle commands, and engine_draw_frame decides when a frame is ticked and posted.
- **Session and persistence guards.** romPicked writes the length-prefixed ROM-path message into a pipe. source/main.cpp has its own copy of romPicked, which writes msgPipe, the pipe handleCustomMessage reads. The copy in fb_jni.cpp is the same code but writes fbMsgPipe. `Jni.RomPicked` models both, with the pipe as a parameter. getSavePath derives the save-slot query. serializeState and resumeFromState guard the app state, and loadROM, loadSaveGame and saveGame guard cartridge RAM.

The emulation engine is an abstract object (`Emulator.Emulator`). It has a cartridge status, a ROM header, a supportsSaving flag, a save path and the snapshot bytes saveState would write. Every call the host makes into it is appended to a call log. Whatever the engine or the platform decides is a method parameter:
- the loadGame status and whether doTick reported a new frame;
- whether a window or bitmap lock succeeds;
- what loadBitmap and Java's getSavePath return.

One Dafny module per core source file:

| module | file | source |
|---|---|---|
| `DrawText` | draw_text.dfy | ui/draw_text.cpp |
| `DrawBitmap` | draw_bitmap.dfy | ui/draw_bitmap.cpp |
| `DrawControls` | draw_controls.dfy | ui/draw_controls.cpp |
| `Display` | display_android.dfy | controllers/display_android.cpp |
| `InitDisplay` | init_display.dfy | engine/init_display.cpp |
| `NativeMain` | native_main.dfy | source/main.cpp |
| `Joypad` | joypad_android.dfy | controllers/joypad_android.cpp |
| `Jni` | fb_jni.dfy | fb_jni.cpp |
| `AppState` | app_state.dfy | fba_util/app_state.cpp |
| `EmulatorState` | emulator_state.dfy | fba_util/emulator_state.cpp |

Shared modules:
- `CStrings`: NUL-terminated byte strings.
- `MessagePipe`: the pipe and the size_t encoding.
- `Raster` and `Wrappers`: pixel buffers and the common copy loop.
- `Engine`: the engine record.
- `Emulator`: the abstract engine.

The nested copy loops of drawBitmap, drawTextAt and drawScreen have the same shape. A `line` offset moves down by the stride and an inner loop writes the columns. All three are the one loop `Raster.CopyRect`, which is proved against the specification function `Raster.Blitted`.

## Model

| member | source | states |
|---|---|---|
| CStrings.StrLen | app/src/main/cpp/source/fb_jni.cpp:82 | strlen is the index of the first NUL: that byte is NUL and none before it is |
| CStrings.CStr | app/src/main/cpp/source/fb_jni.cpp:66-67 | the C string at the start of a buffer is a NUL-free prefix of it, shorter than the buffer |
| CStrings.CStrEndsBy | app/src/main/cpp/source/main.cpp:405-406 | a NUL at index k ends the C string at k or earlier |
| CStrings.CStrOfTerminated | app/src/main/cpp/source/fba_util/app_state.cpp:31 | a NUL-free string followed by a terminator is read back as itself, whatever follows the terminator |
| MessagePipe.FromLittleEndian | app/src/main/cpp/source/main.cpp:403 | the size_t read from k bytes is below 256^k |
| MessagePipe.LittleEndianRoundTrip | app/src/main/cpp/source/main.cpp:403 | reading back the bytes of a size_t yields the number written, for every number below 256^k |
| MessagePipe.LittleEndianInjective | app/src/main/cpp/source/fb_jni.cpp:84 | different lengths give different size_t bytes |
| MessagePipe.Pipe.constructor | app/src/main/cpp/source/main.cpp:459 | a new pipe holds no bytes |
| MessagePipe.Pipe.Write | app/src/main/cpp/source/fb_jni.cpp:84-85 | write appends all its bytes to the bytes in flight |
| MessagePipe.Pipe.Read | app/src/main/cpp/source/main.cpp:403-406 | read takes min(n, available) bytes from the front, and the bytes taken followed by the rest are the bytes before |
| Raster.SourceIndexInBounds | app/src/main/cpp/source/ui/draw_bitmap.cpp:43 | for a source rectangle that fits, every read index width (v + dy) + u + dx is inside the source |
| Raster.DestIndexInBounds | app/src/main/cpp/source/ui/draw_bitmap.cpp:40-43 | for a destination rectangle that fits, every written index (y + dy) stride + x + dx is inside the buffer |
| Raster.BlittedInside | app/src/main/cpp/source/ui/draw_bitmap.cpp:41-44 | after the block copy, destination pixel (x + dx, y + dy) holds source pixel width (v + dy) + u + dx |
| Raster.BlittedOutside | app/src/main/cpp/source/ui/draw_bitmap.cpp:40-46 | every pixel outside the w x h destination rectangle keeps its value |
| Raster.BlittedEmpty | app/src/main/cpp/source/ui/draw_bitmap.cpp:41-42 | a rectangle with w = 0 or h = 0 writes nothing |
| Raster.CopyRect | app/src/main/cpp/source/ui/draw_bitmap.cpp:40-46 | the row loop, with line advancing by the stride, leaves the buffer equal to Blitted of the old buffer |
| Raster.CopyRow | app/src/main/cpp/source/ui/draw_bitmap.cpp:42-44 | the column loop copies w source pixels of row vr into one destination row, exactly Blitted of a one-row rectangle |
| DrawBitmap.BlitStatus | app/src/main/cpp/source/ui/draw_bitmap.cpp:22-38 | the code is 0 exactly when the bitmap is non-null and info, lock and unlock all succeed; otherwise the first failure decides -1, -2, -3 or -4 |
| DrawBitmap.DrawBitmapRect | app/src/main/cpp/source/ui/draw_bitmap.cpp:21-48 | returns BlitStatus; the buffer is blitted on success and untouched on every error |
| DrawBitmap.DrawBitmap | app/src/main/cpp/source/ui/draw_bitmap.cpp:50-60 | null gives -1 and failed info gives -2, without a blit; otherwise it is the sub-rectangle blit with u = v = 0, w = width, h = height |
| DrawBitmap.WholeBitmapSourceFits | app/src/main/cpp/source/ui/draw_bitmap.cpp:59 | a bitmap of width x height pixels always fits as a whole |
| DrawBitmap.RectDrawnInside | app/src/main/cpp/source/ui/draw_bitmap.cpp:39-46 | after a successful drawBitmap each rectangle pixel holds its bitmap pixel info.width (v + dy) + u + dx |
| DrawBitmap.RectDrawnOutside | app/src/main/cpp/source/ui/draw_bitmap.cpp:40-46 | whatever the outcome, no pixel outside the destination rectangle changes |
| DrawBitmap.RectDrawnUnchanged | app/src/main/cpp/source/ui/draw_bitmap.cpp:22-47 | an error code, or an empty rectangle, leaves the buffer unchanged |
| DrawControls.SpritesDrawnNullBitmap | app/src/main/cpp/source/ui/draw_controls.cpp:24-38 | with a null buttons bitmap not a single pixel changes |
| DrawControls.SpritesDrawnOutside | app/src/main/cpp/source/ui/draw_controls.cpp:25-39 | a pixel outside all five sprite rectangles is never written, whichever blits fail |
| DrawControls.SpriteShows | app/src/main/cpp/source/ui/draw_controls.cpp:25-37 | a pixel of sprite j that no later sprite covers holds the atlas pixel blit j copied there, if blit j succeeded, whatever the other blits did: the blits are independent and later ones win |
| DrawControls.SelectOnTop | app/src/main/cpp/source/ui/draw_controls.cpp:37 | Select is drawn last: after a successful Select blit every pixel of its 25 x 10 block shows atlas block (75, 10) |
| DrawControls.DrawControls | app/src/main/cpp/source/ui/draw_controls.cpp:23-40 | the buffer after the five guarded blits is SpritesDrawn over the table: D-pad (0,0) 50x50 at (keyLeft.x, keyUp.y), A (50,0) 25x25, B (50,25) 25x25, Start (75,0) 25x10, Select (75,10) 25x10, in that order |
| Display.ArgbRoundTrip | app/src/main/cpp/source/controllers/display_android.cpp:47 | a packed pixel has alpha 255, and its red, green and blue bytes are the colour's channels |
| Display.ArgbInjective | app/src/main/cpp/source/controllers/display_android.cpp:47 | distinct colours pack to distinct pixels |
| Display.ScanLined | app/src/main/cpp/source/controllers/display_android.cpp:43-50 | after drawScanLine(y, row), pixel y 160 + x holds the packed palette colour of row[x], with alpha 255; every pixel outside row y is unchanged |
| Display.FrameShownAt | app/src/main/cpp/source/controllers/display_android.cpp:66-72 | after the frame copy, window pixel y stride + x holds frame pixel y 160 + x, for every x < 160 and y < 144 |
| Display.FrameShownOutside | app/src/main/cpp/source/controllers/display_android.cpp:66-72 | window pixels right of column 160 or below row 144 are not touched |
| Display.DisplayController.constructor | app/src/main/cpp/source/controllers/display_android.cpp:28-33 | a fresh 160 x 144 frame, no window, windowAcquired false |
| Display.DisplayController.SetWindow | app/src/main/cpp/source/controllers/display_android.cpp:39-41 | only the window reference changes |
| Display.DisplayController.DrawScanLine | app/src/main/cpp/source/controllers/display_android.cpp:43-50 | the frame becomes ScanLined of the old frame |
| Display.ScanLinesDrawnOutside | app/src/main/cpp/source/controllers/display_android.cpp:43-50 | after a sequence of drawScanLine calls, a frame pixel in a row no call names keeps its value |
| Display.ScanLinesDrawnLast | app/src/main/cpp/source/controllers/display_android.cpp:43-50 | after a sequence of drawScanLine calls, row y holds the packed colours of the last call that names y: later calls overwrite earlier ones |
| Display.DisplayController.DrawScreen | app/src/main/cpp/source/controllers/display_android.cpp:52-76 | with no window nothing changes; a failed lock clears windowAcquired and writes no window pixel; a successful one sets it, records the buffer and copies the frame; the frame is never changed |
| DrawText.GlyphOf | app/src/main/cpp/source/ui/draw_text.cpp:53-113 | only a space selects no glyph; every glyph index is below 26 and every band starts at row 0, 7 or 14 |
| DrawText.GlyphClasses | app/src/main/cpp/source/ui/draw_text.cpp:54-112 | 'A'-'Z' select glyph c - 65 in band 0, 'a'-'z' glyph c - 97 in band 7, '0'-'9' glyph c - 48 in band 14; '!' 10, '.' 12, ',' 13, and '?' (like every unlisted byte) 11 in band 14 |
| DrawText.GlyphInSheet | app/src/main/cpp/source/ui/draw_text.cpp:114-120 | every glyph block read lies inside the three bands of the 182-pixel-wide font sheet |
| DrawText.TextChars | app/src/main/cpp/source/ui/draw_text.cpp:41-45 | a non-zero len takes exactly len characters; len 0 means up to the NUL |
| DrawText.MeasureTextWidth | app/src/main/cpp/source/ui/draw_text.cpp:126-135 | the width is 8 n - 1 for n characters, 0 exactly for empty text, and every non-zero width is 7 mod 8; len 0 means strlen |
| DrawText.GlyphPixel | app/src/main/cpp/source/ui/draw_text.cpp:114-120 | a glyph drawn at pen holds at (pen + dx, y + dy) font pixel 182 (band + dy) + dx + 7 index |
| DrawText.TextGlyphPixel | app/src/main/cpp/source/ui/draw_text.cpp:50-122 | character i, whatever came before it, shows its 7 x 7 glyph cell at column x + 8 i; no later character overwrites it |
| DrawText.GlyphUntouchedByLater | app/src/main/cpp/source/ui/draw_text.cpp:114-121 | a glyph drawn at pen leaves every column left of pen alone |
| DrawText.TextDrawnOutside | app/src/main/cpp/source/ui/draw_text.cpp:79-121 | every pixel outside the 7 x 7 cells of the non-space characters keeps its value: the spacing column, spaces, and everything beyond the text |
| DrawText.TextWithinMeasuredWidth | app/src/main/cpp/source/ui/draw_text.cpp:126-135 | no column at or beyond x + measureTextWidth changes: the width measured is the width drawn |
| DrawText.DrawTextAt | app/src/main/cpp/source/ui/draw_text.cpp:31-124 | a lock failure returns -3 and an unlock failure -4, both with the buffer untouched; otherwise 0 with the text drawn |
| DrawText.DrawChars | app/src/main/cpp/source/ui/draw_text.cpp:44-122 | the loop over the characters, the pen advancing by 8 for every character including spaces, leaves TextDrawn of the old buffer |
| DrawText.DrawGlyph | app/src/main/cpp/source/ui/draw_text.cpp:114-120 | one loop pass copies the character's 7 x 7 font block at the pen; a space writes nothing |
| Engine.EngineState.constructor | app/src/main/cpp/source/main.cpp:424-426 | the engine record starts zeroed: no window or bitmaps, zero rectangles, not animating, latch 0, no pointers |
| InitDisplay.DpadKeysInSquare | app/src/main/cpp/source/engine/init_display.cpp:45-65 | the four D-pad keys are pairwise disjoint and lie in the 50 x 50 square at (10, H - 90), where the D-pad sprite is drawn |
| InitDisplay.ActionKeysApart | app/src/main/cpp/source/engine/init_display.cpp:67-85 | A and B are 25 x 25 with disjoint column ranges; Select and Start are 25 x 10 on one row, disjoint, Select to the left |
| InitDisplay.KeysInBuffer | app/src/main/cpp/source/engine/init_display.cpp:45-85 | for W >= 70 and H >= 90 every key rectangle and the D-pad square lie inside the W x H buffer |
| InitDisplay.NarrowBufferPushesSelectOut | app/src/main/cpp/source/engine/init_display.cpp:79 | the width bound is needed: below 70 columns Select starts left of the buffer |
| InitDisplay.LayOutKeys | app/src/main/cpp/source/engine/init_display.cpp:45-88 | the template edits leave the eight keys at KeyLayout(W, H): Up (27, D), Down (27, D + 34), Left (10, D + 17), Right (44, D + 17), A (W - 30, H - 90), B (W - 60, H - 60), Select (W/2 - 35, H - 20), Start (W/2 + 10, H - 20); the final template edit changes no key |
| InitDisplay.InitDisplay | app/src/main/cpp/source/engine/init_display.cpp:27-113 | stores the buffer size, lays out the keys, replaces each atlas bitmap only when loadBitmap returned one, resets keyLatch to 0, and returns the geometry result |
| Joypad.JoypadController.constructor | app/src/main/cpp/source/controllers/joypad_android.cpp:21-31 | after construction no key is pressed |
| Joypad.JoypadController.IsKeyPressed | app/src/main/cpp/source/controllers/joypad_android.cpp:33-54 | a key value outside the eight is never pressed; the function reads the flags and changes none |
| Jni.TitleArg | app/src/main/cpp/source/fb_jni.cpp:54-57 | the title passed on is NUL-free, at most 16 bytes, a prefix of the header title, ended by a NUL when shorter; a NUL-free 16-byte title passes whole |
| Jni.ChecksumArg | app/src/main/cpp/source/fb_jni.cpp:61 | the checksum argument is in 0..65535 with globalChecksum[0] as its high byte and globalChecksum[1] as its low byte |
| Jni.ShiftOrIsSum | app/src/main/cpp/source/fb_jni.cpp:61 | (hi << 8) \| lo equals hi 256 + lo for bytes |
| Jni.ChecksumArgInjective | app/src/main/cpp/source/fb_jni.cpp:61 | different checksum bytes give different arguments |
| Jni.CopyTitle | app/src/main/cpp/source/fb_jni.cpp:54-55 | romTitleSafe is the first 16 title bytes followed by a NUL |
| Jni.GetSavePath | app/src/main/cpp/source/fb_jni.cpp:46-74 | the Java query carries TitleArg, the destination code unchanged and ChecksumArg; the save path is the reply's C string |
| Jni.RomPicked | app/src/main/cpp/source/fb_jni.cpp:78-88 | the pipe gains the size_t bytes of strlen(path), then exactly strlen(path) path bytes, with no terminator. This copy writes fbMsgPipe; the identical copy at main.cpp:505-517 writes msgPipe, the pipe handleCustomMessage reads |
| Emulator.Emulator.LoadGameCall | app/src/main/cpp/source/fba_util/emulator_state.cpp:26 | loadGame reports the given status, which becomes the cartridge status; the call is logged |
| Emulator.Emulator.DoTickCall | app/src/main/cpp/source/main.cpp:193 | doTick reports the new-frame bit; the call is logged |
| Emulator.Emulator.SaveStateCall | app/src/main/cpp/source/fba_util/app_state.cpp:38 | saveState writes the engine's snapshot; the call is logged |
| Emulator.Emulator.LoadStateCall | app/src/main/cpp/source/fba_util/app_state.cpp:54 | loadState is logged with the bytes it receives |
| Emulator.Emulator.LoadCartridgeRamCall | app/src/main/cpp/source/fba_util/emulator_state.cpp:41 | loadCartridgeRam is logged with its file path |
| Emulator.Emulator.WriteCartridgeRamCall | app/src/main/cpp/source/fba_util/emulator_state.cpp:49 | writeCartridgeRam is logged with its file path |
| EmulatorState.SaveMirrorsLoad | app/src/main/cpp/source/fba_util/emulator_state.cpp:39-52 | saveGame writes RAM to exactly the path loadSaveGame read it from, and only under the same condition |
| EmulatorState.HostState.LoadROM | app/src/main/cpp/source/fba_util/emulator_state.cpp:25-32 | returns loadGame's status unchanged; romPath becomes the path exactly when the status is Loaded |
| EmulatorState.HostState.LoadSaveGame | app/src/main/cpp/source/fba_util/emulator_state.cpp:34-43 | always stores the save path and sets initialSaveLoaded; reads cartridge RAM exactly when the path is non-empty and the cartridge supports saving |
| EmulatorState.HostState.SaveGame | app/src/main/cpp/source/fba_util/emulator_state.cpp:45-54 | writes cartridge RAM exactly under that same condition, and otherwise calls nothing |
| AppState.AppSaveState.constructor | app/src/main/cpp/source/fba_util/app_state.h:26-29 | a zero-filled record with a 256-byte ROM path field |
| AppState.SerializedPathRoundTrip | app/src/main/cpp/source/fba_util/app_state.cpp:30-34 | a path shorter than 256 bytes is stored terminated, and strlen reads it back exactly |
| AppState.OverwrittenPrefix | app/src/main/cpp/source/fba_util/app_state.cpp:36-38 | a snapshot that fits is the prefix of the state buffer and the bytes after it are kept; a longer one is cut at the buffer's size |
| AppState.StrCpy | app/src/main/cpp/source/fba_util/app_state.cpp:31 | strcpy leaves the source bytes, a NUL, and the rest of the field untouched |
| AppState.WriteBounded | app/src/main/cpp/source/fba_util/app_state.cpp:36-38 | the stream writes over the fixed buffer until the data or the buffer ends |
| AppState.SerializeState | app/src/main/cpp/source/fba_util/app_state.cpp:24-39 | with no cartridge loaded nothing is written and nothing is called; otherwise the path is stored if it fits, else the field is left as it was, and the snapshot is written into the state buffer |
| AppState.ResumeRestoresIffLoaded | app/src/main/cpp/source/fba_util/app_state.cpp:41-56 | loadState is called exactly when a cartridge is already loaded or the stored path is non-empty and loads; with a cartridge loaded the stored path is ignored |
| AppState.ResumeFromState | app/src/main/cpp/source/fba_util/app_state.cpp:41-56 | the engine receives exactly ResumeCalls; romPath and the cartridge status change only through loadROM of a non-empty stored path |
| AppState.SerializeThenResume | app/src/main/cpp/source/fba_util/app_state.cpp:24-56 | a session serialized with a fitting path resumes by loading that path and then restoring a buffer that starts with the snapshot |
| NativeMain.ActionPointerIndex | app/src/main/cpp/source/main.cpp:308 | the pointer index decoded from the action bits is below 256 |
| NativeMain.IsTouched | app/src/main/cpp/source/main.cpp:235-238 | only a non-empty rectangle can be touched |
| NativeMain.IsTouchedHalfOpen | app/src/main/cpp/source/main.cpp:235-238 | the test is half-open: the corner belongs to a non-empty rectangle, the column x + width and the row y + height do not |
| NativeMain.DisjointNotBothTouched | app/src/main/cpp/source/main.cpp:235-238 | no point touches two disjoint rectangles |
| NativeMain.OnePointerOneKey | app/src/main/cpp/source/main.cpp:240-275 | with initDisplay's layout a pointer presses at most one D-pad direction, never both A and B, and never both Select and Start |
| NativeMain.IndexOfPointer | app/src/main/cpp/source/main.cpp:277-285 | the index of the first pointer with the id, or -1 exactly when no pointer has it |
| NativeMain.FindPointerIndex | app/src/main/cpp/source/main.cpp:277-285 | the search loop returns IndexOfPointer |
| NativeMain.RemoveFirst | app/src/main/cpp/source/main.cpp:316-327 | an absent id leaves the list unchanged; a present one shortens it by one |
| NativeMain.RemoveFirstCount | app/src/main/cpp/source/main.cpp:316-327 | erasing takes away exactly one copy of the id and keeps every other entry |
| NativeMain.RemoveFirstAt | app/src/main/cpp/source/main.cpp:319-326 | the entry erased is the first occurrence, and the other ids keep their order |
| NativeMain.RemoveFirstUndoesPush | app/src/main/cpp/source/main.cpp:307-327 | POINTER_UP undoes the POINTER_DOWN of an id that was not on the list |
| NativeMain.EraseFirst | app/src/main/cpp/source/main.cpp:316-327 | the iterator loop with erase and break computes RemoveFirst |
| NativeMain.PopBackAsWritten | app/src/main/cpp/source/main.cpp:312-315 | pop_back as written: undefined (None) exactly on the empty list, otherwise the list without its last id |
| NativeMain.PopLast | app/src/main/cpp/source/main.cpp:312-315 | the corrected ACTION_UP step: the last id is removed, and an empty list stays empty |
| NativeMain.PopLastAgrees | app/src/main/cpp/source/main.cpp:312-315 | where pop_back is defined the corrected step agrees with it, and a pop after a push restores the list |
| NativeMain.AsWrittenDiffersOnlyOnEmptyUp | app/src/main/cpp/source/main.cpp:302-331 | the code as written and the corrected step differ only for ACTION_UP on an empty list |
| NativeMain.PointerListSteps | app/src/main/cpp/source/main.cpp:302-331 | DOWN appends pointer 0's id, POINTER_DOWN the id at the decoded index, UP removes the last id, POINTER_UP erases one copy of the lifted id or keeps the list when it is absent, and any other action keeps the list |
| NativeMain.AnyTouchesExists | app/src/main/cpp/source/main.cpp:344-351 | a key is down exactly when some active id is present in the event with its point in the key's rectangle |
| NativeMain.NoPointersNoKeys | app/src/main/cpp/source/main.cpp:347-348 | ids absent from the event contribute nothing: an event without pointers presses no key |
| NativeMain.HandleInputPointer | app/src/main/cpp/source/main.cpp:240-275 | each flag becomes its old value or whether its key's rectangle holds the point; no flag is cleared |
| NativeMain.TestKeysAToUp | app/src/main/cpp/source/main.cpp:243-258 | the A, B, Left and Up tests set their flags when touched and leave the other four alone |
| NativeMain.TestKeysRightToSelect | app/src/main/cpp/source/main.cpp:259-274 | the Right, Down, Start and Select tests set their flags when touched and leave the other four alone |
| NativeMain.ClearKeys | app/src/main/cpp/source/main.cpp:335-342 | all eight flags are cleared |
| NativeMain.TakePointer | app/src/main/cpp/source/main.cpp:347-350 | a loop pass presses a key exactly when the event has a pointer with the id whose point is in the key's rectangle |
| NativeMain.RecomputeJoypad | app/src/main/cpp/source/main.cpp:333-351 | afterwards every key is pressed exactly when AnyTouches holds for its rectangle over the active ids; keys outside the eight are not pressed |
| NativeMain.HandleInput | app/src/main/cpp/source/main.cpp:290-353 | a non-motion event returns 0 and changes nothing; with no cartridge a motion event requests the picker, returns 1 and leaves pointers and joypad alone; otherwise the list becomes PointersAfter and the flags are recomputed from it |
| NativeMain.AnimatingAfter | app/src/main/cpp/source/main.cpp:384-394 | GAINED_FOCUS sets animating, LOST_FOCUS and TERM_WINDOW clear it, every other command keeps it |
| NativeMain.UpAfterLifecycleCommand | app/src/main/cpp/source/main.cpp:369-392 | after a lifecycle command empties the list, the lifting finger's ACTION_UP pops from an empty vector as written; the corrected step leaves the list empty |
| NativeMain.TermDisplay | app/src/main/cpp/source/main.cpp:210-233 | the five sprite bitmaps are released and animating is cleared; keys and pointers are kept |
| NativeMain.Fetched | app/src/main/cpp/source/main.cpp:144-150 | a loaded bitmap replaces the handle, while a null result keeps the old one |
| NativeMain.EngineInitDisplay | app/src/main/cpp/source/main.cpp:79-181 | stores the buffer size, lays out the same keys as initDisplay, fetches the five sprite bitmaps, leaves the latch, atlas and pointers alone, and returns the geometry result |
| NativeMain.FetchSprites | app/src/main/cpp/source/main.cpp:144-178 | each of the five sprite handles is replaced only when its loadBitmap returned a bitmap |
| NativeMain.TickScanLines | app/src/main/cpp/source/controllers/display_android.cpp:43-50 | the scanlines the engine draws during a tick leave the frame equal to ScanLinesDrawn of the old frame |
| NativeMain.TickWithWindow | app/src/main/cpp/source/main.cpp:191-195 | with a cartridge loaded: one doTick call, with the window handed to the display and taken back; the frame gets the tick's scanlines; a drawScreen with a window records whether the lock succeeded, and only a successful lock makes the window the buffer and copies the new frame into it. A failed lock, no drawScreen, no window or no cartridge leave the window pixels and the buffer as they were |
| NativeMain.DrawFrame | app/src/main/cpp/source/main.cpp:186-205 | FrameStep: doTick runs exactly when a cartridge is loaded; the frame holds the scanlines drawn during the tick; windowAcquired and the buffer change only through the tick's drawScreen; the buffer is posted exactly for a new frame in an acquired window. The window holds exactly the frame copied in this tick, if any, with the controls drawn over it when it is the posted buffer; the last locked buffer, when it is another array, holds exactly its old pixels, with the controls drawn when it is posted. Nothing else is written into either |
| NativeMain.InitWindowCmd | app/src/main/cpp/source/main.cpp:369-377 | INIT_WINDOW with a window: the pointer list is cleared; the buffer size, key layout and fetched sprites are those of engine_init_display; then one FrameStep |
| NativeMain.LostFocusCmd | app/src/main/cpp/source/main.cpp:390-395 | LOST_FOCUS: the pointer list is cleared, animating stops and one FrameStep follows; keys, sprites and the rest of the engine record are kept |
| NativeMain.HandleCmd | app/src/main/cpp/source/main.cpp:358-399 | the four window and focus commands clear the pointer list, and animating follows AnimatingAfter. INIT_WINDOW with a window and LOST_FOCUS make exactly one FrameStep, so posted holds exactly for a loaded cartridge, a new frame and an acquired window, and the window shows the frame with the controls. INIT_WINDOW with a window also sets the buffer size, the key layout and the fetched sprites. TERM_WINDOW releases the sprites. Every other command posts nothing and changes neither the engine, the display nor any buffer |
| NativeMain.MessageLength | app/src/main/cpp/source/main.cpp:403-406 | the reader consumes the size_t and at most strln further bytes, never more than are in the pipe |
| NativeMain.ReceivedPath | app/src/main/cpp/source/main.cpp:405-410 | the path handed to loadGame is NUL-free and no longer than the bytes read |
| NativeMain.HandleCustomMessage | app/src/main/cpp/source/main.cpp:401-416 | reads the length and then the path into a zeroed buffer one byte longer, calls loadGame with that C string, consumes exactly the message and returns 1 |
| NativeMain.PathHandoffRoundTrip | app/src/main/cpp/source/main.cpp:401-416 | the message main.cpp's romPicked (main.cpp:505-517) writes into msgPipe for a C string is read back as that same string, and exactly that message is consumed from the pipe, whatever follows it |

## Left out

- Engine internals: the CPU, PPU, cartridge, save-state layout and the doTick return code are not modelled. Only the new-frame bit of doTick is kept, and the other outcomes are parameters. The display calls the engine makes inside doTick are parameters: `FrameOutcome.lines` are its drawScanLine calls and `FrameOutcome.screen` says whether it then called drawScreen and whether the lock succeeded.
- Audio (controllers/audio_android.cpp): a lock-free queue shared with another thread, with float samples.
- Floating point: the UI scale and `std::ceil` in initDisplay and engine_init_display. The buffer size is an input, and touch coordinates are `real` values that are already scaled. The unused offsetX and offsetY are left out too.
- Platform calls: JNI class and method lookup, string conversion and references; ANativeWindow acquire, lock, post and release; AndroidBitmap calls; the ALooper loop of android_main; JVM attach; file streams. Only their success or failure and the bytes passed are modelled. android_main itself is not modelled beyond its zeroed engine record.
- AndroidBitmap pixels are read after unlockPixels in drawBitmap and drawTextAt. The model treats the pixels as still readable.
- The DMG palette table is not part of this model; the palette is a parameter of drawScanLine. Colour channels are taken as 8-bit values.
- The memory stream over the state buffer (util/membuf.h) is not part of this model. `AppState.WriteBounded` assumes it writes until the buffer is full and drops the rest. The buffer size FB_SAVE_STATE_MAX_BUFFER_SIZE is the length of the state array.
- MessagePipe: a size_t is 8 bytes, little-endian, as on 64-bit Android. Reads return every byte in the pipe up to the amount asked for; a read that returns fewer bytes while more are still to arrive is not modelled.
- NativeMain.HandleCustomMessage: requires at least 8 bytes in the pipe, meaning the whole length prefix has arrived. The source reads the length unchecked. The model also always allocates the strln + 1 byte buffer. The source does not check calloc, so an allocation failure, or strln + 1 wrapping to 0 when strln is SIZE_MAX, would make the second read write through NULL or past the buffer. Neither case is modelled.
- NativeMain.DrawFrame: wasWindowAcquired is set only by drawScreen and is not cleared after unlockAndPost. A new frame from a tick that did not lock the window, for example a LOST_FOCUS frame after TERM_WINDOW has taken the window away, would draw the controls into the last locked buffer, which was already posted, and then post and release a window this frame never locked, or a null one. The model treats that buffer as still writable and the post and release as having no effect. It does not model the lock state of the platform window.
- NativeMain.TickWithWindow: all of a tick's drawScanLine calls come before its one optional drawScreen. A tick that draws scanlines after its drawScreen, or calls drawScreen twice, is not modelled.
- Blits require x + w <= stride, so no rectangle row wraps into the next buffer row. Sprite positions beyond the buffer are excluded by the same requirement, where C would write out of bounds. The block a blit reads must also lie inside the source bitmap's pixels: `DrawBitmap.DrawBitmapRect` and `DrawControls.DrawControls` require it through `Raster.SourceFits`, and `DrawText.DrawTextAt` through the font sheet's size, which `DrawText.GlyphInSheet` shows every glyph respects. The C code reads that block unchecked (ui/draw_bitmap.cpp:43, ui/draw_text.cpp:117), so a block past the bitmap's end is not modelled.
- InitDisplay.KeyLayout: the rectangles are computed with unbounded integers. This agrees with the source's unsigned `dpadX`/`dpadY` arithmetic whenever H >= 90. For smaller H, the wrap-around of `bufferHeight - 90` as a uint is not modelled.
- A pointer id is a `nat`. The source compares int32 ids with size_t and uint values, which agree for the non-negative ids Android assigns.
- source/main.cpp is written against state/engine.h, which has five sprite bitmaps. initDisplay and drawControls are written against engine/engine.h, which has bitmapButtons and keyLatch. `Engine.EngineState` holds the fields of both records. DrawFrame draws the controls with drawControls from the atlas `bitmapButtons`.
- NativeMain.TermDisplay clears the five state/engine.h sprite bitmaps, which is what engine_term_display releases. Global-reference management is not modelled.
- serializeState and resumeFromState are not called from source/main.cpp, whose APP_CMD_SAVE_STATE case is empty. They are modelled as operations of their own.
- handleCustomMessage calls the engine's loadGame directly rather than loadROM. So State::romPath is not updated by a ROM picked through the pipe, and the model keeps that.
- AppState.ResumeFromState: requires a NUL in the stored romPath field, because strlen on an unterminated field is undefined.
- Jni.ChecksumArg is stated arithmetically, as hi 256 + lo. The bit expression of the source is related to it by `Jni.ShiftOrIsSum`.
- NativeMain.HandleInputPointer: its eight tests run in the source's order, split across two helpers of four tests each.
- requestPickRom and loadBitmap are JNI calls. Their effect is the `pickRom` result of HandleInput and the bitmap parameters of the display initialisation.
- The early host shell (app/src/main/cpp/main.cpp and display_android.cpp) is superseded by source/ and is not part of this model.

## Findings

| source | as written | input that shows it | evidently intended | confidence | as-written member | corrected member |
|---|---|---|---|---|---|---|
| app/src/main/cpp/source/main.cpp:312-315 | ACTION_UP calls `activePointerIds.pop_back()` without checking the list, and pop_back on an empty vector is undefined behaviour | a finger goes down (ACTION_DOWN), then INIT_WINDOW, TERM_WINDOW, GAINED_FOCUS or LOST_FOCUS clears the list (main.cpp:372-392), then the finger lifts (ACTION_UP). Another: ACTION_DOWN arrives while no cartridge is loaded, so it is not recorded; the ROM then arrives through the pipe, and the finger lifts | the primary pointer's id is removed when it is on the list, and an empty list stays empty | not executed | NativeMain.PointersAfterAsWritten, NativeMain.PopBackAsWritten, NativeMain.UpAfterLifecycleCommand | NativeMain.PointersAfter, NativeMain.PopLast, NativeMain.PopLastAgrees |
