/**
 * app_save_state and the two routines of fba_util/app_state.cpp that fill
 * it from a running session and resume a session from it. The state bytes
 * the engine writes and reads through the memory stream are the engine's
 * snapshot and LoadState argument.
 */
module AppState {
  import opened CStrings
  import opened Emulator
  import opened EmulatorState

  /** FB_ANDROID_APP_STATE_ROM_PATH_BUFFER_SIZE. */
  const ROM_PATH_BUFFER_SIZE: nat := 256

  /** app_save_state: the engine state buffer and the ROM path buffer, two distinct arrays. */
  class AppSaveState {
    const state: array<Byte>
    const romPath: array<Byte>

    ghost predicate Valid()
      reads this
    {
      romPath.Length == ROM_PATH_BUFFER_SIZE && state != romPath
    }

    /** A zero-filled record whose state buffer holds stateSize bytes. */
    constructor (stateSize: nat)
      ensures Valid() && fresh(state) && fresh(romPath)
      ensures state.Length == stateSize
      ensures forall i :: 0 <= i < state.Length ==> state[i] == NUL
      ensures forall i :: 0 <= i < romPath.Length ==> romPath[i] == NUL
    {
      state := new Byte[stateSize](_ => NUL);
      romPath := new Byte[ROM_PATH_BUFFER_SIZE](_ => NUL);
    }
  }

  /**
   * The ROM path field after serializeState: a path shorter than the buffer
   * is copied with its terminator and the bytes after it are kept; a longer
   * one leaves the field as it was.
   */
  function SerializedPath(field: seq<Byte>, path: seq<Byte>): (r: seq<Byte>)
    requires |field| == ROM_PATH_BUFFER_SIZE
    ensures |r| == |field|
  {
    if |path| < ROM_PATH_BUFFER_SIZE then path + [NUL] + field[|path| + 1..] else field
  }

  /** A serialized path is read back by strlen exactly: the field is terminated and its C string is the path. */
  lemma SerializedPathRoundTrip(field: seq<Byte>, path: seq<Byte>)
    requires |field| == ROM_PATH_BUFFER_SIZE && NoNul(path) && |path| < ROM_PATH_BUFFER_SIZE
    ensures NUL in SerializedPath(field, path)
    ensures CStr(SerializedPath(field, path)) == path
  {
    var r := SerializedPath(field, path);
    assert r[|path|] == NUL;
    CStrOfTerminated(path, field[|path| + 1..]);
  }

  /**
   * The state buffer after the engine wrote `data` through a memory stream
   * over it: the first bytes are overwritten, and what does not fit is lost.
   */
  function Overwritten(buf: seq<Byte>, data: seq<Byte>): (r: seq<Byte>)
    ensures |r| == |buf|
  {
    if |data| <= |buf| then data + buf[|data|..] else data[..|buf|]
  }

  /** A snapshot that fits is the prefix of the buffer; one that does not is cut at the buffer's size. */
  lemma OverwrittenPrefix(buf: seq<Byte>, data: seq<Byte>)
    ensures |data| <= |buf| ==> Overwritten(buf, data)[..|data|] == data
    ensures |data| > |buf| ==> Overwritten(buf, data) == data[..|buf|]
    ensures forall i :: 0 <= i < |buf| && i >= |data| ==> Overwritten(buf, data)[i] == buf[i]
  {
  }

  /** strcpy(dst, src): the bytes of src and a terminator, the rest of dst untouched. */
  method StrCpy(dst: array<Byte>, src: seq<Byte>)
    requires NoNul(src) && |src| < dst.Length
    modifies dst
    ensures dst[..] == src + [NUL] + old(dst[..])[|src| + 1..]
  {
    ghost var before := dst[..];
    var i := 0;
    while i < |src|
      invariant 0 <= i <= |src|
      invariant forall j :: 0 <= j < dst.Length ==> dst[j] == if j < i then src[j] else before[j]
    {
      dst[i] := src[i];
      i := i + 1;
    }
    dst[|src|] := NUL;
    assert dst[..] == src + [NUL] + before[|src| + 1..];
  }

  /** The stream writes over a fixed-size buffer: byte by byte, until the data or the buffer ends. */
  method WriteBounded(dst: array<Byte>, data: seq<Byte>)
    modifies dst
    ensures dst[..] == Overwritten(old(dst[..]), data)
  {
    ghost var before := dst[..];
    var i := 0;
    while i < |data| && i < dst.Length
      invariant 0 <= i <= |data| && i <= dst.Length
      invariant forall j :: 0 <= j < dst.Length ==> dst[j] == if j < i then data[j] else before[j]
    {
      dst[i] := data[i];
      i := i + 1;
    }
    assert dst[..] == Overwritten(before, data);
  }

  /**
   * serializeState(state): nothing without a loaded cartridge; otherwise the
   * ROM path if it fits, and the engine's snapshot into the state buffer.
   */
  method SerializeState(rec: AppSaveState, host: HostState)
    requires rec.Valid() && host.Valid()
    modifies rec.state, rec.romPath, host.emulator
    ensures old(host.emulator.status) != Loaded ==>
      rec.state[..] == old(rec.state[..]) && rec.romPath[..] == old(rec.romPath[..]) &&
      host.emulator.calls == old(host.emulator.calls)
    ensures old(host.emulator.status) == Loaded ==>
      rec.romPath[..] == SerializedPath(old(rec.romPath[..]), host.romPath) &&
      rec.state[..] == Overwritten(old(rec.state[..]), old(host.emulator.snapshot)) &&
      host.emulator.calls == old(host.emulator.calls) + [SaveState]
    ensures host.emulator.status == old(host.emulator.status) && host.emulator.header == old(host.emulator.header)
    ensures host.emulator.supportsSaving == old(host.emulator.supportsSaving)
    ensures host.emulator.savePath == old(host.emulator.savePath) && host.emulator.snapshot == old(host.emulator.snapshot)
  {
    if host.emulator.status != Loaded {
      return;
    }
    if |host.romPath| < ROM_PATH_BUFFER_SIZE {
      StrCpy(rec.romPath, host.romPath);
    }
    var data := host.emulator.SaveStateCall();
    WriteBounded(rec.state, data);
  }

  /**
   * The engine calls resumeFromState makes: with a cartridge loaded, the
   * state is restored; otherwise an empty stored path does nothing, and a
   * stored path is loaded and the state restored only if it loaded.
   */
  function ResumeCalls(loaded: bool, stored: seq<Byte>, outcome: CartridgeStatus, data: seq<Byte>): seq<Call> {
    if loaded then [LoadState(data)]
    else if stored == [] then []
    else [LoadGame(stored)] + (if outcome == Loaded then [LoadState(data)] else [])
  }

  /** The state is restored exactly when a cartridge is loaded already or the stored one loads. */
  lemma ResumeRestoresIffLoaded(loaded: bool, stored: seq<Byte>, outcome: CartridgeStatus, data: seq<Byte>)
    ensures LoadState(data) in ResumeCalls(loaded, stored, outcome, data) <==>
      loaded || (stored != [] && outcome == Loaded)
    ensures loaded ==> forall c :: c in ResumeCalls(loaded, stored, outcome, data) ==> !c.LoadGame?
  {
    var r := ResumeCalls(loaded, stored, outcome, data);
    if !loaded && stored != [] && outcome != Loaded {
      assert r == [LoadGame(stored)];
    }
  }

  /** resumeFromState(state); `outcome` is what loadGame reports for the stored path. */
  method ResumeFromState(rec: AppSaveState, host: HostState, outcome: CartridgeStatus)
    requires rec.Valid() && host.Valid() && NUL in rec.romPath[..]
    modifies host, host.emulator
    ensures host.Valid()
    ensures host.emulator.calls ==
      old(host.emulator.calls) + ResumeCalls(old(host.emulator.status) == Loaded, CStr(rec.romPath[..]), outcome, rec.state[..])
    ensures host.romPath ==
      if old(host.emulator.status) != Loaded && CStr(rec.romPath[..]) != [] && outcome == Loaded
      then CStr(rec.romPath[..]) else old(host.romPath)
    ensures host.emulator.status ==
      if old(host.emulator.status) != Loaded && CStr(rec.romPath[..]) != [] then outcome else old(host.emulator.status)
    ensures host.initialSaveLoaded == old(host.initialSaveLoaded)
    ensures host.emulator.savePath == old(host.emulator.savePath) && host.emulator.snapshot == old(host.emulator.snapshot)
  {
    if host.emulator.status != Loaded {
      var stored := CStr(rec.romPath[..]);
      if |stored| == 0 {
        return;
      }
      var result := host.LoadROM(stored, outcome);
      if result != Loaded {
        return;
      }
    }
    host.emulator.LoadStateCall(rec.state[..]);
  }

  /**
   * A session serialized with a loaded ROM whose path fits resumes in a
   * fresh process by loading that same path and, once it loads, handing the
   * engine a buffer that starts with the snapshot it wrote.
   */
  lemma SerializeThenResume(field: seq<Byte>, path: seq<Byte>, buf: seq<Byte>, snapshot: seq<Byte>)
    requires |field| == ROM_PATH_BUFFER_SIZE && NoNul(path) && 0 < |path| < ROM_PATH_BUFFER_SIZE
    requires |snapshot| <= |buf|
    ensures NUL in SerializedPath(field, path)
    ensures ResumeCalls(false, CStr(SerializedPath(field, path)), Loaded, Overwritten(buf, snapshot)) ==
      [LoadGame(path), LoadState(Overwritten(buf, snapshot))]
    ensures Overwritten(buf, snapshot)[..|snapshot|] == snapshot
  {
    SerializedPathRoundTrip(field, path);
    OverwrittenPrefix(buf, snapshot);
  }
}
