/**
 * The host's session globals (fba_util/shared.h) and the guards of
 * fba_util/emulator_state.cpp: loading a ROM, and reading and writing
 * cartridge RAM at the save path Java chooses.
 */
module EmulatorState {
  import opened CStrings
  import opened Emulator
  import opened Jni

  /** Cartridge RAM is read and written only for a non-empty save path of a cartridge that supports saving. */
  predicate PersistsRam(savePath: seq<Byte>, supportsSaving: bool) {
    savePath != [] && supportsSaving
  }

  /** The engine calls loadSaveGame makes after storing the path. */
  function RamLoadCalls(savePath: seq<Byte>, supportsSaving: bool): seq<Call> {
    if PersistsRam(savePath, supportsSaving) then [LoadCartridgeRam(savePath)] else []
  }

  /** The engine calls saveGame makes. */
  function RamSaveCalls(savePath: seq<Byte>, supportsSaving: bool): seq<Call> {
    if PersistsRam(savePath, supportsSaving) then [WriteCartridgeRam(savePath)] else []
  }

  /** saveGame writes RAM to exactly the file loadSaveGame read it from, and only when it was read. */
  lemma SaveMirrorsLoad(savePath: seq<Byte>, supportsSaving: bool)
    ensures |RamLoadCalls(savePath, supportsSaving)| == |RamSaveCalls(savePath, supportsSaving)| <= 1
    ensures RamLoadCalls(savePath, supportsSaving) != [] ==>
      RamLoadCalls(savePath, supportsSaving)[0].path == RamSaveCalls(savePath, supportsSaving)[0].path == savePath
    ensures savePath == [] ==> RamLoadCalls(savePath, supportsSaving) == [] == RamSaveCalls(savePath, supportsSaving)
  {
  }

  /** State::emulator, State::romPath and State::initialSaveLoaded. */
  class HostState {
    const emulator: Emulator
    var romPath: seq<Byte>
    var initialSaveLoaded: bool

    /** romPath is copied from C strings, so it holds no NUL. */
    ghost predicate Valid()
      reads this
    {
      NoNul(romPath)
    }

    constructor (emulator: Emulator)
      ensures this.emulator == emulator && romPath == [] && !initialSaveLoaded && Valid()
    {
      this.emulator := emulator;
      romPath := [];
      initialSaveLoaded := false;
    }

    /** loadROM(path): the status loadGame reports; the path is remembered only when it loaded. */
    method LoadROM(path: seq<Byte>, outcome: CartridgeStatus) returns (result: CartridgeStatus)
      requires Valid() && NoNul(path)
      modifies this, emulator
      ensures Valid()
      ensures result == outcome && emulator.status == outcome
      ensures romPath == if outcome == Loaded then path else old(romPath)
      ensures initialSaveLoaded == old(initialSaveLoaded)
      ensures emulator.calls == old(emulator.calls) + [LoadGame(path)]
      ensures emulator.header == old(emulator.header) && emulator.supportsSaving == old(emulator.supportsSaving)
      ensures emulator.savePath == old(emulator.savePath) && emulator.snapshot == old(emulator.snapshot)
    {
      result := emulator.LoadGameCall(path, outcome);
      if result == Loaded {
        romPath := path;
      }
    }

    /**
     * loadSaveGame(engine): ask Java for the save path (`answer` is its
     * reply), store it, mark the initial save as loaded, and read cartridge
     * RAM when the path is usable.
     */
    method LoadSaveGame(answer: seq<Byte>) returns (query: SavePathQuery)
      requires Valid() && HeaderOk(emulator.header) && NUL in answer
      modifies this, emulator
      ensures Valid() && romPath == old(romPath)
      ensures initialSaveLoaded
      ensures query.title == TitleArg(old(emulator.header).title)
      ensures query.checksum == ChecksumArg(old(emulator.header).globalChecksum[0], old(emulator.header).globalChecksum[1])
      ensures emulator.savePath == CStr(answer)
      ensures emulator.calls == old(emulator.calls) + RamLoadCalls(CStr(answer), old(emulator.supportsSaving))
      ensures emulator.status == old(emulator.status) && emulator.header == old(emulator.header)
      ensures emulator.supportsSaving == old(emulator.supportsSaving) && emulator.snapshot == old(emulator.snapshot)
    {
      var savePath;
      query, savePath := GetSavePath(emulator.header, answer);
      emulator.savePath := savePath;
      initialSaveLoaded := true;
      if savePath != [] && emulator.supportsSaving {
        emulator.LoadCartridgeRamCall(savePath);
      }
    }

    /** saveGame(): write cartridge RAM to the stored save path when it is usable, else do nothing. */
    method SaveGame()
      modifies emulator
      ensures emulator.calls == old(emulator.calls) + RamSaveCalls(old(emulator.savePath), old(emulator.supportsSaving))
      ensures emulator.status == old(emulator.status) && emulator.header == old(emulator.header)
      ensures emulator.supportsSaving == old(emulator.supportsSaving)
      ensures emulator.savePath == old(emulator.savePath) && emulator.snapshot == old(emulator.snapshot)
    {
      var saveGamePath := emulator.savePath;
      if saveGamePath != [] && emulator.supportsSaving {
        emulator.WriteCartridgeRamCall(saveGamePath);
      }
    }
  }
}
