/**
 * The emulation engine as the host layer sees it. Its behaviour lives in
 * the FunkyBoy core and is not modelled: every outcome it decides (the
 * status loadGame reports, the code doTick returns, the bytes saveState
 * writes, whether the cartridge supports saving) is a field or a parameter,
 * and every call the host makes is appended to a log.
 */
module Emulator {
  import opened CStrings

  /** FunkyBoy::CartridgeStatus: Loaded, or any of the core's other statuses. */
  datatype CartridgeStatus = Loaded | NotLoaded(code: int)

  /** The fields of the cartridge header the host layer reads. */
  datatype RomHeader = RomHeader(title: seq<Byte>, destinationCode: Byte, globalChecksum: seq<Byte>)

  /** One call of the host layer into the engine. */
  datatype Call =
    | LoadGame(path: seq<Byte>)
    | DoTick
    | SaveState
    | LoadState(data: seq<Byte>)
    | LoadCartridgeRam(path: seq<Byte>)
    | WriteCartridgeRam(path: seq<Byte>)

  class Emulator {
    var status: CartridgeStatus
    var header: RomHeader
    var supportsSaving: bool
    var savePath: seq<Byte>
    /** The bytes saveState writes when called now. */
    var snapshot: seq<Byte>
    /** Every call received, oldest first. */
    var calls: seq<Call>

    constructor (header: RomHeader, supportsSaving: bool, snapshot: seq<Byte>)
      ensures this.header == header && this.supportsSaving == supportsSaving && this.snapshot == snapshot
      ensures status.NotLoaded? && savePath == [] && calls == []
    {
      status := NotLoaded(0);
      this.header := header;
      this.supportsSaving := supportsSaving;
      savePath := [];
      this.snapshot := snapshot;
      calls := [];
    }

    /** loadGame(path): the core reports `outcome`, which becomes the cartridge status. */
    method LoadGameCall(path: seq<Byte>, outcome: CartridgeStatus) returns (result: CartridgeStatus)
      modifies this
      ensures result == outcome && status == outcome
      ensures calls == old(calls) + [LoadGame(path)]
      ensures header == old(header) && supportsSaving == old(supportsSaving)
      ensures savePath == old(savePath) && snapshot == old(snapshot)
    {
      status := outcome;
      calls := calls + [LoadGame(path)];
      result := outcome;
    }

    /** doTick: only whether the returned code has the FB_RET_NEW_FRAME bit set is modelled. */
    method DoTickCall(newFrame: bool) returns (frameReady: bool)
      modifies this
      ensures frameReady == newFrame
      ensures calls == old(calls) + [DoTick]
      ensures status == old(status) && header == old(header) && supportsSaving == old(supportsSaving)
      ensures savePath == old(savePath) && snapshot == old(snapshot)
    {
      calls := calls + [DoTick];
      frameReady := newFrame;
    }

    /** saveState(stream): the engine writes its snapshot. */
    method SaveStateCall() returns (data: seq<Byte>)
      modifies this
      ensures data == snapshot
      ensures calls == old(calls) + [SaveState]
      ensures status == old(status) && header == old(header) && supportsSaving == old(supportsSaving)
      ensures savePath == old(savePath) && snapshot == old(snapshot)
    {
      calls := calls + [SaveState];
      data := snapshot;
    }

    /** loadState(stream): the engine restores itself from `data`. */
    method LoadStateCall(data: seq<Byte>)
      modifies this
      ensures calls == old(calls) + [LoadState(data)]
      ensures status == old(status) && header == old(header) && supportsSaving == old(supportsSaving)
      ensures savePath == old(savePath) && snapshot == old(snapshot)
    {
      calls := calls + [LoadState(data)];
    }

    /** loadCartridgeRam(file): cartridge RAM is read from the file at `path`. */
    method LoadCartridgeRamCall(path: seq<Byte>)
      modifies this
      ensures calls == old(calls) + [LoadCartridgeRam(path)]
      ensures status == old(status) && header == old(header) && supportsSaving == old(supportsSaving)
      ensures savePath == old(savePath) && snapshot == old(snapshot)
    {
      calls := calls + [LoadCartridgeRam(path)];
    }

    /** writeCartridgeRam(file): cartridge RAM is written to the file at `path`. */
    method WriteCartridgeRamCall(path: seq<Byte>)
      modifies this
      ensures calls == old(calls) + [WriteCartridgeRam(path)]
      ensures status == old(status) && header == old(header) && supportsSaving == old(supportsSaving)
      ensures savePath == old(savePath) && snapshot == old(snapshot)
    {
      calls := calls + [WriteCartridgeRam(path)];
    }
  }
}
