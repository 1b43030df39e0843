/**
 * The JNI helpers of fb_jni.cpp that carry data: the arguments getSavePath
 * derives from the cartridge header for the Java method that picks the
 * save-slot file, and the romPicked writer of the message pipe. The JNI
 * calls themselves (class and method lookup, string conversion, reference
 * management) are not modelled; what Java returns is a parameter.
 */
module Jni {
  import opened CStrings
  import opened MessagePipe
  import opened Emulator

  /**
   * FB_ROM_HEADER_TITLE_BYTES, defined in the core's cartridge header: the
   * title field of the Game Boy cartridge header (0x134 to 0x143).
   */
  const TITLE_BYTES: nat := 16

  /** The header fields getSavePath reads are there. */
  predicate HeaderOk(h: RomHeader) {
    |h.title| >= TITLE_BYTES && |h.globalChecksum| >= 2
  }

  /** The arguments of the Java call getSavePath(String title, int destinationCode, int checksum). */
  datatype SavePathQuery = SavePathQuery(title: seq<Byte>, destinationCode: int, checksum: int)

  /** The title string Java receives: the header title up to its first NUL, at most TITLE_BYTES bytes. */
  function TitleArg(title: seq<Byte>): (t: seq<Byte>)
    requires |title| >= TITLE_BYTES
    ensures NoNul(t) && |t| <= TITLE_BYTES && t == title[..|t|]
    ensures |t| < TITLE_BYTES ==> title[|t|] == NUL
    ensures NoNul(title[..TITLE_BYTES]) ==> t == title[..TITLE_BYTES]
  {
    var buf := title[..TITLE_BYTES] + [NUL];
    assert buf[TITLE_BYTES] == NUL;
    var t := CStr(buf);
    assert buf[|t|] == NUL;
    assert NoNul(title[..TITLE_BYTES]) ==> t == title[..TITLE_BYTES] by {
      if NoNul(title[..TITLE_BYTES]) {
        CStrOfTerminated(title[..TITLE_BYTES], []);
        assert buf == title[..TITLE_BYTES] + [NUL] + [];
      }
    }
    t
  }

  /**
   * (globalChecksum[0] << 8) | globalChecksum[1]: the big-endian 16-bit
   * checksum. ShiftOrIsSum shows that the shift and the or of two bytes add
   * up to this value.
   */
  function ChecksumArg(hi: Byte, lo: Byte): (c: int)
    ensures 0 <= c < 65536
    ensures c / 256 == hi as int && c % 256 == lo as int
  {
    hi as int * 256 + lo as int
  }

  /** Shifting a byte left by eight bits and or-ing in another byte is the same as adding them in base 256. */
  lemma ShiftOrIsSum(hi: bv32, lo: bv32)
    requires hi < 256 && lo < 256
    ensures (hi << 8) | lo == hi * 256 + lo
  {
  }

  /** Two checksums give the same argument only if they are equal, byte for byte. */
  lemma ChecksumArgInjective(hi: Byte, lo: Byte, hi': Byte, lo': Byte)
    requires ChecksumArg(hi, lo) == ChecksumArg(hi', lo')
    ensures hi == hi' && lo == lo'
  {
    assert hi as int == hi' as int && lo as int == lo' as int;
  }

  /**
   * romTitleSafe: a zero-filled buffer of TITLE_BYTES + 1 bytes into which
   * the first TITLE_BYTES bytes of the title are copied.
   */
  method CopyTitle(title: seq<Byte>) returns (safe: array<Byte>)
    requires |title| >= TITLE_BYTES
    ensures fresh(safe)
    ensures safe[..] == title[..TITLE_BYTES] + [NUL]
  {
    safe := new Byte[TITLE_BYTES + 1](_ => NUL);
    var i := 0;
    while i < TITLE_BYTES
      invariant 0 <= i <= TITLE_BYTES
      invariant forall j :: 0 <= j < i ==> safe[j] == title[j]
      invariant forall j :: i <= j < safe.Length ==> safe[j] == NUL
    {
      safe[i] := title[i];
      i := i + 1;
    }
  }

  /**
   * getSavePath(engine, header): the query sent to Java and the save path
   * it answers with; `answer` is the C string Java's string converts to.
   */
  method GetSavePath(h: RomHeader, answer: seq<Byte>) returns (query: SavePathQuery, savePath: seq<Byte>)
    requires HeaderOk(h) && NUL in answer
    ensures query.title == TitleArg(h.title)
    ensures query.destinationCode == h.destinationCode as int
    ensures query.checksum == ChecksumArg(h.globalChecksum[0], h.globalChecksum[1])
    ensures savePath == CStr(answer)
  {
    var safe := CopyTitle(h.title);
    var title := CStr(safe[..]);
    query := SavePathQuery(title, h.destinationCode as int, ChecksumArg(h.globalChecksum[0], h.globalChecksum[1]));
    savePath := CStr(answer);
  }

  /** The size_t bytes of a path length. */
  function LengthBytes(n: nat): (r: seq<Byte>)
    ensures |r| == SIZE_T_BYTES
  {
    LittleEndian(n, SIZE_T_BYTES)
  }

  /** A path no longer than a size_t can count. */
  predicate SizeTLength(path: seq<Byte>) {
    |path| < Pow256(SIZE_T_BYTES)
  }

  /**
   * romPicked(path): the length of the C string as a size_t, then exactly
   * that many bytes, without the terminator.
   */
  method RomPicked(pipe: Pipe, path: seq<Byte>)
    requires NUL in path && SizeTLength(path)
    modifies pipe
    ensures pipe.bytes == old(pipe.bytes) + LengthBytes(StrLen(path)) + CStr(path)
  {
    var strln := StrLen(path);
    pipe.Write(LengthBytes(strln));
    pipe.Write(path[..strln]);
  }
}
