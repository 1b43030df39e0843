/**
 * The message pipe between the Java side and the native loop. The writer
 * (romPicked) sends the length of a ROM path as a native size_t and then
 * the path bytes; the reader (handleCustomMessage) reads them back. A
 * size_t is taken to be 8 bytes, little-endian, as on 64-bit Android.
 */
module MessagePipe {
  import opened CStrings

  const SIZE_T_BYTES: nat := 8

  function Pow256(k: nat): (p: nat)
    ensures p >= 1
  {
    if k == 0 then 1 else 256 * Pow256(k - 1)
  }

  /** The k bytes of n, least significant first: how a size_t lies in memory. */
  function LittleEndian(n: nat, k: nat): (r: seq<Byte>)
    ensures |r| == k
  {
    if k == 0 then [] else [(n % 256) as Byte] + LittleEndian(n / 256, k - 1)
  }

  /** The number whose little-endian bytes are bs. */
  function FromLittleEndian(bs: seq<Byte>): (n: nat)
    ensures n < Pow256(|bs|)
  {
    if bs == [] then 0 else bs[0] as nat + 256 * FromLittleEndian(bs[1..])
  }

  /** Reading a size_t back yields the number written, for every number a size_t holds. */
  lemma {:induction false} LittleEndianRoundTrip(n: nat, k: nat)
    requires n < Pow256(k)
    ensures FromLittleEndian(LittleEndian(n, k)) == n
  {
    if k > 0 {
      var r := LittleEndian(n, k);
      var q, m := n / 256, n % 256;
      assert n == 256 * q + m;
      assert q < Pow256(k - 1);
      LittleEndianRoundTrip(q, k - 1);
      assert r[1..] == LittleEndian(q, k - 1);
      ByteRoundTrip(m);
    }
  }

  lemma ByteRoundTrip(m: nat)
    requires m < 256
    ensures (m as Byte) as nat == m
  {
  }

  /** Different lengths produce different size_t bytes. */
  lemma LittleEndianInjective(m: nat, n: nat, k: nat)
    requires m < Pow256(k) && n < Pow256(k) && LittleEndian(m, k) == LittleEndian(n, k)
    ensures m == n
  {
    LittleEndianRoundTrip(m, k);
    LittleEndianRoundTrip(n, k);
  }

  /** The bytes in flight, oldest first. */
  class Pipe {
    var bytes: seq<Byte>

    constructor ()
      ensures bytes == []
    {
      bytes := [];
    }

    /** write(fd, data, n): all n bytes are appended. */
    method Write(data: seq<Byte>)
      modifies this
      ensures bytes == old(bytes) + data
    {
      bytes := bytes + data;
    }

    /** read(fd, buf, n): up to n bytes are taken from the front. */
    method Read(n: nat) returns (data: seq<Byte>)
      modifies this
      ensures |data| == if n <= |old(bytes)| then n else |old(bytes)|
      ensures old(bytes) == data + bytes
    {
      var k := if n <= |bytes| then n else |bytes|;
      data := bytes[..k];
      bytes := bytes[k..];
    }
  }
}
