/**
 * NUL-terminated byte strings, as the host layer passes them between C,
 * JNI and the pipe. A `char` of the C code is a Byte here.
 */
module CStrings {

  newtype Byte = b: int | 0 <= b < 256

  const NUL: Byte := 0

  /** A byte string that holds no NUL, as every string obtained from a C string does. */
  predicate NoNul(s: seq<Byte>) {
    NUL !in s
  }

  /** strlen: the number of bytes before the first NUL. */
  function StrLen(s: seq<Byte>): (n: nat)
    requires NUL in s
    ensures n < |s| && s[n] == NUL
    ensures NoNul(s[..n])
  {
    if s[0] == NUL then 0
    else
      assert NUL in s[1..] by {
        var k :| 0 <= k < |s| && s[k] == NUL;
        assert s[1..][k - 1] == NUL;
      }
      var n := 1 + StrLen(s[1..]);
      assert s[..n] == [s[0]] + s[1..][..n - 1];
      n
  }

  /** The C string stored at the start of a buffer: its bytes up to the first NUL. */
  function CStr(s: seq<Byte>): (r: seq<Byte>)
    requires NUL in s
    ensures NoNul(r) && |r| < |s| && r == s[..|r|]
  {
    s[..StrLen(s)]
  }

  /** A NUL at index k ends the C string there or earlier. */
  lemma {:induction false} CStrEndsBy(s: seq<Byte>, k: nat)
    requires k < |s| && s[k] == NUL
    ensures NUL in s && StrLen(s) <= k && |CStr(s)| <= k
  {
    assert s[k] in s;
    if s[0] != NUL {
      assert s[1..][k - 1] == NUL;
      CStrEndsBy(s[1..], k - 1);
    }
  }

  /** A NUL-free string followed by a terminator reads back as itself, whatever follows. */
  lemma {:induction false} CStrOfTerminated(p: seq<Byte>, rest: seq<Byte>)
    requires NoNul(p)
    ensures NUL in p + [NUL] + rest
    ensures StrLen(p + [NUL] + rest) == |p|
    ensures CStr(p + [NUL] + rest) == p
  {
    var s := p + [NUL] + rest;
    assert s[|p|] == NUL;
    if p != [] {
      assert s[1..] == p[1..] + [NUL] + rest;
      CStrOfTerminated(p[1..], rest);
    }
    assert s[..|p|] == p;
  }
}
