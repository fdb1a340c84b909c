/** Bytes, option values and the fixed-width integer encodings shared by every module. */
module Bytes {

  type byte = x: int | 0 <= x < 256
  type u16 = x: int | 0 <= x < 0x1_0000
  type u32 = x: int | 0 <= x < 0x1_0000_0000

  datatype Option<+T> = None | Some(value: T)

  /** `read_u16_be` at an offset. */
  function ReadU16Be(s: seq<byte>, at: nat): u16
    requires at + 2 <= |s|
  {
    256 * (s[at] as int) + s[at + 1]
  }

  function WriteU16Be(v: u16): (s: seq<byte>)
    ensures |s| == 2
  {
    [v / 256, v % 256]
  }

  function ReadU16Le(s: seq<byte>, at: nat): u16
    requires at + 2 <= |s|
  {
    s[at] + 256 * (s[at + 1] as int)
  }

  function WriteU16Le(v: u16): (s: seq<byte>)
    ensures |s| == 2
  {
    [v % 256, v / 256]
  }

  function ReadU32Le(s: seq<byte>, at: nat): u32
    requires at + 4 <= |s|
  {
    s[at] + 0x100 * (s[at + 1] as int) + 0x1_0000 * (s[at + 2] as int) + 0x100_0000 * (s[at + 3] as int)
  }

  function WriteU32Le(v: u32): (s: seq<byte>)
    ensures |s| == 4
  {
    [v % 256, v / 0x100 % 256, v / 0x1_0000 % 256, v / 0x100_0000]
  }

  lemma U32LeRoundTrip(v: u32)
    ensures ReadU32Le(WriteU32Le(v), 0) == v
  {
    assert v / 0x1_0000 == v / 0x100 / 256 && v / 0x100_0000 == v / 0x1_0000 / 256;
  }

  lemma U32LeCanonical(s: seq<byte>, at: nat)
    requires at + 4 <= |s|
    ensures WriteU32Le(ReadU32Le(s, at)) == s[at..at + 4]
  {
    Digits(s[at], s[at + 1], s[at + 2], s[at + 3]);
    assert s[at..at + 4] == [s[at], s[at + 1], s[at + 2], s[at + 3]];
  }

  /** The base-256 digits of a four-digit number. */
  lemma Digits(a: int, b: int, c: int, d: int)
    requires 0 <= a < 256 && 0 <= b < 256 && 0 <= c < 256 && 0 <= d < 256
    ensures var v := a + 0x100 * b + 0x1_0000 * c + 0x100_0000 * d;
            v % 256 == a && v / 0x100 % 256 == b && v / 0x1_0000 % 256 == c && v / 0x100_0000 == d
  {
    var v := a + 0x100 * b + 0x1_0000 * c + 0x100_0000 * d;
    assert v / 0x100 == b + 0x100 * c + 0x1_0000 * d;
    assert v / 0x1_0000 == c + 0x100 * d;
  }

  /** Reading depends only on the bytes read. */
  lemma ReadU32LeSlice(s: seq<byte>, at: nat, t: seq<byte>)
    requires at + 4 <= |s| && |t| == 4 && s[at..at + 4] == t
    ensures ReadU32Le(s, at) == ReadU32Le(t, 0)
  {
    assert s[at] == t[0] && s[at + 1] == t[1] && s[at + 2] == t[2] && s[at + 3] == t[3];
  }

  lemma ReadU32LeAppend(a: seq<byte>, b: seq<byte>, at: nat)
    requires at + 4 <= |a|
    ensures ReadU32Le(a + b, at) == ReadU32Le(a, at)
  {
    assert (a + b)[at] == a[at];
  }
}
