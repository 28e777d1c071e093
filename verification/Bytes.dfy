/** Bytes and little-endian fields of two, four and eight bytes. */
module Bytes {

  type Byte = x: int | 0 <= x < 256

  function LowByte(x: nat): Byte {
    x % 256
  }

  /** `u16(x)`: the low 16 bits, low byte first. */
  function U16(x: nat): seq<Byte> {
    [LowByte(x), LowByte(x / 256)]
  }

  /** `u32(x)`: the low 32 bits, low byte first. */
  function U32(x: nat): seq<Byte> {
    [LowByte(x), LowByte(x / 256), LowByte(x / 0x1_0000), LowByte(x / 0x100_0000)]
  }

  /** The low 64 bits, low byte first. */
  function U64(x: nat): seq<Byte> {
    U32(x) + U32(x / 0x1_0000_0000)
  }

  function Get16(s: seq<Byte>, at: nat): nat
    requires at + 2 <= |s|
  {
    (s[at] as int) + 256 * (s[at + 1] as int)
  }

  function Get32(s: seq<Byte>, at: nat): nat
    requires at + 4 <= |s|
  {
    Get16(s, at) + 0x1_0000 * Get16(s, at + 2)
  }

  function Get64(s: seq<Byte>, at: nat): nat
    requires at + 8 <= |s|
  {
    Get32(s, at) + 0x1_0000_0000 * Get32(s, at + 4)
  }

  lemma Get32Fits(s: seq<Byte>, at: nat)
    requires at + 4 <= |s|
    ensures Get32(s, at) < 0x1_0000_0000
  {
    assert Get16(s, at) < 0x1_0000 && Get16(s, at + 2) < 0x1_0000;
  }

  lemma Get64Fits(s: seq<Byte>, at: nat)
    requires at + 8 <= |s|
    ensures Get64(s, at) < 0x1_0000_0000_0000_0000
  {
    hide Get32;
    Get32Fits(s, at);
    Get32Fits(s, at + 4);
  }

  /** The bytes of a two-byte field follow from its value. */
  lemma BytesOf16(s: seq<Byte>, at: nat, x: nat)
    requires at + 2 <= |s| && Get16(s, at) == x
    ensures s[at] == x % 256 && s[at + 1] == x / 256 && x < 0x1_0000
  {
  }

  /** The bytes of a four-byte field. */
  lemma BytesOf32(s: seq<Byte>, at: nat, x: nat)
    requires at + 4 <= |s| && Get32(s, at) == x
    ensures s[at] == x % 256 && s[at + 1] == x / 256 % 256
    ensures s[at + 2] == x / 0x1_0000 % 256 && s[at + 3] == x / 0x100_0000
  {
    hide Get16;
    var low, high := Get16(s, at), Get16(s, at + 2);
    BytesOf16(s, at, low);
    BytesOf16(s, at + 2, high);
    HalvesOf(x, low, high);
  }

  lemma HalvesOf(x: nat, low: nat, high: nat)
    requires x == low + 0x1_0000 * high && low < 0x1_0000
    ensures low % 256 == x % 256 && low / 256 == x / 256 % 256
    ensures high % 256 == x / 0x1_0000 % 256 && high / 256 == x / 0x100_0000
  {
    LowDigit(x, 256 * high + low / 256, low % 256);
    LowDigit(256 * high + low / 256, high, low / 256);
    HighDigits(x, high, low);
  }

  lemma LowDigit(x: nat, k: nat, digit: nat)
    requires x == 256 * k + digit && digit < 256
    ensures x / 256 == k && x % 256 == digit
  {
  }

  lemma HighDigits(x: nat, high: nat, low: nat)
    requires x == 0x1_0000 * high + low && low < 0x1_0000
    ensures x / 0x1_0000 == high && x / 0x100_0000 == high / 256
  {
    assert x == 0x100_0000 * (high / 256) + (0x1_0000 * (high % 256) + low);
  }

  /** Two digits of 16 bits, low digit first. */
  lemma TwoHalves(x: nat, h: nat)
    requires h == x / 0x1_0000
    ensures x % 0x1_0000 + 0x1_0000 * (h % 0x1_0000) == x % 0x1_0000_0000
  {
    var low := x % 0x1_0000 + 0x1_0000 * (h % 0x1_0000);
    assert x == 0x1_0000 * h + x % 0x1_0000;
    assert h == 0x1_0000 * (h / 0x1_0000) + h % 0x1_0000;
    assert x == 0x1_0000_0000 * (h / 0x1_0000) + low && 0 <= low < 0x1_0000_0000;
  }

  /** Two bytes, low byte first. */
  lemma TwoBytes(x: nat, h: nat)
    requires h == x / 256
    ensures x % 256 + 256 * (h % 256) == x % 0x1_0000
  {
    var low := x % 256 + 256 * (h % 256);
    assert x == 256 * h + x % 256;
    assert h == 256 * (h / 256) + h % 256;
    assert x == 0x1_0000 * (h / 256) + low && 0 <= low < 0x1_0000;
  }

  lemma U16RoundTrip(x: nat)
    ensures Get16(U16(x), 0) == x % 0x1_0000
  {
    TwoBytes(x, x / 256);
  }

  /** A field of four bytes is two fields of two bytes. */
  lemma U32Halves(x: nat)
    ensures U32(x) == U16(x) + U16(x / 0x1_0000)
  {
    assert x / 0x100_0000 == x / 0x1_0000 / 256;
  }

  lemma Get32Halves(s: seq<Byte>, t: seq<Byte>)
    requires |s| == |t| == 2
    ensures Get32(s + t, 0) == Get16(s, 0) + 0x1_0000 * Get16(t, 0)
  {
  }

  lemma U32RoundTrip(x: nat)
    ensures Get32(U32(x), 0) == x % 0x1_0000_0000
  {
    hide Get16, Get32, U16, U32;
    var h := x / 0x1_0000;
    assert |U16(x)| == |U16(h)| == 2 by { U16Length(x); U16Length(h); }
    U32Halves(x);
    Get32Halves(U16(x), U16(h));
    U16RoundTrip(x);
    U16RoundTrip(h);
    TwoHalves(x, h);
  }

  lemma U16Length(x: nat)
    ensures |U16(x)| == 2
  {
  }

  lemma U32Length(x: nat)
    ensures |U32(x)| == 4
  {
  }

  /** Two digits of 32 bits, low digit first. */
  lemma TwoWords(x: nat, h: nat)
    requires h == x / 0x1_0000_0000
    ensures x % 0x1_0000_0000 + 0x1_0000_0000 * (h % 0x1_0000_0000) == x % 0x1_0000_0000_0000_0000
  {
    var low := x % 0x1_0000_0000 + 0x1_0000_0000 * (h % 0x1_0000_0000);
    assert x == 0x1_0000_0000 * h + x % 0x1_0000_0000;
    assert h == 0x1_0000_0000 * (h / 0x1_0000_0000) + h % 0x1_0000_0000;
    assert x == 0x1_0000_0000_0000_0000 * (h / 0x1_0000_0000) + low && 0 <= low < 0x1_0000_0000_0000_0000;
  }

  lemma U64RoundTrip(x: nat)
    ensures |U64(x)| == 8 && Get64(U64(x), 0) == x % 0x1_0000_0000_0000_0000
  {
    hide Get32, U32;
    var h := x / 0x1_0000_0000;
    U32Length(x);
    U32Length(h);
    Inside(U32(x), U32(h), [], 0);
    Inside([], U32(x), U32(h), 0);
    assert U32(x) + U32(h) + [] == U64(x) && [] + U32(x) + U32(h) == U64(x);
    U32RoundTrip(x);
    U32RoundTrip(h);
    TwoWords(x, h);
  }

  /** Fields of `t` are read in place, whatever stands around it. */
  lemma Inside(s: seq<Byte>, t: seq<Byte>, u: seq<Byte>, at: nat)
    ensures at + 2 <= |t| ==> Get16(s + t + u, |s| + at) == Get16(t, at)
    ensures at + 4 <= |t| ==> Get32(s + t + u, |s| + at) == Get32(t, at)
    ensures at + 8 <= |t| ==> Get64(s + t + u, |s| + at) == Get64(t, at)
  {
    var v := s + t + u;
    assert forall i | 0 <= i < |t| :: v[|s| + i] == t[i];
  }

  function Zeros(n: nat): (s: seq<Byte>)
    ensures |s| == n && forall i | 0 <= i < n :: s[i] == 0
  {
    seq(n, i => 0)
  }
}
