/** Raw octets and the big-endian fixed-width integers that the protocol files are made of. */
module Bytes {

  datatype Option<+T> = None | Some(value: T)

  type byte = x: int | 0 <= x < 0x100
  type uint16 = x: int | 0 <= x < 0x1_0000
  type int16 = x: int | -0x8000 <= x < 0x8000
  type uint32 = x: int | 0 <= x < 0x1_0000_0000

  const NUL: byte := 0

  function PutU16(n: uint16): (b: seq<byte>)
    ensures |b| == 2
  {
    [n / 0x100, n % 0x100]
  }

  function GetU16(b: seq<byte>): uint16
    requires |b| >= 2
  {
    var high: int, low: int := b[0], b[1];
    high * 0x100 + low
  }

  /** The number in the two octets from `i` on. */
  function Word(b: seq<byte>, i: nat): int
    requires i + 2 <= |b|
  {
    var high: int, low: int := b[i], b[i + 1];
    high * 256 + low
  }

  /** Two's complement. */
  function PutI16(n: int16): (b: seq<byte>)
    ensures |b| == 2
  {
    PutU16(if n < 0 then n + 0x1_0000 else n)
  }

  function GetI16(b: seq<byte>): int16
    requires |b| >= 2
  {
    var n := GetU16(b);
    if n >= 0x8000 then n - 0x1_0000 else n
  }

  function PutU32(n: uint32): (b: seq<byte>)
    ensures |b| == 4
  {
    PutU16(n / 0x1_0000) + PutU16(n % 0x1_0000)
  }

  function GetU32(b: seq<byte>): uint32
    requires |b| >= 4
  {
    var high: int, low: int := GetU16(b), GetU16(b[2..]);
    high * 0x1_0000 + low
  }

  lemma U16RoundTrip(n: uint16, rest: seq<byte>)
    ensures GetU16(PutU16(n) + rest) == n
  {
  }

  lemma I16RoundTrip(n: int16, rest: seq<byte>)
    ensures GetI16(PutI16(n) + rest) == n
  {
  }

  /** Reading a number back from its own octets changes nothing. */
  lemma U16Exact(b: seq<byte>)
    requires |b| >= 2
    ensures PutU16(GetU16(b)) == b[..2]
  {
  }
}
