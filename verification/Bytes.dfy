/** Bytes, little-endian words, the bitwise AND of NOR programming, and CRC-32. */
module Bytes {

  type byte = x: int | 0 <= x < 0x100
  type u16 = x: int | 0 <= x < 0x1_0000
  type u32 = x: int | 0 <= x < 0x1_0000_0000
  type u64 = x: int | 0 <= x < 0x1_0000_0000_0000_0000
  type i64 = x: int | -0x8000_0000_0000_0000 <= x < 0x8000_0000_0000_0000

  // ---------------------------------------------------------------- bits

  /** Bitwise AND of two naturals. */
  function And(a: nat, b: nat): nat
  {
    if a == 0 || b == 0 then 0
    else 2 * And(a / 2, b / 2) + (if a % 2 == 1 && b % 2 == 1 then 1 else 0)
  }

  lemma {:induction false} AndBounded(a: nat, b: nat)
    ensures And(a, b) <= a && And(a, b) <= b
  {
    if a != 0 && b != 0 {
      AndBounded(a / 2, b / 2);
    }
  }

  lemma {:induction false} AndSelf(a: nat)
    ensures And(a, a) == a
  {
    if a != 0 {
      AndSelf(a / 2);
    }
  }

  /** An erased byte (0xFF) takes exactly the value programmed into it. */
  lemma AndErased(b: byte)
    ensures And(255, b) == b
  {
    AndOnes(8, b);
  }

  function Ones(n: nat): nat {
    if n == 0 then 0 else 2 * Ones(n - 1) + 1
  }

  lemma {:induction false} AndOnes(n: nat, b: nat)
    requires b <= Ones(n)
    ensures And(Ones(n), b) == b
  {
    if n != 0 {
      AndOnes(n - 1, b / 2);
    }
  }

  // ---------------------------------------------------------------- words

  function Le16(v: u16): (s: seq<byte>)
    ensures |s| == 2
  {
    [v % 256, v / 256]
  }

  function Le32(v: u32): (s: seq<byte>)
    ensures |s| == 4
  {
    var q1 := v / 0x100;
    var q2 := q1 / 0x100;
    [v % 0x100, q1 % 0x100, q2 % 0x100, q2 / 0x100]
  }

  function Le64(v: u64): (s: seq<byte>)
    ensures |s| == 8
  {
    Le32(v % 0x1_0000_0000) + Le32(v / 0x1_0000_0000)
  }

  /** Two's complement, as the unsigned cast of a signed 64-bit value. */
  function LeI64(v: i64): (s: seq<byte>)
    ensures |s| == 8
  {
    Le64(if v < 0 then v + 0x1_0000_0000_0000_0000 else v)
  }

  function Get16(b: seq<byte>, at: nat): u16
    requires at + 2 <= |b|
  {
    b[at] as int + 0x100 * b[at + 1] as int
  }

  function Get32(b: seq<byte>, at: nat): u32
    requires at + 4 <= |b|
  {
    b[at] as int + 0x100 * b[at + 1] as int
    + 0x1_0000 * b[at + 2] as int + 0x100_0000 * b[at + 3] as int
  }

  function Get64(b: seq<byte>, at: nat): u64
    requires at + 8 <= |b|
  {
    Get32(b, at) + 0x1_0000_0000 * Get32(b, at + 4)
  }

  function GetI64(b: seq<byte>, at: nat): i64
    requires at + 8 <= |b|
  {
    var v := Get64(b, at);
    if v >= 0x8000_0000_0000_0000 then v - 0x1_0000_0000_0000_0000 else v
  }

  /** Reading back each word form at the place it was written. */
  lemma Get16Of(b: seq<byte>, at: nat, v: u16)
    requires at + 2 <= |b| && b[at..at + 2] == Le16(v)
    ensures Get16(b, at) == v
  {
    assert b[at] == b[at..at + 2][0] && b[at + 1] == b[at..at + 2][1];
  }

  lemma Get32Of(b: seq<byte>, at: nat, v: u32)
    requires at + 4 <= |b| && b[at..at + 4] == Le32(v)
    ensures Get32(b, at) == v
  {
    var w, q1 := b[at..at + 4], v / 0x100;
    var q2 := q1 / 0x100;
    assert v == v % 0x100 + 0x100 * q1 && q1 == q1 % 0x100 + 0x100 * q2;
    assert w[0] == b[at] && w[1] == b[at + 1] && w[2] == b[at + 2] && w[3] == b[at + 3];
  }

  lemma Get64Of(b: seq<byte>, at: nat, v: u64)
    requires at + 8 <= |b| && b[at..at + 8] == Le64(v)
    ensures Get64(b, at) == v
  {
    assert b[at..at + 4] == b[at..at + 8][..4];
    assert b[at + 4..at + 8] == b[at..at + 8][4..];
    Get32Of(b, at, v % 0x1_0000_0000);
    Get32Of(b, at + 4, v / 0x1_0000_0000);
  }

  lemma GetI64Of(b: seq<byte>, at: nat, v: i64)
    requires at + 8 <= |b| && b[at..at + 8] == LeI64(v)
    ensures GetI64(b, at) == v
  {
    Get64Of(b, at, if v < 0 then v + 0x1_0000_0000_0000_0000 else v);
  }

  // ---------------------------------------------------------------- CRC-32

  /** CRC-32 of section 8 of RFC 1952, bit by bit with the least significant bit of each byte first. */
  function Crc32(bytes: seq<byte>): u32
  {
    (CrcBytes(bytes, 0xFFFF_FFFF) ^ 0xFFFF_FFFF) as int
  }

  function CrcBytes(bytes: seq<byte>, crc: bv32): bv32
  {
    if |bytes| == 0 then crc
    else CrcBytes(bytes[1..], CrcBits(crc ^ (bytes[0] as bv32), 8))
  }

  function CrcBits(crc: bv32, bits: nat): bv32
    decreases bits
  {
    if bits == 0 then crc
    else CrcBits((crc >> 1) ^ (if crc & 1 == 1 then 0xEDB8_8320 else 0), bits - 1)
  }
}
