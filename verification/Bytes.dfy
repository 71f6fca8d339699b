/** Machine integers as ranges of `int`, and the big-endian and little-endian field codecs that
    every record in the program is made of. Masks and shifts are written with `%` and `/`. */
module Bytes {

  type u8 = x: int | 0 <= x < 0x100
  type u16 = x: int | 0 <= x < 0x1_0000
  type u32 = x: int | 0 <= x < 0x1_0000_0000

  type bytes = seq<u8>

  type Uuid = b: bytes | |b| == 16 witness [0, 0, 0, 0, 0, 0, 0, 0, 0, 0, 0, 0, 0, 0, 0, 0]

  function Be16(v: u16): (r: bytes)
    ensures |r| == 2
  {
    [v / 0x100, v % 0x100]
  }

  function Be32(v: u32): (r: bytes)
    ensures |r| == 4
  {
    [v / 0x100_0000, v / 0x1_0000 % 0x100, v / 0x100 % 0x100, v % 0x100]
  }

  function U16At(data: bytes, at: nat): (r: u16)
    requires at + 2 <= |data|
  {
    var hi: int, lo: int := data[at], data[at + 1];
    hi * 0x100 + lo
  }

  function U32At(data: bytes, at: nat): (r: u32)
    requires at + 4 <= |data|
  {
    U16At(data, at) * 0x1_0000 + U16At(data, at + 2)
  }

  /** The header of every block: type, length of what follows, version 1.0 (src/blocks.rs). */
  function BlockHeader(blockType: u16, blockLength: u16): (r: bytes)
    ensures |r| == 6
  {
    Be16(blockType) + Be16(blockLength) + [0x01, 0x00]
  }

  /** `x as u16` on a wider unsigned value. */
  function AsU16(x: nat): (r: u16) {
    x % 0x1_0000
  }

  /** `x as u32` on a wider unsigned value. */
  function AsU32(x: nat): (r: u32) {
    x % 0x1_0000_0000
  }

  lemma Fits16(x: nat)
    requires x < 0x1_0000
    ensures AsU16(x) == x
  {}

  lemma Fits32(x: nat)
    requires x < 0x1_0000_0000
    ensures AsU32(x) == x
  {}

  /** Zero bytes. */
  function Zeros(n: nat): (r: bytes)
    ensures |r| == n && forall k :: 0 <= k < n ==> r[k] == 0
  {
    seq(n, _ => 0)
  }

  function Max(a: int, b: int): int {
    if a < b then b else a
  }

  function Min(a: int, b: int): int {
    if a < b then a else b
  }

  /** A 16-bit field written inside a buffer reads back, whatever surrounds it. */
  lemma Be16At(data: bytes, at: nat, v: u16)
    requires at + 2 <= |data| && data[at..at + 2] == Be16(v)
    ensures U16At(data, at) == v
  {
    assert data[at] == data[at..at + 2][0] && data[at + 1] == data[at..at + 2][1];
  }

  /** A 32-bit field written inside a buffer reads back, whatever surrounds it. */
  lemma Be32At(data: bytes, at: nat, v: u32)
    requires at + 4 <= |data| && data[at..at + 4] == Be32(v)
    ensures U32At(data, at) == v
  {
    var f := data[at..at + 4];
    assert data[at] == f[0] && data[at + 1] == f[1] && data[at + 2] == f[2] && data[at + 3] == f[3];
    FourDigits(v);
  }

  /** The bytes of a 32-bit number are its digits to the base 256. */
  lemma FourDigits(v: u32)
    ensures (v / 0x100_0000 * 0x100 + v / 0x1_0000 % 0x100) * 0x1_0000 + (v / 0x100 % 0x100 * 0x100 + v % 0x100) == v
  {
    var hi, lo := v / 0x1_0000, v % 0x1_0000;
    FourBytes(hi / 0x100, hi % 0x100, lo / 0x100, lo % 0x100);
  }

  lemma FieldIsBytes16(data: bytes, at: nat)
    requires at + 2 <= |data|
    ensures Be16(U16At(data, at)) == data[at..at + 2]
  {}

  lemma FieldIsBytes32(data: bytes, at: nat)
    requires at + 4 <= |data|
    ensures Be32(U32At(data, at)) == data[at..at + 4]
  {
    FourBytes(data[at], data[at + 1], data[at + 2], data[at + 3]);
  }

  lemma FourBytes(a: u8, b: u8, c: u8, d: u8)
    ensures var v := ((a as int * 0x100 + b) * 0x100 + c) * 0x100 + d;
            v / 0x100_0000 == a && v / 0x1_0000 % 0x100 == b && v / 0x100 % 0x100 == c && v % 0x100 == d
  {
    var v := ((a as int * 0x100 + b) * 0x100 + c) * 0x100 + d;
    assert v / 0x100 == (a as int * 0x100 + b) * 0x100 + c;
    assert v / 0x1_0000 == a as int * 0x100 + b;
  }

  /** Fields of a slice are fields of the whole. */
  lemma SliceFields(data: bytes, from: nat, to: nat, at: nat)
    requires from + at + 2 <= to <= |data|
    ensures U16At(data[from..to], at) == U16At(data, from + at)
    ensures from + at + 4 <= to ==> U32At(data[from..to], at) == U32At(data, from + at)
  {}

  /** A 16-bit field behind a prefix reads back. */
  lemma Read16(data: bytes, pre: bytes, v: u16, post: bytes)
    requires data == pre + Be16(v) + post
    ensures |pre| + 2 <= |data| && U16At(data, |pre|) == v
  {
    var f := Be16(v);
    assert data[|pre|] == f[0] && data[|pre| + 1] == f[1];
  }

  /** A 32-bit field behind a prefix reads back. */
  lemma Read32(data: bytes, pre: bytes, v: u32, post: bytes)
    requires data == pre + Be32(v) + post
    ensures |pre| + 4 <= |data| && U32At(data, |pre|) == v
  {
    assert data[|pre|..|pre| + 4] == Be32(v);
    Be32At(data, |pre|, v);
  }
}
