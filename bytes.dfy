/** Fixed-width unsigned integers and the little-endian byte reads that the
    telemetry decoder is built from (`read_u32`, `read_u64`, `read_f32`,
    `read_bool` and `read_u8` in the receiver). Integers are unbounded in
    Dafny, so every width is a subset type of `int`. */
module Bytes {

  type u8 = x: int | 0 <= x < 0x100
  type u16 = x: int | 0 <= x < 0x1_0000
  type u32 = x: int | 0 <= x < 0x1_0000_0000
  type u64 = x: int | 0 <= x < 0x1_0000_0000_0000_0000

  /** The raw IEEE-754 single-precision bit pattern of an `f32`. The receiver
      only reinterprets four bytes as a float and never computes with it, so
      the model keeps the 32-bit word. */
  type F32Bits = u32

  /** 256 to the power `n`: the number of values an `n`-byte word can hold. */
  function Pow256(n: nat): (p: nat)
    ensures p >= 1
  {
    if n == 0 then 1 else 0x100 * Pow256(n - 1)
  }

  /** The unsigned value of `s` read least-significant byte first. */
  function LittleEndian(s: seq<u8>): (n: nat)
    ensures n < Pow256(|s|)
  {
    if s == [] then 0 else s[0] + 0x100 * LittleEndian(s[1..])
  }

  /** The `width` bytes of `n`, least-significant first (`to_le_bytes`). */
  function ToLittleEndian(n: nat, width: nat): (s: seq<u8>)
    requires n < Pow256(width)
    ensures |s| == width
  {
    if width == 0 then [] else [n % 0x100] + ToLittleEndian(n / 0x100, width - 1)
  }

  /** Writing a value and reading it back gives the value. */
  lemma {:induction false} LittleEndianOfToLittleEndian(n: nat, width: nat)
    requires n < Pow256(width)
    ensures LittleEndian(ToLittleEndian(n, width)) == n
  {
    if width > 0 {
      var s := ToLittleEndian(n, width);
      assert s[1..] == ToLittleEndian(n / 0x100, width - 1);
      LittleEndianOfToLittleEndian(n / 0x100, width - 1);
    }
  }

  /** Reading bytes and writing the value back gives the bytes: a
      little-endian word is a bijection between byte strings of a given
      length and the numbers below `Pow256` of that length. */
  lemma {:induction false} ToLittleEndianOfLittleEndian(s: seq<u8>)
    ensures ToLittleEndian(LittleEndian(s), |s|) == s
  {
    if s != [] {
      var n := LittleEndian(s);
      assert n % 0x100 == s[0] && n / 0x100 == LittleEndian(s[1..]);
      ToLittleEndianOfLittleEndian(s[1..]);
    }
  }

  /** Two byte strings of one length with the same value are equal. */
  lemma LittleEndianInjective(s: seq<u8>, t: seq<u8>)
    requires |s| == |t| && LittleEndian(s) == LittleEndian(t)
    ensures s == t
  {
    ToLittleEndianOfLittleEndian(s);
    ToLittleEndianOfLittleEndian(t);
  }

  /** `u32::from_le_bytes` over a four-byte slice. */
  function ReadU32(bytes: seq<u8>): (n: u32)
    requires |bytes| == 4
    ensures n == bytes[0] as int + 0x100 * (bytes[1] as int) + 0x1_0000 * (bytes[2] as int) + 0x100_0000 * (bytes[3] as int)
  {
    Expand4(bytes);
    LittleEndian(bytes)
  }

  /** `u64::from_le_bytes` over an eight-byte slice. */
  function ReadU64(bytes: seq<u8>): (n: u64)
    requires |bytes| == 8
    ensures n == ReadU32(bytes[..4]) + 0x1_0000_0000 * ReadU32(bytes[4..])
  {
    Expand8(bytes);
    LittleEndian(bytes)
  }

  /** `f32::from_le_bytes` over a four-byte slice, kept as its bit pattern. */
  function ReadF32(bytes: seq<u8>): (bits: F32Bits)
    requires |bytes| == 4
    ensures bits == ReadU32(bytes)
  {
    LittleEndian(bytes)
  }

  /** A one-byte flag: any nonzero byte reads as `true`. */
  function ReadBool(bytes: seq<u8>): (b: bool)
    requires |bytes| == 1
    ensures b <==> bytes != [0]
  {
    bytes[0] != 0
  }

  /** A one-byte unsigned field. */
  function ReadU8(bytes: seq<u8>): (n: u8)
    requires |bytes| == 1
    ensures [n] == bytes
  {
    bytes[0]
  }

  lemma Expand4(bytes: seq<u8>)
    requires |bytes| == 4
    ensures Pow256(4) == 0x1_0000_0000
    ensures LittleEndian(bytes) == bytes[0] as int + 0x100 * (bytes[1] as int) + 0x1_0000 * (bytes[2] as int) + 0x100_0000 * (bytes[3] as int)
  {
    assert bytes[1..][1..][1..][1..] == [];
    assert LittleEndian(bytes[3..]) == bytes[3];
    assert LittleEndian(bytes[2..]) == bytes[2] as int + 0x100 * (bytes[3] as int);
  }

  lemma Expand8(bytes: seq<u8>)
    requires |bytes| == 8
    ensures Pow256(8) == 0x1_0000_0000_0000_0000
    ensures LittleEndian(bytes) == LittleEndian(bytes[..4]) + 0x1_0000_0000 * LittleEndian(bytes[4..])
  {
    var high := LittleEndian(bytes[4..]);
    Expand4(bytes[..4]);
    assert bytes[1..][1..][1..][1..] == bytes[4..];
    assert LittleEndian(bytes[3..]) == bytes[3] as int + 0x100 * high;
    assert LittleEndian(bytes[2..]) == bytes[2] as int + 0x100 * (bytes[3] as int) + 0x1_0000 * high;
    assert LittleEndian(bytes[1..]) == bytes[1] as int + 0x100 * (bytes[2] as int) + 0x1_0000 * (bytes[3] as int) + 0x100_0000 * high;
  }
}
