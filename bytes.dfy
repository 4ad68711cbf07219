/** Fixed-width machine integers, their little-endian byte encodings, and
    32-bit IEEE 754 floats kept as their bit patterns. */
module Bytes {

  newtype u8 = x: int | 0 <= x < 0x100
  newtype u32 = x: int | 0 <= x < 0x1_0000_0000

  const U32_MODULUS: nat := 0x1_0000_0000

  /** `x.to_le_bytes()` for a `u32`: least significant byte first. */
  function U32ToLeBytes(x: u32): (bs: seq<u8>)
    ensures |bs| == 4
  {
    var n := x as int;
    [(n % 0x100) as u8, (n / 0x100 % 0x100) as u8,
     (n / 0x1_0000 % 0x100) as u8, (n / 0x100_0000) as u8]
  }

  /** `u32::from_le_bytes`: the inverse reading of four bytes. */
  function U32FromLeBytes(bs: seq<u8>): u32
    requires |bs| == 4
  {
    (bs[0] as int + 0x100 * bs[1] as int + 0x1_0000 * bs[2] as int
     + 0x100_0000 * bs[3] as int) as u32
  }

  /** Reading back the four bytes of a `u32` gives the same number. */
  lemma U32LeRoundTrip(x: u32)
    ensures U32FromLeBytes(U32ToLeBytes(x)) == x
  {
    var n := x as int;
    var b0, b1, b2, b3 := n % 0x100, n / 0x100 % 0x100, n / 0x1_0000 % 0x100, n / 0x100_0000;
    assert n / 0x100 == b1 + 0x100 * (n / 0x1_0000);
    assert n / 0x1_0000 == b2 + 0x100 * b3;
    assert n == b0 + 0x100 * (n / 0x100);
  }

  /** Distinct numbers have distinct encodings. */
  lemma U32LeInjective(x: u32, y: u32)
    ensures U32ToLeBytes(x) == U32ToLeBytes(y) ==> x == y
  {
    U32LeRoundTrip(x);
    U32LeRoundTrip(y);
  }

  /** Rust's `i as u32` on a `usize`: keeps the low 32 bits, with no range check. */
  function TruncateToU32(i: nat): (r: u32)
    ensures i < U32_MODULUS ==> r as int == i
    ensures (i - r as int) % U32_MODULUS == 0
  {
    (i % U32_MODULUS) as u32
  }

  /** An `f32`, represented by its IEEE 754 binary32 bit pattern
      (what `f32::to_bits` returns). No arithmetic is modelled on it. */
  datatype F32 = F32(bits: u32)

  /** `f32::is_finite`: the 8-bit exponent field (bits 23 to 30) is not all
      ones; all ones encodes the infinities and the NaNs, which are the bit
      patterns from 0x7F80_0000 up to the sign bit and from 0xFF80_0000 up. */
  predicate IsFinite(f: F32)
  {
    f.bits < 0x7F80_0000 || 0x8000_0000 <= f.bits < 0xFF80_0000
  }

  /** `f32::to_le_bytes`: the bit pattern's little-endian encoding. */
  function F32ToLeBytes(f: F32): (bs: seq<u8>)
    ensures |bs| == 4
  {
    U32ToLeBytes(f.bits)
  }

  /** The `f32` value 1.0. */
  const ONE: F32 := F32(0x3F80_0000)
}
