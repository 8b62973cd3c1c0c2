/**
 * Fixed-width integers, big-endian byte strings, the integer casts of Rust's `as`
 * operator, and opaque IEEE-754 values (the decoder never does float arithmetic,
 * so a float is kept as its bit pattern).
 */
module Wire {

  type byte = x: int | 0 <= x < 0x100
  type u8 = byte
  type u16 = x: int | 0 <= x < 0x1_0000
  type u32 = x: int | 0 <= x < 0x1_0000_0000
  type u64 = x: int | 0 <= x < 0x1_0000_0000_0000_0000
  type i8 = x: int | -0x80 <= x < 0x80
  type i16 = x: int | -0x8000 <= x < 0x8000
  type i32 = x: int | -0x8000_0000 <= x < 0x8000_0000
  type i64 = x: int | -0x8000_0000_0000_0000 <= x < 0x8000_0000_0000_0000
  /** The crate targets 64-bit hosts: `usize` is 64 bits wide, `isize` too. */
  type usize = u64
  type isize = i64

  /** An `f32` as its 32 bits. */
  datatype F32 = F32(bits: u32)
  /** An `f64` as its 64 bits. */
  datatype F64 = F64(bits: u64)

  /** The single-precision encoding of -1.0. Since -1.0 has exactly one encoding and
      NaN compares unequal to everything, `x != -1.0` holds exactly when the bits differ. */
  const MINUS_ONE_F32: F32 := F32(0xBF80_0000)
  /** Double-precision encodings of the constants the flight plan uses. */
  const ZERO_F64: F64 := F64(0)
  const FOURTEEN_F64: F64 := F64(0x402C_0000_0000_0000)
  const SEVENTEEN_F64: F64 := F64(0x4031_0000_0000_0000)

  function Pow256(k: nat): (p: nat)
    ensures p >= 1
  {
    if k == 0 then 1 else 256 * Pow256(k - 1)
  }

  lemma Pow256Widths()
    ensures Pow256(2) == 0x1_0000 && Pow256(4) == 0x1_0000_0000
    ensures Pow256(8) == 0x1_0000_0000_0000_0000
  {
  }

  /** The big-endian value of a byte string: the first byte is the most significant. */
  function BeValue(bs: seq<byte>): (n: nat)
    ensures n < Pow256(|bs|)
  {
    if bs == [] then 0 else BeValue(bs[..|bs| - 1]) * 256 + bs[|bs| - 1]
  }

  /** The `width` big-endian bytes of `n`: the inverse of BeValue. */
  function BeBytes(n: nat, width: nat): (bs: seq<byte>)
    requires n < Pow256(width)
    ensures |bs| == width
  {
    if width == 0 then [] else BeBytes(n / 256, width - 1) + [n % 256]
  }

  lemma {:induction false} BeValueOfBytes(n: nat, width: nat)
    requires n < Pow256(width)
    ensures BeValue(BeBytes(n, width)) == n
  {
    if width > 0 {
      BeValueOfBytes(n / 256, width - 1);
      var bs := BeBytes(n, width);
      assert bs[..width - 1] == BeBytes(n / 256, width - 1);
    }
  }

  lemma {:induction false} BeBytesOfValue(bs: seq<byte>)
    ensures BeBytes(BeValue(bs), |bs|) == bs
  {
    if bs != [] {
      var k := |bs| - 1;
      BeBytesOfValue(bs[..k]);
      assert bs == bs[..k] + [bs[k]];
    }
  }

  /** `n as i32` for `n: u32`: the two's-complement reading of the same 32 bits. */
  function I32Of(n: u32): (i: i32)
    ensures i % 0x1_0000_0000 == n
    ensures (i < 0) == (n >= 0x8000_0000)
  {
    if n < 0x8000_0000 then n else n - 0x1_0000_0000
  }

  /** The u32 whose bits read back as `i`: the inverse of I32Of. */
  function U32OfI32(i: i32): (n: u32)
    ensures I32Of(n) == i
  {
    i % 0x1_0000_0000
  }

  /** `x as u16` for any integer `x`: the low 16 bits. */
  function WrapU16(x: int): (r: u16)
    ensures (r - x) % 0x1_0000 == 0
    ensures 0 <= x < 0x1_0000 ==> r == x
  {
    x % 0x1_0000
  }

  /** `x as i16` for any integer `x`: the low 16 bits read as two's complement. */
  function WrapI16(x: int): (r: i16)
    ensures (r - x) % 0x1_0000 == 0
    ensures -0x8000 <= x < 0x8000 ==> r == x
  {
    var low := x % 0x1_0000;
    if low < 0x8000 then low else low - 0x1_0000
  }

  /** `x as i8` for any integer `x`: the low 8 bits read as two's complement. */
  function WrapI8(x: int): (r: i8)
    ensures (r - x) % 0x100 == 0
    ensures -0x80 <= x < 0x80 ==> r == x
  {
    var low := x % 0x100;
    if low < 0x80 then low else low - 0x100
  }

  /** `x as u8` for any integer `x`: the low 8 bits. */
  function WrapU8(x: int): (r: u8)
    ensures (r - x) % 0x100 == 0
    ensures 0 <= x < 0x100 ==> r == x
  {
    x % 0x100
  }

  /** `x as usize` for any integer `x` (64-bit target): the low 64 bits. */
  function WrapUsize(x: int): (r: usize)
    ensures (r - x) % 0x1_0000_0000_0000_0000 == 0
    ensures 0 <= x < 0x1_0000_0000_0000_0000 ==> r == x
  {
    x % 0x1_0000_0000_0000_0000
  }
}
