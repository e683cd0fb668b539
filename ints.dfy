/** Fixed-width Rust integers as subset types of `int`, and the byte orders
    the codecs use (`to_be_bytes`, `to_le_bytes`, `from_be_bytes`). */
module Ints {

  const U8_LIMIT: int := 0x100
  const U16_LIMIT: int := 0x1_0000
  const U32_LIMIT: int := 0x1_0000_0000
  const U64_LIMIT: int := 0x1_0000_0000_0000_0000
  const I32_MIN: int := -0x8000_0000
  const I32_MAX: int := 0x7FFF_FFFF

  type u8 = x: int | 0 <= x < U8_LIMIT
  type u16 = x: int | 0 <= x < U16_LIMIT
  type u32 = x: int | 0 <= x < U32_LIMIT
  type u64 = x: int | 0 <= x < U64_LIMIT
  /** `usize` on a 64-bit target. */
  type usize = u64
  type i32 = x: int | I32_MIN <= x <= I32_MAX

  type Bytes = seq<u8>

  predicate InI32(x: int) { I32_MIN <= x <= I32_MAX }

  /** `u16::from_be_bytes([hi, lo])`. */
  function FromBe16(hi: u8, lo: u8): (r: u16)
    ensures r / 256 == hi && r % 256 == lo
  {
    hi * 256 + lo
  }

  /** `x.to_be_bytes()` for a `u16`. */
  function ToBe16(x: u16): (r: Bytes)
    ensures |r| == 2 && FromBe16(r[0], r[1]) == x
  {
    [x / 256, x % 256]
  }

  lemma FromBe16Injective(a: u8, b: u8, c: u8, d: u8)
    requires FromBe16(a, b) == FromBe16(c, d)
    ensures a == c && b == d
  {
  }

  function Pow256(n: nat): (r: nat)
    ensures r >= 1
  {
    if n == 0 then 1 else 256 * Pow256(n - 1)
  }

  /** The `n` low-order bytes of `x`, least significant first. */
  function ToLe(x: nat, n: nat): (r: Bytes)
    ensures |r| == n
  {
    if n == 0 then [] else [x % 256] + ToLe(x / 256, n - 1)
  }

  /** The value of a little-endian byte string. */
  function FromLe(b: Bytes): (r: nat)
    ensures r < Pow256(|b|)
  {
    if b == [] then 0 else b[0] + 256 * FromLe(b[1..])
  }

  /** `u64::to_le_bytes`. */
  function ToLe64(x: u64): (r: Bytes)
    ensures |r| == 8
  {
    ToLe(x, 8)
  }

  /** `u64::from_le_bytes`. */
  function FromLe64(b: Bytes): (r: u64)
    requires |b| == 8
  {
    Pow256Eight();
    FromLe(b)
  }

  lemma Pow256Eight()
    ensures Pow256(8) == U64_LIMIT
  {
  }

  /** Decoding what was encoded gives the value back when it fits in `n` bytes. */
  lemma {:induction false} FromLeToLe(x: nat, n: nat)
    requires x < Pow256(n)
    ensures FromLe(ToLe(x, n)) == x
  {
    if n > 0 {
      assert x / 256 < Pow256(n - 1);
      FromLeToLe(x / 256, n - 1);
      assert ToLe(x, n)[1..] == ToLe(x / 256, n - 1);
    }
  }

  /** Encoding what was decoded gives the bytes back. */
  lemma {:induction false} ToLeFromLe(b: Bytes)
    ensures ToLe(FromLe(b), |b|) == b
  {
    if b != [] {
      var v := FromLe(b);
      assert v % 256 == b[0] && v / 256 == FromLe(b[1..]);
      ToLeFromLe(b[1..]);
    }
  }

  lemma ToLe64RoundTrip(x: u64)
    ensures FromLe64(ToLe64(x)) == x
  {
    Pow256Eight();
    FromLeToLe(x, 8);
  }

  lemma FromLe64RoundTrip(b: Bytes)
    requires |b| == 8
    ensures ToLe64(FromLe64(b)) == b
  {
    ToLeFromLe(b);
  }
}
