/**
 * Fixed-width integers as they sit in a SoundBank file.
 *
 * The packed records are filled by copying raw file bytes over them, so a
 * multi-byte field holds whatever the host makes of those bytes. This model
 * fixes the host to be little-endian: a u32 field is the little-endian
 * decoding of its four bytes.
 */
module Bytes {

  type byte = x: int | 0 <= x < 0x100

  type u32 = x: int | 0 <= x < 0x1_0000_0000

  type u64 = x: int | 0 <= x < 0x1_0000_0000_0000_0000

  const U64Modulus: int := 0x1_0000_0000_0000_0000

  /** The value of four bytes stored least significant first. */
  function DecodeU32(s: seq<byte>): u32
    requires |s| == 4
  {
    (s[0] as int) + 0x100 * ((s[1] as int) + 0x100 * ((s[2] as int) + 0x100 * (s[3] as int)))
  }

  /** The four bytes, least significant first, that store `v`. */
  function EncodeU32(v: u32): (s: seq<byte>)
    ensures |s| == 4
  {
    var r1 := v / 0x100;
    var r2 := r1 / 0x100;
    [v % 0x100, r1 % 0x100, r2 % 0x100, r2 / 0x100]
  }

  /** Storing a value and reading it back gives the value. */
  lemma DecodeEncodeU32(v: u32)
    ensures DecodeU32(EncodeU32(v)) == v
  {
    var r1 := v / 0x100;
    var r2 := r1 / 0x100;
    assert v == v % 0x100 + 0x100 * r1;
    assert r1 == r1 % 0x100 + 0x100 * r2;
    assert r2 == r2 % 0x100 + 0x100 * (r2 / 0x100);
  }

  /** Reading four bytes and storing the value gives the same four bytes.
      (Stated apart from `DecodeU32` so that proofs that decode many fields
      do not carry it.) */
  lemma EncodeDecodeU32(s: seq<byte>)
    requires |s| == 4
    ensures EncodeU32(DecodeU32(s)) == s
  {
    var v := DecodeU32(s);
    var r1: int := s[1] as int + 0x100 * (s[2] as int + 0x100 * s[3] as int);
    var r2: int := s[2] as int + 0x100 * s[3] as int;
    assert v / 0x100 == r1 && v % 0x100 == s[0];
    assert r1 / 0x100 == r2 && r1 % 0x100 == s[1];
    assert r2 / 0x100 == s[3] && r2 % 0x100 == s[2];
  }

  /** `a += b` on a 64-bit unsigned counter: a u32 added to a u64 wraps
      around at most once, so the sum is taken modulo 2^64. */
  function AddU64(a: u64, b: u32): (r: u64)
    ensures r == (a + b) % U64Modulus
  {
    if a + b < U64Modulus then a + b
    else
      assert a + b == (a + b - U64Modulus) + U64Modulus * 1;
      a + b - U64Modulus
  }

  /** Reducing modulo 2^64 before an addition does not change the result. */
  lemma ModAddModulus(x: int, b: int)
    ensures (x % U64Modulus + b) % U64Modulus == (x + b) % U64Modulus
  {
    var q := x / U64Modulus;
    assert x == x % U64Modulus + U64Modulus * q;
    assert x + b == (x % U64Modulus + b) + U64Modulus * q;
  }
}
