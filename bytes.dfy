/** Fixed-width unsigned integers and their big-endian byte encoding. */
module Bytes {

  const U32_BOUND: int := 0x1_0000_0000

  /** Rust's `u8`. */
  newtype u8 = x: int | 0 <= x < 0x100

  /** Rust's `u32`. */
  newtype u32 = x: int | 0 <= x < 0x1_0000_0000

  /** The cast `n as u32`: keeps the low 32 bits, so only values below 2^32 survive unchanged. */
  function TruncateToU32(n: nat): (r: u32)
    ensures r as int == n % U32_BOUND
    ensures n < U32_BOUND ==> r as int == n
  {
    (n % U32_BOUND) as u32
  }

  /** `u32::to_be_bytes`: most significant byte first. */
  function ToBE32(n: u32): (r: seq<u8>)
    ensures |r| == 4
    ensures FromBE32(r) == n
  {
    var x0 := n as int;
    var x1 := x0 / 0x100;
    var x2 := x1 / 0x100;
    var x3 := x2 / 0x100;
    [x3 as u8, (x2 % 0x100) as u8, (x1 % 0x100) as u8, (x0 % 0x100) as u8]
  }

  /** `u32::from_be_bytes`: the first byte is the most significant. */
  function FromBE32(s: seq<u8>): (n: u32)
    requires |s| == 4
    ensures n as int == s[0] as int * 0x100_0000 + s[1] as int * 0x1_0000 + s[2] as int * 0x100 + s[3] as int
  {
    (((s[0] as int * 0x100 + s[1] as int) * 0x100 + s[2] as int) * 0x100 + s[3] as int) as u32
  }

  /** Division by 256 with remainder is unique. */
  lemma DivMod256(x: int, q: int, r: int)
    requires 0 <= r < 0x100 && x == q * 0x100 + r
    ensures x / 0x100 == q && x % 0x100 == r
  {
  }

  /** Decoding four bytes and encoding the number again gives back the same four bytes. */
  lemma BE32Canonical(s: seq<u8>)
    requires |s| == 4
    ensures ToBE32(FromBE32(s)) == s
  {
    var a, b, c, d := s[0] as int, s[1] as int, s[2] as int, s[3] as int;
    var x1 := (a * 0x100 + b) * 0x100 + c;
    DivMod256(x1 * 0x100 + d, x1, d);
    DivMod256(x1, a * 0x100 + b, c);
    DivMod256(a * 0x100 + b, a, b);
  }
}
