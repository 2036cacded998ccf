/**
 * CRC-32 as section 3.4 of the PNG 1.2 specification defines it: the
 * ISO 3309 polynomial processed least significant bit first (reflected
 * constant 0xEDB88320), register preset to all ones, result complemented.
 * This is the checksum that the `crc` crate's `crc32::checksum_ieee` computes.
 */
module Crc32 {
  import opened Bytes

  const REFLECTED_POLY: bv32 := 0xEDB8_8320

  /** Shifts `k` bits out of the register, dividing by the polynomial. */
  function ShiftBits(c: bv32, k: nat): bv32
    decreases k
  {
    if k == 0 then c
    else ShiftBits(if c & 1 == 1 then (c >> 1) ^ REFLECTED_POLY else c >> 1, k - 1)
  }

  /** Feeds one byte into the register. */
  function Step(c: u32, b: u8): u32
  {
    ShiftBits((c as bv32) ^ (b as bv32), 8) as int as u32
  }

  /** Feeds the bytes of `s` into the register `c`, first byte first. */
  function Update(c: u32, s: seq<u8>): u32
    decreases |s|
  {
    if |s| == 0 then c else Update(Step(c, s[0]), s[1..])
  }

  /**
   * `crc32::checksum_ieee`. On 32 bits, complementing (XOR with all ones)
   * is subtraction from 0xFFFFFFFF.
   */
  function Checksum(s: seq<u8>): u32
  {
    0xFFFF_FFFF - Update(0xFFFF_FFFF, s)
  }
}
