/**
 * Well-formed UTF-8 as the Unicode Standard, Table 3-7, defines it: the byte
 * sequences Rust's `str::from_utf8` accepts. A Rust `&str` is modelled as its
 * UTF-8 byte sequence, so decoding checks well-formedness and returns the
 * same bytes.
 */
module Utf8 {
  import opened Bytes

  predicate IsContinuation(b: u8) { 0x80 <= b <= 0xBF }

  /** The length of the well-formed code-unit sequence that starts `s`, or 0 if none does. */
  function LeadingSequenceLength(s: seq<u8>): (n: nat)
    ensures n <= |s|
    ensures |s| > 0 && s[0] <= 0x7F ==> n == 1
  {
    if |s| == 0 then 0
    else if s[0] <= 0x7F then 1
    else if 0xC2 <= s[0] <= 0xDF then
      if |s| >= 2 && IsContinuation(s[1]) then 2 else 0
    else if s[0] == 0xE0 then
      if |s| >= 3 && 0xA0 <= s[1] <= 0xBF && IsContinuation(s[2]) then 3 else 0
    else if 0xE1 <= s[0] <= 0xEC || 0xEE <= s[0] <= 0xEF then
      if |s| >= 3 && IsContinuation(s[1]) && IsContinuation(s[2]) then 3 else 0
    else if s[0] == 0xED then
      if |s| >= 3 && 0x80 <= s[1] <= 0x9F && IsContinuation(s[2]) then 3 else 0
    else if s[0] == 0xF0 then
      if |s| >= 4 && 0x90 <= s[1] <= 0xBF && IsContinuation(s[2]) && IsContinuation(s[3]) then 4 else 0
    else if 0xF1 <= s[0] <= 0xF3 then
      if |s| >= 4 && IsContinuation(s[1]) && IsContinuation(s[2]) && IsContinuation(s[3]) then 4 else 0
    else if s[0] == 0xF4 then
      if |s| >= 4 && 0x80 <= s[1] <= 0x8F && IsContinuation(s[2]) && IsContinuation(s[3]) then 4 else 0
    else 0
  }

  /** `s` is a concatenation of well-formed code-unit sequences. */
  predicate IsWellFormed(s: seq<u8>)
    decreases |s|
  {
    |s| == 0 || (var n := LeadingSequenceLength(s); n > 0 && IsWellFormed(s[n..]))
  }

  predicate IsAscii(s: seq<u8>) { forall i :: 0 <= i < |s| ==> s[i] <= 0x7F }

  /** Every ASCII byte string is well-formed UTF-8. */
  lemma {:induction false} AsciiIsWellFormed(s: seq<u8>)
    requires IsAscii(s)
    ensures IsWellFormed(s)
  {
    if |s| > 0 {
      assert IsAscii(s[1..]) by {
        forall i | 0 <= i < |s[1..]| ensures s[1..][i] <= 0x7F { assert s[1..][i] == s[i + 1]; }
      }
      AsciiIsWellFormed(s[1..]);
    }
  }
}
