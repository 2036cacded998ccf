/**
 * The 4-byte chunk type code of PNG 1.2, section 3.3 (chunk naming
 * conventions): each byte should be an ASCII letter, and bit 5 (value 32) of
 * the four bytes carries, in order, the ancillary, private, reserved and
 * safe-to-copy flags.
 */
module ChunkTypes {
  import opened Bytes
  import opened Wrappers
  import Utf8

  /** Rust's `[u8; 4]`. */
  type Bytes4 = s: seq<u8> | |s| == 4 witness [0, 0, 0, 0]

  datatype ChunkTypeError =
    | ByteLengthError(actual: nat)   // the input did not have 4 bytes; carries its length
    | InvalidCharacter               // some byte is not an ASCII letter

  predicate IsUpper(b: u8) { 65 <= b <= 90 }

  predicate IsLower(b: u8) { 97 <= b <= 122 }

  /** The range test `(65..=90).contains(b) || (97..=122).contains(b)`. */
  predicate IsLetter(b: u8) { IsUpper(b) || IsLower(b) }

  predicate AllLetters(s: seq<u8>) { forall i :: 0 <= i < |s| ==> IsLetter(s[i]) }

  /** The mask test `b & 32 == 0`: bit 5 of the byte is 0. */
  predicate Bit5Clear(b: u8)
    ensures Bit5Clear(b) <==> (b as int / 32) % 2 == 0
  {
    (b as bv8) & 32 == 0
  }

  /** For an ASCII letter, bit 5 is the case bit: clear exactly for upper case. */
  lemma LetterCaseBit(b: u8)
    requires IsLetter(b)
    ensures Bit5Clear(b) <==> IsUpper(b)
    ensures !Bit5Clear(b) <==> IsLower(b)
  {
  }

  /** The chunk type; `bytes` is the `bytes()` accessor and equality is byte-wise. */
  datatype ChunkType = ChunkType(bytes: Bytes4) {

    /** Letters only, and the reserved bit is clear: four letters, the third upper case. */
    predicate IsValid()
      ensures IsValid() <==> AllLetters(bytes) && IsUpper(bytes[2])
    {
      AllLetters(bytes) && IsReservedBitValid()
    }

    /** Bit 5 of the first byte is 0. */
    predicate IsCritical()
      ensures IsCritical() <==> (bytes[0] as int / 32) % 2 == 0
    {
      Bit5Clear(bytes[0])
    }

    /** Bit 5 of the second byte is 0. */
    predicate IsPublic()
      ensures IsPublic() <==> (bytes[1] as int / 32) % 2 == 0
    {
      Bit5Clear(bytes[1])
    }

    /** Bit 5 of the third byte is reserved and must be 0. */
    predicate IsReservedBitValid()
      ensures IsReservedBitValid() <==> (bytes[2] as int / 32) % 2 == 0
    {
      Bit5Clear(bytes[2])
    }

    /** Bit 5 of the fourth byte is 1. */
    predicate IsSafeToCopy()
      ensures IsSafeToCopy() <==> (bytes[3] as int / 32) % 2 == 1
    {
      !Bit5Clear(bytes[3])
    }
  }

  /** `TryFrom<[u8; 4]>`: never fails and keeps the bytes as given, letters or not. */
  function TryFromBytes(value: Bytes4): (r: Result<ChunkType, ChunkTypeError>)
    ensures r.Ok? && r.value.bytes == value
  {
    Ok(ChunkType(value))
  }

  /**
   * `FromStr`: `s` is the UTF-8 byte sequence of the string. The length is
   * checked first, then the characters; the reserved bit is not checked.
   */
  function FromStr(s: seq<u8>): (r: Result<ChunkType, ChunkTypeError>)
    ensures r.Ok? <==> |s| == 4 && AllLetters(s)
    ensures r.Ok? ==> r.value.bytes == s
    ensures r == Err(ByteLengthError(|s|)) <==> |s| != 4
    ensures r == Err(InvalidCharacter) <==> |s| == 4 && !AllLetters(s)
  {
    if |s| != 4 then Err(ByteLengthError(|s|))
    else if !AllLetters(s) then Err(InvalidCharacter)
    else
      var sized: Bytes4 := [s[0], s[1], s[2], s[3]];
      TryFromBytes(sized)
  }

  /**
   * `Display`: the bytes read as a `str`, or `None` for the `fmt::Error`
   * returned when they are not well-formed UTF-8.
   */
  function Display(t: ChunkType): (r: Option<seq<u8>>)
    ensures r.Some? <==> Utf8.IsWellFormed(t.bytes)
    ensures r.Some? ==> r.value == t.bytes
  {
    if Utf8.IsWellFormed(t.bytes) then Some(t.bytes) else None
  }

  /** Validity is the same as: four letters, the third of them upper case. */
  lemma ValidIffLettersWithUpperThird(t: ChunkType)
    ensures t.IsValid() <==> AllLetters(t.bytes) && IsUpper(t.bytes[2])
  {
    if AllLetters(t.bytes) { LetterCaseBit(t.bytes[2]); }
  }

  /** On a letters-only type each flag reads off the case of one letter. */
  lemma FlagsOfLetters(t: ChunkType)
    requires AllLetters(t.bytes)
    ensures t.IsCritical() <==> IsUpper(t.bytes[0])
    ensures t.IsPublic() <==> IsUpper(t.bytes[1])
    ensures t.IsReservedBitValid() <==> IsUpper(t.bytes[2])
    ensures t.IsSafeToCopy() <==> IsLower(t.bytes[3])
  {
    assert IsLetter(t.bytes[0]) && IsLetter(t.bytes[1]) && IsLetter(t.bytes[2]) && IsLetter(t.bytes[3]);
    LetterCaseBit(t.bytes[0]);
    LetterCaseBit(t.bytes[1]);
    LetterCaseBit(t.bytes[2]);
    LetterCaseBit(t.bytes[3]);
  }

  /** A parsed type is valid exactly when its third letter is upper case. */
  lemma FromStrValidity(s: seq<u8>)
    requires FromStr(s).Ok?
    ensures FromStr(s).value.IsValid() <==> IsUpper(s[2])
  {
    ValidIffLettersWithUpperThird(FromStr(s).value);
  }

  /** A letters-only type renders as its own four characters. */
  lemma {:induction false} LettersDisplay(t: ChunkType)
    requires AllLetters(t.bytes)
    ensures Display(t) == Some(t.bytes)
  {
    assert Utf8.IsAscii(t.bytes) by {
      forall i | 0 <= i < 4 ensures t.bytes[i] <= 0x7F { assert IsLetter(t.bytes[i]); }
    }
    Utf8.AsciiIsWellFormed(t.bytes);
  }

  /** `from_str(s)` followed by `to_string` gives back `s`. */
  lemma FromStrDisplayRoundTrip(s: seq<u8>)
    requires FromStr(s).Ok?
    ensures Display(FromStr(s).value) == Some(s)
  {
    LettersDisplay(FromStr(s).value);
  }

  /** Four bytes that are not well-formed UTF-8 (so no `&str`) are rejected as `InvalidCharacter`. */
  lemma NonUtf8IsInvalidCharacter(s: seq<u8>)
    requires |s| == 4 && !Utf8.IsWellFormed(s)
    ensures FromStr(s) == Err(InvalidCharacter)
  {
    if AllLetters(s) {
      LettersDisplay(ChunkType(s));
    }
  }

  // The type names used by the unit tests, as ASCII bytes.
  const RUST_CRITICAL_SAFE: seq<u8> := [82, 117, 83, 116]   // "RuSt"
  const RUST_ANCILLARY: seq<u8> := [114, 117, 83, 116]      // "ruSt"
  const RUST_PUBLIC: seq<u8> := [82, 85, 83, 116]           // "RUSt"
  const RUST_UNSAFE: seq<u8> := [82, 117, 83, 84]           // "RuST"
  const RUST_RESERVED: seq<u8> := [82, 117, 115, 116]       // "Rust"
  const RUST_DIGIT: seq<u8> := [82, 117, 49, 116]           // "Ru1t"

  /** The unit tests' expectations of `from_str` and of rendering. */
  lemma FromStrFixtures()
    ensures TryFromBytes(RUST_CRITICAL_SAFE) == FromStr(RUST_CRITICAL_SAFE)
    ensures FromStr(RUST_RESERVED).Ok? && !FromStr(RUST_RESERVED).value.IsValid()
    ensures FromStr(RUST_DIGIT) == Err(InvalidCharacter)
    ensures Display(FromStr(RUST_CRITICAL_SAFE).value) == Some(RUST_CRITICAL_SAFE)
  {
    FromStrDisplayRoundTrip(RUST_CRITICAL_SAFE);
  }

  /** The unit tests' expectations of the four flags, on types parsed with `from_str`. */
  lemma FlagFixtures()
    ensures var t := FromStr(RUST_CRITICAL_SAFE).value;
      t.IsCritical() && !t.IsPublic() && t.IsReservedBitValid() && t.IsSafeToCopy() && t.IsValid()
    ensures !FromStr(RUST_ANCILLARY).value.IsCritical()
    ensures FromStr(RUST_PUBLIC).value.IsPublic()
    ensures !FromStr(RUST_UNSAFE).value.IsSafeToCopy()
    ensures !FromStr(RUST_RESERVED).value.IsReservedBitValid()
  {
    assert FromStr(RUST_CRITICAL_SAFE).value == ChunkType(RUST_CRITICAL_SAFE);
    assert FromStr(RUST_ANCILLARY).value == ChunkType(RUST_ANCILLARY);
    assert FromStr(RUST_PUBLIC).value == ChunkType(RUST_PUBLIC);
    assert FromStr(RUST_UNSAFE).value == ChunkType(RUST_UNSAFE);
    assert FromStr(RUST_RESERVED).value == ChunkType(RUST_RESERVED);
  }
}
