/**
 * A PNG chunk as section 3.2 of the PNG 1.2 specification lays it out:
 * a 4-byte big-endian data length, the 4-byte chunk type, the data, and a
 * 4-byte big-endian CRC-32 computed over the type and data bytes.
 */
module Chunks {
  import opened Bytes
  import opened Wrappers
  import opened ChunkTypes
  import Crc32
  import Utf8

  /** Length, type and CRC framing around the data. */
  const METADATA_SIZE: int := 12

  datatype Chunk = Chunk(length: u32, chunkType: ChunkType, data: seq<u8>, crc: u32)

  datatype ChunkError =
    | InputTooSmall                          // fewer than 12 bytes
    | InvalidCrc(expected: u32, actual: u32) // stored CRC, then the CRC of the bytes read
    | InvalidChunkType                       // the type fails `is_valid`
    | InputTruncated                         // fewer bytes than the declared length needs

  /** The `std::str::Utf8Error` of `data_as_string`. */
  datatype Utf8Error = InvalidUtf8

  /** The bytes the CRC covers: type, then data. */
  function CrcInput(t: ChunkType, data: seq<u8>): seq<u8> { t.bytes + data }

  /** The field invariants every chunk built by `new` or by parsing satisfies. */
  predicate WellFormed(c: Chunk)
  {
    c.length as int == |c.data| && c.crc == Crc32.Checksum(CrcInput(c.chunkType, c.data))
  }

  /**
   * `Chunk::new`: keeps type and data, derives the CRC, and takes the length
   * `data.len() as u32`, which wraps modulo 2^32.
   */
  function New(chunkType: ChunkType, data: seq<u8>): (c: Chunk)
    ensures c.chunkType == chunkType && c.data == data
    ensures c.length as int == |data| % U32_BOUND
    ensures |data| < U32_BOUND ==> WellFormed(c)
  {
    Chunk(TruncateToU32(|data|), chunkType, data, Crc32.Checksum(CrcInput(chunkType, data)))
  }

  /** `data_as_string`: the data as a `str` when it is well-formed UTF-8. */
  function DataAsString(c: Chunk): (r: Result<seq<u8>, Utf8Error>)
    ensures r.Ok? <==> Utf8.IsWellFormed(c.data)
    ensures r.Ok? ==> r.value == c.data
  {
    if Utf8.IsWellFormed(c.data) then Ok(c.data) else Err(InvalidUtf8)
  }

  /** `as_bytes`: length, type, data and CRC, the integers big-endian. */
  function AsBytes(c: Chunk): (r: seq<u8>)
    ensures |r| == METADATA_SIZE + |c.data|
    ensures FromBE32(r[..4]) == c.length
    ensures r[4..8] == c.chunkType.bytes
    ensures r[8..8 + |c.data|] == c.data
    ensures FromBE32(r[8 + |c.data|..]) == c.crc
  {
    var r := ToBE32(c.length) + c.chunkType.bytes + c.data + ToBE32(c.crc);
    assert r[..4] == ToBE32(c.length);
    assert r[8 + |c.data|..] == ToBE32(c.crc);
    r
  }

  /** The length field: the first four bytes, big-endian. */
  function LengthField(bytes: seq<u8>): u32
    requires |bytes| >= 4
  {
    FromBE32(bytes[..4])
  }

  /** The type field: the next four bytes, taken as they are. */
  function TypeField(bytes: seq<u8>): ChunkType
    requires |bytes| >= 8
  {
    ChunkType(bytes[4..8])
  }

  /**
   * The two `split_at` calls that cut the data and the CRC out of the input
   * stay within bounds: they are not reached, or the input holds at least
   * 12 bytes plus the declared length.
   */
  predicate SplitsInBounds(bytes: seq<u8>)
  {
    |bytes| < METADATA_SIZE || !TypeField(bytes).IsValid()
    || |bytes| >= METADATA_SIZE + LengthField(bytes) as int
  }

  /**
   * `TryFrom<&[u8]>` as written: size check, type check, then slicing by the
   * declared length without a bounds check (a panic, hence the precondition),
   * then the CRC check. Bytes after the CRC are ignored.
   */
  function ParseAsWritten(bytes: seq<u8>): (r: Result<Chunk, ChunkError>)
    requires SplitsInBounds(bytes)
    ensures r != Err(InputTruncated)
    ensures r.Ok? ==>
      && |bytes| >= METADATA_SIZE
      && r.value.length == LengthField(bytes)
      && r.value.chunkType == TypeField(bytes)
      && var crcStart := 8 + r.value.length as int;
      && crcStart + 4 <= |bytes|
      && r.value.data == bytes[8..crcStart]
      && r.value.crc == FromBE32(bytes[crcStart..crcStart + 4])
  {
    if |bytes| < METADATA_SIZE then Err(InputTooSmall)
    else
      var length := LengthField(bytes);
      var chunkType := TypeField(bytes);
      if !chunkType.IsValid() then Err(InvalidChunkType)
      else
        var crcStart := 8 + length as int;
        var data := bytes[8..crcStart];
        var crc := FromBE32(bytes[crcStart..crcStart + 4]);
        var actualCrc := Crc32.Checksum(CrcInput(chunkType, data));
        if actualCrc != crc then Err(InvalidCrc(crc, actualCrc))
        else Ok(Chunk(length, chunkType, data, crc))
  }

  /**
   * The chunk parser with the missing bounds check added: an input too short
   * for its declared length is reported as `InputTruncated`, after the size
   * and type checks and before the CRC check. A parsed chunk's fields are
   * read from the input.
   */
  function Parse(bytes: seq<u8>): (r: Result<Chunk, ChunkError>)
    ensures r == Err(InputTooSmall) <==> |bytes| < METADATA_SIZE
    ensures r == Err(InvalidChunkType) <==> |bytes| >= METADATA_SIZE && !TypeField(bytes).IsValid()
    ensures r == Err(InputTruncated) <==> !SplitsInBounds(bytes)
    ensures r.Ok? ==>
      && |bytes| >= METADATA_SIZE
      && r.value.length == LengthField(bytes)
      && r.value.chunkType == TypeField(bytes)
      && var crcStart := 8 + r.value.length as int;
      && crcStart + 4 <= |bytes|
      && r.value.data == bytes[8..crcStart]
      && r.value.crc == FromBE32(bytes[crcStart..crcStart + 4])
  {
    if !SplitsInBounds(bytes) then Err(InputTruncated) else ParseAsWritten(bytes)
  }

  /**
   * A CRC mismatch is reported only for an input of valid type holding all
   * declared bytes, and carries the stored CRC, then the CRC of type and data.
   */
  lemma ParseInvalidCrc(bytes: seq<u8>)
    requires Parse(bytes).Err? && Parse(bytes).error.InvalidCrc?
    ensures |bytes| >= METADATA_SIZE + LengthField(bytes) as int
    ensures TypeField(bytes).IsValid()
    ensures var crcStart := 8 + LengthField(bytes) as int;
      && Parse(bytes).error.expected == FromBE32(bytes[crcStart..crcStart + 4])
      && Parse(bytes).error.actual == Crc32.Checksum(bytes[4..crcStart])
      && Parse(bytes).error.expected != Parse(bytes).error.actual
  {
    var crcStart := 8 + LengthField(bytes) as int;
    assert bytes[4..8] + bytes[8..crcStart] == bytes[4..crcStart];
  }

  /** A parsed chunk is well-formed, of valid type, and serialises to a prefix of its input. */
  lemma ParseOk(bytes: seq<u8>)
    requires Parse(bytes).Ok?
    ensures var c := Parse(bytes).value;
      WellFormed(c) && c.chunkType.IsValid() && AsBytes(c) <= bytes
  {
    var c := Parse(bytes).value;
    var n := |c.data|;
    BE32Canonical(bytes[..4]);
    BE32Canonical(bytes[8 + n..12 + n]);
    assert AsBytes(c) == bytes[..4] + bytes[4..8] + bytes[8..8 + n] + bytes[8 + n..12 + n];
    assert bytes[..4] + bytes[4..8] == bytes[..8];
    assert bytes[..8] + bytes[8..8 + n] == bytes[..8 + n];
    assert bytes[..8 + n] + bytes[8 + n..12 + n] == bytes[..12 + n];
  }

  /** Serialising a well-formed chunk of valid type and parsing it back, whatever follows, gives the chunk. */
  lemma ParseAsBytes(c: Chunk, extra: seq<u8>)
    requires WellFormed(c) && c.chunkType.IsValid()
    ensures Parse(AsBytes(c) + extra) == Ok(c)
  {
    var bytes := AsBytes(c) + extra;
    var n := |c.data|;
    assert bytes[..4] == AsBytes(c)[..4];
    assert bytes[4..8] == AsBytes(c)[4..8];
    assert bytes[8..8 + n] == c.data;
    assert bytes[8 + n..12 + n] == AsBytes(c)[8 + n..];
    assert CrcInput(c.chunkType, c.data) == CrcInput(TypeField(bytes), bytes[8..8 + n]);
  }

  /**
   * Parsing succeeds with `c` exactly when `c` is well-formed, has a valid
   * type, and its serialisation starts the input.
   */
  lemma ParseOkIff(bytes: seq<u8>, c: Chunk)
    ensures Parse(bytes) == Ok(c) <==> WellFormed(c) && c.chunkType.IsValid() && AsBytes(c) <= bytes
  {
    if Parse(bytes) == Ok(c) {
      ParseOk(bytes);
    }
    if WellFormed(c) && c.chunkType.IsValid() && AsBytes(c) <= bytes {
      ParsePrefix(bytes, c);
    }
  }

  /** An input that starts with the serialisation of a well-formed chunk of valid type parses to it. */
  lemma ParsePrefix(bytes: seq<u8>, c: Chunk)
    requires WellFormed(c) && c.chunkType.IsValid() && AsBytes(c) <= bytes
    ensures Parse(bytes) == Ok(c)
  {
    var extra := bytes[|AsBytes(c)|..];
    assert bytes == AsBytes(c) + extra;
    ParseAsBytes(c, extra);
  }

  /** A chunk made by `new` from a valid type survives `as_bytes` and parsing; trailing bytes are dropped. */
  lemma NewRoundTrip(chunkType: ChunkType, data: seq<u8>, extra: seq<u8>)
    requires chunkType.IsValid() && |data| < U32_BOUND
    ensures Parse(AsBytes(New(chunkType, data)) + extra) == Ok(New(chunkType, data))
  {
    ParseAsBytes(New(chunkType, data), extra);
  }

  /**
   * Two inputs that differ only in the stored CRC, placed where the length
   * field says it is, cannot both parse: the CRC field is determined.
   */
  lemma StoredCrcDetermined(head: seq<u8>, crc1: u32, crc2: u32)
    requires |head| >= 8 && |head| == 8 + LengthField(head) as int
    requires Parse(head + ToBE32(crc1)).Ok? && Parse(head + ToBE32(crc2)).Ok?
    ensures crc1 == crc2
  {
    var b1, b2 := head + ToBE32(crc1), head + ToBE32(crc2);
    assert b1[..4] == head[..4] == b2[..4];
    assert b1[4..8] == head[4..8] == b2[4..8];
    assert b1[8..|head|] == head[8..] == b2[8..|head|];
    assert b1[|head|..|head| + 4] == ToBE32(crc1);
    assert b2[|head|..|head| + 4] == ToBE32(crc2);
  }

  /** "This is where your secret message will be!" as ASCII bytes. */
  const SECRET_MESSAGE: seq<u8> := [
    84, 104, 105, 115, 32, 105, 115, 32, 119, 104, 101, 114, 101, 32, 121, 111, 117, 114, 32, 115, 101,
    99, 114, 101, 116, 32, 109, 101, 115, 115, 97, 103, 101, 32, 119, 105, 108, 108, 32, 98, 101, 33]

  /** The unit tests' input: length 42, type "RuSt", the message, then the given stored CRC. */
  function Fixture(crc: u32): seq<u8>
  {
    ToBE32(42) + RUST_CRITICAL_SAFE + SECRET_MESSAGE + ToBE32(crc)
  }

  /**
   * Parsing the layout length, type, data, CRC: the chunk when the stored CRC
   * is the checksum of type and data, otherwise `InvalidCrc(stored, computed)`.
   */
  lemma ParseLayout(chunkType: ChunkType, data: seq<u8>, crc: u32)
    requires chunkType.IsValid() && |data| < U32_BOUND
    ensures var length := |data| as u32;
      var actual := Crc32.Checksum(CrcInput(chunkType, data));
      Parse(ToBE32(length) + chunkType.bytes + data + ToBE32(crc))
        == if crc == actual then Ok(Chunk(length, chunkType, data, crc)) else Err(InvalidCrc(crc, actual))
  {
    var bytes := ToBE32(|data| as u32) + chunkType.bytes + data + ToBE32(crc);
    var n := |data|;
    assert bytes[..4] == ToBE32(n as u32);
    assert bytes[4..8] == chunkType.bytes;
    assert bytes[8..8 + n] == data;
    assert bytes[8 + n..12 + n] == ToBE32(crc);
  }

  /** The fixture rewritten as the layout `ParseLayout` speaks of. */
  lemma FixtureLayout(crc: u32)
    ensures Fixture(crc)
      == ToBE32(|SECRET_MESSAGE| as u32) + ChunkType(RUST_CRITICAL_SAFE).bytes + SECRET_MESSAGE + ToBE32(crc)
  {
  }

  /** The message is ASCII, hence well-formed UTF-8. */
  lemma SecretMessageIsText()
    ensures Utf8.IsWellFormed(SECRET_MESSAGE)
  {
    SecretMessageIsAscii();
    Utf8.AsciiIsWellFormed(SECRET_MESSAGE);
  }

  /** Every byte of the message is below 0x80. */
  lemma SecretMessageIsAscii()
    ensures Utf8.IsAscii(SECRET_MESSAGE)
  {
  }

  /**
   * The unit tests' reading of the fixture with stored CRC 2882656334, given
   * that it parses (that value is the checksum of "RuSt" and the message,
   * which is not computed here): length 42, type "RuSt", the message as
   * text, CRC 2882656334.
   */
  lemma ChunkFixtureFields()
    ensures Parse(Fixture(2882656334)).Ok? ==>
      && var c := Parse(Fixture(2882656334)).value;
      && c.length == 42
      && Display(c.chunkType) == Some(RUST_CRITICAL_SAFE)
      && DataAsString(c) == Ok(SECRET_MESSAGE)
      && c.crc == 2882656334
  {
    var t := ChunkType(RUST_CRITICAL_SAFE);
    assert t.IsValid();
    FixtureLayout(2882656334);
    ParseLayout(t, SECRET_MESSAGE, 2882656334);
    LettersDisplay(t);
    SecretMessageIsText();
  }

  /**
   * If the fixture with stored CRC 2882656334 parses, the same input with
   * stored CRC 2882656333 is rejected as `InvalidCrc(2882656333, 2882656334)`.
   */
  lemma ChunkFixtureBadCrc()
    ensures Parse(Fixture(2882656334)).Ok? ==>
      Parse(Fixture(2882656333)) == Err(InvalidCrc(2882656333, 2882656334))
  {
    var t := ChunkType(RUST_CRITICAL_SAFE);
    assert t.IsValid();
    FixtureLayout(2882656334);
    FixtureLayout(2882656333);
    ParseLayout(t, SECRET_MESSAGE, 2882656334);
    ParseLayout(t, SECRET_MESSAGE, 2882656333);
  }

  /**
   * An input the unchecked parser cannot handle: 12 bytes of valid type
   * whose length field declares one data byte, so cutting the CRC would run
   * past the end. The corrected parser reports `InputTruncated`.
   */
  lemma TruncatedInputWitness()
    ensures var bytes: seq<u8> := [0, 0, 0, 1, 82, 117, 83, 116, 0, 0, 0, 0];
      && |bytes| >= METADATA_SIZE
      && TypeField(bytes).IsValid()
      && !SplitsInBounds(bytes)
      && Parse(bytes) == Err(InputTruncated)
  {
    var bytes: seq<u8> := [0, 0, 0, 1, 82, 117, 83, 116, 0, 0, 0, 0];
    assert LengthField(bytes) == 1;
  }
}
