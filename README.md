# PNGme chunk codec in Dafny

A model of the chunk codec of PNGme, a tool that hides messages in PNG files.
The model covers the two building blocks PNGme uses to read and write PNG chunks.

- **Chunk type** (`ChunkTypes`, from `src/chunk_type.rs`). A 4-byte code.
  It is built from raw bytes (this always succeeds) or parsed from a string (length and letter checks).
  Validity is the letter check plus a clear reserved bit; the four flags are bit-5 tests, as section 3.3 of the PNG 1.2 specification defines them.
- **Chunk** (`Chunks`, from `src/chunk.rs`). A record of length, type, data and CRC.
  `new` derives the length and the CRC.
  `as_bytes` writes the layout of section 3.2 of the PNG 1.2 specification.
  The parser checks size, then type validity, then CRC, in that order.

Both source files are pure, so the model uses datatypes, functions and lemmas.
Supporting modules:

- `Bytes`: `u8` and `u32`, the `as u32` cast, and big-endian encoding (`to_be_bytes` and `from_be_bytes`).
- `Crc32`: a bitwise CRC-32 following section 3.4 of PNG 1.2. It stands in for the `crc` crate's `checksum_ieee`. No lemma depends on how it is computed.
- `Utf8`: well-formed UTF-8 as defined in Table 3-7 of the Unicode Standard. This is what `str::from_utf8` checks.
- `Wrappers`: `Result` and `Option`.

Modelling decisions:

- **Strings as bytes.** A Rust `&str` is modelled as its UTF-8 byte sequence. So `FromStr` takes bytes, and `Display` and `data_as_string` return the same bytes once they pass the UTF-8 check.
  `FromStr` accepts any byte sequence, a wider domain than `&str`, which is always well-formed UTF-8. The extra inputs change nothing: a 4-byte input that is not UTF-8 has a non-letter byte and fails with `InvalidCharacter` (`ChunkTypes.NonUtf8IsInvalidCharacter`).
- **Accessors.** The accessors `bytes()`, `length()`, `chunk_type()`, `data()` and `crc()` are the datatype fields `bytes`, `length`, `chunkType`, `data` and `crc`.
- **Error types.** The source boxes every error as `Box<dyn Error>`. The model uses explicit datatypes instead: `ChunkTypeError` (`ByteLengthError(n)`, `InvalidCharacter`) and `ChunkError` (`InputTooSmall`, `InvalidCrc(expected, actual)`, `InvalidChunkType`).
- **Truncated input.** `ChunkError` has one extra variant, `InputTruncated`. The source does not return an error for a short input: it panics (see "## Findings").

## Model

| member | source | states |
|---|---|---|
| `ChunkTypes.TryFromBytes` | src/chunk_type.rs:53-58 | building a type from four bytes never fails, and the result's bytes are exactly those four bytes, letters or not |
| `ChunkTypes.FromStr` | src/chunk_type.rs:64-86 | fails with `ByteLengthError` carrying the actual byte length exactly when the length is not 4; fails with `InvalidCharacter` exactly when there are 4 bytes and one is not an ASCII letter; succeeds exactly for 4 letters, and then the type's bytes are the input bytes |
| `ChunkTypes.Display` | src/chunk_type.rs:89-96 | renders exactly when the bytes are well-formed UTF-8, and then yields the type's own bytes |
| `ChunkTypes.ChunkType.IsValid` | src/chunk_type.rs:23-29 | the source's range check on all four bytes and the reserved-bit test: true exactly when all four bytes are letters and the third is upper case |
| `ChunkTypes.ChunkType.IsCritical` | src/chunk_type.rs:33-35 | the source's mask `bytes[0] & 32 == 0`: bit 5 (value 32) of byte 0 is 0 |
| `ChunkTypes.ChunkType.IsPublic` | src/chunk_type.rs:38-40 | the source's mask `bytes[1] & 32 == 0`: bit 5 of byte 1 is 0 |
| `ChunkTypes.ChunkType.IsReservedBitValid` | src/chunk_type.rs:43-45 | the source's mask `bytes[2] & 32 == 0`: bit 5 of byte 2 is 0 |
| `ChunkTypes.ChunkType.IsSafeToCopy` | src/chunk_type.rs:48-50 | the source's mask `bytes[3] & 32 != 0`: bit 5 of byte 3 is 1 |
| `ChunkTypes.LetterCaseBit` | src/chunk_type.rs:32-50 | for an ASCII letter, bit 5 is clear exactly when the letter is upper case |
| `ChunkTypes.ValidIffLettersWithUpperThird` | src/chunk_type.rs:22-30 | `is_valid` holds exactly when all four bytes are letters and the third is upper case (the reserved bit is clear) |
| `ChunkTypes.FlagsOfLetters` | src/chunk_type.rs:32-50 | on a letters-only type: critical iff byte 0 is upper case, public iff byte 1 is, reserved-bit-valid iff byte 2 is, safe-to-copy iff byte 3 is lower case |
| `ChunkTypes.FromStrValidity` | src/chunk_type.rs:82-85 | `from_str` does not check the reserved bit: a parsed type is valid exactly when its third letter is upper case |
| `ChunkTypes.NonUtf8IsInvalidCharacter` | src/chunk_type.rs:74-80 | a 4-byte input that is not well-formed UTF-8, which no `&str` can be, fails with `InvalidCharacter` |
| `ChunkTypes.LettersDisplay` | src/chunk_type.rs:89-96 | a letters-only type always renders, as its own four characters |
| `ChunkTypes.FromStrDisplayRoundTrip` | src/chunk_type.rs:210-214 | `to_string` after a successful `from_str(s)` gives back `s` |
| `ChunkTypes.FromStrFixtures` | src/chunk_type.rs:140-214 | `try_from([82,117,83,116]) == from_str("RuSt")`; "Rust" parses but is not valid; "Ru1t" fails with `InvalidCharacter`; "RuSt" renders as "RuSt" |
| `ChunkTypes.FlagFixtures` | src/chunk_type.rs:147-199 | "RuSt" is critical, not public, reserved-bit-valid, safe-to-copy and valid; "ruSt" is not critical; "RUSt" is public; "RuST" is not safe to copy; "Rust" has an invalid reserved bit |
| `Utf8.AsciiIsWellFormed` | src/chunk_type.rs:94 | every ASCII byte string passes the UTF-8 check |
| `Bytes.TruncateToU32` | src/chunk.rs:22 | `as u32` keeps the value modulo 2^32, so a length below 2^32 is unchanged |
| `Bytes.ToBE32` | src/chunk.rs:70-75 | the big-endian encoding has four bytes, and decoding them gives back the number |
| `Bytes.FromBE32` | src/chunk.rs:92 | `u32::from_be_bytes`: the number is `b0 * 2^24 + b1 * 2^16 + b2 * 2^8 + b3`, the first byte most significant |
| `Bytes.BE32Canonical` | src/chunk.rs:92 | decoding four bytes and encoding the number again gives back the same bytes |
| `Chunks.New` | src/chunk.rs:21-38 | type and data are kept, and the length is the data length wrapped to 32 bits; when the data is shorter than 2^32 the chunk is well-formed: `length == len(data)` and `crc == CRC32(type ++ data)` |
| `Chunks.DataAsString` | src/chunk.rs:61-66 | succeeds exactly when the data is well-formed UTF-8, and then yields the data |
| `Chunks.AsBytes` | src/chunk.rs:69-78 | the output has `12 + len(data)` bytes: the big-endian length, the type bytes, the data, then the big-endian CRC |
| `Chunks.ParseAsWritten` | src/chunk.rs:84-132 | the source's parser, with the `split_at` panic as its precondition; it never reports truncation, and a parsed chunk takes its length, type, data and CRC from the input's fields |
| `Chunks.Parse` | src/chunk.rs:84-132 | error precedence: `InputTooSmall` exactly below 12 bytes; `InvalidChunkType` exactly when there are at least 12 bytes and the type is invalid, whatever the CRC; `InputTruncated` exactly when the input is too short for its declared length; a parsed chunk's fields are read from the input |
| `Chunks.ParseInvalidCrc` | src/chunk.rs:104-124 | `InvalidCrc(expected, actual)` arises only for a complete input of valid type; `expected` is the stored big-endian CRC, `actual` is the CRC of the type and data bytes, and they differ |
| `Chunks.ParseOk` | src/chunk.rs:90-131 | every parsed chunk is well-formed (same invariants as `new`), has a valid type, and serialises to a prefix of its input |
| `Chunks.ParseAsBytes` | src/chunk.rs:69-132 | for a well-formed chunk of valid type, parsing `as_bytes(c) ++ extra` returns `Ok(c)` for any `extra`; bytes after the CRC are discarded |
| `Chunks.ParsePrefix` | src/chunk.rs:84-132 | an input that starts with the serialisation of a well-formed chunk of valid type parses to that chunk |
| `Chunks.ParseOkIff` | src/chunk.rs:84-132 | parsing returns `Ok(c)` exactly when `c` is well-formed, has a valid type, and `as_bytes(c)` starts the input |
| `Chunks.NewRoundTrip` | src/chunk.rs:21-132 | for a valid type and data shorter than 2^32, parsing `as_bytes(new(t, d)) ++ extra` returns `Ok(new(t, d))` |
| `Chunks.StoredCrcDetermined` | src/chunk.rs:110-124 | two inputs that differ only in the stored CRC, placed where the length field puts it, cannot both parse |
| `Chunks.ParseLayout` | src/chunk.rs:104-131 | for a valid type, the layout length, type, data, CRC parses to that chunk when the stored CRC is the checksum of type and data, and otherwise fails with `InvalidCrc(stored, computed)` |
| `Chunks.ChunkFixtureFields` | src/chunk.rs:229-254 | if the test fixture with stored CRC 2882656334 parses, it has length 42, type "RuSt", the text "This is where your secret message will be!" and CRC 2882656334 |
| `Chunks.ChunkFixtureBadCrc` | src/chunk.rs:256-275 | if that fixture parses, the same bytes with stored CRC 2882656333 fail with `InvalidCrc(2882656333, 2882656334)` |
| `Chunks.TruncatedInputWitness` | src/chunk.rs:106-107 | a 12-byte input of valid type that declares one data byte passes the size and type checks, yet the `split_at` calls would run past its end; the corrected parser reports `InputTruncated` |

## Left out

- Chunks.ChunkFixtureFields: holds only on the assumption that the fixture parses. The value 2882656334 is not proved to be the CRC-32 of "RuSt" plus the message, because that would mean evaluating the checksum over 46 bytes inside the verifier.
- Chunks.ChunkFixtureBadCrc: holds only on the same assumption, for the same reason.
- CRC error-detection strength is not proved, for example that flipping one byte of the type or data always changes the checksum. It is a property of the polynomial, not of this code.
- Chunks.DataAsString: its error `Chunks.Utf8Error` has a single variant. Rust's `valid_up_to` and `error_len` are standard-library detail.
- `to_string` panics when `Display` returns `fmt::Error`. The model shows that case only as `None` from `ChunkTypes.Display`.
- Display of `Chunk`, and the message texts of `ChunkTypeError` and `ChunkError` (src/chunk.rs:135-178, src/chunk_type.rs:111-124), are not modelled: they are formatting only.
- The `try_into()?` conversions at src/chunk.rs:92-110 cannot fail once the slices have the right length, so they have no error path.
- The PNG container (`png::Png`) is not part of this model: its source file `src/png.rs` (declared by `mod png;` at src/main.rs:8) is not available to model against. This leaves out signature checking, the chunk list, `append_chunk`, `chunk_by_type`, `remove_chunk` and container serialisation.
- Command-line parsing (src/args.rs), file reads and writes and printing (src/commands.rs), and the entry point (src/main.rs) are I/O glue, not modelled.
- There is no top-level error enum combining the per-component errors. The `Box<dyn Error>` aliases in src/main.rs:13-16 exist only for that glue.

## Findings

| source | as written | input that shows it | evidently intended | confidence | as-written member | corrected member |
|---|---|---|---|---|---|---|
| src/chunk.rs:106-107 | after the size and type checks, `split_at(length as usize)` and `split_at(4)` cut the data and the CRC without checking that the input holds `12 + length` bytes, so a truncated chunk panics | `[0,0,0,1,82,117,83,116,0,0,0,0]`: 12 bytes, type "RuSt", declared length 1 | report a parse error for a truncated chunk, not panic | high; not executed | `Chunks.ParseAsWritten`, `Chunks.TruncatedInputWitness` | `Chunks.Parse` |
