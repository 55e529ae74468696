# BufferReader, modelled in Dafny

`bufferreader` is a small Go package. It provides one cursor type, `BufferReader`, over an in-memory byte slice. The cursor reads big-endian integers, raw byte runs, strings, float bit patterns and arrays. It keeps its own `position` counter, and every read increases it by at least the number of bytes requested (the two array readers add twice that). Nothing in the package reports an error. A read past the end gives a zero-padded result and still advances `position` by the full length.

The model keeps two pieces of state apart:

- `position`, the package's own counter (`Reader.BufferReader.position`, an unbounded `int`);
- the read offset hidden inside the wrapped `bytes.Reader` (`Reader.BufferReader.off`). It moves only by the bytes actually copied, and `ReadAt` does not move it.

Files:

- `binary.dfy`, module `Binary`: byte and unsigned integer types, and `binary.BigEndian.Uint16/32/64` as explicit most-significant-first sums. These are proved equal to a reference base-256 reading, `BigEndian`.
- `bytesreader.dfy`, module `BytesReader`: the observable behaviour of `bytes.Reader.Read` and `ReadAt` on a freshly made, zeroed slice. It includes the lemma that two consecutive reads equal one read of the combined length, short reads included.
- `bufferreader.dfy`, module `Reader`: the class `BufferReader` with every method of the package. It also has pure reference definitions for the array readers, lemmas relating the readers to one another, and concrete scenarios.

The class invariant `Valid()` states `off <= |data|` and `off <= position`. Every method keeps it. `Position()` and `Remaining()` are functions that only read the object, so calling them changes no state.

The model follows the code as written, including three behaviours that the method names do not suggest:

- `ReadArray16` and `ReadArray8` advance `position` by twice the byte count;
- they return twice as many elements as they decode, with zeros in the first half;
- `ReadRawOffset` advances `position`.

The "## Findings" section records the array-reader behaviour, and corrected variants are modelled beside the as-written ones.

## Model

| member | source | states |
|---|---|---|
| `Binary.Zeros` | bufferreader.go:24 | a freshly made byte slice has the requested length and every entry 0 |
| `Binary.Uint16` | bufferreader.go:47 | the explicit two-byte sum lies below 2^16 because of its type, and equals the reference big-endian reading of the first two bytes |
| `Binary.Uint32` | bufferreader.go:40 | the explicit four-byte sum lies below 2^32 and equals the reference big-endian reading of the first four bytes |
| `Binary.Uint64` | bufferreader.go:33 | the explicit eight-byte sum lies below 2^64 and equals the reference big-endian reading of the first eight bytes |
| `Binary.BigEndianBound` | bufferreader.go:29-48 | a big-endian reading of k bytes is below 256^k |
| `Binary.BigEndianAppend` | bufferreader.go:29-48 | the reading of a concatenation is the high part shifted by the low part's width, plus the low part |
| `Binary.Uint32Halves` | bufferreader.go:36-48 | a four-byte value is its first two-byte value times 2^16 plus its last two-byte value |
| `Binary.Uint64Halves` | bufferreader.go:29-41 | an eight-byte value is its first four-byte value times 2^32 plus its last four-byte value |
| `BytesReader.Filled` | bufferreader.go:24-25 | copying into a made slice of length n keeps length n, takes entry i from the source while the source lasts, and leaves 0 after that |
| `BytesReader.Copied` | bufferreader.go:25 | `Read` copies no more than requested and no more than remains, and it stops short only at the end of the data |
| `BytesReader.ReadBuf` | bufferreader.go:24-25 | the filled slice has exactly n bytes; its first k bytes are `data[off..off+k]` and the rest are 0 |
| `BytesReader.Advance` | bufferreader.go:25 | the read offset moves forward by at most n and never past the end of the data |
| `BytesReader.ReadAt` | bufferreader.go:113-114 | `ReadAt` gives n bytes; entry i is `data[o+i]` when `o >= 0` and `o+i` is inside the data, and 0 otherwise (negative offset or EOF) |
| `BytesReader.ReadSplit` | bufferreader.go:22-27 | reading n1 then n2 bytes gives the same bytes and the same final offset as reading n1+n2 bytes, even past the end |
| `BytesReader.ReadAtAgreesWithRead` | bufferreader.go:111-116 | for an offset inside the data, `ReadAt` gives what a sequential read from that offset would |
| `Reader.Pairs16` | bufferreader.go:77-81 | pairwise decoding of a raw run yields half as many values as bytes; an odd last byte is dropped |
| `Reader.Pairs16IsShorts` | bufferreader.go:64-83 | decoding one bulk read pairwise equals the values of n/2 successive `ReadShort` calls, as the comment on `ReadArray16` claims |
| `Reader.BulkIsSingles` | bufferreader.go:85-102 | one bulk read of n bytes equals the bytes of n successive `ReadSingle` calls, as the comment on `ReadArray8` claims |
| `Reader.LongIsTwoShorts` | bufferreader.go:36-48 | `ReadLong` equals the first `ReadShort` times 2^16 plus the second, with short reads included |
| `Reader.LongLongIsTwoLongs` | bufferreader.go:29-41 | `ReadLongLong` equals the first `ReadLong` times 2^32 plus the second, with short reads included |
| `Reader.BufferReader.constructor` | bufferreader.go:18-20 | a new reader wraps exactly the given bytes, with position 0 and read offset 0 |
| `Reader.BufferReader.Position` | bufferreader.go:173-175 | the position is never below the wrapped reader's offset |
| `Reader.BufferReader.Remaining` | bufferreader.go:169-171 | full data size minus `Position()`, which may be negative; never more than what the wrapped reader still holds |
| `Reader.BufferReader.ReadInto` | bufferreader.go:25 | `bytes.Reader.Read` into a fresh n-byte slice returns the filled slice and advances only the read offset, by the bytes copied; called once the bytes are counted in `position`, it keeps `Valid()` |
| `Reader.BufferReader.ReadNInt` | bufferreader.go:22-27 | returns exactly n bytes, the available ones followed by zeros; position grows by n and the offset by the bytes copied |
| `Reader.BufferReader.ReadLongLong` | bufferreader.go:29-34 | the big-endian value of the next 8 bytes, missing trailing bytes read as 0; position grows by 8 |
| `Reader.BufferReader.ReadLong` | bufferreader.go:36-41 | the big-endian value of the next 4 bytes, missing trailing bytes read as 0; position grows by 4 |
| `Reader.BufferReader.ReadShort` | bufferreader.go:43-48 | the big-endian value of the next 2 bytes, missing trailing bytes read as 0; position grows by 2 |
| `Reader.BufferReader.ReadSingle` | bufferreader.go:50-55 | a value in 0..255: the next byte if one remains, else 0; position grows by 1 |
| `Reader.BufferReader.ReadString` | bufferreader.go:57-62 | the raw bytes of the next n, zero-padded; position grows by n |
| `Reader.BufferReader.ReadArray16` | bufferreader.go:64-83 | as written: length 2*(n/2), the first n/2 entries 0 and the rest the pairwise big-endian values of one n-byte read; position grows by 2n; the offset grows by the bytes copied |
| `Reader.BufferReader.ReadArray8` | bufferreader.go:85-102 | as written: n zeros followed by the n bytes of one read, length 2n; position grows by 2n; the offset grows by the bytes copied |
| `Reader.BufferReader.ReadRaw` | bufferreader.go:104-109 | returns exactly n bytes, the available ones followed by zeros; position grows by n and the offset by the bytes copied |
| `Reader.BufferReader.ReadRawOffset` | bufferreader.go:111-116 | the bytes at the absolute offset, truncated or zero-padded to n, whatever the current offset; the read offset is unchanged and position still grows by n |
| `Reader.BufferReader.ReadDouble` | bufferreader.go:118-126 | consumes 8 bytes like `ReadLongLong` and returns their big-endian bit pattern; position grows by 8 |
| `Reader.BufferReader.ReadFloat` | bufferreader.go:128-136 | consumes 4 bytes like `ReadLong` and returns their big-endian bit pattern; position grows by 4 |
| `Reader.BufferReader.ReadArray16Corrected` | bufferreader.go:64-83 | corrected: exactly the values successive `ReadShort` calls would give; position grows by n once |
| `Reader.BufferReader.ReadArray8Corrected` | bufferreader.go:85-102 | corrected: exactly the bytes successive `ReadSingle` calls would give; position grows by n once |
| `Reader.ReadMixedRecord` | bufferreader.go:36-55 | a 32-bit 42, a 16-bit 7 and a byte 255 read back as 42, 7, 255, ending at position 7 with 0 remaining |
| `Reader.ShortRead` | bufferreader.go:36-41 | `ReadLong` over 3 bytes zero-pads to 0x01020300, reaches position 4 and leaves `Remaining()` at -1; the next byte read is 0 |
| `Reader.RandomAccess` | bufferreader.go:111-116 | `ReadRawOffset(3, 2)` over [1,2,3,4] after one byte read gives [3,4,0]; the next sequential byte is still 2 and the position is 5 |
| `Reader.Array16Counterexample` | bufferreader.go:64-83 | as written, `ReadArray16(4)` over [0,1,0,2] returns [0,0,1,2] and leaves position at 8 |
| `Reader.Array8Counterexample` | bufferreader.go:85-102 | as written, `ReadArray8(3)` over [5,6,7] returns [0,0,0,5,6,7] and leaves position at 6 |
| `Reader.CorrectedArrays` | bufferreader.go:64-102 | the corrected readers return [1,2] and [5,6,7] and advance position by 7 in all |

## Left out

- The IEEE-754 reinterpretation in `ReadDouble` and `ReadFloat` is floating point. The model returns the raw big-endian bit pattern that `binary.Read` would reinterpret.
- `ReadU16f16` is commented out in the source and uses floating-point `math.Pow`, so it is not modelled.
- `ReadString` converts to a Go `string`. The model returns the raw bytes, because Dafny strings carry no UTF-8 semantics.
- `position` is an `int64` in Go. The model uses an unbounded `int`, so overflow of the counter is not modelled.
- `make` panics on a negative length. The byte-count parameters are `nat`, so that panic is not modelled.
- The `uint32` length of `ReadArray16` and `ReadArray8` is a `nat` below 2^32.
- A negative offset passed to `ReadRawOffset` is modelled as `ReadAt`'s error return, which copies nothing and leaves the result all zeros. The returned error value itself is dropped, as the source drops it.
- `bytes.Reader`'s other state is not modelled: the rune-unread marker and the internals behind `Size`. Its offset is a field of the same object, because the wrapped reader is never shared or exposed.
- `Binary.Uint16`, `Binary.Uint32`, `Binary.Uint64`: the panic of `binary.BigEndian` on a too-short slice is a precondition. Every caller in the package passes a slice of exactly the right size.
- `bytes.NewReader(data)` (bufferreader.go:19) shares the caller's slice without copying it, so later writes by the caller would show in later reads. The model's `const data: seq<byte>` is an immutable value and does not capture that aliasing.
- Concurrency: the type is unsynchronised and single-owner, and the model is sequential.

## Findings

| source | as written | input that shows it | evidently intended | confidence | as-written member | corrected member |
|---|---|---|---|---|---|---|
| bufferreader.go:72 | `make([]uint16, bufferSize)` followed by `append` puts the decoded values after `bufferSize` zeros | `ReadArray16(4)` over [0,1,0,2] returns [0,0,1,2] | [1,2]: a slice with capacity `bufferSize` and length 0 | high; not executed | `Reader.Array16Counterexample` | `Reader.BufferReader.ReadArray16Corrected` |
| bufferreader.go:70 | `position` is increased by `len` here and again inside `ReadRaw` | `ReadArray16(4)` over [0,1,0,2] leaves `Position()` at 8 | 4, as for every other read of 4 bytes | medium; not executed | `Reader.Array16Counterexample` | `Reader.BufferReader.ReadArray16Corrected` |
| bufferreader.go:93 | `make([]uint8, bufferSize)` followed by `append` puts the bytes after `bufferSize` zeros | `ReadArray8(3)` over [5,6,7] returns [0,0,0,5,6,7] | [5,6,7] | high; not executed | `Reader.Array8Counterexample` | `Reader.BufferReader.ReadArray8Corrected` |
| bufferreader.go:91 | `position` is increased by `len` here and again inside `ReadRaw` | `ReadArray8(3)` over [5,6,7] leaves `Position()` at 6 | 3 | medium; not executed | `Reader.Array8Counterexample` | `Reader.BufferReader.ReadArray8Corrected` |
