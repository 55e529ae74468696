/** The `BufferReader` cursor: a wrapped `bytes.Reader` plus a `position`
    counter that every read bumps by the length it was asked for. */
module Reader {
  import opened Binary
  import opened BytesReader

  /** `Pairs16(raw)[i]` is the big-endian value of raw bytes 2i and 2i+1;
      an odd trailing byte is ignored. */
  function Pairs16(raw: seq<byte>): (r: seq<uint16>)
    ensures |r| == |raw| / 2
  {
    seq(|raw| / 2, i requires 0 <= i < |raw| / 2 => Uint16(raw[2 * i..2 * i + 2]))
  }

  /** The values `m` successive `ReadShort` calls return, starting with the
      wrapped reader at offset `off`. */
  function Shorts(data: seq<byte>, off: nat, m: nat): seq<uint16>
    requires off <= |data|
    decreases m
  {
    if m == 0 then []
    else [Uint16(ReadBuf(data, off, 2))] + Shorts(data, Advance(data, off, 2), m - 1)
  }

  /** The bytes `m` successive `ReadSingle` calls return, starting with the
      wrapped reader at offset `off`. */
  function Singles(data: seq<byte>, off: nat, m: nat): seq<byte>
    requires off <= |data|
    decreases m
  {
    if m == 0 then []
    else [ReadBuf(data, off, 1)[0]] + Singles(data, Advance(data, off, 1), m - 1)
  }

  lemma Pairs16Cons(a: seq<byte>, b: seq<byte>)
    requires |a| == 2
    ensures Pairs16(a + b) == [Uint16(a)] + Pairs16(b)
  {
  }

  /** Decoding one bulk read pairwise gives what successive `ReadShort`
      calls would have returned: the economy `ReadArray16`'s comment
      describes changes no value. */
  lemma {:induction false} Pairs16IsShorts(data: seq<byte>, off: nat, n: nat)
    requires off <= |data|
    ensures Pairs16(ReadBuf(data, off, n)) == Shorts(data, off, n / 2)
    decreases n
  {
    if n >= 2 {
      ReadSplit(data, off, 2, n - 2);
      Pairs16Cons(ReadBuf(data, off, 2), ReadBuf(data, Advance(data, off, 2), n - 2));
      Pairs16IsShorts(data, Advance(data, off, 2), n - 2);
      assert (n - 2) / 2 == n / 2 - 1;
    }
  }

  /** One bulk read of `n` bytes gives what `n` successive `ReadSingle`
      calls would have returned. */
  lemma {:induction false} BulkIsSingles(data: seq<byte>, off: nat, n: nat)
    requires off <= |data|
    ensures ReadBuf(data, off, n) == Singles(data, off, n)
    decreases n
  {
    if n > 0 {
      ReadSplit(data, off, 1, n - 1);
      BulkIsSingles(data, Advance(data, off, 1), n - 1);
      var a := ReadBuf(data, off, 1);
      assert a == [a[0]];
    }
  }

  /** A `ReadLong` yields the two `ReadShort` values that would come from
      the same place, the first one shifted up by 16 bits. */
  lemma LongIsTwoShorts(data: seq<byte>, off: nat)
    requires off <= |data|
    ensures Uint32(ReadBuf(data, off, 4)) as int
            == Uint16(ReadBuf(data, off, 2)) as int * 0x1_0000
               + Uint16(ReadBuf(data, Advance(data, off, 2), 2)) as int
  {
  }

  /** A `ReadLongLong` yields the two `ReadLong` values that would come from
      the same place, the first one shifted up by 32 bits. */
  lemma LongLongIsTwoLongs(data: seq<byte>, off: nat)
    requires off <= |data|
    ensures Uint64(ReadBuf(data, off, 8)) as int
            == Uint32(ReadBuf(data, off, 4)) as int * 0x1_0000_0000
               + Uint32(ReadBuf(data, Advance(data, off, 4), 4)) as int
  {
  }

  class BufferReader {
    /** The slice the wrapped `bytes.Reader` was made from; never replaced. */
    const data: seq<byte>
    /** The wrapped `bytes.Reader`'s read offset. */
    var off: nat
    /** The reader's own count of requested bytes. */
    var position: int

    /** The wrapped reader never runs past its data, and `position` grows at
        least as fast as the read offset. */
    ghost predicate Valid()
      reads this
    {
      off <= |data| && off <= position
    }

    constructor (data: seq<byte>)
      ensures this.data == data && off == 0 && position == 0
      ensures Valid()
    {
      this.data := data;
      off := 0;
      position := 0;
    }

    /** `Position()`: the count of requested bytes so far. */
    function Position(): (p: int)
      reads this
      ensures Valid() ==> p >= off
    {
      position
    }

    /** `Remaining()`: the data's full size minus `Position()`; it may be
        negative after a short read, and it never exceeds what the wrapped
        reader still holds. */
    function Remaining(): (r: int)
      reads this
      ensures r == |data| - Position()
      ensures Valid() ==> r <= |data| - off
    {
      |data| - Position()
    }

    /** `bytes.Reader.Read` into a freshly made slice of `n` bytes; every
        caller has already counted those `n` bytes in `position`. */
    method ReadInto(n: nat) returns (ret: seq<byte>)
      requires off <= |data| && off + n <= position
      modifies this`off
      ensures Valid()
      ensures ret == ReadBuf(data, old(off), n)
      ensures off == Advance(data, old(off), n)
    {
      ret := ReadBuf(data, off, n);
      off := Advance(data, off, n);
    }

    method ReadNInt(n: nat) returns (ret: seq<byte>)
      requires Valid()
      modifies this
      ensures Valid()
      ensures ret == ReadBuf(data, old(off), n)
      ensures off == Advance(data, old(off), n)
      ensures position == old(position) + n
    {
      position := position + n;
      ret := ReadInto(n);
    }

    method ReadLongLong() returns (v: uint64)
      requires Valid()
      modifies this
      ensures Valid()
      ensures v as int == BigEndian(ReadBuf(data, old(off), 8))
      ensures v == Uint64(ReadBuf(data, old(off), 8))
      ensures off == Advance(data, old(off), 8)
      ensures position == old(position) + 8
    {
      position := position + 8;
      var ret := ReadInto(8);
      assert ret[..8] == ret;
      v := Uint64(ret);
    }

    method ReadLong() returns (v: uint32)
      requires Valid()
      modifies this
      ensures Valid()
      ensures v as int == BigEndian(ReadBuf(data, old(off), 4))
      ensures v == Uint32(ReadBuf(data, old(off), 4))
      ensures off == Advance(data, old(off), 4)
      ensures position == old(position) + 4
    {
      position := position + 4;
      var ret := ReadInto(4);
      assert ret[..4] == ret;
      v := Uint32(ret);
    }

    method ReadShort() returns (v: uint16)
      requires Valid()
      modifies this
      ensures Valid()
      ensures v as int == BigEndian(ReadBuf(data, old(off), 2))
      ensures v == Uint16(ReadBuf(data, old(off), 2))
      ensures off == Advance(data, old(off), 2)
      ensures position == old(position) + 2
    {
      position := position + 2;
      var ret := ReadInto(2);
      assert ret[..2] == ret;
      v := Uint16(ret);
    }

    method ReadSingle() returns (v: int)
      requires Valid()
      modifies this
      ensures Valid()
      ensures 0 <= v < 0x100
      ensures v == if old(off) < |data| then data[old(off)] as int else 0
      ensures off == Advance(data, old(off), 1)
      ensures position == old(position) + 1
    {
      position := position + 1;
      var ret := ReadInto(1);
      v := ret[0] as int;
    }

    /** The text is kept as its raw bytes. */
    method ReadString(n: nat) returns (s: seq<byte>)
      requires Valid()
      modifies this
      ensures Valid()
      ensures s == ReadBuf(data, old(off), n)
      ensures off == Advance(data, old(off), n)
      ensures position == old(position) + n
    {
      position := position + n;
      var ret := ReadInto(n);
      s := ret;
    }

    /** As written: `position` is bumped here and again inside `ReadRaw`,
        and the `n / 2` decoded values are appended after `n / 2` zeros. */
    method ReadArray16(n: nat) returns (ret: seq<uint16>)
      requires n < 0x1_0000_0000
      requires Valid()
      modifies this
      ensures Valid()
      ensures |ret| == 2 * (n / 2)
      ensures forall i :: 0 <= i < n / 2 ==> ret[i] == 0
      ensures ret[n / 2..] == Pairs16(ReadBuf(data, old(off), n))
      ensures off == Advance(data, old(off), n)
      ensures position == old(position) + 2 * n
    {
      position := position + n;
      var bufferSize := n / 2;
      ret := seq(bufferSize, _ => 0);
      var raw := ReadRaw(n);
      for i := 0 to bufferSize
        invariant |ret| == bufferSize + i
        invariant forall j :: 0 <= j < bufferSize ==> ret[j] == 0
        invariant forall j :: 0 <= j < i ==> ret[bufferSize + j] == Uint16(raw[2 * j..2 * j + 2])
      {
        var start := i * 2;
        var val := raw[start..start + 2];
        ret := ret + [Uint16(val)];
      }
    }

    /** As written: `position` is bumped here and again inside `ReadRaw`,
        and the `n` bytes read are appended after `n` zeros. */
    method ReadArray8(n: nat) returns (ret: seq<byte>)
      requires n < 0x1_0000_0000
      requires Valid()
      modifies this
      ensures Valid()
      ensures ret == Zeros(n) + ReadBuf(data, old(off), n)
      ensures |ret| == 2 * n
      ensures off == Advance(data, old(off), n)
      ensures position == old(position) + 2 * n
    {
      position := position + n;
      var bufferSize := n;
      ret := Zeros(bufferSize);
      var raw := ReadRaw(n);
      for i := 0 to bufferSize
        invariant ret == Zeros(bufferSize) + raw[..i]
      {
        var val := raw[i];
        assert raw[..i + 1] == raw[..i] + [val];
        ret := ret + [val];
      }
      assert raw[..bufferSize] == raw;
    }

    /** `ReadArray16` with the leading zeros and the second bump of
        `position` removed: the values successive `ReadShort` calls would
        give, with `position` advanced by the byte count once. */
    method ReadArray16Corrected(n: nat) returns (ret: seq<uint16>)
      requires n < 0x1_0000_0000
      requires Valid()
      modifies this
      ensures Valid()
      ensures ret == Pairs16(ReadBuf(data, old(off), n))
      ensures ret == Shorts(data, old(off), n / 2)
      ensures off == Advance(data, old(off), n)
      ensures position == old(position) + n
    {
      var bufferSize := n / 2;
      ret := [];
      var raw := ReadRaw(n);
      for i := 0 to bufferSize
        invariant |ret| == i
        invariant forall j :: 0 <= j < i ==> ret[j] == Uint16(raw[2 * j..2 * j + 2])
      {
        var start := i * 2;
        var val := raw[start..start + 2];
        ret := ret + [Uint16(val)];
      }
      Pairs16IsShorts(data, old(off), n);
    }

    /** `ReadArray8` with the leading zeros and the second bump of
        `position` removed: the bytes successive `ReadSingle` calls would
        give, with `position` advanced by `n` once. */
    method ReadArray8Corrected(n: nat) returns (ret: seq<byte>)
      requires n < 0x1_0000_0000
      requires Valid()
      modifies this
      ensures Valid()
      ensures ret == ReadBuf(data, old(off), n)
      ensures ret == Singles(data, old(off), n)
      ensures off == Advance(data, old(off), n)
      ensures position == old(position) + n
    {
      ret := [];
      var raw := ReadRaw(n);
      for i := 0 to n
        invariant ret == raw[..i]
      {
        var val := raw[i];
        assert raw[..i + 1] == raw[..i] + [val];
        ret := ret + [val];
      }
      assert raw[..n] == raw;
      BulkIsSingles(data, old(off), n);
    }

    method ReadRaw(n: nat) returns (ret: seq<byte>)
      requires Valid()
      modifies this
      ensures Valid()
      ensures ret == ReadBuf(data, old(off), n)
      ensures off == Advance(data, old(off), n)
      ensures position == old(position) + n
    {
      position := position + n;
      ret := ReadInto(n);
    }

    /** Reads at an absolute offset without moving the wrapped reader,
        but still counts the bytes in `position`. */
    method ReadRawOffset(n: nat, offset: int) returns (ret: seq<byte>)
      requires Valid()
      modifies this
      ensures Valid()
      ensures ret == ReadAt(data, offset, n)
      ensures off == old(off)
      ensures position == old(position) + n
    {
      position := position + n;
      ret := ReadAt(data, offset, n);
    }

    /** Only the byte consumption: the result is the IEEE-754 bit pattern
        before it is reinterpreted as a `float64`. */
    method ReadDouble() returns (bits: uint64)
      requires Valid()
      modifies this
      ensures Valid()
      ensures bits == Uint64(ReadBuf(data, old(off), 8))
      ensures off == Advance(data, old(off), 8)
      ensures position == old(position) + 8
    {
      position := position + 8;
      var buffer := ReadInto(8);
      bits := Uint64(buffer);
    }

    /** Only the byte consumption: the result is the IEEE-754 bit pattern
        before it is reinterpreted as a `float32`. */
    method ReadFloat() returns (bits: uint32)
      requires Valid()
      modifies this
      ensures Valid()
      ensures bits == Uint32(ReadBuf(data, old(off), 4))
      ensures off == Advance(data, old(off), 4)
      ensures position == old(position) + 4
    {
      position := position + 4;
      var buffer := ReadInto(4);
      bits := Uint32(buffer);
    }
  }

  /** A buffer holding a 32-bit 42, a 16-bit 7 and a byte 255 reads back
      as those values, ending at position 7 with nothing remaining. */
  method ReadMixedRecord() returns (a: uint32, b: uint16, c: int, pos: int, rem: int)
    ensures a == 42 && b == 7 && c == 255
    ensures pos == 7 && rem == 0
  {
    var r := new BufferReader([0, 0, 0, 42, 0, 7, 255]);
    a := r.ReadLong();
    assert ReadBuf(r.data, 0, 4) == [0, 0, 0, 42];
    b := r.ReadShort();
    assert ReadBuf(r.data, 4, 2) == [0, 7];
    c := r.ReadSingle();
    pos := r.Position();
    rem := r.Remaining();
  }

  /** A read past the end zero-pads its value, still counts the full
      length, and drives `Remaining()` negative. */
  method ShortRead() returns (v: uint32, pos: int, rem: int, next: int)
    ensures v == 0x0102_0300
    ensures pos == 4 && rem == -1 && next == 0
  {
    var r := new BufferReader([1, 2, 3]);
    v := r.ReadLong();
    pos := r.Position();
    rem := r.Remaining();
    next := r.ReadSingle();
  }

  /** `ReadRawOffset` returns bytes from the absolute offset whatever has
      been read, does not disturb the next sequential read, and still
      counts its length in `Position()`. */
  method RandomAccess() returns (at: seq<byte>, next: int, pos: int)
    ensures at == [3, 4, 0]
    ensures next == 2
    ensures pos == 5
  {
    var r := new BufferReader([1, 2, 3, 4]);
    var first := r.ReadSingle();
    at := r.ReadRawOffset(3, 2);
    next := r.ReadSingle();
    pos := r.Position();
  }

  /** As written, `ReadArray16(4)` over [0, 1, 0, 2] yields [0, 0, 1, 2]
      rather than [1, 2], and leaves `Position()` at 8 rather than 4. */
  method Array16Counterexample() returns (ret: seq<uint16>, pos: int)
    ensures ret == [0, 0, 1, 2]
    ensures pos == 8
  {
    var r := new BufferReader([0, 1, 0, 2]);
    ret := r.ReadArray16(4);
    pos := r.Position();
  }

  /** As written, `ReadArray8(3)` over [5, 6, 7] yields [0, 0, 0, 5, 6, 7]
      rather than [5, 6, 7], and leaves `Position()` at 6 rather than 3. */
  method Array8Counterexample() returns (ret: seq<byte>, pos: int)
    ensures ret == [0, 0, 0, 5, 6, 7]
    ensures pos == 6
  {
    var r := new BufferReader([5, 6, 7]);
    ret := r.ReadArray8(3);
    pos := r.Position();
  }

  /** The corrected readers return the decoded elements only. */
  method CorrectedArrays() returns (words: seq<uint16>, bytes: seq<byte>, pos: int)
    ensures words == [1, 2]
    ensures bytes == [5, 6, 7]
    ensures pos == 7
  {
    var r := new BufferReader([0, 1, 0, 2, 5, 6, 7]);
    words := r.ReadArray16Corrected(4);
    bytes := r.ReadArray8Corrected(3);
    pos := r.Position();
  }
}
