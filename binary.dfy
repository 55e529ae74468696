/** Fixed-width unsigned integers and the big-endian decoding that
    `binary.BigEndian.Uint16/32/64` perform on a byte slice. */
module Binary {

  newtype byte = x: int | 0 <= x < 0x100
  newtype uint16 = x: int | 0 <= x < 0x1_0000
  newtype uint32 = x: int | 0 <= x < 0x1_0000_0000
  newtype uint64 = x: int | 0 <= x < 0x1_0000_0000_0000_0000

  /** The contents of a freshly made `[]byte` of length `n`. */
  function Zeros(n: nat): (r: seq<byte>)
    ensures |r| == n
    ensures forall i :: 0 <= i < n ==> r[i] == 0
  {
    seq(n, _ => 0)
  }

  /** 256 to the power k: one more than the largest k-byte value. */
  function Pow256(k: nat): (p: nat)
    ensures p > 0
  {
    if k == 0 then 1 else 0x100 * Pow256(k - 1)
  }

  /** Reference reading: the bytes of `s` as the digits of a base-256
      number, most significant first (Horner's rule from the last byte). */
  function BigEndian(s: seq<byte>): nat
  {
    if s == [] then 0 else BigEndian(s[..|s| - 1]) * 0x100 + s[|s| - 1] as int
  }

  /** Every k-byte reading lies below 256^k. */
  lemma {:induction false} BigEndianBound(s: seq<byte>)
    ensures BigEndian(s) < Pow256(|s|)
  {
    if s != [] {
      BigEndianBound(s[..|s| - 1]);
    }
  }

  /** Extending a prefix by one byte shifts the value one digit left. */
  lemma BigEndianPrefix(b: seq<byte>, k: nat)
    requires k < |b|
    ensures BigEndian(b[..k + 1]) == BigEndian(b[..k]) * 0x100 + b[k] as int
  {
    assert b[..k + 1][..k] == b[..k];
  }

  /** The value of a concatenation: the high part shifted by the width of
      the low part, plus the low part. */
  lemma {:induction false} BigEndianAppend(a: seq<byte>, b: seq<byte>)
    ensures BigEndian(a + b) == BigEndian(a) * Pow256(|b|) + BigEndian(b)
  {
    if b == [] {
      assert a + b == a;
    } else {
      var b' := b[..|b| - 1];
      assert (a + b)[..|a + b| - 1] == a + b';
      BigEndianAppend(a, b');
      calc {
        BigEndian(a + b);
        BigEndian(a + b') * 0x100 + b[|b| - 1] as int;
        (BigEndian(a) * Pow256(|b'|) + BigEndian(b')) * 0x100 + b[|b| - 1] as int;
        BigEndian(a) * (Pow256(|b'|) * 0x100) + (BigEndian(b') * 0x100 + b[|b| - 1] as int);
        BigEndian(a) * Pow256(|b|) + BigEndian(b);
      }
    }
  }

  /** `binary.BigEndian.Uint16`: the first two bytes, most significant
      first; the slice must hold at least two bytes. */
  function Uint16(b: seq<byte>): (r: uint16)
    requires |b| >= 2
    ensures r as int == BigEndian(b[..2])
  {
    BigEndianPrefix(b, 0);
    BigEndianPrefix(b, 1);
    assert b[..0] == [];
    (b[0] as int * 0x100 + b[1] as int) as uint16
  }

  /** `binary.BigEndian.Uint32`: the first four bytes, most significant first. */
  function Uint32(b: seq<byte>): (r: uint32)
    requires |b| >= 4
    ensures r as int == BigEndian(b[..4])
  {
    BigEndianPrefix(b, 0);
    BigEndianPrefix(b, 1);
    BigEndianPrefix(b, 2);
    BigEndianPrefix(b, 3);
    assert b[..0] == [];
    (b[0] as int * 0x100_0000 + b[1] as int * 0x1_0000
     + b[2] as int * 0x100 + b[3] as int) as uint32
  }

  /** `binary.BigEndian.Uint64`: the first eight bytes, most significant first. */
  function Uint64(b: seq<byte>): (r: uint64)
    requires |b| >= 8
    ensures r as int == BigEndian(b[..8])
  {
    BigEndianPrefix(b, 0);
    BigEndianPrefix(b, 1);
    BigEndianPrefix(b, 2);
    BigEndianPrefix(b, 3);
    BigEndianPrefix(b, 4);
    BigEndianPrefix(b, 5);
    BigEndianPrefix(b, 6);
    BigEndianPrefix(b, 7);
    assert b[..0] == [];
    (b[0] as int * 0x100_0000_0000_0000 + b[1] as int * 0x1_0000_0000_0000
     + b[2] as int * 0x100_0000_0000 + b[3] as int * 0x1_0000_0000
     + b[4] as int * 0x100_0000 + b[5] as int * 0x1_0000
     + b[6] as int * 0x100 + b[7] as int) as uint64
  }

  /** A four-byte value is its first two bytes shifted over its last two. */
  lemma Uint32Halves(b: seq<byte>)
    requires |b| == 4
    ensures Uint32(b) as int == Uint16(b[..2]) as int * 0x1_0000 + Uint16(b[2..]) as int
  {
  }

  /** An eight-byte value is its first four bytes shifted over its last four. */
  lemma Uint64Halves(b: seq<byte>)
    requires |b| == 8
    ensures Uint64(b) as int == Uint32(b[..4]) as int * 0x1_0000_0000 + Uint32(b[4..]) as int
  {
  }
}
