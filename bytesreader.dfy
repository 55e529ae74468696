/** The observable behaviour of Go's `bytes.Reader` as the buffer reader
    uses it: a fixed byte slice, a read offset, `Read` into a freshly made
    (zeroed) slice, and `ReadAt`, which leaves the offset alone. */
module BytesReader {
  import opened Binary

  /** A freshly made slice of length `n` after `copy` from `src`: the
      first min(n, |src|) bytes come from `src`, the rest stay zero. */
  function Filled(src: seq<byte>, n: nat): (r: seq<byte>)
    ensures |r| == n
    ensures forall i :: 0 <= i < n ==> r[i] == if i < |src| then src[i] else 0
  {
    if n <= |src| then src[..n] else src + Zeros(n - |src|)
  }

  /** How many bytes `Read` copies for an `n`-byte slice at offset `off`. */
  function Copied(data: seq<byte>, off: nat, n: nat): (k: nat)
    requires off <= |data|
    ensures k <= n && off + k <= |data|
    ensures k == n || off + k == |data|
  {
    if n <= |data| - off then n else |data| - off
  }

  /** The slice `Read` fills when asked for `n` bytes at offset `off`. */
  function ReadBuf(data: seq<byte>, off: nat, n: nat): (r: seq<byte>)
    requires off <= |data|
    ensures |r| == n
    ensures r[..Copied(data, off, n)] == data[off..off + Copied(data, off, n)]
    ensures forall i :: Copied(data, off, n) <= i < n ==> r[i] == 0
  {
    Filled(data[off..], n)
  }

  /** The reader's offset after `Read` of `n` bytes at offset `off`. */
  function Advance(data: seq<byte>, off: nat, n: nat): (off': nat)
    requires off <= |data|
    ensures off <= off' <= |data| && off' <= off + n
  {
    off + Copied(data, off, n)
  }

  /** `ReadAt` into a freshly made slice of length `n` at absolute offset
      `o`: a negative offset is an error and an offset at or past the end
      is EOF, and in both cases nothing is copied. */
  function ReadAt(data: seq<byte>, o: int, n: nat): (r: seq<byte>)
    ensures |r| == n
    ensures forall i :: 0 <= i < n ==>
              r[i] == if 0 <= o && o + i < |data| then data[o + i] else 0
  {
    if o < 0 || o >= |data| then Zeros(n) else Filled(data[o..], n)
  }

  /** Two consecutive reads see exactly the bytes of one read of the
      combined length, short reads included. */
  lemma ReadSplit(data: seq<byte>, off: nat, n1: nat, n2: nat)
    requires off <= |data|
    ensures ReadBuf(data, off, n1) + ReadBuf(data, Advance(data, off, n1), n2)
            == ReadBuf(data, off, n1 + n2)
    ensures Advance(data, Advance(data, off, n1), n2) == Advance(data, off, n1 + n2)
  {
  }

  /** Random access at an offset inside the data sees what a sequential
      read positioned at that offset would. */
  lemma ReadAtAgreesWithRead(data: seq<byte>, o: nat, n: nat)
    requires o <= |data|
    ensures ReadAt(data, o, n) == ReadBuf(data, o, n)
  {
  }
}
