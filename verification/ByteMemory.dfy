/** Byte memory, and what a write that may have been cut short leaves behind. */
module ByteMemory {
  type byte = b: int | 0 <= b < 256

  /** `data` written over `m` at `a`. */
  function WriteBytes(m: seq<byte>, a: nat, data: seq<byte>): (r: seq<byte>)
    requires a + |data| <= |m|
    ensures |r| == |m|
    ensures forall x :: 0 <= x < |r| ==> r[x] == if a <= x < a + |data| then data[x - a] else m[x]
  {
    m[..a] + data + m[a + |data|..]
  }

  /** Every byte of `m'` is the one of `m` or, inside the range, the one of `data`. */
  ghost predicate PartlyWritten(m: seq<byte>, m': seq<byte>, a: nat, data: seq<byte>) {
    |m'| == |m| &&
    forall x :: 0 <= x < |m| ==> m'[x] == m[x] || (a <= x < a + |data| && m'[x] == data[x - a])
  }

  lemma PartlyWrittenInTurn(m: seq<byte>, m1: seq<byte>, m2: seq<byte>, a: nat, data: seq<byte>)
    requires PartlyWritten(m, m1, a, data) && PartlyWritten(m1, m2, a, data)
    ensures PartlyWritten(m, m2, a, data)
  {
  }

  /** A whole write hides every trace of the attempts before it. */
  lemma WholeWriteHidesAttempts(m: seq<byte>, m': seq<byte>, a: nat, data: seq<byte>)
    requires a + |data| <= |m| && PartlyWritten(m, m', a, data)
    ensures WriteBytes(m', a, data) == WriteBytes(m, a, data)
  {
  }

  /** A piece of a write counts as a part of it. */
  lemma PieceIsPart(m: seq<byte>, m': seq<byte>, a: nat, data: seq<byte>, from: nat, to: nat)
    requires from <= to <= |data| && PartlyWritten(m, m', a + from, data[from..to])
    ensures PartlyWritten(m, m', a, data)
  {
  }

  /** Writing the next piece of the data. */
  lemma WriteNextPiece(m: seq<byte>, a: nat, data: seq<byte>, from: nat, to: nat)
    requires from <= to <= |data| && a + |data| <= |m|
    ensures WriteBytes(WriteBytes(m, a, data[..from]), a + from, data[from..to]) == WriteBytes(m, a, data[..to])
  {
  }

  /** The word at `base` with `data` put in it at offset `at`. */
  function Merge(word: seq<byte>, at: nat, data: seq<byte>): (r: seq<byte>)
    requires at + |data| <= |word|
    ensures |r| == |word|
  {
    word[..at] + data + word[at + |data|..]
  }

  /** Reading a stretch, merging bytes into it and writing it back writes just those bytes. */
  lemma MergedWrite(m: seq<byte>, base: nat, size: nat, at: nat, data: seq<byte>)
    requires base + size <= |m| && at + |data| <= size
    ensures WriteBytes(m, base, Merge(m[base..base + size], at, data)) == WriteBytes(m, base + at, data)
  {
  }

  /** The same holds when the write back is cut short. */
  lemma MergedPart(m: seq<byte>, m': seq<byte>, base: nat, size: nat, at: nat, data: seq<byte>)
    requires base + size <= |m| && at + |data| <= size
    requires PartlyWritten(m, m', base, Merge(m[base..base + size], at, data))
    ensures PartlyWritten(m, m', base + at, data)
  {
  }
}
