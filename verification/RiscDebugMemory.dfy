/** Byte access through the RISC debug hardware, which reads and writes single words. */
module RiscDebugMemory {
  import opened ByteMemory
  import UnalignedAccess
  import Transfers

  type Word = w: int | 0 <= w < 0x1_0000_0000

  /** Four bytes as a word, least significant byte first. */
  function WordOf(b: seq<byte>): Word
    requires |b| == 4
  {
    var b0: int, b1: int, b2: int, b3: int := b[0], b[1], b[2], b[3];
    b0 + 0x100 * b1 + 0x1_0000 * b2 + 0x100_0000 * b3
  }

  function BytesOf(w: Word): (b: seq<byte>)
    ensures |b| == 4
  {
    [w % 0x100, w / 0x100 % 0x100, w / 0x1_0000 % 0x100, w / 0x100_0000]
  }

  lemma BytesOfWord(b: seq<byte>)
    requires |b| == 4
    ensures BytesOf(WordOf(b)) == b
  {
    var b0: int, b1: int, b2: int, b3: int := b[0], b[1], b[2], b[3];
    var w: int := WordOf(b);
    assert w / 0x100 == b1 + 0x100 * b2 + 0x1_0000 * b3;
    assert w / 0x1_0000 == b2 + 0x100 * b3;
    assert w / 0x100_0000 == b3;
  }

  class DebugMemory {
    var memory: seq<byte>

    constructor (memory: seq<byte>)
      ensures this.memory == memory
    {
      this.memory := memory;
    }

    ghost predicate Fits(a: nat, size: nat)
      reads this
    {
      |memory| % 4 == 0 && a + size <= |memory|
    }

    method ReadWord(a: nat) returns (w: Word)
      requires a % 4 == 0 && a + 4 <= |memory|
      ensures w == WordOf(memory[a..a + 4])
    {
      w := WordOf(memory[a..a + 4]);
    }

    method WriteWord(a: nat, w: Word)
      requires a % 4 == 0 && a + 4 <= |memory|
      modifies this
      ensures memory == WriteBytes(old(memory), a, BytesOf(w))
    {
      memory := WriteBytes(memory, a, BytesOf(w));
    }

    /** Fills the buffer word by word. */
    method ReadMemoryBytes(a: nat, buffer: array<byte>)
      requires Fits(a, buffer.Length)
      modifies buffer
      ensures buffer[..] == memory[a..a + buffer.Length]
    {
      var size, pos := buffer.Length, 0;
      while pos < size
        invariant pos <= size && buffer[..pos] == memory[a..a + pos]
        decreases size - pos
      {
        var piece := ReadPiece(a + pos, size - pos);
        CopyBytes(piece, buffer, pos);
        assert buffer[..pos + |piece|] == buffer[..pos] + buffer[pos..pos + |piece|];
        assert memory[a..a + pos + |piece|] == memory[a..a + pos] + memory[a + pos..a + pos + |piece|];
        pos := pos + |piece|;
      }
    }

    /** The bytes from `address` on, as many as are wanted and lie in its word. */
    method ReadPiece(address: nat, wanted: nat) returns (piece: seq<byte>)
      requires wanted > 0 && Fits(address, wanted)
      ensures 0 < |piece| <= wanted && piece == memory[address..address + |piece|]
    {
      var wordAddress := address - address % 4;
      WordIsInside(address, |memory|);
      var word := ReadWord(wordAddress);
      BytesOfWord(memory[wordAddress..wordAddress + 4]);
      var bytes := BytesOf(word);
      var start := address - wordAddress;
      var n := if 4 - start < wanted then 4 - start else wanted;
      SliceOfWord(memory, wordAddress, start, n);
      piece := bytes[start..start + n];
    }

    method CopyBytes(bytes: seq<byte>, buffer: array<byte>, pos: nat)
      requires pos + |bytes| <= buffer.Length
      modifies buffer
      ensures buffer[..pos] == old(buffer[..pos]) && buffer[pos..pos + |bytes|] == bytes
    {
      forall i | pos <= i < pos + |bytes| {
        buffer[i] := bytes[i - pos];
      }
    }

    lemma SliceOfWord(m: seq<byte>, base: nat, start: nat, n: nat)
      requires base + 4 <= |m| && start + n <= 4
      ensures m[base..base + 4][start..start + n] == m[base + start..base + start + n]
    {
      var inner, outer := m[base..base + 4][start..start + n], m[base + start..base + start + n];
      assert forall k :: 0 <= k < n ==> inner[k] == outer[k];
    }

    lemma WordIsInside(address: nat, end: nat)
      requires address < end && end % 4 == 0
      ensures address - address % 4 + 4 <= end && (address - address % 4) % 4 == 0
    {
    }

    /** Puts bytes into one word. */
    method PatchWord(base: nat, at: nat, data: seq<byte>)
      requires base % 4 == 0 && at + |data| <= 4 && base + 4 <= |memory|
      modifies this
      ensures memory == WriteBytes(old(memory), base + at, data)
    {
      var word := ReadWord(base);
      BytesOfWord(memory[base..base + 4]);
      var bytes := Merge(BytesOf(word), at, data);
      MergedWrite(memory, base, 4, at, data);
      BytesOfWord(bytes);
      WriteWord(base, WordOf(bytes));
    }

    /** Writes `data` word by word; the words at its two ends are read first. */
    method WriteMemoryBytes(a: nat, data: seq<byte>)
      requires Fits(a, |data|)
      modifies this
      ensures memory == WriteBytes(old(memory), a, data)
    {
      ghost var start := memory;
      var size := |data|;
      assert data[..size] == data;
      if size == 0 {
        return;
      }
      var done := 0;
      var first := a % 4;
      if first != 0 {
        WordIsInside(a, |memory|);
        var n := if 4 - first < size then 4 - first else size;
        PatchWord(a - first, first, data[..n]);
        done := n;
      }
      assert memory == WriteBytes(start, a, data[..done]);
      if done < size {
        assert (a + done) % 4 == 0;
        WriteFromBoundary(start, a, data, done);
      }
    }

    /** The whole words and the rest of a write, from a word boundary on. */
    method WriteFromBoundary(ghost start: seq<byte>, a: nat, data: seq<byte>, from: nat)
      requires from <= |data| && a + |data| <= |start| && memory == WriteBytes(start, a, data[..from])
      requires (a + from) % 4 == 0 && Fits(a, |data|)
      modifies this
      ensures memory == WriteBytes(start, a, data)
    {
      var size := |data|;
      assert data[..size] == data;
      UnalignedAccess.PhasesAreAligned(a, size, from, |memory|);
      var alignedSize := size - from - (size - from) % 4;
      var done := WriteWords(start, a, data, from, alignedSize);
      if done != size {
        PatchWord(a + done, 0, data[done..size]);
        WriteNextPiece(start, a, data, done, size);
      }
    }

    method WriteWords(ghost start: seq<byte>, a: nat, data: seq<byte>, from: nat, alignedSize: nat) returns (done: nat)
      requires from + alignedSize <= |data| && a + |data| <= |start| && memory == WriteBytes(start, a, data[..from])
      requires (a + from) % 4 == 0 && alignedSize % 4 == 0
      modifies this
      ensures done == from + alignedSize && memory == WriteBytes(start, a, data[..done])
    {
      var offset := 0;
      while offset < alignedSize
        invariant offset <= alignedSize && offset % 4 == 0
        invariant memory == WriteBytes(start, a, data[..from + offset])
        decreases alignedSize - offset
      {
        var at := from + offset;
        assert (a + at) % 4 == 0;
        BytesOfWord(data[at..at + 4]);
        WriteWord(a + at, WordOf(data[at..at + 4]));
        WriteNextPiece(start, a, data, at, at + 4);
        offset := offset + 4;
      }
      done := from + offset;
    }
  }

  /** A write over the NOC that succeeds and one through the debug hardware do the same. */
  method BothWritesAgree(umd: UnalignedAccess.UmdDevice, debug: DebugMemory, a: nat, data: seq<byte>)
    returns (r: Transfers.Outcome)
    requires umd.memory == debug.memory && debug.Fits(a, |data|)
    modifies umd, debug
    ensures r.Done? ==> umd.memory == debug.memory
  {
    r := umd.NocWrite(a, data);
    debug.WriteMemoryBytes(a, data);
  }
}
