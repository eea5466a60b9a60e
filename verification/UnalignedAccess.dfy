/** Byte access over a device whose transfers are whole 4-byte words: the three-phase NOC
    helpers, the retries around them, and the failover between NOCs. */
module UnalignedAccess {
  import opened Options
  import opened ByteMemory
  import opened Transfers

  /** After `done` bytes up to a word boundary, the whole words that are left end on a word
      boundary too, and a rest smaller than a word still has its word inside the device. */
  lemma PhasesAreAligned(a: nat, size: nat, done: nat, end: nat)
    requires done <= size && a + size <= end && end % 4 == 0 && (a + done) % 4 == 0
    ensures var words := size - done - (size - done) % 4;
            words % 4 == 0 && (a + done + words) % 4 == 0 && size - done - words < 4 &&
            (done + words != size ==> a + done + words + 4 <= end)
  {
  }

  class UmdDevice {
    var memory: seq<byte>
    var faults: seq<Fault>
    const isSimulation: bool
    const isMmioCapable: bool
    const ethCores: nat

    constructor (memory: seq<byte>, faults: seq<Fault>, isSimulation: bool, isMmioCapable: bool, ethCores: nat)
      ensures this.memory == memory && this.faults == faults && this.ethCores == ethCores
      ensures this.isSimulation == isSimulation && this.isMmioCapable == isMmioCapable
    {
      this.memory, this.faults := memory, faults;
      this.isSimulation, this.isMmioCapable, this.ethCores := isSimulation, isMmioCapable, ethCores;
    }

    /** The address range is part of the device, which consists of whole words. */
    ghost predicate Fits(a: nat, size: nat)
      reads this
    {
      |memory| % 4 == 0 && a + size <= |memory|
    }

    method NextFault() returns (f: Fault)
      modifies this`faults
      ensures if old(faults) == [] then f == Works && faults == []
              else f == old(faults)[0] && faults == old(faults)[1..]
    {
      if faults == [] {
        f := Works;
      } else {
        f := faults[0];
        faults := faults[1..];
      }
    }

    /** A transfer from the device. Only whole words can be asked for. */
    method ReadReg(a: nat, size: nat) returns (r: Outcome, data: seq<byte>)
      requires a % 4 == 0 && size % 4 == 0 && a + size <= |memory|
      modifies this`faults
      ensures |data| == size && (r.Done? ==> data == memory[a..a + size])
      ensures End(r, faults) == Attempt(old(faults), 1)
    {
      var f := NextFault();
      data := memory[a..a + size];
      r := match f case Works => Done case Aborts(error, _) => Failed(error);
    }

    /** A transfer to the device. Only whole words can be written. */
    method WriteReg(a: nat, data: seq<byte>) returns (r: Outcome)
      requires a % 4 == 0 && |data| % 4 == 0 && a + |data| <= |memory|
      modifies this`faults, this`memory
      ensures r.Done? ==> memory == WriteBytes(old(memory), a, data)
      ensures r.Failed? ==> PartlyWritten(old(memory), memory, a, data)
      ensures End(r, faults) == Attempt(old(faults), 1)
    {
      var f := NextFault();
      match f
      case Works =>
        memory := WriteBytes(memory, a, data);
        r := Done;
      case Aborts(error, reached) =>
        var m := memory;
        memory := seq(|m|, x requires 0 <= x < |m| =>
          if a <= x < a + |data| && x in reached then data[x - a] else m[x]);
        r := Failed(error);
    }

    /** Reads whole words and copies `count` of their bytes, from `skip` on, to the buffer. */
    method ReadWordsInto(base: nat, size: nat, skip: nat, buffer: array<byte>, offset: nat, count: nat)
      returns (r: Outcome)
      requires base % 4 == 0 && size % 4 == 0 && base + size <= |memory|
      requires skip + count <= size && offset + count <= buffer.Length
      modifies this`faults, buffer
      ensures r.Done? ==> buffer[offset..offset + count] == memory[base + skip..base + skip + count]
      ensures buffer[..offset] == old(buffer[..offset])
      ensures End(r, faults) == Attempt(old(faults), 1)
    {
      var temp;
      r, temp := ReadReg(base, size);
      if r.Done? {
        forall i | offset <= i < offset + count {
          buffer[i] := temp[skip + i - offset];
        }
        assert buffer[offset..offset + count] == temp[skip..skip + count];
        SliceOfSlice(memory, base, size, skip, count);
      }
    }

    lemma SliceOfSlice(m: seq<byte>, base: nat, size: nat, skip: nat, count: nat)
      requires base + size <= |m| && skip + count <= size
      ensures m[base..base + size][skip..skip + count] == m[base + skip..base + skip + count]
    {
      var outer, inner := m[base..base + size], m[base + skip..base + skip + count];
      var twice := outer[skip..skip + count];
      forall i | 0 <= i < count ensures twice[i] == inner[i] {
        assert outer[skip + i] == m[base + skip + i];
      }
    }

    lemma StartsWord(a: nat, offset: nat)
      requires offset == 4 - a % 4
      ensures (a + offset) % 4 == 0
    {
    }

    /** Reads in three phases: the word around an unaligned start, the whole words, and the
        word around the rest. */
    method ReadUnaligned(a: nat, buffer: array<byte>) returns (r: Outcome)
      requires Fits(a, buffer.Length)
      modifies this`faults, buffer
      ensures r.Done? ==> buffer[..] == memory[a..a + buffer.Length]
      ensures End(r, faults) == Attempt(old(faults), TransfersToRead(a, buffer.Length))
    {
      var size := buffer.Length;
      var offset := 0;
      var first := a % 4;
      if first != 0 {
        var count := if first + size <= 4 then size else 4 - first;
        AttemptInTurn(faults, 1, ReadsLeft(size - count));
        r := ReadWordsInto(a - first, 4, first, buffer, 0, count);
        assert buffer[..count] == buffer[0..0 + count];
        if r.Failed? || count == size {
          assert buffer[..] == buffer[..size];
          return;
        }
        offset := count;
        StartsWord(a, offset);
      }
      r := ReadFromBoundary(a, buffer, offset);
    }

    /** The last two phases of a read, from a word boundary on. */
    method ReadFromBoundary(a: nat, buffer: array<byte>, from: nat) returns (r: Outcome)
      requires from <= buffer.Length && Fits(a, buffer.Length) && buffer[..from] == memory[a..a + from]
      requires (a + from) % 4 == 0
      modifies this`faults, buffer
      ensures r.Done? ==> buffer[..] == memory[a..a + buffer.Length]
      ensures End(r, faults) == Attempt(old(faults), ReadsLeft(buffer.Length - from))
    {
      var size, offset := buffer.Length, from;
      PhasesAreAligned(a, size, offset, |memory|);
      var alignedSize := size - offset - (size - offset) % 4;
      if alignedSize > 0 {
        AttemptInTurn(faults, 1, ReadsLeft(size - offset) - 1);
        r := ReadWordsInto(a + offset, alignedSize, 0, buffer, offset, alignedSize);
        if r.Failed? {
          return;
        }
        JoinRead(buffer[..], memory, a, offset, alignedSize);
        offset := offset + alignedSize;
      }
      r := ReadRest(a, buffer, offset);
    }

    /** The last phase of a read: less than a word. */
    method ReadRest(a: nat, buffer: array<byte>, offset: nat) returns (r: Outcome)
      requires offset <= buffer.Length < offset + 4 && Fits(a, buffer.Length)
      requires buffer[..offset] == memory[a..a + offset]
      requires (a + offset) % 4 == 0
      modifies this`faults, buffer
      ensures r.Done? ==> buffer[..] == memory[a..a + buffer.Length]
      ensures End(r, faults) == Attempt(old(faults), ReadsLeft(buffer.Length - offset))
    {
      var size := buffer.Length;
      r := Done;
      if offset != size {
        PhasesAreAligned(a, size, offset, |memory|);
        r := ReadWordsInto(a + offset, 4, 0, buffer, offset, size - offset);
        if r.Failed? {
          return;
        }
        JoinRead(buffer[..], memory, a, offset, size - offset);
      }
      assert buffer[..] == buffer[..size];
    }

    /** Two adjacent stretches that have been read make up one. */
    lemma JoinRead(buffer: seq<byte>, m: seq<byte>, a: nat, offset: nat, count: nat)
      requires offset + count <= |buffer| && a + offset + count <= |m|
      requires buffer[..offset] == m[a..a + offset]
      requires buffer[offset..offset + count] == m[a + offset..a + offset + count]
      ensures buffer[..offset + count] == m[a..a + offset + count]
    {
    }

    /** Puts bytes into one word: reads it, changes it, and writes it back. */
    method PatchWord(base: nat, at: nat, data: seq<byte>) returns (r: Outcome)
      requires base % 4 == 0 && at + |data| <= 4 && base + 4 <= |memory|
      modifies this`faults, this`memory
      ensures r.Done? ==> memory == WriteBytes(old(memory), base + at, data)
      ensures r.Failed? ==> PartlyWritten(old(memory), memory, base + at, data)
      ensures End(r, faults) == Attempt(old(faults), 2)
    {
      ghost var before := memory;
      AttemptInTurn(faults, 1, 1);
      var temp;
      r, temp := ReadReg(base, 4);
      if r.Failed? {
        return;
      }
      MergedWrite(memory, base, 4, at, data);
      r := WriteReg(base, Merge(temp, at, data));
      if r.Failed? {
        MergedPart(before, memory, base, 4, at, data);
      }
    }

    /** Writes the bytes from..to of `data`, all of them in the word at `base`. */
    method PatchPiece(ghost start: seq<byte>, a: nat, data: seq<byte>, from: nat, to: nat, base: nat)
      returns (r: Outcome)
      requires from <= to <= |data| && a + |data| <= |start| && memory == WriteBytes(start, a, data[..from])
      requires base % 4 == 0 && base <= a + from && a + to <= base + 4 <= |memory|
      modifies this`faults, this`memory
      ensures r.Done? ==> memory == WriteBytes(start, a, data[..to])
      ensures r.Failed? ==> PartlyWritten(start, memory, a, data)
      ensures End(r, faults) == Attempt(old(faults), 2)
    {
      ghost var before := memory;
      r := PatchWord(base, a + from - base, data[from..to]);
      if r.Failed? {
        PieceFailed(start, before, memory, a, data, from, to);
      } else {
        WriteNextPiece(start, a, data, from, to);
      }
    }

    /** Writes the bytes from..to of `data`, which are whole words of the device. */
    method WritePiece(ghost start: seq<byte>, a: nat, data: seq<byte>, from: nat, to: nat) returns (r: Outcome)
      requires from <= to <= |data| && a + |data| <= |start| && memory == WriteBytes(start, a, data[..from])
      requires (a + from) % 4 == 0 && (to - from) % 4 == 0
      modifies this`faults, this`memory
      ensures r.Done? ==> memory == WriteBytes(start, a, data[..to])
      ensures r.Failed? ==> PartlyWritten(start, memory, a, data)
      ensures End(r, faults) == Attempt(old(faults), 1)
    {
      ghost var before := memory;
      r := WriteReg(a + from, data[from..to]);
      if r.Failed? {
        PieceFailed(start, before, memory, a, data, from, to);
      } else {
        WriteNextPiece(start, a, data, from, to);
      }
    }

    lemma PieceFailed(start: seq<byte>, before: seq<byte>, after: seq<byte>, a: nat, data: seq<byte>, from: nat,
        to: nat)
      requires from <= to <= |data| && a + |data| <= |start| && before == WriteBytes(start, a, data[..from])
      requires PartlyWritten(before, after, a + from, data[from..to])
      ensures PartlyWritten(start, after, a, data)
    {
    }

    /** Writes in three phases; neighbouring bytes of a word are read first and put back. */
    method WriteUnaligned(a: nat, data: seq<byte>) returns (r: Outcome)
      requires Fits(a, |data|)
      modifies this`faults, this`memory
      ensures r.Done? ==> memory == WriteBytes(old(memory), a, data)
      ensures r.Failed? ==> PartlyWritten(old(memory), memory, a, data)
      ensures End(r, faults) == Attempt(old(faults), TransfersToWrite(a, |data|))
    {
      ghost var start := memory;
      var size := |data|;
      assert data[..size] == data;
      var done := 0;
      var first := a % 4;
      if first != 0 {
        var count := if first + size <= 4 then size else 4 - first;
        AttemptInTurn(faults, 2, WritesLeft(size - count));
        r := PatchPiece(start, a, data, 0, count, a - first);
        if r.Failed? || count == size {
          return;
        }
        done := count;
        StartsWord(a, done);
      }
      r := WriteFromBoundary(start, a, data, done);
    }

    /** The last two phases of a write, from a word boundary on. */
    method WriteFromBoundary(ghost start: seq<byte>, a: nat, data: seq<byte>, from: nat) returns (r: Outcome)
      requires from <= |data| && a + |data| <= |start| && memory == WriteBytes(start, a, data[..from])
      requires (a + from) % 4 == 0 && Fits(a, |data|)
      modifies this`faults, this`memory
      ensures r.Done? ==> memory == WriteBytes(start, a, data)
      ensures r.Failed? ==> PartlyWritten(start, memory, a, data)
      ensures End(r, faults) == Attempt(old(faults), WritesLeft(|data| - from))
    {
      var size, done := |data|, from;
      assert data[..size] == data;
      PhasesAreAligned(a, size, done, |memory|);
      var alignedSize := size - done - (size - done) % 4;
      if alignedSize > 0 {
        AttemptInTurn(faults, 1, WritesLeft(size - done) - 1);
        r := WritePiece(start, a, data, done, done + alignedSize);
        if r.Failed? {
          return;
        }
        done := done + alignedSize;
      }
      if done != size {
        r := PatchPiece(start, a, data, done, size, a + done);
        if r.Failed? {
          return;
        }
      }
      r := Done;
    }

    /** The transfers of a device that is neither simulated nor reached over its own bus go over
        ethernet. */
    function OwnWay(): (r: Way)
      ensures r.ethCores == ethCores && (r.remote <==> !(isSimulation || isMmioCapable))
    {
      Way(!isSimulation && !isMmioCapable, ethCores)
    }

    /** Looks for an ethernet core that answers. */
    method ConfigureWorkingActiveEth() returns (r: Outcome)
      modifies this`faults
      ensures End(r, faults) == Reconfigured(old(faults), ethCores)
    {
      var i := 0;
      while i < ethCores
        invariant i <= ethCores && Reconfigured(old(faults), ethCores) == Reconfigured(faults, ethCores - i)
      {
        var f := NextFault();
        if f.Works? {
          return Done;
        }
        i := i + 1;
      }
      return Failed(OtherError);
    }

    /** A remote device retries a failed write over another ethernet core, once. */
    method WriteWithEthRetry(a: nat, data: seq<byte>) returns (r: Outcome)
      requires Fits(a, |data|)
      modifies this`faults, this`memory
      ensures r.Done? ==> memory == WriteBytes(old(memory), a, data)
      ensures r.Failed? ==> PartlyWritten(old(memory), memory, a, data)
      ensures End(r, faults) == Retried(old(faults), TransfersToWrite(a, |data|), OwnWay())
    {
      ghost var start := memory;
      r := WriteUnaligned(a, data);
      if r.Done? || r.error == Timeout || isSimulation || isMmioCapable {
        return;
      }
      r := ConfigureWorkingActiveEth();
      if r.Failed? {
        return;
      }
      ghost var before := memory;
      r := WriteUnaligned(a, data);
      if r.Failed? {
        PartlyWrittenInTurn(start, before, memory, a, data);
      } else {
        WholeWriteHidesAttempts(start, before, a, data);
      }
    }

    method ReadWithEthRetry(a: nat, buffer: array<byte>) returns (r: Outcome)
      requires Fits(a, buffer.Length)
      modifies this`faults, buffer
      ensures r.Done? ==> buffer[..] == memory[a..a + buffer.Length]
      ensures End(r, faults) == Retried(old(faults), TransfersToRead(a, buffer.Length), OwnWay())
    {
      r := ReadUnaligned(a, buffer);
      if r.Done? || r.error == Timeout || isSimulation || isMmioCapable {
        return;
      }
      r := ConfigureWorkingActiveEth();
      if r.Failed? {
        return;
      }
      r := ReadUnaligned(a, buffer);
    }

    /** A write that meets a reset of the device starts over after the device is back. */
    method NocWrite(a: nat, data: seq<byte>) returns (r: Outcome)
      requires Fits(a, |data|)
      modifies this`faults, this`memory
      ensures r.Done? ==> memory == WriteBytes(old(memory), a, data)
      ensures r.Failed? ==> PartlyWritten(old(memory), memory, a, data)
      ensures End(r, faults) == Restarted(old(faults), TransfersToWrite(a, |data|), OwnWay())
      decreases |faults|
    {
      ghost var start := memory;
      r := WriteWithEthRetry(a, data);
      if r == Failed(Sigbus) {
        ghost var before := memory;
        r := NocWrite(a, data);
        if r.Failed? {
          PartlyWrittenInTurn(start, before, memory, a, data);
        } else {
          WholeWriteHidesAttempts(start, before, a, data);
        }
      }
    }

    method NocRead(a: nat, buffer: array<byte>) returns (r: Outcome)
      requires Fits(a, buffer.Length)
      modifies this`faults, buffer
      ensures r.Done? ==> buffer[..] == memory[a..a + buffer.Length]
      ensures End(r, faults) == Restarted(old(faults), TransfersToRead(a, buffer.Length), OwnWay())
      decreases |faults|
    {
      r := ReadWithEthRetry(a, buffer);
      if r == Failed(Sigbus) {
        r := NocRead(a, buffer);
      }
    }
  }

  type NocId = nat

  predicate Distinct(xs: seq<NocId>) {
    forall i, j :: 0 <= i < j < |xs| ==> xs[i] != xs[j]
  }

  /** The NOCs in cyclic order, from the one at `start`. */
  function CyclicFrom(nocs: seq<NocId>, start: nat): (r: seq<NocId>)
    requires start < |nocs|
    ensures |r| == |nocs| && forall k :: 0 <= k < |r| ==> r[k] == nocs[(start + k) % |nocs|]
  {
    seq(|nocs|, k requires 0 <= k < |nocs| => nocs[(start + k) % |nocs|])
  }

  lemma RotatedIndex(start: nat, k: nat, n: nat)
    requires start < n && k < n
    ensures (start + k) % n == if start + k < n then start + k else start + k - n
  {
  }

  /** No NOC comes twice in one round, so the round ends before it is back at its start. */
  lemma CyclicIsDistinct(nocs: seq<NocId>, start: nat)
    requires start < |nocs| && Distinct(nocs)
    ensures Distinct(CyclicFrom(nocs, start)) && CyclicFrom(nocs, start)[0] == nocs[start]
  {
    var r := CyclicFrom(nocs, start);
    forall i, j | 0 <= i < j < |r| ensures r[i] != r[j] {
      RotatedIndex(start, i, |nocs|);
      RotatedIndex(start, j, |nocs|);
    }
    RotatedIndex(start, 0, |nocs|);
  }

  datatype Operation = Write(address: nat, data: seq<byte>) | Read(address: nat, buffer: array<byte>)

  function TransfersOf(op: Operation): nat {
    match op
    case Write(a, data) => TransfersToWrite(a, |data|)
    case Read(a, buffer) => TransfersToRead(a, buffer.Length)
  }

  function BufferOf(op: Operation): set<object> {
    if op.Read? then {op.buffer} else {}
  }

  class Device {
    const umd: UmdDevice
    const nocs: seq<NocId>
    const failover: bool
    var activeNoc: NocId
    var switches: nat
    ghost var tried: seq<NocId>

    constructor (umd: UmdDevice, nocs: seq<NocId>, failover: bool, activeNoc: NocId)
      requires nocs != [] && Distinct(nocs)
      ensures this.umd == umd && this.nocs == nocs && this.failover == failover && this.activeNoc == activeNoc
      ensures switches == 0 && tried == []
    {
      this.umd, this.nocs, this.failover, this.activeNoc := umd, nocs, failover, activeNoc;
      switches, tried := 0, [];
    }

    ghost predicate CanPerform(op: Operation)
      reads this, umd
    {
      match op
      case Write(a, data) => umd.Fits(a, |data|)
      case Read(a, buffer) => umd.Fits(a, buffer.Length)
    }

    /** The operation over one NOC, whole or cut short. */
    method Perform(op: Operation, noc: NocId) returns (r: Outcome)
      requires CanPerform(op)
      modifies umd, BufferOf(op), this`tried
      ensures tried == old(tried) + [noc] && CanPerform(op) && Effect(op, old(umd.memory), r)
      ensures End(r, umd.faults) == Restarted(old(umd.faults), TransfersOf(op), umd.OwnWay())
    {
      tried := tried + [noc];
      match op
      case Write(a, data) => r := umd.NocWrite(a, data);
      case Read(a, buffer) => r := umd.NocRead(a, buffer);
    }

    /** Whatever was attempted before, the memory and the buffer are as `op` should leave them,
        or the operation has failed and at most some of its own bytes are written. */
    ghost predicate Effect(op: Operation, before: seq<byte>, r: Outcome)
      reads this, umd, BufferOf(op)
    {
      match op
      case Write(a, data) =>
        if r.Done? then a + |data| <= |before| && umd.memory == WriteBytes(before, a, data)
        else PartlyWritten(before, umd.memory, a, data)
      case Read(a, buffer) =>
        umd.memory == before &&
          (r.Done? ==> a + buffer.Length <= |before| && buffer[..] == before[a..a + buffer.Length])
    }

    /** The operation over one more NOC, which becomes the active one if it succeeds. */
    method TryNoc(op: Operation, current: NocId, ghost first: seq<byte>) returns (r: Outcome)
      requires CanPerform(op) && Effect(op, first, Failed(Timeout))
      modifies umd, BufferOf(op), this
      ensures CanPerform(op) && Effect(op, first, r) && tried == old(tried) + [current]
      ensures End(r, umd.faults) == Restarted(old(umd.faults), TransfersOf(op), umd.OwnWay())
      ensures activeNoc == if r.Done? then current else old(activeNoc)
      ensures switches == old(switches) + if activeNoc != old(activeNoc) then 1 else 0
    {
      ghost var before := umd.memory;
      r := Perform(op, current);
      EffectInTurn(op, first, before, r);
      if r.Done? && current != activeNoc {
        activeNoc := current;
        switches := switches + 1;
      }
    }

    /** Tries one NOC after the other, from the active one on, until one does not time out. */
    method TryNocs(op: Operation, start: nat) returns (r: Outcome, ghost k: nat)
      requires CanPerform(op) && Distinct(nocs) && start < |nocs| && nocs[start] == activeNoc
      modifies umd, BufferOf(op), this
      ensures Effect(op, old(umd.memory), r)
      ensures 0 < k <= |nocs| && Tried(start, k, old(tried), tried)
      ensures activeNoc == if r.Done? then CyclicFrom(nocs, start)[k - 1] else old(activeNoc)
      ensures (End(r, umd.faults), k) == OverNocs(old(umd.faults), TransfersOf(op), umd.OwnWay(), |nocs|)
      ensures switches == old(switches) + if activeNoc != old(activeNoc) then 1 else 0
    {
      var startNoc := activeNoc;
      ghost var memory := umd.memory;
      var offset := 0;
      k := 0;
      while true
        invariant 0 <= offset < |nocs| && k == offset
        invariant CanPerform(op) && activeNoc == startNoc && switches == old(switches)
        invariant Tried(start, k, old(tried), tried)
        invariant Effect(op, memory, Failed(Timeout))
        invariant Remains(old(umd.faults), umd.faults, TransfersOf(op), umd.OwnWay(), |nocs|, offset)
        decreases |nocs| - offset
      {
        TriedOneMore(start, k, old(tried), tried);
        RemainsOrEnds(old(umd.faults), umd.faults, TransfersOf(op), umd.OwnWay(), |nocs|, offset);
        r := TryNoc(op, NocAt(start, offset), memory);
        k := offset + 1;
        if r.Done? {
          return;
        }
        if r.error != Timeout {
          return;
        }
        NextIsStart(start, offset);
        if NocAt(start, offset + 1) == startNoc {
          return;
        }
        offset := offset + 1;
      }
    }

    lemma EffectInTurn(op: Operation, first: seq<byte>, second: seq<byte>, r: Outcome)
      requires CanPerform(op) && Effect(op, second, r)
      requires if op.Write? then PartlyWritten(first, second, op.address, op.data) else first == second
      ensures Effect(op, first, r)
    {
    }

    /** Runs an operation over the chosen NOC or, with failover, over one NOC after the other in
        cyclic order, each at most once. Only a NOC that succeeded becomes the active one, and
        an operation that succeeds has the effect of a single clean one, whatever the attempts
        before it did. */
    method WithNocFailover(op: Operation, noc: Option<NocId>) returns (r: Outcome)
      requires CanPerform(op) && nocs != [] && Distinct(nocs)
      modifies umd, BufferOf(op), this
      ensures Effect(op, old(umd.memory), r)
      ensures noc.Some? || !failover ==>
                tried == old(tried) + [if noc.Some? then noc.value else old(activeNoc)] && activeNoc == old(activeNoc)
      ensures noc.None? && failover && old(activeNoc) !in nocs ==>
                r.Failed? && tried == old(tried) && activeNoc == old(activeNoc)
      ensures noc.None? && failover && old(activeNoc) in nocs ==>
                FailedOver(old(activeNoc), old(tried),
                  OverNocs(old(umd.faults), TransfersOf(op), umd.OwnWay(), |nocs|), r)
      ensures noc.Some? || !failover ==>
                End(r, umd.faults) == Restarted(old(umd.faults), TransfersOf(op), umd.OwnWay())
      ensures switches == old(switches) + if activeNoc != old(activeNoc) then 1 else 0
    {
      if noc.Some? || !failover {
        r := Perform(op, if noc.Some? then noc.value else activeNoc);
        return;
      }
      if activeNoc !in nocs {
        return Failed(OtherError);
      }
      var start := IndexOf(activeNoc);
      ghost var k;
      r, k := TryNocs(op, start);
    }

    /** How a round of failover has gone, from NOC `first` on. */
    ghost predicate FailedOver(first: NocId, before: seq<NocId>, round: (End, nat), r: Outcome)
      reads this, umd
    {
      var (end, k) := round;
      && end == End(r, umd.faults) && 0 < k <= |nocs|
      && exists start :: 0 <= start < |nocs| && nocs[start] == first && Tried(start, k, before, tried) &&
                         activeNoc == if r.Done? then CyclicFrom(nocs, start)[k - 1] else first
    }

    /** The NOC `offset` places on from the one at `start`, in a circle. */
    function NocAt(start: nat, offset: nat): (r: NocId)
      requires start < |nocs|
      ensures offset < |nocs| ==> r == CyclicFrom(nocs, start)[offset]
    {
      nocs[(start + offset) % |nocs|]
    }

    lemma TriedOneMore(start: nat, k: nat, before: seq<NocId>, after: seq<NocId>)
      requires start < |nocs| && k < |nocs| && Tried(start, k, before, after)
      ensures Tried(start, k + 1, before, after + [NocAt(start, k)])
    {
      var round := CyclicFrom(nocs, start);
      assert round[..k + 1] == round[..k] + [round[k]];
      assert before + round[..k] + [round[k]] == before + (round[..k] + [round[k]]);
    }

    /** `tried` has grown by the first k NOCs of the round. */
    ghost predicate Tried(start: nat, k: nat, before: seq<NocId>, after: seq<NocId>)
      requires start < |nocs| && k <= |nocs|
    {
      after == before + CyclicFrom(nocs, start)[..k]
    }

    /** The round is over when the next NOC would be the first one again. */
    lemma NextIsStart(start: nat, offset: nat)
      requires start < |nocs| && offset < |nocs| && Distinct(nocs)
      ensures NocAt(start, offset + 1) == nocs[start] <==> offset + 1 == |nocs|
    {
    }

    method IndexOf(noc: NocId) returns (i: nat)
      requires noc in nocs
      ensures i < |nocs| && nocs[i] == noc && forall k :: 0 <= k < i ==> nocs[k] != noc
    {
      i := 0;
      while nocs[i] != noc
        invariant i < |nocs| && forall k :: 0 <= k < i ==> nocs[k] != noc
        decreases |nocs| - i
      {
        i := i + 1;
      }
    }
  }
}
