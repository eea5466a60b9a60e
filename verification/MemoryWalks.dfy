/** The loops that walk an address range block by block: reading it, writing it, and listing
    the ranges that a search will look through. */
module MemoryWalks {
  import opened Options
  import opened IntervalMap
  import opened MemoryMap
  import opened ByteMemory

  datatype Piece = Piece(start: nat, end: nat)

  /** The pieces follow one another without a gap from `from` to `to`, and none is empty. */
  predicate Partition(pieces: seq<Piece>, from: nat, to: nat)
    decreases |pieces|
  {
    if pieces == [] then from == to
    else pieces[0].start == from < pieces[0].end && Partition(pieces[1..], pieces[0].end, to)
  }

  lemma {:induction false} PartitionGrows(pieces: seq<Piece>, from: nat, mid: nat, to: nat)
    requires Partition(pieces, from, mid) && mid < to
    ensures Partition(pieces + [Piece(mid, to)], from, to)
    decreases |pieces|
  {
    var all := pieces + [Piece(mid, to)];
    if pieces == [] {
      assert all[1..] == [];
    } else {
      assert all[1..] == pieces[1..] + [Piece(mid, to)];
      PartitionGrows(pieces[1..], pieces[0].end, mid, to);
    }
  }

  /** a..b lies inside one block, or in one stretch where nothing is mapped. */
  ghost predicate InOneRegion(xs: Blocks, p: Piece) {
    || (exists x :: x in xs && x.start <= p.start && p.end <= x.end)
    || (forall a :: p.start <= a < p.end ==> Scan(xs, a).None?)
  }

  /** Where the piece that starts at `a` ends: with its block, before the next block, or with
      the range. */
  function PieceEnd(xs: Blocks, a: nat, end: nat): (r: nat)
    requires a < end
    ensures a < r <= end
  {
    match Scan(xs, a)
    case Some(x) => Min(end, x.end)
    case None =>
      match ScanNext(xs, a)
      case Some(y) => Min(end, y.start)
      case None => end
  }

  /** The piece ends no sooner than it has to: with the range, with its block, or where one begins. */
  ghost predicate IsWhole(xs: Blocks, p: Piece, end: nat) {
    || p.end == end
    || (exists x :: x in xs && x.start <= p.start < x.end && p.end == x.end)
    || (Scan(xs, p.start).None? && exists y :: y in xs && p.end == y.start)
  }

  lemma PieceIsInOneRegion(xs: Blocks, a: nat, end: nat)
    requires a < end
    ensures var p := Piece(a, PieceEnd(xs, a, end)); InOneRegion(xs, p) && IsWhole(xs, p, end)
  {
  }

  /** What the safe commands demand of a range: that all of it is known and, in safe mode, that
      the access is safe. */
  ghost predicate Permitted(xs: Blocks, from: nat, to: nat, isWrite: bool, safeMode: bool) {
    && (forall a :: from <= a < to ==> Scan(xs, a).Some?)
    && (safeMode ==> RangeSafe(xs, from, to, isWrite))
  }

  /** How far a walk has come; the unsafe commands demand nothing. */
  ghost predicate Passed(xs: Blocks, first: nat, current: nat, end: nat, isWrite: bool, unsafe: bool, safeMode: bool) {
    unsafe || (Permitted(xs, first, current, isWrite, safeMode) && (current < end ==> AtBoundary(xs, first, current)))
  }

  ghost predicate PieceAllowed(xs: Blocks, a: nat, end: nat, isWrite: bool, unsafe: bool, safeMode: bool)
    requires a < end
  {
    unsafe || (Scan(xs, a).Some? && (safeMode ==> PieceAtSafe(xs, a, end, isWrite)))
  }

  lemma WalkPasses(xs: Blocks, first: nat, current: nat, end: nat, isWrite: bool, unsafe: bool, safeMode: bool)
    requires InOrder(xs) && first <= current < end && Passed(xs, first, current, end, isWrite, unsafe, safeMode)
    requires PieceAllowed(xs, current, end, isWrite, unsafe, safeMode)
    ensures Passed(xs, first, PieceEnd(xs, current, end), end, isWrite, unsafe, safeMode)
  {
    if !unsafe {
      var x := Scan(xs, current).value;
      var next := PieceEnd(xs, current, end);
      forall a | current <= a < next ensures Scan(xs, a).Some? {
        OnlyOneContains(xs, x, a);
      }
      if safeMode {
        PieceStep(xs, x, first, current, end, isWrite);
      }
    }
  }

  lemma WalkStops(xs: Blocks, first: nat, current: nat, end: nat, isWrite: bool, unsafe: bool, safeMode: bool)
    requires InOrder(xs) && first <= current < end && Passed(xs, first, current, end, isWrite, unsafe, safeMode)
    requires !PieceAllowed(xs, current, end, isWrite, unsafe, safeMode)
    ensures !unsafe && !Permitted(xs, first, end, isWrite, safeMode)
  {
    if Scan(xs, current).Some? {
      RangeFails(xs, first, current, end, isWrite);
    }
  }

  /** A walk with the pieces it has made so far. */
  ghost predicate Walked(xs: Blocks, pieces: seq<Piece>, first: nat, current: nat, end: nat, isWrite: bool,
      unsafe: bool, safeMode: bool) {
    && Passed(xs, first, current, end, isWrite, unsafe, safeMode)
    && Partition(pieces, first, current)
    && forall p <- pieces :: InOneRegion(xs, p) && IsWhole(xs, p, end)
  }

  /** The walk had to stop at `a`: what is before it is permitted, and the piece there is not. */
  ghost predicate StoppedAt(xs: Blocks, first: nat, a: nat, end: nat, isWrite: bool, safeMode: bool) {
    && first <= a < end && Permitted(xs, first, a, isWrite, safeMode)
    && (Scan(xs, a).None? || (safeMode && !PieceAtSafe(xs, a, end, isWrite)))
  }

  lemma WalkStep(xs: Blocks, pieces: seq<Piece>, first: nat, current: nat, end: nat, isWrite: bool, unsafe: bool,
      safeMode: bool)
    requires InOrder(xs) && first <= current < end && Walked(xs, pieces, first, current, end, isWrite, unsafe, safeMode)
    requires PieceAllowed(xs, current, end, isWrite, unsafe, safeMode)
    ensures var next := PieceEnd(xs, current, end);
            Walked(xs, pieces + [Piece(current, next)], first, next, end, isWrite, unsafe, safeMode)
  {
    WalkPasses(xs, first, current, end, isWrite, unsafe, safeMode);
    PieceIsInOneRegion(xs, current, end);
    PartitionGrows(pieces, first, current, PieceEnd(xs, current, end));
  }

  lemma WalkStarts(xs: Blocks, first: nat, end: nat, isWrite: bool, unsafe: bool, safeMode: bool)
    ensures Walked(xs, [], first, first, end, isWrite, unsafe, safeMode)
  {
  }

  lemma OnePieceRange(xs: Blocks, a: nat, end: nat, isWrite: bool)
    requires InOrder(xs) && a < end && Scan(xs, a).Some?
    ensures RangeSafe(xs, a, PieceEnd(xs, a, end), isWrite) <==> PieceAtSafe(xs, a, end, isWrite)
  {
    EmptyRangeSafe(xs, a, isWrite);
    RangeGrows(xs, Scan(xs, a).value, a, a, PieceEnd(xs, a, end), isWrite);
  }

  class Target {
    const blocks: IntervalMap<Block>
    const safeMode: bool
    var memory: seq<byte>

    constructor (blocks: IntervalMap<Block>, safeMode: bool, memory: seq<byte>)
      ensures this.blocks == blocks && this.safeMode == safeMode && this.memory == memory
    {
      this.blocks, this.safeMode, this.memory := blocks, safeMode, memory;
    }

    /** The size of the next piece of a safe access, unless it is refused. */
    method SafeSize(a: nat, count: nat, ghost end: nat, isWrite: bool) returns (r: Option<nat>)
      requires blocks.Valid() && count > 0 && end == a + count
      modifies blocks
      ensures blocks.Valid()
      ensures r.Some? <==> PieceAllowed(blocks.intervals, a, end, isWrite, false, safeMode)
      ensures r.Some? ==> a + r.value == PieceEnd(blocks.intervals, a, end)
    {
      ghost var xs := blocks.intervals;
      var found := blocks.Find(a);
      if found.None? {
        return None;
      }
      var size := Min(count, found.value.end - a);
      assert a + size == PieceEnd(xs, a, end);
      if safeMode {
        var ok := IsSafePiece(a, size, end, isWrite);
        return if ok then Some(size) else None;
      }
      return Some(size);
    }

    method IsSafePiece(a: nat, size: nat, ghost end: nat, isWrite: bool) returns (ok: bool)
      requires blocks.Valid() && a < end && Scan(blocks.intervals, a).Some?
      requires a + size == PieceEnd(blocks.intervals, a, end)
      modifies blocks
      ensures blocks.Valid() && ok == PieceAtSafe(blocks.intervals, a, end, isWrite)
    {
      OnePieceRange(blocks.intervals, a, end, isWrite);
      var v := ValidateAccess(blocks, a, size, isWrite);
      ok := v.Safe?;
    }

    /** The size of the next piece of an unsafe access: to the end of the block, or up to the
        next one. */
    method UnsafeSize(a: nat, count: nat, ghost end: nat) returns (size: nat)
      requires blocks.Valid() && count > 0 && end == a + count
      modifies blocks
      ensures blocks.Valid() && a + size == PieceEnd(blocks.intervals, a, end)
    {
      var found := blocks.Find(a);
      if found.Some? {
        return Min(count, found.value.end - a);
      }
      var next := blocks.FindNext(a);
      return if next.Some? then Min(count, next.value.start - a) else count;
    }

    method NextSize(a: nat, count: nat, ghost end: nat, isWrite: bool, unsafe: bool) returns (r: Option<nat>)
      requires blocks.Valid() && count > 0 && end == a + count
      modifies blocks
      ensures blocks.Valid()
      ensures r.Some? <==> PieceAllowed(blocks.intervals, a, end, isWrite, unsafe, safeMode)
      ensures r.Some? ==> a + r.value == PieceEnd(blocks.intervals, a, end)
    {
      if unsafe {
        var size := UnsafeSize(a, count, end);
        r := Some(size);
      } else {
        r := SafeSize(a, count, end, isWrite);
      }
    }

    /** One step of a walk: where its next piece ends, unless the walk has to stop. */
    method Advance(ghost pieces: seq<Piece>, ghost first: nat, current: nat, end: nat, isWrite: bool, unsafe: bool)
      returns (next: Option<nat>)
      requires blocks.Valid() && first <= current < end
      requires Walked(blocks.intervals, pieces, first, current, end, isWrite, unsafe, safeMode)
      modifies blocks
      ensures blocks.Valid()
      ensures next.Some? ==> current < next.value <= end
      ensures next.Some? ==>
                Walked(blocks.intervals, pieces + [Piece(current, next.value)], first, next.value, end, isWrite, unsafe,
                  safeMode)
      ensures next.None? ==> !unsafe && !Permitted(blocks.intervals, first, end, isWrite, safeMode)
      ensures next.None? ==> StoppedAt(blocks.intervals, first, current, end, isWrite, safeMode)
    {
      ghost var xs := blocks.intervals;
      var size := NextSize(current, end - current, end, isWrite, unsafe);
      if size.None? {
        WalkStops(xs, first, current, end, isWrite, unsafe, safeMode);
        return None;
      }
      WalkStep(xs, pieces, first, current, end, isWrite, unsafe, safeMode);
      assert current + size.value == PieceEnd(xs, current, end);
      return Some(current + size.value);
    }

    /** Reads piece by piece. It completes exactly when the unsafe command is used or the whole
        range is permitted; what has been read is always a prefix of the range. */
    method Read(address: nat, count: nat, unsafe: bool) returns (ok: bool, data: seq<byte>, pieces: seq<Piece>)
      requires blocks.Valid() && address + count <= |memory|
      modifies blocks
      ensures blocks.Valid()
      ensures ok <==> unsafe || Permitted(blocks.intervals, address, address + count, false, safeMode)
      ensures |data| <= count && data == memory[address..address + |data|] && (ok ==> |data| == count)
      ensures !ok ==> StoppedAt(blocks.intervals, address, address + |data|, address + count, false, safeMode)
      ensures Partition(pieces, address, address + |data|)
      ensures forall p <- pieces :: InOneRegion(blocks.intervals, p) && IsWhole(blocks.intervals, p, address + count)
    {
      data, pieces := [], [];
      var current, end := address, address + count;
      WalkStarts(blocks.intervals, address, end, false, unsafe, safeMode);
      while current < end
        invariant blocks.Valid() && address <= current <= end && data == memory[address..current]
        invariant Walked(blocks.intervals, pieces, address, current, end, false, unsafe, safeMode)
      {
        var next := Advance(pieces, address, current, end, false, unsafe);
        if next.None? {
          return false, data, pieces;
        }
        pieces := pieces + [Piece(current, next.value)];
        data := data + memory[current..next.value];
        current := next.value;
      }
      ok := true;
    }

    method WritePiece(ghost start: seq<byte>, address: nat, data: seq<byte>, from: nat, to: nat)
      requires from <= to <= |data| && address + |data| <= |start| && memory == WriteBytes(start, address, data[..from])
      modifies this`memory
      ensures memory == WriteBytes(start, address, data[..to])
    {
      WriteNextPiece(start, address, data, from, to);
      memory := WriteBytes(memory, address + from, data[from..to]);
    }

    /** Writes piece by piece, under the same conditions; the pieces together make one write. */
    method Write(address: nat, data: seq<byte>, unsafe: bool) returns (ok: bool, written: nat, pieces: seq<Piece>)
      requires blocks.Valid() && address + |data| <= |memory|
      modifies blocks, this`memory
      ensures blocks.Valid()
      ensures ok <==> unsafe || Permitted(blocks.intervals, address, address + |data|, true, safeMode)
      ensures written <= |data| && memory == WriteBytes(old(memory), address, data[..written])
      ensures ok ==> written == |data|
      ensures !ok ==> StoppedAt(blocks.intervals, address, address + written, address + |data|, true, safeMode)
      ensures Partition(pieces, address, address + written)
      ensures forall p <- pieces :: InOneRegion(blocks.intervals, p) && IsWhole(blocks.intervals, p, address + |data|)
    {
      pieces, written := [], 0;
      ghost var start := memory;
      var current, end := address, address + |data|;
      WalkStarts(blocks.intervals, address, end, true, unsafe, safeMode);
      while current < end
        invariant blocks.Valid() && written <= |data| && current == address + written
        invariant memory == WriteBytes(start, address, data[..written])
        invariant Walked(blocks.intervals, pieces, address, current, end, true, unsafe, safeMode)
      {
        var next := Advance(pieces, address, current, end, true, unsafe);
        if next.None? {
          return false, written, pieces;
        }
        pieces := pieces + [Piece(current, next.value)];
        WritePiece(start, address, data, written, next.value - address);
        written := next.value - address;
        current := next.value;
      }
      ok := true;
    }
  }

  // ----- The ranges of a search

  function LastEnd(xs: Blocks): (r: nat)
    ensures forall x <- xs :: x.end <= r
  {
    if xs == [] then 0 else Max(xs[0].end, LastEnd(xs[1..]))
  }

  /** The range is the rest of one block, or as much of it as comes before the end address. */
  ghost predicate IsBlockRange(xs: Blocks, p: Piece, end: Option<nat>) {
    exists x :: x in xs && Contains(x, p.start) && p.end == if end.Some? then Min(end.value, x.end) else x.end
  }

  /** Lists the blocks from `start` on, up to the end address or the first gap. Nothing is
      returned when the start is not mapped. */
  method GetSearchRanges(m: IntervalMap<Block>, start: nat, end: Option<nat>, unsafe: bool)
    returns (r: Option<seq<Piece>>, ghost stop: nat)
    requires m.Valid()
    modifies m
    ensures m.Valid()
    ensures unsafe && end.Some? ==> r == Some([Piece(start, end.value)])
    ensures !(unsafe && end.Some?) ==>
              (r.None? <==> Scan(m.intervals, start).None? && (end.Some? ==> start < end.value))
    ensures !(unsafe && end.Some?) && r.Some? ==>
              && Partition(r.value, start, stop)
              && (forall p <- r.value :: IsBlockRange(m.intervals, p, end))
              && match end
                 case None => Scan(m.intervals, stop).None?
                 case Some(e) =>
                   if e <= start then stop == start
                   else stop <= e && (stop == e || Scan(m.intervals, stop).None?)
  {
    stop := start;
    if unsafe && end.Some? {
      return Some([Piece(start, end.value)]), stop;
    }
    var ranges: seq<Piece> := [];
    var current := start;
    while end.None? || current < end.value
      invariant m.Valid() && start <= current
      invariant stop == (if end.Some? && start < end.value then Min(current, end.value) else current)
      invariant current == start || current <= LastEnd(m.intervals)
      invariant Partition(ranges, start, stop) && (ranges == [] <==> current == start)
      invariant ranges != [] ==> Scan(m.intervals, start).Some?
      invariant end.Some? && end.value <= start ==> current == start
      invariant forall p <- ranges :: IsBlockRange(m.intervals, p, end)
      decreases Max(LastEnd(m.intervals), start) + (if current == start then 1 else 0) - current
    {
      var found := m.Find(current);
      if found.None? {
        if ranges == [] {
          return None, stop;
        }
        break;
      }
      var x := found.value;
      var effectiveEnd := if end.None? then x.end else Min(x.end, end.value);
      PartitionGrows(ranges, start, current, effectiveEnd);
      ranges := ranges + [Piece(current, effectiveEnd)];
      current := x.end;
      stop := effectiveEnd;
    }
    r := Some(ranges);
  }
}
