/** The catalogue of memory blocks, and the check that an access is safe. */
module MemoryMap {
  import opened Options
  import opened IntervalMap

  /** A rule for access: not given, a fixed answer, or a test of address and size. */
  datatype Permission = Unset | Always(allowed: bool) | Tested(test: (nat, nat) -> bool)

  datatype Space = Noc | Private | Bar0

  datatype Block = Block(
    name: string,
    size: nat,
    nocAddress: Option<nat>,
    privateAddress: Option<nat>,
    bar0Address: Option<nat>,
    safeToRead: Permission,
    safeToWrite: Permission,
    accessible: bool)

  function AddressIn(b: Block, space: Space): Option<nat> {
    match space
    case Noc => b.nocAddress
    case Private => b.privateAddress
    case Bar0 => b.bar0Address
  }

  /** Reading is safe and writing is not, unless the block says otherwise. */
  predicate IsSafe(b: Block, isWrite: bool, address: nat, size: nat) {
    match if isWrite then b.safeToWrite else b.safeToRead
    case Unset => !isWrite
    case Always(allowed) => allowed
    case Tested(test) => test(address, size)
  }

  /** The rules by kind of access: a block that says nothing can be read and not written. */
  lemma RulesByAccess(b: Block, address: nat, size: nat)
    ensures IsSafe(b, false, address, size) <==>
            b.safeToRead == Unset || b.safeToRead == Always(true) ||
            (b.safeToRead.Tested? && b.safeToRead.test(address, size))
    ensures IsSafe(b, true, address, size) <==>
            b.safeToWrite == Always(true) || (b.safeToWrite.Tested? && b.safeToWrite.test(address, size))
  {
  }

  type Blocks = seq<Interval<Block>>

  /** What one block adds to the intervals of a space. */
  function Placed(b: Block, space: Space): Blocks {
    var address := AddressIn(b, space);
    if address.Some? then [Interval(address.value, address.value + b.size, b)] else []
  }

  /** The intervals of the blocks that have an address in a space. */
  function IntervalsIn(blocks: seq<Block>, space: Space): (r: Blocks)
    ensures forall x <- r :: x.block in blocks && AddressIn(x.block, space) == Some(x.start)
    ensures forall x <- r :: x.start <= x.end && x.end == x.start + x.block.size
  {
    if blocks == [] then [] else Placed(blocks[0], space) + IntervalsIn(blocks[1..], space)
  }

  /** Each space holds the blocks that have an address there, from that address on, and no others. */
  lemma {:induction false} IntervalsBySpace(blocks: seq<Block>, x: Interval<Block>)
    ensures x in IntervalsIn(blocks, Noc) <==>
            x.block in blocks && x.block.nocAddress == Some(x.start) && x.end == x.start + x.block.size
    ensures x in IntervalsIn(blocks, Private) <==>
            x.block in blocks && x.block.privateAddress == Some(x.start) && x.end == x.start + x.block.size
    ensures x in IntervalsIn(blocks, Bar0) <==>
            x.block in blocks && x.block.bar0Address == Some(x.start) && x.end == x.start + x.block.size
    decreases |blocks|
  {
    if blocks != [] {
      IntervalsBySpace(blocks[1..], x);
    }
  }

  lemma {:induction false} IntervalsInAppend(blocks: seq<Block>, b: Block, space: Space)
    ensures IntervalsIn(blocks + [b], space) == IntervalsIn(blocks, space) + Placed(b, space)
    decreases |blocks|
  {
    var more, last := blocks + [b], Placed(b, space);
    if blocks == [] {
      assert more[0] == b && more[1..] == [];
      assert last + [] == [] + last;
    } else {
      assert more[0] == blocks[0] && more[1..] == blocks[1..] + [b];
      IntervalsInAppend(blocks[1..], b, space);
      assert Placed(blocks[0], space) + (IntervalsIn(blocks[1..], space) + last) ==
             Placed(blocks[0], space) + IntervalsIn(blocks[1..], space) + last;
    }
  }

  /** No name is taken, and none comes twice. */
  ghost predicate NamesAreFree(taken: set<string>, blocks: seq<Block>) {
    && (forall i :: 0 <= i < |blocks| ==> blocks[i].name !in taken)
    && (forall i, j :: 0 <= i < j < |blocks| ==> blocks[i].name != blocks[j].name)
  }

  ghost function NameSet(blocks: seq<Block>): (r: set<string>)
    ensures forall name :: name in r <==> exists k :: 0 <= k < |blocks| && blocks[k].name == name
  {
    set k | 0 <= k < |blocks| :: blocks[k].name
  }

  lemma NameSetGrows(blocks: seq<Block>, i: nat)
    requires i < |blocks|
    ensures NameSet(blocks[..i + 1]) == NameSet(blocks[..i]) + {blocks[i].name}
  {
  }

  lemma OneMoreFreeName(taken: set<string>, blocks: seq<Block>, i: nat)
    requires i < |blocks| && NamesAreFree(taken, blocks[..i]) && blocks[i].name !in taken + NameSet(blocks[..i])
    ensures NamesAreFree(taken, blocks[..i + 1])
  {
  }

  lemma OneMoreTakenName(taken: set<string>, blocks: seq<Block>, i: nat)
    requires i < |blocks| && blocks[i].name in taken + NameSet(blocks[..i])
    ensures !NamesAreFree(taken, blocks)
  {
  }

  datatype InitResult = Initialized | DuplicateName | Overlap(space: Space)

  ghost predicate AreIntervals(noc: Blocks, private: Blocks, bar0: Blocks, blocks: seq<Block>) {
    noc == IntervalsIn(blocks, Noc) && private == IntervalsIn(blocks, Private) && bar0 == IntervalsIn(blocks, Bar0)
  }

  lemma AreIntervalsGrow(noc: Blocks, private: Blocks, bar0: Blocks, blocks: seq<Block>, i: nat)
    requires i < |blocks| && AreIntervals(noc, private, bar0, blocks[..i])
    ensures AreIntervals(noc + Placed(blocks[i], Noc), private + Placed(blocks[i], Private),
            bar0 + Placed(blocks[i], Bar0), blocks[..i + 1])
  {
    assert blocks[..i + 1] == blocks[..i] + [blocks[i]];
    IntervalsInAppend(blocks[..i], blocks[i], Noc);
    IntervalsInAppend(blocks[..i], blocks[i], Private);
    IntervalsInAppend(blocks[..i], blocks[i], Bar0);
  }

  class MemoryMap {
    var nocAddresses: IntervalMap<Block>
    var privateAddresses: IntervalMap<Block>
    var bar0Addresses: IntervalMap<Block>
    var blocksInfo: map<string, Block>

    constructor ()
      ensures nocAddresses.Valid() && privateAddresses.Valid() && bar0Addresses.Valid() && blocksInfo == map[]
    {
      nocAddresses := new IntervalMap<Block>([]);
      privateAddresses := new IntervalMap<Block>([]);
      bar0Addresses := new IntervalMap<Block>([]);
      blocksInfo := map[];
    }

    /** Registers the first blocks by name and sorts them into the three spaces. */
    method RegisterBlocks(blocks: seq<Block>) returns (ok: bool, noc: Blocks, private: Blocks, bar0: Blocks)
      modifies this`blocksInfo
      ensures ok <==> NamesAreFree(old(blocksInfo.Keys), blocks)
      ensures ok ==> Registered(blocks, |blocks|)
      ensures ok ==> AreIntervals(noc, private, bar0, blocks)
    {
      noc, private, bar0 := [], [], [];
      var i := 0;
      while i < |blocks|
        invariant i <= |blocks|
        invariant NamesAreFree(old(blocksInfo.Keys), blocks[..i])
        invariant blocksInfo.Keys == old(blocksInfo.Keys) + NameSet(blocks[..i])
        invariant Registered(blocks, i)
        invariant AreIntervals(noc, private, bar0, blocks[..i])
      {
        NameSetGrows(blocks, i);
        var taken := Register(blocks, i);
        if taken {
          OneMoreTakenName(old(blocksInfo.Keys), blocks, i);
          return false, noc, private, bar0;
        }
        OneMoreFreeName(old(blocksInfo.Keys), blocks, i);
        AreIntervalsGrow(noc, private, bar0, blocks, i);
        noc, private, bar0 := noc + Placed(blocks[i], Noc), private + Placed(blocks[i], Private),
          bar0 + Placed(blocks[i], Bar0);
        i := i + 1;
      }
      assert blocks[..|blocks|] == blocks;
      ok := true;
    }

    method Register(blocks: seq<Block>, i: nat) returns (taken: bool)
      requires i < |blocks| && Registered(blocks, i)
      modifies this`blocksInfo
      ensures taken <==> blocks[i].name in old(blocksInfo)
      ensures taken ==> blocksInfo == old(blocksInfo)
      ensures !taken ==> blocksInfo.Keys == old(blocksInfo.Keys) + {blocks[i].name} && Registered(blocks, i + 1)
    {
      taken := blocks[i].name in blocksInfo;
      if !taken {
        blocksInfo := blocksInfo[blocks[i].name := blocks[i]];
      }
    }

    ghost predicate Registered(blocks: seq<Block>, n: nat)
      reads this
      requires n <= |blocks|
    {
      forall k :: 0 <= k < n ==> blocks[k].name in blocksInfo && blocksInfo[blocks[k].name] == blocks[k]
    }

    /** Each space maps exactly the blocks that have an address there, in order of address. */
    ghost predicate Holds(blocks: seq<Block>)
      reads this, nocAddresses, privateAddresses, bar0Addresses
    {
      && nocAddresses.Valid() && nocAddresses.intervals == Sort(IntervalsIn(blocks, Noc))
      && privateAddresses.Valid() && privateAddresses.intervals == Sort(IntervalsIn(blocks, Private))
      && bar0Addresses.Valid() && bar0Addresses.intervals == Sort(IntervalsIn(blocks, Bar0))
    }

    /** Builds the three interval maps, unless two intervals of a space overlap. */
    method CreateMaps(blocks: seq<Block>, noc: Blocks, private: Blocks, bar0: Blocks) returns (r: InitResult)
      requires AreIntervals(noc, private, bar0, blocks)
      modifies this`nocAddresses, this`privateAddresses, this`bar0Addresses
      ensures !r.DuplicateName? && (r.Overlap? ==> !NoneOverlapsNext(Sort(IntervalsIn(blocks, r.space))))
      ensures r.Initialized? ==> Holds(blocks)
    {
      var newNoc := IntervalMap<Block>.Create(noc);
      if newNoc.None? {
        return Overlap(Noc);
      }
      var newPrivate := IntervalMap<Block>.Create(private);
      if newPrivate.None? {
        return Overlap(Private);
      }
      var newBar0 := IntervalMap<Block>.Create(bar0);
      if newBar0.None? {
        return Overlap(Bar0);
      }
      nocAddresses, privateAddresses, bar0Addresses := newNoc.value, newPrivate.value, newBar0.value;
      return Initialized;
    }

    /** Registers the blocks and builds the three interval maps. */
    method InitializeBlocks(blocks: seq<Block>) returns (r: InitResult)
      modifies this
      ensures r.DuplicateName? <==> !NamesAreFree(old(blocksInfo.Keys), blocks)
      ensures r.Overlap? ==> !NoneOverlapsNext(Sort(IntervalsIn(blocks, r.space)))
      ensures r.Initialized? ==> Holds(blocks) && Registered(blocks, |blocks|)
    {
      var ok, noc, private, bar0 := RegisterBlocks(blocks);
      if !ok {
        return DuplicateName;
      }
      r := CreateMaps(blocks, noc, private, bar0);
    }
  }

  // ----- Safety of an access

  function Max(a: nat, b: nat): nat { if a < b then b else a }

  function Min(a: nat, b: nat): nat { if a < b then a else b }

  /** The address lies in a block that can be accessed. */
  predicate Mapped(xs: Blocks, a: nat) {
    Scan(xs, a).Some? && Scan(xs, a).value.block.accessible
  }

  /** The block allows access to exactly the addresses it shares with from..to, if any. */
  predicate AllowsShare(x: Interval<Block>, from: nat, to: nat, isWrite: bool) {
    var low, high := Max(x.start, from), Min(x.end, to);
    low < high ==> IsSafe(x.block, isWrite, low, high - low)
  }

  /** Every address of from..to is mapped, and every block allows its share of the access. */
  ghost predicate RangeSafe(xs: Blocks, from: nat, to: nat, isWrite: bool) {
    && (forall a :: from <= a < to ==> Mapped(xs, a))
    && (forall x <- xs :: AllowsShare(x, from, to, isWrite))
  }

  /** An access to from..to, inside the one block `x`, is safe. */
  predicate PieceSafe(x: Interval<Block>, from: nat, to: nat, isWrite: bool)
    requires from <= to
  {
    x.block.accessible && IsSafe(x.block, isWrite, from, to - from)
  }

  /** The piece of a range that starts at `a`: up to the end of the block there or of the range. */
  predicate PieceAtSafe(xs: Blocks, a: nat, end: nat, isWrite: bool)
    requires a < end
  {
    var x := Scan(xs, a);
    x.Some? && PieceSafe(x.value, a, Min(end, x.value.end), isWrite)
  }

  /** A walk through a range stands at its first address or where a block ends. */
  ghost predicate AtBoundary(xs: Blocks, first: nat, a: nat) {
    a == first || exists x :: x in xs && x.start < x.end && x.end == a
  }

  /** From such a place the part of the block ahead is its whole intersection with the range. */
  lemma PieceIsIntersection(xs: Blocks, x: Interval<Block>, first: nat, a: nat, end: nat)
    requires InOrder(xs) && x in xs && Contains(x, a) && first <= a < end && AtBoundary(xs, first, a)
    ensures Max(x.start, first) == a
  {
  }

  /** A piece inside one block changes nothing about the shares of the others. */
  lemma OtherShare(xs: Blocks, x: Interval<Block>, y: Interval<Block>, first: nat, a: nat, end: nat, isWrite: bool)
    requires InOrder(xs) && x in xs && Contains(x, a) && first <= a < end <= x.end
    requires y in xs && y != x
    ensures AllowsShare(y, first, end, isWrite) <==> AllowsShare(y, first, a, isWrite)
  {
  }

  /** A safe range grows by a piece exactly when the piece is safe. */
  lemma RangeGrows(xs: Blocks, x: Interval<Block>, first: nat, a: nat, end: nat, isWrite: bool)
    requires InOrder(xs) && x in xs && Contains(x, a) && first <= a < end <= x.end && AtBoundary(xs, first, a)
    requires RangeSafe(xs, first, a, isWrite)
    ensures RangeSafe(xs, first, end, isWrite) <==> PieceSafe(x, a, end, isWrite)
  {
    PieceIsIntersection(xs, x, first, a, end);
    forall b | a <= b < end ensures Mapped(xs, b) <==> x.block.accessible {
      OnlyOneContains(xs, x, b);
    }
    assert Mapped(xs, a) <==> x.block.accessible;
    forall y | y in xs && y != x ensures AllowsShare(y, first, end, isWrite) {
      OtherShare(xs, x, y, first, a, end, isWrite);
    }
    assert AllowsShare(x, first, end, isWrite) <==> IsSafe(x.block, isWrite, a, end - a);
  }

  /** A range is not safe when a piece of it, from a boundary to the end of its block or of the
      range, is not, or when an address of it is not mapped. */
  lemma RangeFails(xs: Blocks, first: nat, a: nat, end: nat, isWrite: bool)
    requires InOrder(xs) && first <= a < end && AtBoundary(xs, first, a)
    requires !PieceAtSafe(xs, a, end, isWrite)
    ensures !RangeSafe(xs, first, end, isWrite)
  {
    if Scan(xs, a).Some? {
      var x := Scan(xs, a).value;
      PieceIsIntersection(xs, x, first, a, end);
      assert Mapped(xs, a) <==> x.block.accessible;
      assert AllowsShare(x, first, end, isWrite) <==> IsSafe(x.block, isWrite, a, Min(end, x.end) - a);
    } else {
      assert !Mapped(xs, a);
    }
  }

  datatype Verdict = Safe | Unsafe(at: nat)

  /** A walk through first..end has come to `current`, and all it passed is safe. */
  ghost predicate Advanced(xs: Blocks, first: nat, current: nat, end: nat, isWrite: bool) {
    RangeSafe(xs, first, current, isWrite) && (current < end ==> AtBoundary(xs, first, current))
  }

  lemma PieceStep(xs: Blocks, x: Interval<Block>, first: nat, current: nat, end: nat, isWrite: bool)
    requires InOrder(xs) && first <= current < end && Advanced(xs, first, current, end, isWrite)
    requires Scan(xs, current) == Some(x) && PieceAtSafe(xs, current, end, isWrite)
    ensures current < Min(end, x.end) && Advanced(xs, first, Min(end, x.end), end, isWrite)
  {
    RangeGrows(xs, x, first, current, Min(end, x.end), isWrite);
  }

  /** Checks the next piece of a walk. */
  method ValidatePiece(m: IntervalMap<Block>, first: nat, current: nat, end: nat, isWrite: bool)
    returns (ok: bool, next: nat)
    requires m.Valid() && first <= current < end
    requires Advanced(m.intervals, first, current, end, isWrite)
    modifies m
    ensures m.Valid() && (ok <==> PieceAtSafe(m.intervals, current, end, isWrite))
    ensures ok ==> current < next <= end && Advanced(m.intervals, first, next, end, isWrite)
  {
    var found := m.Find(current);
    if found.None? {
      return false, current;
    }
    var x := found.value;
    var accessSize := Min(end - current, x.end - current);
    next := current + accessSize;
    assert next == Min(end, x.end);
    ok := x.block.accessible && IsSafe(x.block, isWrite, current, accessSize);
    if ok {
      PieceStep(m.intervals, x, first, current, end, isWrite);
    }
  }

  /** Walks the range block by block. It is accepted exactly when it is safe, and otherwise the
      address reported is where its lowest unsafe piece starts: what is below is safe. */
  method ValidateAccess(m: IntervalMap<Block>, address: nat, size: nat, isWrite: bool) returns (v: Verdict)
    requires m.Valid()
    modifies m
    ensures m.Valid()
    ensures v.Safe? <==> RangeSafe(m.intervals, address, address + size, isWrite)
    ensures v.Unsafe? ==>
              && address <= v.at < address + size && AtBoundary(m.intervals, address, v.at)
              && RangeSafe(m.intervals, address, v.at, isWrite)
              && !PieceAtSafe(m.intervals, v.at, address + size, isWrite)
  {
    var current, end := address, address + size;
    EmptyRangeSafe(m.intervals, address, isWrite);
    while current < end
      invariant m.Valid() && address <= current <= end
      invariant Advanced(m.intervals, address, current, end, isWrite)
    {
      var ok, next := ValidatePiece(m, address, current, end, isWrite);
      if !ok {
        RangeFails(m.intervals, address, current, end, isWrite);
        return Unsafe(current);
      }
      current := next;
    }
    return Safe;
  }

  lemma EmptyRangeSafe(xs: Blocks, a: nat, isWrite: bool)
    ensures RangeSafe(xs, a, a, isWrite)
  {
  }
}
