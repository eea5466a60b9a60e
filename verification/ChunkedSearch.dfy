/** Searching a memory range chunk by chunk. */
module ChunkedSearch {
  import opened Options
  import opened ByteMemory

  /** The pattern starts at `a`. */
  predicate MatchesAt(m: seq<byte>, pattern: seq<byte>, a: int) {
    0 <= a && a + |pattern| <= |m| &&
    (pattern == [] || (m[a] == pattern[0] && MatchesAt(m, pattern[1..], a + 1)))
  }

  /** Comparing byte by byte is comparing the whole slice. */
  lemma {:induction false} MatchesAtIsSlice(m: seq<byte>, pattern: seq<byte>, a: int)
    ensures MatchesAt(m, pattern, a) <==> 0 <= a && a + |pattern| <= |m| && m[a..a + |pattern|] == pattern
    decreases |pattern|
  {
    if pattern != [] && 0 <= a && a + |pattern| <= |m| {
      MatchesAtIsSlice(m, pattern[1..], a + 1);
      var slice := m[a..a + |pattern|];
      assert slice[1..] == m[a + 1..a + |pattern|];
      assert slice[0] == m[a];
      assert slice == [slice[0]] + slice[1..] && pattern == [pattern[0]] + pattern[1..];
    }
  }

  /** The addresses from..until, in ascending order, at which the pattern starts. */
  function Hits(m: seq<byte>, pattern: seq<byte>, from: int, until: int): seq<int>
    decreases until - from
  {
    if until <= from then []
    else
      var before := Hits(m, pattern, from, until - 1);
      if MatchesAt(m, pattern, until - 1) then before + [until - 1] else before
  }

  /** The list of hits misses nothing and adds nothing. */
  lemma {:induction false} HitsExact(m: seq<byte>, pattern: seq<byte>, from: int, until: int, a: int)
    ensures a in Hits(m, pattern, from, until) <==> from <= a < until && MatchesAt(m, pattern, a)
    decreases until - from
  {
    if from < until {
      HitsExact(m, pattern, from, until - 1, a);
    }
  }

  /** The list of hits is ascending, so it has no duplicates. */
  lemma {:induction false} HitsAscend(m: seq<byte>, pattern: seq<byte>, from: int, until: int)
    ensures Ascending(Hits(m, pattern, from, until))
    ensures forall i :: 0 <= i < |Hits(m, pattern, from, until)| ==> Hits(m, pattern, from, until)[i] < until
    decreases until - from
  {
    if from < until {
      HitsAscend(m, pattern, from, until - 1);
    }
  }

  predicate Ascending(xs: seq<int>) {
    forall i, j :: 0 <= i < j < |xs| ==> xs[i] < xs[j]
  }

  lemma {:induction false} HitsJoin(m: seq<byte>, pattern: seq<byte>, from: int, mid: int, until: int)
    requires from <= mid <= until
    ensures Hits(m, pattern, from, until) == Hits(m, pattern, from, mid) + Hits(m, pattern, mid, until)
    decreases until - mid
  {
    if mid < until {
      HitsJoin(m, pattern, from, mid, until - 1);
      var a, b := Hits(m, pattern, from, mid), Hits(m, pattern, mid, until - 1);
      assert a + (b + [until - 1]) == a + b + [until - 1];
    }
  }

  lemma {:induction false} NoHits(m: seq<byte>, pattern: seq<byte>, from: int, until: int)
    requires forall a :: from <= a < until ==> !MatchesAt(m, pattern, a)
    ensures Hits(m, pattern, from, until) == []
    decreases until - from
  {
    if from < until {
      NoHits(m, pattern, from, until - 1);
    }
  }

  /** The hits in a piece of memory are those of the memory, moved by where the piece starts. */
  lemma {:induction false} HitsInPiece(m: seq<byte>, base: nat, piece: seq<byte>, pattern: seq<byte>, from: nat,
      until: int)
    requires IsPiece(m, base, piece) && until <= |piece| - |pattern| + 1
    ensures Moved(Hits(piece, pattern, from, until), base) == Hits(m, pattern, base + from, base + until)
    decreases until - from
  {
    if from < until {
      HitsInPiece(m, base, piece, pattern, from, until - 1);
      MatchInPiece(m, base, piece, pattern, until - 1);
      if MatchesAt(piece, pattern, until - 1) {
        MovedAppend(Hits(piece, pattern, from, until - 1), until - 1, base);
      }
    }
  }

  predicate IsPiece(m: seq<byte>, base: nat, piece: seq<byte>) {
    base + |piece| <= |m| && piece == m[base..base + |piece|]
  }

  lemma MatchInPiece(m: seq<byte>, base: nat, piece: seq<byte>, pattern: seq<byte>, a: nat)
    requires IsPiece(m, base, piece) && a + |pattern| <= |piece|
    ensures MatchesAt(piece, pattern, a) <==> MatchesAt(m, pattern, base + a)
  {
    SliceOfSlice(m, base, base + |piece|, a, a + |pattern|);
    MatchesAtIsSlice(piece, pattern, a);
    MatchesAtIsSlice(m, pattern, base + a);
  }

  lemma SliceOfSlice<T>(s: seq<T>, a: nat, b: nat, c: nat, d: nat)
    requires a <= b <= |s| && c <= d <= b - a
    ensures s[a..b][c..d] == s[a + c..a + d]
  {
    assert forall k :: 0 <= k < d - c ==> s[a..b][c..d][k] == s[a..b][c + k] == s[a + c..a + d][k];
  }

  function Moved(xs: seq<int>, offset: int): (r: seq<int>)
    ensures |r| == |xs| && forall k :: 0 <= k < |r| ==> r[k] == xs[k] + offset
  {
    seq(|xs|, k requires 0 <= k < |xs| => xs[k] + offset)
  }

  /** The first `max` elements, or all of them. */
  function Take<T>(xs: seq<T>, max: Option<nat>): seq<T> {
    if max.Some? && max.value < |xs| then xs[..max.value] else xs
  }

  /** The first match at or after `start`, as the byte string's own search gives it. */
  method FindFrom(data: seq<byte>, pattern: seq<byte>, start: nat) returns (r: Option<nat>)
    ensures r.None? ==> forall a :: start <= a ==> !MatchesAt(data, pattern, a)
    ensures r.Some? ==> start <= r.value && MatchesAt(data, pattern, r.value) &&
                        forall a :: start <= a < r.value ==> !MatchesAt(data, pattern, a)
  {
    var a := start;
    while a + |pattern| <= |data|
      invariant start <= a
      invariant forall b :: start <= b < a ==> !MatchesAt(data, pattern, b)
      decreases |data| + 1 - a
    {
      MatchesAtIsSlice(data, pattern, a);
      if data[a..a + |pattern|] == pattern {
        return Some(a);
      }
      a := a + 1;
    }
    return None;
  }

  /** Lists the matches in `data`, overlapping ones included, but not more than `max`. */
  method FindInData(data: seq<byte>, pattern: seq<byte>, base: int, max: Option<nat>) returns (matches: seq<int>)
    requires pattern != [] && (max.Some? ==> max.value > 0)
    ensures matches == Take(Moved(Hits(data, pattern, 0, |data| - |pattern| + 1), base), max)
  {
    matches := [];
    ghost var end := |data| - |pattern| + 1;
    var start := 0;
    while true
      invariant 0 <= start && (start == 0 || start <= end)
      invariant matches == Moved(Hits(data, pattern, 0, start), base)
      invariant max.Some? ==> |matches| < max.value
      decreases |data| + 1 - start
    {
      var found := FindFrom(data, pattern, start);
      if found.None? {
        NoFurtherHit(data, pattern, start);
        return;
      }
      NextHit(data, pattern, start, found.value);
      MovedAppend(Hits(data, pattern, 0, start), found.value, base);
      matches := matches + [base + found.value];
      start := found.value + 1;
      if max.Some? && |matches| >= max.value {
        EnoughHits(data, pattern, base, start);
        return;
      }
    }
  }

  lemma MovedAppend(xs: seq<int>, x: int, offset: int)
    ensures Moved(xs + [x], offset) == Moved(xs, offset) + [offset + x]
  {
  }

  lemma NextHit(data: seq<byte>, pattern: seq<byte>, start: nat, i: nat)
    requires start <= i && MatchesAt(data, pattern, i) && forall a :: start <= a < i ==> !MatchesAt(data, pattern, a)
    ensures Hits(data, pattern, 0, i + 1) == Hits(data, pattern, 0, start) + [i]
  {
    NoHits(data, pattern, start, i);
    HitsJoin(data, pattern, 0, start, i);
  }

  lemma NoFurtherHit(data: seq<byte>, pattern: seq<byte>, start: nat)
    requires forall a :: start <= a ==> !MatchesAt(data, pattern, a)
    requires start == 0 || start <= |data| - |pattern| + 1
    ensures Hits(data, pattern, 0, |data| - |pattern| + 1) == Hits(data, pattern, 0, start)
  {
    if start <= |data| - |pattern| + 1 {
      NoHits(data, pattern, start, |data| - |pattern| + 1);
      HitsJoin(data, pattern, 0, start, |data| - |pattern| + 1);
    }
  }

  lemma EnoughHits(data: seq<byte>, pattern: seq<byte>, base: int, start: nat)
    requires start <= |data| - |pattern| + 1
    ensures Moved(Hits(data, pattern, 0, start), base) <= Moved(Hits(data, pattern, 0, |data| - |pattern| + 1), base)
  {
    HitsJoin(data, pattern, 0, start, |data| - |pattern| + 1);
  }

  /** The bytes that a pattern reaching over the next boundary may start in. */
  function Tail(data: seq<byte>, overlap: nat): seq<byte> {
    if |data| <= overlap then data else data[|data| - overlap..]
  }

  /** Where the bytes kept of a range start, once everything before `current` was searched. */
  function TailStart(first: nat, current: nat, overlap: nat): (r: nat)
    requires first <= current
    ensures first <= r <= current
  {
    if current - first <= overlap then first else current - overlap
  }

  lemma SlicesJoin<T>(s: seq<T>, a: nat, b: nat, c: nat)
    requires a <= b <= c <= |s|
    ensures s[a..b] + s[b..c] == s[a..c]
  {
  }

  lemma TailOfSlice(m: seq<byte>, base: nat, next: nat, overlap: nat)
    requires base <= next <= |m|
    ensures Tail(m[base..next], overlap) == m[TailStart(base, next, overlap)..next]
  {
  }

  /** Keeping the tail of a tail that was extended is keeping the tail of everything read. */
  lemma TailOfTail(first: nat, current: nat, next: nat, overlap: nat)
    requires first <= current <= next
    ensures TailStart(TailStart(first, current, overlap), next, overlap) == TailStart(first, next, overlap)
  {
  }

  /** Matches that start at the base of the searched data or later are exactly those that could
      not be seen before the chunk was read. */
  lemma ChunkAddsTheRest(m: seq<byte>, first: nat, current: nat, next: nat, pattern: seq<byte>)
    requires pattern != [] && first <= current < next <= |m|
    ensures var base := TailStart(first, current, |pattern| - 1);
            Hits(m, pattern, first, next - |pattern| + 1) ==
            Hits(m, pattern, first, current - |pattern| + 1) + Hits(m, pattern, base, next - |pattern| + 1)
  {
    var seen, now := current - |pattern| + 1, next - |pattern| + 1;
    if seen >= first {
      HitsJoin(m, pattern, first, seen, now);
    }
  }

  /** What is found in the kept tail and the chunk together completes the list of matches. */
  lemma FoundCompletes(m: seq<byte>, first: nat, current: nat, next: nat, base: nat, pattern: seq<byte>,
      max: Option<nat>, matches: seq<int>, found: seq<int>)
    requires pattern != [] && first <= current < next <= |m| && base == TailStart(first, current, |pattern| - 1)
    requires matches == Hits(m, pattern, first, current - |pattern| + 1) && (max.Some? ==> |matches| < max.value)
    requires found == Take(Hits(m, pattern, base, next - |pattern| + 1),
                           if max.None? then None else Some(max.value - |matches|))
    ensures matches + found == Take(Hits(m, pattern, first, next - |pattern| + 1), max)
  {
    ChunkAddsTheRest(m, first, current, next, pattern);
    TakeAppend(matches, Hits(m, pattern, base, next - |pattern| + 1), max);
  }

  /** Searches one chunk behind the tail kept of the chunks before it. */
  method SearchChunk(m: seq<byte>, first: nat, current: nat, next: nat, previous: seq<byte>, pattern: seq<byte>,
      max: Option<nat>, matches: seq<int>)
    returns (grown: seq<int>, tail: seq<byte>)
    requires pattern != [] && first <= current < next <= |m|
    requires previous == m[TailStart(first, current, |pattern| - 1)..current]
    requires matches == Hits(m, pattern, first, current - |pattern| + 1)
    requires max.Some? ==> |matches| < max.value
    ensures grown == Take(Hits(m, pattern, first, next - |pattern| + 1), max)
    ensures tail == m[TailStart(first, next, |pattern| - 1)..next]
  {
    var overlap := |pattern| - 1;
    var base := current - |previous|;
    var data := previous + m[current..next];
    SlicesJoin(m, base, current, next);
    TailOfSlice(m, base, next, overlap);
    TailOfTail(first, current, next, overlap);
    tail := Tail(data, overlap);
    var remaining := if max.None? then None else Some(max.value - |matches|);
    var found := FindInData(data, pattern, base, remaining);
    HitsInPiece(m, base, data, pattern, 0, |data| - |pattern| + 1);
    FoundCompletes(m, first, current, next, base, pattern, max, matches, found);
    grown := matches + found;
  }

  lemma TakeAppend<T>(before: seq<T>, added: seq<T>, max: Option<nat>)
    requires max.Some? ==> |before| <= max.value
    ensures before + Take(added, if max.None? then None else Some(max.value - |before|)) == Take(before + added, max)
  {
  }

  /** Once enough matches are found, the rest of the range cannot change them. */
  lemma HitsToTheEnd(m: seq<byte>, first: nat, next: nat, end: nat, pattern: seq<byte>, max: nat)
    requires pattern != [] && first <= next <= end && |Hits(m, pattern, first, next - |pattern| + 1)| >= max > 0
    ensures Take(Hits(m, pattern, first, next - |pattern| + 1), Some(max)) ==
            Take(Hits(m, pattern, first, end - |pattern| + 1), Some(max))
  {
    var middle := next - |pattern| + 1;
    if first <= middle {
      HitsJoin(m, pattern, first, middle, end - |pattern| + 1);
    }
  }

  /** A chunk that was read, perhaps shorter than asked for, or the failure that ends a search. */
  datatype ReadResult = Read(size: nat) | Failed

  /** How many bytes a read returns, of those asked for. */
  function SizeOf(r: ReadResult, asked: nat): nat {
    if r.Failed? then 0 else if r.size < asked then r.size else asked
  }

  /** Where the reading of a range comes to its end: at the first read that fails or returns nothing, and
      else at the end of the range. */
  function ReadTo(current: nat, end: nat, readSize: nat, results: seq<ReadResult>): (r: nat)
    requires current <= end && readSize > 0
    ensures current <= r <= end
    decreases |results|
  {
    if current == end || results == [] then end
    else
      var asked := if readSize < end - current then readSize else end - current;
      var size := SizeOf(results[0], asked);
      if size == 0 then current else ReadTo(current + size, end, readSize, results[1..])
  }

  predicate Succeeds(r: ReadResult) {
    r.Read? && r.size > 0
  }

  lemma {:induction false} ReadsToTheEnd(current: nat, end: nat, readSize: nat, results: seq<ReadResult>)
    requires current <= end && readSize > 0 && forall r <- results :: Succeeds(r)
    ensures ReadTo(current, end, readSize, results) == end
    decreases |results|
  {
    if current < end && results != [] {
      assert Succeeds(results[0]);
      var asked := if readSize < end - current then readSize else end - current;
      ReadsToTheEnd(current + SizeOf(results[0], asked), end, readSize, results[1..]);
    }
  }

  function Total(sizes: seq<nat>): nat {
    if sizes == [] then 0 else sizes[0] + Total(sizes[1..])
  }

  /** After reads of these sizes, none of them the last that is needed, one that fails or returns nothing
      ends the reading right there. */
  lemma {:induction false} ReadingFailsThere(current: nat, end: nat, readSize: nat, sizes: seq<nat>, bad: ReadResult,
      later: seq<ReadResult>)
    requires readSize > 0 && (forall size <- sizes :: 0 < size <= readSize) && current + Total(sizes) < end
    requires !Succeeds(bad)
    ensures ReadTo(current, end, readSize, Reads(sizes) + [bad] + later) == current + Total(sizes)
    decreases |sizes|
  {
    var results := Reads(sizes) + [bad] + later;
    if sizes == [] {
      assert results[0] == bad;
    } else {
      assert results[0] == Read(sizes[0]) && results[1..] == Reads(sizes[1..]) + [bad] + later;
      assert sizes[0] in sizes && forall size <- sizes[1..] :: size in sizes;
      ReadingFailsThere(current + sizes[0], end, readSize, sizes[1..], bad, later);
    }
  }

  function Reads(sizes: seq<nat>): (r: seq<ReadResult>)
    ensures |r| == |sizes| && forall k :: 0 <= k < |r| ==> r[k] == Read(sizes[k])
  {
    seq(|sizes|, k requires 0 <= k < |sizes| => Read(sizes[k]))
  }

  /** Reads the next chunk: where it ends, or nowhere further when the read fails or returns nothing. */
  method ReadChunk(current: nat, end: nat, readSize: nat, results: seq<ReadResult>)
    returns (next: nat, later: seq<ReadResult>)
    requires current < end && readSize > 0
    ensures current <= next <= end
    ensures ReadTo(current, end, readSize, results) == if next == current then current
            else ReadTo(next, end, readSize, later)
  {
    var chunkSize := if readSize < end - current then readSize else end - current;
    var result := if results != [] then results[0] else Read(chunkSize);
    later := if results != [] then results[1..] else [];
    next := current + SizeOf(result, chunkSize);
  }

  /** Reads the range in chunks of at most `readSize` bytes and collects the matches. `results`
      says how the reads go; after those, every read returns all it was asked for. The search
      finds the first so many of all matches in the range, or in the part that can be read. */
  method SearchInRange(m: seq<byte>, first: nat, end: nat, pattern: seq<byte>, readSize: nat, max: Option<nat>,
      results: seq<ReadResult>)
    returns (matches: seq<int>)
    requires first <= end <= |m| && pattern != [] && readSize > 0 && (max.Some? ==> max.value > 0)
    ensures matches == Take(Hits(m, pattern, first, ReadTo(first, end, readSize, results) - |pattern| + 1), max)
    ensures (forall r <- results :: Succeeds(r)) ==>
            matches == Take(Hits(m, pattern, first, end - |pattern| + 1), max)
  {
    if forall r <- results :: Succeeds(r) {
      ReadsToTheEnd(first, end, readSize, results);
    }
    ghost var stop := ReadTo(first, end, readSize, results);
    matches := [];
    var current, later := first, results;
    var previous: seq<byte> := [];
    while current < end
      invariant first <= current <= end && stop == ReadTo(current, end, readSize, later)
      invariant previous == m[TailStart(first, current, |pattern| - 1)..current]
      invariant matches == Hits(m, pattern, first, current - |pattern| + 1)
      invariant max.Some? ==> |matches| < max.value
      decreases end - current
    {
      var next;
      next, later := ReadChunk(current, end, readSize, later);
      if next == current {
        return;
      }
      matches, previous := SearchChunk(m, first, current, next, previous, pattern, max, matches);
      if max.Some? && |matches| >= max.value {
        HitsToTheEnd(m, first, next, stop, pattern, max.value);
        return;
      }
      current := next;
    }
  }
}
