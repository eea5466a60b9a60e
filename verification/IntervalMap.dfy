/** Sorted address intervals with a binary search and a cache of the last hit. */
module IntervalMap {
  import opened Options

  /** The addresses start..end, the end excluded, and what is mapped there. */
  datatype Interval<B> = Interval(start: nat, end: nat, block: B)

  predicate Contains<B(!new)>(i: Interval<B>, a: nat) {
    i.start <= a < i.end
  }

  ghost predicate Disjoint<B(!new)>(i: Interval<B>, j: Interval<B>) {
    forall a :: !(Contains(i, a) && Contains(j, a))
  }

  ghost predicate AllDisjoint<B(!new)>(xs: seq<Interval<B>>) {
    forall i, j :: 0 <= i < j < |xs| ==> Disjoint(xs[i], xs[j])
  }

  // ----- Sorting and the overlap check

  /** `x` in front of the first interval that does not start before it. */
  function Insert<B(!new)>(x: Interval<B>, xs: seq<Interval<B>>): (r: seq<Interval<B>>)
    ensures |r| == |xs| + 1
    ensures multiset(r) == multiset(xs) + multiset{x}
    ensures forall y :: y in r <==> y == x || y in xs
  {
    if xs == [] || x.start <= xs[0].start then [x] + xs
    else
      assert xs == [xs[0]] + xs[1..];
      [xs[0]] + Insert(x, xs[1..])
  }

  /** The intervals in order of their start, equal starts in their original order. */
  function Sort<B(!new)>(xs: seq<Interval<B>>): (r: seq<Interval<B>>)
    ensures |r| == |xs| && multiset(r) == multiset(xs)
    ensures forall y :: y in r <==> y in xs
  {
    if xs == [] then []
    else
      assert xs == [xs[0]] + xs[1..];
      Insert(xs[0], Sort(xs[1..]))
  }

  predicate Sorted<B(!new)>(xs: seq<Interval<B>>) {
    forall i, j :: 0 <= i < j < |xs| ==> xs[i].start <= xs[j].start
  }

  lemma {:induction false} InsertSorts<B(!new)>(x: Interval<B>, xs: seq<Interval<B>>)
    requires Sorted(xs)
    ensures Sorted(Insert(x, xs))
  {
    if xs != [] && x.start > xs[0].start {
      InsertSorts(x, xs[1..]);
      forall y | y in Insert(x, xs[1..]) ensures xs[0].start <= y.start {
        if y in xs[1..] {
          var k :| 0 <= k < |xs[1..]| && xs[1..][k] == y;
        }
      }
    }
  }

  lemma {:induction false} SortSorts<B(!new)>(xs: seq<Interval<B>>)
    ensures Sorted(Sort(xs))
  {
    if xs != [] {
      SortSorts(xs[1..]);
      InsertSorts(xs[0], Sort(xs[1..]));
    }
  }

  /** No interval reaches into the next one. */
  predicate NoneOverlapsNext<B(!new)>(xs: seq<Interval<B>>) {
    forall i :: 0 <= i < |xs| - 1 ==> xs[i].end <= xs[i + 1].start
  }

  ghost predicate DisjointFromAll<B(!new)>(x: Interval<B>, xs: seq<Interval<B>>) {
    forall y <- xs :: Disjoint(x, y)
  }

  lemma {:induction false} ConsDisjoint<B(!new)>(x: Interval<B>, xs: seq<Interval<B>>)
    ensures AllDisjoint([x] + xs) <==> AllDisjoint(xs) && DisjointFromAll(x, xs)
  {
    var r := [x] + xs;
    assert forall k :: 0 <= k < |xs| ==> r[k + 1] == xs[k];
    if AllDisjoint(r) {
      forall y <- xs ensures Disjoint(x, y) {
        var k :| 0 <= k < |xs| && xs[k] == y;
        assert Disjoint(r[0], r[k + 1]);
      }
      forall i, j | 0 <= i < j < |xs| ensures Disjoint(xs[i], xs[j]) {
        assert Disjoint(r[i + 1], r[j + 1]);
      }
    }
  }

  lemma {:induction false} InsertDisjoint<B(!new)>(x: Interval<B>, xs: seq<Interval<B>>)
    ensures AllDisjoint(Insert(x, xs)) <==> AllDisjoint(xs) && DisjointFromAll(x, xs)
  {
    if xs == [] || x.start <= xs[0].start {
      ConsDisjoint(x, xs);
    } else {
      InsertDisjoint(x, xs[1..]);
      ConsDisjoint(xs[0], Insert(x, xs[1..]));
      ConsDisjoint(xs[0], xs[1..]);
      assert xs == [xs[0]] + xs[1..];
      assert Disjoint(x, xs[0]) <==> Disjoint(xs[0], x);
    }
  }

  lemma {:induction false} SortKeepsDisjointness<B(!new)>(xs: seq<Interval<B>>)
    ensures AllDisjoint(Sort(xs)) <==> AllDisjoint(xs)
  {
    if xs != [] {
      SortKeepsDisjointness(xs[1..]);
      InsertDisjoint(xs[0], Sort(xs[1..]));
      assert DisjointFromAll(xs[0], Sort(xs[1..])) <==> DisjointFromAll(xs[0], xs[1..]);
      ConsDisjoint(xs[0], xs[1..]);
      assert xs == [xs[0]] + xs[1..];
    }
  }

  /** The intervals follow one another without overlapping. */
  ghost predicate InOrder<B(!new)>(xs: seq<Interval<B>>) {
    && (forall i :: 0 <= i < |xs| ==> xs[i].start <= xs[i].end)
    && (forall i, j :: 0 <= i < j < |xs| ==> xs[i].end <= xs[j].start)
  }

  lemma {:induction false} NeighboursSuffice<B(!new)>(xs: seq<Interval<B>>, i: nat, j: nat)
    requires NoneOverlapsNext(xs) && (forall x <- xs :: x.start <= x.end) && i < j < |xs|
    ensures xs[i].end <= xs[j].start
    decreases j - i
  {
    if i + 1 < j {
      NeighboursSuffice(xs, i, j - 1);
      assert xs[j - 1] in xs;
    }
  }

  lemma CheckGivesOrder<B(!new)>(xs: seq<Interval<B>>)
    requires NoneOverlapsNext(xs) && forall x <- xs :: x.start <= x.end
    ensures InOrder(xs)
  {
    forall i, j | 0 <= i < j < |xs| ensures xs[i].end <= xs[j].start {
      NeighboursSuffice(xs, i, j);
    }
  }

  /** For intervals that are not empty, looking at neighbours after sorting decides whether any
      two of them share an address. */
  lemma {:induction false} CheckDecidesDisjointness<B(!new)>(xs: seq<Interval<B>>)
    requires forall x <- xs :: x.start < x.end
    ensures NoneOverlapsNext(Sort(xs)) <==> AllDisjoint(xs)
  {
    var s := Sort(xs);
    SortKeepsDisjointness(xs);
    SortSorts(xs);
    if NoneOverlapsNext(s) {
      CheckGivesOrder(s);
      forall i, j | 0 <= i < j < |s| ensures Disjoint(s[i], s[j]) {
      }
    }
    if AllDisjoint(s) {
      forall i | 0 <= i < |s| - 1 ensures s[i].end <= s[i + 1].start {
        assert s[i + 1] in s;
        assert !(Contains(s[i], s[i + 1].start) && Contains(s[i + 1], s[i + 1].start));
      }
    }
  }

  // ----- Lookups, as a linear scan would do them

  /** The first interval that contains the address. */
  function Scan<B(!new)>(xs: seq<Interval<B>>, a: nat): (r: Option<Interval<B>>)
    ensures r.Some? ==> r.value in xs && Contains(r.value, a)
    ensures r.None? ==> forall x <- xs :: !Contains(x, a)
  {
    if xs == [] then None
    else if Contains(xs[0], a) then Some(xs[0])
    else
      assert forall x <- xs :: x == xs[0] || x in xs[1..];
      Scan(xs[1..], a)
  }

  /** The first of the intervals with the least start above the address. */
  function ScanNext<B(!new)>(xs: seq<Interval<B>>, a: nat): (r: Option<Interval<B>>)
    ensures r.Some? ==> r.value in xs && r.value.start > a
    ensures r.Some? ==> forall x <- xs :: x.start > a ==> r.value.start <= x.start
    ensures r.None? ==> forall x <- xs :: x.start <= a
  {
    if xs == [] then None
    else
      var rest := ScanNext(xs[1..], a);
      assert forall x <- xs :: x == xs[0] || x in xs[1..];
      if xs[0].start > a && (rest.None? || xs[0].start <= rest.value.start) then Some(xs[0]) else rest
  }

  /** In ordered intervals no two contain the same address. */
  lemma OnlyOneContains<B(!new)>(xs: seq<Interval<B>>, x: Interval<B>, a: nat)
    requires InOrder(xs) && x in xs && Contains(x, a)
    ensures Scan(xs, a) == Some(x)
  {
  }

  /** Where a lookup fails, everything up to the next interval is unmapped. */
  lemma GapIsUnmapped<B(!new)>(xs: seq<Interval<B>>, a: nat, x: nat)
    requires Scan(xs, a).None? && a <= x
    requires ScanNext(xs, a).Some? ==> x < ScanNext(xs, a).value.start
    ensures Scan(xs, x).None?
  {
  }

  lemma {:induction false} FirstAboveIsNext<B(!new)>(xs: seq<Interval<B>>, a: nat, k: nat)
    requires Sorted(xs) && k <= |xs|
    requires (forall i :: 0 <= i < k ==> xs[i].start <= a) && (forall i :: k <= i < |xs| ==> xs[i].start > a)
    ensures ScanNext(xs, a) == if k < |xs| then Some(xs[k]) else None
  {
    if xs != [] {
      var rest := xs[1..];
      if k > 0 {
        assert forall i :: 0 <= i < |rest| ==> rest[i] == xs[i + 1];
        FirstAboveIsNext(rest, a, k - 1);
      } else {
        var r := ScanNext(rest, a);
        if r.Some? {
          var j :| 0 <= j < |rest| && rest[j] == r.value;
          assert xs[0].start <= xs[j + 1].start;
        }
      }
    }
  }

  class IntervalMap<B(!new)> {
    const intervals: seq<Interval<B>>
    const starts: seq<nat>
    var lastFound: Option<Interval<B>>

    ghost predicate Valid()
      reads this
    {
      && InOrder(intervals) && Sorted(intervals)
      && |starts| == |intervals| && (forall i :: 0 <= i < |starts| ==> starts[i] == intervals[i].start)
      && (lastFound.Some? ==> lastFound.value in intervals)
    }

    constructor (given: seq<Interval<B>>)
      requires (forall x <- given :: x.start <= x.end) && NoneOverlapsNext(Sort(given))
      ensures Valid() && intervals == Sort(given) && lastFound == None
    {
      var sorted := Sort(given);
      intervals := sorted;
      starts := seq(|sorted|, i requires 0 <= i < |sorted| => sorted[i].start);
      lastFound := None;
      SortSorts(given);
      CheckGivesOrder(sorted);
    }

    /** Builds the map unless an interval reaches into the next one. */
    static method Create(given: seq<Interval<B>>) returns (r: Option<IntervalMap<B>>)
      requires forall x <- given :: x.start <= x.end
      ensures r.Some? <==> NoneOverlapsNext(Sort(given))
      ensures r.Some? ==> fresh(r.value) && r.value.Valid() && r.value.intervals == Sort(given)
    {
      var sorted := Sort(given);
      var i := 0;
      while i < |sorted| - 1
        invariant 0 <= i && (i == 0 || i <= |sorted| - 1)
        invariant forall k :: 0 <= k < i ==> sorted[k].end <= sorted[k + 1].start
      {
        if sorted[i].end > sorted[i + 1].start {
          return None;
        }
        i := i + 1;
      }
      var m := new IntervalMap<B>(given);
      r := Some(m);
    }

    /** The number of intervals that start at or before the address. */
    method BisectRight(a: nat) returns (k: nat)
      requires Valid()
      ensures k <= |intervals|
      ensures forall i :: 0 <= i < k ==> intervals[i].start <= a
      ensures forall i :: k <= i < |intervals| ==> intervals[i].start > a
    {
      var lo, hi := 0, |starts|;
      while lo < hi
        invariant 0 <= lo <= hi <= |intervals|
        invariant forall i :: 0 <= i < lo ==> intervals[i].start <= a
        invariant forall i :: hi <= i < |intervals| ==> intervals[i].start > a
      {
        var mid := (lo + hi) / 2;
        if a < starts[mid] {
          hi := mid;
        } else {
          lo := mid + 1;
        }
      }
      k := lo;
    }

    /** The interval that contains the address, as a linear scan would find it, whatever was
        looked up before. */
    method Find(a: nat) returns (r: Option<Interval<B>>)
      requires Valid()
      modifies this
      ensures Valid() && r == Scan(intervals, a)
    {
      if lastFound.Some? && Contains(lastFound.value, a) {
        OnlyOneContains(intervals, lastFound.value, a);
        return lastFound;
      }
      var k := BisectRight(a);
      if k == 0 {
        return None;
      }
      var interval := intervals[k - 1];
      if a < interval.end {
        lastFound := Some(interval);
        OnlyOneContains(intervals, interval, a);
        return Some(interval);
      }
      forall x <- intervals ensures !Contains(x, a) {
        var i :| 0 <= i < |intervals| && intervals[i] == x;
        if i < k - 1 {
          assert intervals[i].end <= intervals[k - 1].start;
        }
      }
      return None;
    }

    /** The first interval that starts above the address. */
    method FindNext(a: nat) returns (r: Option<Interval<B>>)
      requires Valid()
      ensures r == ScanNext(intervals, a)
    {
      var k := BisectRight(a);
      FirstAboveIsNext(intervals, a, k);
      r := if k < |intervals| then Some(intervals[k]) else None;
    }

    /** Any sequence of lookups gives what as many separate scans would. */
    method FindAll(addresses: seq<nat>) returns (found: seq<Option<Interval<B>>>)
      requires Valid()
      modifies this
      ensures Valid() && |found| == |addresses|
      ensures forall k :: 0 <= k < |found| ==> found[k] == Scan(intervals, addresses[k])
    {
      found := [];
      while |found| < |addresses|
        invariant Valid() && |found| <= |addresses|
        invariant forall k :: 0 <= k < |found| ==> found[k] == Scan(intervals, addresses[k])
        decreases |addresses| - |found|
      {
        var r := Find(addresses[|found|]);
        found := found + [r];
      }
    }
  }
}
