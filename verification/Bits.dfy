/** Numbers as their bits, the lowest first, at a fixed width. */
module Bits {

  function Zeros(n: nat): (r: seq<bool>)
    ensures |r| == n && forall i :: 0 <= i < n ==> !r[i]
  {
    seq(n, _ => false)
  }

  function And(a: seq<bool>, b: seq<bool>): (r: seq<bool>)
    requires |a| == |b|
    ensures |r| == |a| && forall i :: 0 <= i < |r| ==> r[i] == (a[i] && b[i])
  {
    seq(|a|, i requires 0 <= i < |a| => a[i] && b[i])
  }

  function Or(a: seq<bool>, b: seq<bool>): (r: seq<bool>)
    requires |a| == |b|
    ensures |r| == |a| && forall i :: 0 <= i < |r| ==> r[i] == (a[i] || b[i])
  {
    seq(|a|, i requires 0 <= i < |a| => a[i] || b[i])
  }

  function Complement(x: seq<bool>): (r: seq<bool>)
    ensures |r| == |x| && forall i :: 0 <= i < |r| ==> r[i] == !x[i]
  {
    seq(|x|, i requires 0 <= i < |x| => !x[i])
  }

  /** Adds one, the carry rippling up. */
  function Increment(x: seq<bool>): (r: seq<bool>)
    ensures |r| == |x|
  {
    if x == [] then []
    else if x[0] then [false] + Increment(x[1..])
    else [true] + x[1..]
  }

  /** The two's complement. */
  function Negated(x: seq<bool>): (r: seq<bool>)
    ensures |r| == |x|
  {
    Increment(Complement(x))
  }

  /** The number that the bits stand for. */
  function ValueOf(x: seq<bool>): nat {
    if x == [] then 0 else (if x[0] then 1 else 0) + 2 * ValueOf(x[1..])
  }

  function Pow2(n: nat): nat {
    if n == 0 then 1 else 2 * Pow2(n - 1)
  }

  lemma {:induction false} IncrementAddsOne(x: seq<bool>)
    ensures ValueOf(x) < Pow2(|x|)
    ensures ValueOf(Increment(x)) == if ValueOf(x) + 1 == Pow2(|x|) then 0 else ValueOf(x) + 1
  {
    if x != [] {
      IncrementAddsOne(x[1..]);
      var rest := if x[0] then Increment(x[1..]) else x[1..];
      PrependBit(!x[0], rest);
    }
  }

  lemma PrependBit(bit: bool, rest: seq<bool>)
    ensures ValueOf([bit] + rest) == (if bit then 1 else 0) + 2 * ValueOf(rest)
  {
    assert ([bit] + rest)[1..] == rest;
  }

  lemma {:induction false} ComplementIsRest(x: seq<bool>)
    ensures ValueOf(Complement(x)) + ValueOf(x) + 1 == Pow2(|x|)
  {
    if x != [] {
      assert Complement(x)[1..] == Complement(x[1..]);
      ComplementIsRest(x[1..]);
    }
  }

  /** A number and its two's complement add up to the power of two at their width, unless both are zero. */
  lemma NegationAddsUp(x: seq<bool>)
    ensures ValueOf(Negated(x)) + ValueOf(x) == if ValueOf(x) == 0 then 0 else Pow2(|x|)
  {
    ComplementIsRest(x);
    IncrementAddsOne(Complement(x));
  }

  function ShiftRight(x: seq<bool>, n: nat): (r: seq<bool>)
    requires n <= |x|
    ensures |r| == |x|
  {
    x[n..] + Zeros(n)
  }

  /** The number of bits up to the highest one that is set. */
  function BitLength(x: seq<bool>): (r: nat)
    ensures r <= |x| && (r > 0 ==> x[r - 1]) && forall i :: r <= i < |x| ==> !x[i]
  {
    if x == [] then 0 else if x[|x| - 1] then |x| else BitLength(x[..|x| - 1])
  }

  /** A number and its negation share exactly one bit, the lowest that is set. */
  lemma {:induction false} NegationSharesTheLowest(mask: seq<bool>, i: nat)
    requires i < |mask|
    ensures And(mask, Negated(mask))[i] <==> (mask[i] && forall j :: 0 <= j < i ==> !mask[j])
    decreases |mask|
  {
    var c := Complement(mask);
    assert c[1..] == Complement(mask[1..]);
    if i > 0 && !mask[0] {
      NegationSharesTheLowest(mask[1..], i - 1);
      assert Negated(mask)[i] == Negated(mask[1..])[i - 1];
      if forall j :: 0 <= j < i - 1 ==> !mask[1..][j] {
        assert forall j :: 0 < j < i ==> mask[j] == mask[1..][j - 1];
      }
    }
  }

  /** The position of the lowest set bit as the length of that bit alone; -1 when there is none. */
  function LowestBit(mask: seq<bool>): (r: int)
    ensures -1 <= r < |mask|
  {
    BitLength(And(mask, Negated(mask))) - 1
  }

  predicate IsLowest(mask: seq<bool>, low: int) {
    if low < 0 then low == -1 && forall i :: 0 <= i < |mask| ==> !mask[i]
    else low < |mask| && mask[low] && forall i :: 0 <= i < low ==> !mask[i]
  }

  lemma LowestBitIsLowest(mask: seq<bool>)
    ensures IsLowest(mask, LowestBit(mask))
  {
    var low := LowestBit(mask);
    var isolated := And(mask, Negated(mask));
    if low >= 0 {
      NegationSharesTheLowest(mask, low);
    } else {
      NothingIsolated(mask, isolated, |mask|);
    }
  }

  lemma {:induction false} NothingIsolated(mask: seq<bool>, isolated: seq<bool>, n: nat)
    requires n <= |mask| && isolated == And(mask, Negated(mask)) && forall i :: 0 <= i < |isolated| ==> !isolated[i]
    ensures forall i :: 0 <= i < n ==> !mask[i]
    decreases n
  {
    if n > 0 {
      NothingIsolated(mask, isolated, n - 1);
      NegationSharesTheLowest(mask, n - 1);
    }
  }

  lemma LowestIsUnique(mask: seq<bool>, a: int, b: int)
    requires IsLowest(mask, a) && IsLowest(mask, b)
    ensures a == b
  {
  }
}
