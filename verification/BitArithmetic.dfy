/** The bitwise or of numbers without a width, and when it adds up. */
module BitArithmetic {

  function BitOr(a: nat, b: nat): nat
    decreases a + b
  {
    if a == 0 && b == 0 then 0
    else (if a % 2 == 1 || b % 2 == 1 then 1 else 0) + 2 * BitOr(a / 2, b / 2)
  }

  function Shifted(value: nat, n: nat): nat
    decreases n
  {
    if n == 0 then value else 2 * Shifted(value, n - 1)
  }

  lemma {:induction false} OrWithZero(a: nat)
    ensures BitOr(a, 0) == a
  {
    if a > 0 {
      OrWithZero(a / 2);
    }
  }

  /** A field of `w` bits put at bit `n` of a number that has no bits set there is added. */
  lemma {:induction false} OrIntoGap(high: nat, low: nat, field: nat, n: nat, w: nat)
    requires low < Shifted(1, n) && field < Shifted(1, w)
    ensures BitOr(Shifted(high, n + w) + low, Shifted(field, n)) == Shifted(high, n + w) + low + Shifted(field, n)
    decreases n + w
  {
    if n > 0 {
      OrIntoGap(high, low / 2, field, n - 1, w);
    } else if w > 0 {
      OrIntoGap(high, 0, field / 2, 0, w - 1);
    } else {
      OrWithZero(high);
    }
  }

  /** A shift multiplies by the power of two. */
  lemma {:induction false} ShiftMultiplies(value: nat, n: nat)
    ensures Shifted(value, n) == value * Shifted(1, n)
    decreases n
  {
    if n > 0 {
      ShiftMultiplies(value, n - 1);
      assert value * (2 * Shifted(1, n - 1)) == 2 * (value * Shifted(1, n - 1));
    }
  }

  ghost predicate IsPowerOfTwo(p: nat) {
    exists n: nat :: p == Shifted(1, n)
  }

  lemma {:induction false} ShiftInTurn(n: nat, w: nat)
    ensures Shifted(1, n + w) == Shifted(1, n) * Shifted(1, w)
    decreases w
  {
    if w > 0 {
      ShiftInTurn(n, w - 1);
      assert Shifted(1, n) * (2 * Shifted(1, w - 1)) == 2 * (Shifted(1, n) * Shifted(1, w - 1));
    }
  }

  /** The same with the powers of two named: a field below q, moved up by p. */
  lemma OrField(high: nat, low: nat, field: nat, p: nat, q: nat)
    requires IsPowerOfTwo(p) && IsPowerOfTwo(q) && low < p && field < q
    ensures BitOr(high * (p * q) + low, field * p) == high * (p * q) + low + field * p
  {
    var n: nat :| p == Shifted(1, n);
    var w: nat :| q == Shifted(1, w);
    ShiftInTurn(n, w);
    ShiftMultiplies(high, n + w);
    ShiftMultiplies(field, n);
    OrIntoGap(high, low, field, n, w);
  }

  lemma SomePowersOfTwo()
    ensures IsPowerOfTwo(0x1) && IsPowerOfTwo(0x10) && IsPowerOfTwo(0x20) && IsPowerOfTwo(0x80) && IsPowerOfTwo(0x200)
    ensures IsPowerOfTwo(0x400) && IsPowerOfTwo(0x800) && IsPowerOfTwo(0x1000) && IsPowerOfTwo(0x1_0000)
    ensures IsPowerOfTwo(0x8_0000) && IsPowerOfTwo(0x10_0000) && IsPowerOfTwo(0x20_0000) && IsPowerOfTwo(0x200_0000)
  {
    assert Shifted(1, 0) == 0x1 && Shifted(1, 4) == 0x10 && Shifted(1, 5) == 0x20 && Shifted(1, 7) == 0x80;
    assert Shifted(1, 9) == 0x200 && Shifted(1, 10) == 0x400 && Shifted(1, 11) == 0x800 && Shifted(1, 12) == 0x1000;
    assert Shifted(1, 16) == 0x1_0000 && Shifted(1, 19) == 0x8_0000 && Shifted(1, 20) == 0x10_0000;
    assert Shifted(1, 21) == 0x20_0000 && Shifted(1, 25) == 0x200_0000;
  }

  /** The bits of `a` that are not set in `mask`. */
  function BitClear(a: nat, mask: nat): nat
    decreases a
  {
    if a == 0 then 0
    else (if a % 2 == 1 && mask % 2 == 0 then 1 else 0) + 2 * BitClear(a / 2, mask / 2)
  }

  lemma ClearAboveTwo(a: nat, mask: nat)
    ensures BitClear(a, 4 * mask) == a % 4 + 4 * BitClear(a / 4, mask)
  {
    assert BitClear(a / 2, 2 * mask) == a / 2 % 2 + 2 * BitClear(a / 4, mask);
    assert BitClear(a, 4 * mask) == a % 2 + 2 * BitClear(a / 2, 2 * mask);
  }

  /** A mask whose lowest four bits are clear keeps the lowest four bits. */
  lemma ClearAboveFour(a: nat, mask: nat)
    ensures BitClear(a, 16 * mask) == a % 16 + 16 * BitClear(a / 16, mask)
  {
    ClearAboveTwo(a, 4 * mask);
    ClearAboveTwo(a / 4, mask);
  }

  lemma {:induction false} ClearNothing(a: nat)
    ensures BitClear(a, 0) == a
    decreases a
  {
    if a > 0 {
      ClearNothing(a / 2);
    }
  }

  lemma ClearLowestTwo(a: nat, mask: nat, rest: nat)
    requires mask == 4 * rest + 3
    ensures BitClear(a, mask) == 4 * BitClear(a / 4, rest)
  {
    var half := 2 * rest + 1;
    assert BitClear(a / 2, half) == 2 * BitClear(a / 4, rest);
    assert BitClear(a, mask) == 2 * BitClear(a / 2, half);
  }

  /** A mask that covers the lowest four bits clears them. */
  lemma ClearLowestFour(a: nat, mask: nat, rest: nat)
    requires mask == 16 * rest + 15
    ensures BitClear(a, mask) == 16 * BitClear(a / 16, rest)
  {
    var middle := 4 * rest + 3;
    ClearLowestTwo(a, mask, middle);
    ClearLowestTwo(a / 4, middle, rest);
    assert a / 4 / 4 == a / 16;
  }
}
