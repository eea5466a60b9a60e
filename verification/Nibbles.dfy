/** A register of four-bit fields, seen as a number. */
module Nibbles {
  import opened BitArithmetic

  function Pow16(i: nat): (r: nat)
    ensures r > 0
  {
    if i == 0 then 1 else 16 * Pow16(i - 1)
  }

  lemma PowersOf16()
    ensures Pow16(0) == 1 && Pow16(1) == 0x10 && Pow16(2) == 0x100 && Pow16(3) == 0x1000 && Pow16(4) == 0x1_0000
    ensures Pow16(5) == 0x10_0000 && Pow16(6) == 0x100_0000 && Pow16(7) == 0x1000_0000 && Pow16(8) == 0x1_0000_0000
  {
  }

  /** Field i, taken off from below. */
  function Nibble(register: nat, i: nat): (r: nat)
    ensures r < 16
    decreases i
  {
    if i == 0 then register % 16 else Nibble(register / 16, i - 1)
  }

  lemma NibbleOfLower(register: nat, i: nat)
    requires i < 4
    ensures Nibble(register, i) == register / Pow16(i) % 16
  {
    PowersOf16();
    if i >= 2 {
      assert register / 0x10 / 0x10 == register / 0x100;
      assert Nibble(register, i) == Nibble(register / 0x100, i - 2);
      assert register / 0x100 / 0x10 == register / 0x1000;
    }
  }

  /** In a 32-bit register that is the number at its place. */
  lemma NibbleIsDigit(register: nat, i: nat)
    requires i < 8
    ensures Nibble(register, i) == register / Pow16(i) % 16
  {
    if i < 4 {
      NibbleOfLower(register, i);
    } else {
      var upper := register / 0x1_0000;
      NibbleOfLower(upper, i - 4);
      UpperHalf(register, i);
      DividedInTurn(register, i - 4);
    }
  }

  lemma DividedInTurn(register: nat, k: nat)
    requires k < 4
    ensures register / 0x1_0000 / Pow16(k) == register / Pow16(k + 4)
  {
    PowersOf16();
    var upper := register / 0x1_0000;
    if k == 1 {
      assert upper / 0x10 == register / 0x10_0000;
    } else if k == 2 {
      assert upper / 0x100 == register / 0x100_0000;
    } else if k == 3 {
      assert upper / 0x1000 == register / 0x1000_0000;
    }
  }

  lemma UpperHalf(register: nat, i: nat)
    requires i >= 4
    ensures Nibble(register, i) == Nibble(register / 0x1_0000, i - 4)
  {
    assert Nibble(register, i) == Nibble(register / 0x10, i - 1);
    assert Nibble(register / 0x10, i - 1) == Nibble(register / 0x100, i - 2);
    assert Nibble(register / 0x100, i - 2) == Nibble(register / 0x1000, i - 3);
  }

  /** The register with field i cleared through its mask, and `value` shifted there added. */
  function WithNibble(register: nat, i: nat, value: nat): nat {
    BitClear(register, 0xF * Pow16(i)) + value * Pow16(i)
  }

  lemma WithNibbleAbove(register: nat, i: nat, value: nat)
    requires i > 0
    ensures WithNibble(register, i, value) == register % 16 + 16 * WithNibble(register / 16, i - 1, value)
  {
    assert value * Pow16(i) == 16 * (value * Pow16(i - 1));
    ClearAboveFour(register, 0xF * Pow16(i - 1));
  }

  /** One field gets the value, the others keep theirs, and the register does not grow. */
  lemma {:induction false} WithNibbleSetsOne(register: nat, i: nat, value: nat, n: nat)
    requires i < n && value < 16 && register < Pow16(n)
    ensures var r := WithNibble(register, i, value);
            r < Pow16(n) && forall j: nat :: Nibble(r, j) == if j == i then value else Nibble(register, j)
    decreases n
  {
    var r := WithNibble(register, i, value);
    if i == 0 {
      ClearLowestFour(register, 0xF, 0);
      ClearNothing(register / 16);
      assert r == 16 * (register / 16) + value;
      assert r / 16 == register / 16 && r % 16 == value;
    } else {
      WithNibbleAbove(register, i, value);
      WithNibbleSetsOne(register / 16, i - 1, value, n - 1);
      assert r / 16 == WithNibble(register / 16, i - 1, value) && r % 16 == register % 16;
    }
  }
}
