/** Registers and their flags: what the sources do with masks and shifts changes one flag and keeps
    the other 31. */
module Registers {

  /** One flag of a 32-bit register. */
  predicate Flag(reg: bv32, k: bv5) {
    (reg >> k) & 1 != 0
  }

  function Bit(k: bv5): bv32 {
    (1 as bv32) << k
  }

  function WithBit(reg: bv32, bit: bv32, value: bool): bv32 {
    (reg & !bit) | (if value then bit else 0)
  }

  /** Clears a flag and puts the new value in its place. */
  function WithFlag(reg: bv32, k: bv5, value: bool): bv32 {
    WithBit(reg, Bit(k), value)
  }

  function Added(reg: bv32, k: bv5): bv32 {
    reg | Bit(k)
  }

  function Removed(reg: bv32, k: bv5): bv32 {
    reg & !Bit(k)
  }

  predicate Masked(reg: bv32, k: bv5) {
    reg & Bit(k) != 0
  }

  /** `after` is `reg` with flag `k` set to `value` and nothing else changed. */
  ghost predicate OneFlagSet(reg: bv32, after: bv32, k: bv5, value: bool) {
    Flag(after, k) == value && forall j: bv5 :: j != k ==> Flag(after, j) == Flag(reg, j)
  }

  lemma FlagAfterReplacing(reg: bv32, k: bv5, value: bool, j: bv5)
    ensures Flag((reg & !Bit(k)) | (if value then Bit(k) else 0), j) == if j == k then value else Flag(reg, j)
  {
  }

  lemma FlagAfterWith(reg: bv32, k: bv5, value: bool, j: bv5)
    ensures Flag(WithFlag(reg, k, value), j) == if j == k then value else Flag(reg, j)
  {
    var bit := Bit(k);
    WithBitIs(reg, bit, value);
    FlagAfterReplacing(reg, k, value, j);
  }

  lemma WithBitIs(reg: bv32, bit: bv32, value: bool)
    ensures WithBit(reg, bit, value) == (reg & !bit) | (if value then bit else 0)
  {
  }

  lemma FlagAfterAdding(reg: bv32, k: bv5, j: bv5)
    ensures Flag(Added(reg, k), j) == if j == k then true else Flag(reg, j)
  {
  }

  lemma FlagAfterRemoving(reg: bv32, k: bv5, j: bv5)
    ensures Flag(Removed(reg, k), j) == if j == k then false else Flag(reg, j)
  {
  }

  lemma WithFlagSetsOne(reg: bv32, k: bv5, value: bool)
    ensures OneFlagSet(reg, WithFlag(reg, k, value), k, value)
  {
    forall j: bv5 ensures Flag(WithFlag(reg, k, value), j) == if j == k then value else Flag(reg, j) {
      FlagAfterWith(reg, k, value, j);
    }
  }

  lemma AddingSetsOne(reg: bv32, k: bv5)
    ensures OneFlagSet(reg, Added(reg, k), k, true)
  {
    forall j: bv5 ensures Flag(Added(reg, k), j) == if j == k then true else Flag(reg, j) {
      FlagAfterAdding(reg, k, j);
    }
  }

  lemma RemovingClearsOne(reg: bv32, k: bv5)
    ensures OneFlagSet(reg, Removed(reg, k), k, false)
  {
    forall j: bv5 ensures Flag(Removed(reg, k), j) == if j == k then false else Flag(reg, j) {
      FlagAfterRemoving(reg, k, j);
    }
  }

  lemma MaskingTestsOne(reg: bv32, k: bv5)
    ensures Masked(reg, k) <==> Flag(reg, k)
  {
  }

  lemma BitPutBack(reg: bv32, bit: bv32, value: bool, was: bool)
    requires reg & bit == if was then bit else 0
    ensures WithBit(WithBit(reg, bit, value), bit, was) == reg
  {
  }

  lemma ValueOfFlag(reg: bv32, k: bv5)
    ensures reg & Bit(k) == if Flag(reg, k) then Bit(k) else 0
  {
  }

  /** Putting back the flag that was there gives the first register back. */
  lemma FlagPutBack(reg: bv32, k: bv5, value: bool)
    ensures WithFlag(WithFlag(reg, k, value), k, Flag(reg, k)) == reg
  {
    ValueOfFlag(reg, k);
    BitPutBack(reg, Bit(k), value, Flag(reg, k));
  }
}
