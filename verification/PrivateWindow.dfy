/** Reaching a core's private memory: the core is held halted for the time of an access and its
    running, halted or reset state is put back afterwards. */
module PrivateWindow {
  import opened Registers

  const JUMP_TO_SELF: bv32 := 0x6F

  /** What an access can see and change: memory, the reset register, in which a core is in reset
      while its flag is set, and the core itself. `halted` is the debug status of the core. */
  datatype Chip = Chip(memory: map<nat, bv32>, reset: bv32, halted: bool)

  datatype BodyResult = BodyResult(chip: Chip, raised: bool)

  /** The flag of the core in the reset register, and the address of the word it starts at.
      `obeysHalt` says whether the halt command takes effect, `wakesHalted` whether the core is
      already halted when it is first looked at after leaving reset. */
  datatype CoreConfig = CoreConfig(resetFlag: bv5, startAddress: nat, obeysHalt: bool, wakesHalted: bool)

  predicate InReset(config: CoreConfig, c: Chip) {
    Flag(c.reset, config.resetFlag)
  }

  function Word(memory: map<nat, bv32>, address: nat): bv32 {
    if address in memory then memory[address] else 0
  }

  /** The access with the core held halted, and its halted state put back. */
  function Halted(config: CoreConfig, entry: Chip, body: Chip -> BodyResult): BodyResult {
    if entry.halted then body(entry)
    else if !config.obeysHalt then BodyResult(entry, true)
    else
      var end := body(entry.(halted := true));
      end.(chip := end.chip.(halted := false))
  }

  /** The chip as the body first sees it when the core was in reset. */
  function Woken(config: CoreConfig, entry: Chip): Chip
  {
    Chip(entry.memory[config.startAddress := JUMP_TO_SELF], WithFlag(entry.reset, config.resetFlag, false),
      config.wakesHalted)
  }

  function Window(config: CoreConfig, entry: Chip, body: Chip -> BodyResult): BodyResult
  {
    if !InReset(config, entry) then Halted(config, entry, body)
    else
      var end := Halted(config, Woken(config, entry), body);
      var reset := if end.raised then end.chip.reset else WithFlag(end.chip.reset, config.resetFlag, true);
      var memory := end.chip.memory[config.startAddress := Word(entry.memory, config.startAddress)];
      BodyResult(Chip(memory, reset, end.chip.halted), end.raised)
  }

  /** A body that leaves the state of the cores alone. */
  ghost predicate LeavesCores(body: Chip -> BodyResult) {
    forall c: Chip :: body(c).chip.reset == c.reset && body(c).chip.halted == c.halted
  }

  /** While the body runs, a core that was in reset is out of it and loops at its start address;
      nothing else is different. */
  lemma BodySeesLoopingCore(config: CoreConfig, entry: Chip)
    ensures var seen := Woken(config, entry);
            !InReset(config, seen) && OneFlagSet(entry.reset, seen.reset, config.resetFlag, false) &&
            seen.memory == entry.memory[config.startAddress := 0x6F]
  {
    WithFlagSetsOne(entry.reset, config.resetFlag, false);
  }

  /** The core is in the same state: in reset both times, or out of reset both times and halted or
      running both times. */
  predicate SameCoreState(config: CoreConfig, a: Chip, b: Chip) {
    (InReset(config, a) <==> InReset(config, b)) && (InReset(config, a) || a.halted == b.halted)
  }

  /** The core will be held halted and the body will not raise. */
  predicate GoesWell(config: CoreConfig, entry: Chip, body: Chip -> BodyResult) {
    (config.wakesHalted || config.obeysHalt) && !body(Woken(config, entry).(halted := true)).raised
  }

  /** The core comes back in the state it was in exactly when it was not in reset at first or
      nothing goes wrong: only a normal exit asserts its reset again. The reset register is the same
      again then, and the flags of the other cores never change. */
  lemma CoreStateComesBackUnlessResetIsLost(config: CoreConfig, entry: Chip, body: Chip -> BodyResult)
    requires LeavesCores(body)
    ensures var end, k := Window(config, entry, body), config.resetFlag;
            var comesBack := !InReset(config, entry) || GoesWell(config, entry, body);
            (SameCoreState(config, entry, end.chip) <==> comesBack) &&
            (comesBack ==> end.chip.reset == entry.reset) &&
            (forall j: bv5 :: j != k ==> Flag(end.chip.reset, j) == Flag(entry.reset, j))
  {
    WithFlagSetsOne(entry.reset, config.resetFlag, false);
    FlagPutBack(entry.reset, config.resetFlag, false);
  }

  /** Whatever the body does, and however it ends: memory is what the body left, except that the
      start word of a core that was in reset has its first value again. */
  lemma StartWordComesBack(config: CoreConfig, entry: Chip, body: Chip -> BodyResult)
    requires InReset(config, entry) && (config.wakesHalted || config.obeysHalt)
    ensures var end := Window(config, entry, body); var left := body(Woken(config, entry).(halted := true));
            end.raised == left.raised &&
            Word(end.chip.memory, config.startAddress) == Word(entry.memory, config.startAddress) &&
            forall a: nat :: a != config.startAddress ==> Word(end.chip.memory, a) == Word(left.chip.memory, a)
  {
  }

  /** A core that does not obey is given up before the body runs: nothing is changed but the reset
      that is not asserted again. */
  lemma DisobedientCoreIsGivenUp(config: CoreConfig, entry: Chip, body: Chip -> BodyResult)
    requires !config.obeysHalt
    requires if InReset(config, entry) then !config.wakesHalted else !entry.halted
    ensures var end := Window(config, entry, body);
            end.raised && (forall a: nat :: Word(end.chip.memory, a) == Word(entry.memory, a)) &&
            OneFlagSet(entry.reset, end.chip.reset, config.resetFlag, false)
  {
    WithFlagSetsOne(entry.reset, config.resetFlag, false);
  }

  datatype Write = Write(address: nat, value: bv32)

  function ApplyWrites(memory: map<nat, bv32>, writes: seq<Write>): map<nat, bv32>
    decreases |writes|
  {
    if writes == [] then memory
    else ApplyWrites(memory[writes[0].address := writes[0].value], writes[1..])
  }

  /** Writes made through the window arrive as they would have without it, except at the start word
      of a core that was in reset: whatever was written there is lost. */
  lemma {:induction false} WritesArriveExceptAtTheStart(memory: map<nat, bv32>, start: nat, seen: bv32,
      writes: seq<Write>)
    ensures ApplyWrites(memory[start := seen], writes)[start := Word(memory, start)] ==
            ApplyWrites(memory, writes)[start := Word(memory, start)]
    decreases |writes|
  {
    var first := Word(memory, start);
    if writes == [] {
      assert memory[start := seen][start := first] == memory[start := first];
    } else {
      var w := writes[0];
      if w.address == start {
        assert memory[start := seen][start := w.value] == memory[start := w.value];
      } else {
        var after := memory[w.address := w.value];
        assert memory[start := seen][w.address := w.value] == after[start := seen];
        WritesArriveExceptAtTheStart(after, start, seen, writes[1..]);
      }
    }
  }

  function WriteAll(writes: seq<Write>): Chip -> BodyResult {
    (c: Chip) => BodyResult(c.(memory := ApplyWrites(c.memory, writes)), false)
  }

  /** A normal access that only writes: the cores are as before, and so is memory but for the
      writes. */
  lemma WritingThroughTheWindow(config: CoreConfig, entry: Chip, writes: seq<Write>)
    requires config.obeysHalt && config.startAddress in entry.memory
    ensures var end := Window(config, entry, WriteAll(writes)); var inReset := InReset(config, entry);
            !end.raised && SameCoreState(config, entry, end.chip) && end.chip.reset == entry.reset &&
            end.chip.memory ==
              if inReset then ApplyWrites(entry.memory,
                writes)[config.startAddress := entry.memory[config.startAddress]]
              else ApplyWrites(entry.memory, writes)
  {
    CoreStateComesBackUnlessResetIsLost(config, entry, WriteAll(writes));
    WritesArriveExceptAtTheStart(entry.memory, config.startAddress, JUMP_TO_SELF, writes);
  }

  class BabyRiscDebug {
    const config: CoreConfig
    var memory: map<nat, bv32>
    var resetRegister: bv32
    var halted: bool

    ghost function State(): Chip
      reads this
    {
      Chip(memory, resetRegister, halted)
    }

    constructor (config: CoreConfig, chip: Chip)
      ensures this.config == config && State() == chip
    {
      this.config := config;
      memory, resetRegister, halted := chip.memory, chip.reset, chip.halted;
    }

    predicate IsInReset()
      reads this
    {
      (resetRegister >> config.resetFlag) & 1 != 0
    }

    method SetResetSignal(value: bool)
      modifies this`resetRegister
      ensures resetRegister == WithFlag(old(resetRegister), config.resetFlag, value)
    {
      resetRegister := WithFlag(resetRegister, config.resetFlag, value);
    }

    /** Fails when the core is still running after the command. */
    method Halt() returns (ok: bool)
      modifies this`halted
      ensures ok == (old(halted) || config.obeysHalt) && halted == ok
    {
      if halted {
        return true;
      }
      halted := config.obeysHalt;
      ok := halted;
    }

    method Cont()
      modifies this`halted
      ensures !halted
    {
      if halted {
        halted := false;
      }
    }

    method RunBody(body: Chip -> BodyResult) returns (raised: bool)
      modifies this
      ensures BodyResult(State(), raised) == body(old(State()))
    {
      var end := body(Chip(memory, resetRegister, halted));
      memory, resetRegister, halted := end.chip.memory, end.chip.reset, end.chip.halted;
      raised := end.raised;
    }

    method EnsureHalted(body: Chip -> BodyResult) returns (raised: bool)
      modifies this
      ensures BodyResult(State(), raised) == Halted(config, old(State()), body)
    {
      var wasHalted := halted;
      if !wasHalted {
        var ok := Halt();
        if !ok {
          return true;
        }
      }
      raised := RunBody(body);
      if !wasHalted {
        Cont();
      }
    }

    /** Makes the core loop at its start address and takes it out of reset. */
    method TakeOutOfReset() returns (savedWord: bv32)
      modifies this
      ensures State() == Woken(config, old(State())) && savedWord == Word(old(memory), config.startAddress)
    {
      savedWord := Word(memory, config.startAddress);
      memory := memory[config.startAddress := JUMP_TO_SELF];
      SetResetSignal(false);
      halted := config.wakesHalted;
    }

    method EnsurePrivateMemoryAccess(body: Chip -> BodyResult) returns (raised: bool)
      modifies this
      ensures BodyResult(State(), raised) == Window(config, old(State()), body)
    {
      if !IsInReset() {
        raised := EnsureHalted(body);
      } else {
        var savedWord := TakeOutOfReset();
        raised := EnsureHalted(body);
        if !raised {
          SetResetSignal(true);
        }
        memory := memory[config.startAddress := savedWord];
      }
    }
  }
}
