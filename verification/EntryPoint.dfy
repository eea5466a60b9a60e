/** Where a core starts: the register that overrides its start address, or a jump written at the
    address that cannot be overridden. */
module EntryPoint {
  import opened Options
  import opened Registers
  import opened BitArithmetic
  import opened PrivateWindow

  datatype JumpResult = Jump(word: nat) | RegisterOutOfRange | OffsetOutOfRange

  predicate InJumpRange(offset: int) {
    -0x100000 <= offset < 0x100000
  }

  /** The instruction put together with or, from its fields in their places. */
  function Joined(bit20: nat, bits19To12: nat, bit11: nat, bits10To1: nat, rd: nat): nat {
    var jalOffset := BitOr(BitOr(BitOr(bit20, bits19To12), bit11), bits10To1);
    BitOr(BitOr(jalOffset, rd), 0x6F)
  }

  /** The same fields added up. */
  function AddedFields(bit20: nat, bits10To1: nat, bit11: nat, bits19To12: nat, rd: nat): nat {
    bit20 * 0x8000_0000 + bits19To12 * 0x1000 + bit11 * 0x10_0000 + bits10To1 * 0x20_0000 + rd * 0x80 + 0x6F
  }

  lemma JoinOne(sum: nat, shifted: nat, high: nat, low: nat, field: nat, p: nat, q: nat)
    requires IsPowerOfTwo(p) && IsPowerOfTwo(q) && low < p && field < q
    requires sum == high * (p * q) + low && shifted == field * p
    ensures BitOr(sum, shifted) == sum + shifted
  {
    OrField(high, low, field, p, q);
  }

  lemma JoinUpper(a: nat, b: nat, c: nat, d: nat, bit20: nat, bits10To1: nat, bit11: nat, bits19To12: nat)
    requires bits10To1 < 0x400 && bit11 < 0x2 && bits19To12 < 0x100
    requires a == bit20 * 0x8000_0000 && b == bits19To12 * 0x1000 && c == bit11 * 0x10_0000
    requires d == bits10To1 * 0x20_0000
    ensures BitOr(a, b) == a + b && BitOr(a + b, c) == a + b + c && BitOr(a + b + c, d) == a + b + c + d
  {
    SomePowersOfTwo();
    JoinOne(a, b, bit20, 0, bits19To12, 0x1000, 0x8_0000);
    JoinOne(a + b, c, bit20, b, bit11, 0x10_0000, 0x800);
    JoinOne(a + b + c, d, bit20, b + c, bits10To1, 0x20_0000, 0x400);
  }

  lemma JoinLower(jalOffset: nat, e: nat, upper: nat, rd: nat)
    requires jalOffset == upper * 0x1000 && e == rd * 0x80 && rd < 0x20
    ensures BitOr(jalOffset, e) == jalOffset + e && BitOr(jalOffset + e, 0x6F) == jalOffset + e + 0x6F
  {
    SomePowersOfTwo();
    JoinOne(jalOffset, e, upper, 0, rd, 0x80, 0x20);
    JoinOne(jalOffset + e, 0x6F, upper * 0x20 + rd, 0, 0x6F, 0x1, 0x80);
  }

  lemma JoinedInTurn(a: nat, b: nat, c: nat, d: nat, e: nat)
    requires BitOr(a, b) == a + b && BitOr(a + b, c) == a + b + c && BitOr(a + b + c, d) == a + b + c + d
    requires BitOr(a + b + c + d, e) == a + b + c + d + e && BitOr(a + b + c + d + e, 0x6F) == a + b + c + d + e + 0x6F
    ensures Joined(a, b, c, d, e) == a + b + c + d + e + 0x6F
  {
  }

  /** Fields that fit do not overlap. */
  lemma JoiningIsAdding(bit20: nat, bits10To1: nat, bit11: nat, bits19To12: nat, rd: nat)
    requires bits10To1 < 0x400 && bit11 < 0x2 && bits19To12 < 0x100 && rd < 0x20
    ensures Joined(bit20 * 0x8000_0000, bits19To12 * 0x1000, bit11 * 0x10_0000, bits10To1 * 0x20_0000, rd * 0x80) ==
            AddedFields(bit20, bits10To1, bit11, bits19To12, rd)
  {
    var a, b, c, d, e := bit20 * 0x8000_0000, bits19To12 * 0x1000, bit11 * 0x10_0000, bits10To1 * 0x20_0000, rd * 0x80;
    var upper := bit20 * 0x8_0000 + bits19To12 + bit11 * 0x100 + bits10To1 * 0x200;
    JoinUpper(a, b, c, d, bit20, bits10To1, bit11, bits19To12);
    JoinLower(a + b + c + d, e, upper, rd);
    JoinedInTurn(a, b, c, d, e);
  }

  /** The instruction that jumps by `offset` and links to `rd`. */
  function JumpInstruction(offset: int, rd: int): JumpResult {
    if rd < 0 || rd > 31 then RegisterOutOfRange
    else if offset < -0x100000 || offset >= 0x100000 then OffsetOutOfRange
    else
      var o := offset % 0x200000;
      Jump(AddedFields(o / 0x100000 % 0x2, o / 0x2 % 0x400, o / 0x800 % 0x2, o / 0x1000 % 0x100, rd))
  }

  /** The word of the instruction is what the fields of the offset give when put together with or. */
  lemma JumpJoinsFields(offset: int, rd: int)
    requires JumpInstruction(offset, rd).Jump?
    ensures var o := offset % 0x200000;
            JumpInstruction(offset, rd).word ==
            Joined(o / 0x100000 % 0x2 * 0x8000_0000, o / 0x1000 % 0x100 * 0x1000, o / 0x800 % 0x2 * 0x10_0000,
                   o / 0x2 % 0x400 * 0x20_0000, rd * 0x80)
  {
    var o := offset % 0x200000;
    JoiningIsAdding(o / 0x100000 % 0x2, o / 0x2 % 0x400, o / 0x800 % 0x2, o / 0x1000 % 0x100, rd);
  }

  /** The word that lets a core loop where it is. */
  lemma JumpToSelf()
    ensures JumpInstruction(0, 0) == Jump(0x6F) && JUMP_TO_SELF as nat == 0x6F
  {
  }

  /** What a core makes of a word in the J-type format: bits 31, 30-21, 20 and 19-12 are bits 20,
      10-1, 11 and 19-12 of a signed offset whose bit 0 is zero, bits 11-7 are the link register. */
  datatype Decoded = Decoded(opcode: nat, rd: nat, offset: int)

  function Decode(word: nat): Decoded {
    var bit20 := word / 0x8000_0000 % 0x2;
    var immediate := word / 0x20_0000 % 0x400 * 0x2 + word / 0x10_0000 % 0x2 * 0x800 + word / 0x1000 % 0x100 * 0x1000;
    Decoded(word % 0x80, word / 0x80 % 0x20, immediate - bit20 * 0x100000)
  }

  /** Fields packed side by side come apart again. */
  lemma PackedFields(a: nat, b: nat, c: nat, d: nat, rd: nat)
    requires a < 0x2 && b < 0x400 && c < 0x2 && d < 0x100 && rd < 0x20
    ensures var word := a * 0x8000_0000 + d * 0x1000 + c * 0x10_0000 + b * 0x20_0000 + rd * 0x80 + 0x6F;
            word % 0x80 == 0x6F && word / 0x80 % 0x20 == rd && word / 0x1000 % 0x100 == d &&
            word / 0x10_0000 % 0x2 == c && word / 0x20_0000 % 0x400 == b && word / 0x8000_0000 % 0x2 == a
  {
    var word := a * 0x8000_0000 + d * 0x1000 + c * 0x10_0000 + b * 0x20_0000 + rd * 0x80 + 0x6F;
    var bits := c + 0x2 * (b + 0x400 * a);
    assert word == 0x6F + 0x80 * (rd + 0x20 * (d + 0x100 * bits));
    assert word / 0x80 == rd + 0x20 * (d + 0x100 * bits);
    assert word / 0x1000 == d + 0x100 * bits;
    assert word / 0x10_0000 == bits;
    assert word / 0x20_0000 == b + 0x400 * a;
    assert word / 0x8000_0000 == a;
  }

  lemma OffsetBits(offset: int)
    requires InJumpRange(offset)
    ensures var o := offset % 0x200000;
            o / 0x2 % 0x400 * 0x2 + o / 0x800 % 0x2 * 0x800 + o / 0x1000 % 0x100 * 0x1000 -
            o / 0x100000 % 0x2 * 0x100000 ==
            offset - offset % 2
  {
    var o := offset % 0x200000;
    assert o == if offset < 0 then offset + 0x200000 else offset;
    var k := o / 0x2;
    var l := k / 0x400;
    var m := l / 0x2;
    assert o / 0x800 == l && o / 0x1000 == m && o / 0x100000 == m / 0x100;
    assert o % 2 == offset % 2;
  }

  /** Decoding gives the link register and the offset back, the offset without its lowest bit:
      exactly the even offsets survive. The range of offsets and registers is exactly the legal one. */
  lemma DecodingInvertsEncoding(offset: int, rd: int)
    ensures var r := JumpInstruction(offset, rd);
            (r.Jump? <==> 0 <= rd <= 31 && InJumpRange(offset)) &&
            (r.Jump? ==> r.word < 0x1_0000_0000 && Decode(r.word) == Decoded(0x6F, rd, offset - offset % 2)) &&
            (r.Jump? ==> (Decode(r.word).offset == offset <==> offset % 2 == 0))
  {
    if 0 <= rd <= 31 && InJumpRange(offset) {
      var o := offset % 0x200000;
      PackedFields(o / 0x100000 % 0x2, o / 0x2 % 0x400, o / 0x800 % 0x2, o / 0x1000 % 0x100, rd);
      OffsetBits(offset);
    }
  }

  /** How the start of a core is set up. `startRange` bounds what the start register can hold;
      there is none when it is `None`. `enableFlag` is the flag that enables the override. */
  datatype StartConfig = StartConfig(startRange: Option<nat>, enableFlag: Option<bv5>, defaultStart: Option<nat>)

  datatype StartState = StartState(start: nat, enable: bv32, memory: map<nat, nat>)

  datatype SetResult = Done | AssertionFailed | ValueError

  /** The start address, unless an assertion fails. */
  function GetStart(config: StartConfig, s: StartState): Option<nat>
  {
    if config.startRange.None? || (config.enableFlag.Some? && !Masked(s.enable, config.enableFlag.value)) then
      config.defaultStart
    else Some(s.start)
  }

  /** The register is only written when its flag has to change. */
  function Enabled(reg: bv32, k: bv5): bv32 {
    if Masked(reg, k) then reg else Added(reg, k)
  }

  function Disabled(reg: bv32, k: bv5): bv32 {
    if Masked(reg, k) then Removed(reg, k) else reg
  }

  lemma EnablingSetsOne(reg: bv32, k: bv5)
    ensures OneFlagSet(reg, Enabled(reg, k), k, true) && Masked(Enabled(reg, k), k)
  {
    MaskingTestsOne(reg, k);
    MaskingTestsOne(Enabled(reg, k), k);
    AddingSetsOne(reg, k);
  }

  lemma DisablingClearsOne(reg: bv32, k: bv5)
    ensures OneFlagSet(reg, Disabled(reg, k), k, false) && !Masked(Disabled(reg, k), k)
  {
    MaskingTestsOne(reg, k);
    MaskingTestsOne(Disabled(reg, k), k);
    RemovingClearsOne(reg, k);
  }

  function SetStart(config: StartConfig, s: StartState, address: Option<nat>): (StartState, SetResult)
  {
    if config.startRange.None? then
      if address.None? || address == config.defaultStart then (s, Done)
      else if config.defaultStart.None? then (s, AssertionFailed)
      else
        var jump := JumpInstruction(address.value - config.defaultStart.value, 0);
        if jump.Jump? then (s.(memory := s.memory[config.defaultStart.value := jump.word]), Done) else (s, ValueError)
    else if address.Some? then
      var t := if config.enableFlag.Some? then s.(enable := Enabled(s.enable, config.enableFlag.value)) else s;
      if address.value == s.start then (t, Done)
      else if address.value >= config.startRange.value then (t, ValueError)
      else (t.(start := address.value), Done)
    else if config.enableFlag.None? then (s, AssertionFailed)
    else (s.(enable := Disabled(s.enable, config.enableFlag.value)), Done)
  }

  /** A core that starts now runs the code at `address`, at once or by one jump. */
  predicate Reaches(config: StartConfig, s: StartState, address: nat)
  {
    var start := GetStart(config, s);
    start.Some? &&
    (start.value == address ||
     (start.value in s.memory &&
      Decode(s.memory[start.value]).opcode == 0x6F && Decode(s.memory[start.value]).rd == 0 &&
      start.value + Decode(s.memory[start.value]).offset == address))
  }

  /** Setting an address that can be set makes the core start there, with the one exception of an
      odd distance that has to be jumped. */
  lemma CoreReachesWhatWasSet(config: StartConfig, s: StartState, address: nat)
    requires SetStart(config, s, Some(address)).1.Done?
    ensures Reaches(config, SetStart(config, s, Some(address)).0, address) <==>
            (config.startRange.Some? || (address - config.defaultStart.value) % 2 == 0)
  {
    if config.startRange.Some? && config.enableFlag.Some? {
      EnablingSetsOne(s.enable, config.enableFlag.value);
    } else if config.startRange.None? {
      var offset := address - config.defaultStart.value;
      if offset != 0 {
        DecodingInvertsEncoding(offset, 0);
        var t := SetStart(config, s, Some(address)).0;
        assert config.defaultStart.value + Decode(t.memory[config.defaultStart.value]).offset == address - offset % 2;
      }
    }
  }

  predicate DoesNotFit(config: StartConfig, address: Option<nat>) {
    address.Some? &&
    if config.startRange.Some? then address.value >= config.startRange.value
    else config.defaultStart.Some? && !InJumpRange(address.value - config.defaultStart.value)
  }

  /** When setting fails, and what is left then: only the override can have been enabled already. */
  lemma SettingFailsExactlyWhen(config: StartConfig, s: StartState, address: Option<nat>)
    requires (config.startRange.Some? ==> s.start < config.startRange.value)
    ensures var (t, result) := SetStart(config, s, address);
            (result.ValueError? <==> DoesNotFit(config, address)) &&
            (result.AssertionFailed? <==>
              if config.startRange.Some? then address.None? && config.enableFlag.None?
              else address.Some? && config.defaultStart.None?) &&
            (!result.Done? ==> t.start == s.start && t.memory == s.memory)
  {
  }

  /** Setting touches no other flag and no other word, and setting nothing goes back to the default. */
  lemma SettingSparesTheRest(config: StartConfig, s: StartState, address: Option<nat>)
    ensures var (t, result) := SetStart(config, s, address);
            (forall j: bv5 :: config.enableFlag != Some(j) ==> Flag(t.enable, j) == Flag(s.enable, j)) &&
            (forall a: nat :: a in s.memory && config.defaultStart != Some(a) ==>
              a in t.memory && t.memory[a] == s.memory[a]) &&
            (config.startRange.Some? ==> t.memory == s.memory) &&
            (result.Done? && address.None? ==> GetStart(config, t) == config.defaultStart)
  {
    if config.enableFlag.Some? {
      EnablingSetsOne(s.enable, config.enableFlag.value);
      DisablingClearsOne(s.enable, config.enableFlag.value);
    }
  }

  /** Without a start register, going back to the default after setting `a` writes nothing: the jump
      to `a` stays in the start word, so the core still ends there. */
  lemma JumpStaysBehind(config: StartConfig, s: StartState, a: nat, back: Option<nat>)
    requires config.startRange.None? && SetStart(config, s, Some(a)).1.Done? && config.defaultStart != Some(a)
    requires back.None? || back == config.defaultStart
    ensures var t, start := SetStart(config, s, Some(a)).0, config.defaultStart.value;
            SetStart(config, t, back) == (t, Done) && GetStart(config, t) == Some(start) &&
            start in t.memory && JumpInstruction(a - start, 0) == Jump(t.memory[start]) &&
            (Reaches(config, t, a) <==> (a - start) % 2 == 0)
  {
    CoreReachesWhatWasSet(config, s, a);
  }

  class BabyRiscInfo {
    const config: StartConfig
    var startRegister: nat
    var enableRegister: bv32
    var memory: map<nat, nat>

    ghost function State(): StartState
      reads this
    {
      StartState(startRegister, enableRegister, memory)
    }

    constructor (config: StartConfig, s: StartState)
      ensures this.config == config && State() == s
    {
      this.config := config;
      startRegister, enableRegister, memory := s.start, s.enable, s.memory;
    }

    method GetCodeStartAddress() returns (address: Option<nat>)
        ensures address == GetStart(config, State())
    {
      var overrideEnabled := config.startRange.Some?;
      if overrideEnabled && config.enableFlag.Some? {
        if !Masked(enableRegister, config.enableFlag.value) {
          overrideEnabled := false;
        }
      }
      address := if overrideEnabled then Some(startRegister) else config.defaultStart;
    }

    /** The register takes no value that does not fit its mask. */
    method WriteStartRegister(value: nat) returns (ok: bool)
      requires config.startRange.Some?
      modifies this`startRegister
      ensures ok == (value < config.startRange.value)
      ensures startRegister == if ok then value else old(startRegister)
    {
      ok := value < config.startRange.value;
      if ok {
        startRegister := value;
      }
    }

    method SetCodeStartAddress(address: Option<nat>) returns (result: SetResult)
        modifies this
      ensures (State(), result) == SetStart(config, old(State()), address)
    {
      if config.startRange.None? {
        if address.None? || address == config.defaultStart {
          return Done;
        }
        if config.defaultStart.None? {
          return AssertionFailed;
        }
        var jump := JumpInstruction(address.value - config.defaultStart.value, 0);
        if !jump.Jump? {
          return ValueError;
        }
        memory := memory[config.defaultStart.value := jump.word];
      } else if address.Some? {
        if config.enableFlag.Some? {
          if !Masked(enableRegister, config.enableFlag.value) {
            enableRegister := Added(enableRegister, config.enableFlag.value);
          }
        }
        if address.value != startRegister {
          var ok := WriteStartRegister(address.value);
          if !ok {
            return ValueError;
          }
        }
      } else {
        if config.enableFlag.None? {
          return AssertionFailed;
        }
        if Masked(enableRegister, config.enableFlag.value) {
          enableRegister := Removed(enableRegister, config.enableFlag.value);
        }
      }
      return Done;
    }
  }
}
