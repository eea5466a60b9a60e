/** Debug bus signals: read one by one, or cut out of one 128-bit sample of their group. */
module DebugBus {
  import opened Options
  import opened Bits
  import opened BitArithmetic

  type Word = w: seq<bool> | |w| == 32 witness seq(32, _ => false)
  type Sample = s: seq<bool> | |s| == 128 witness seq(128, _ => false)
  type ReadSelect = k: nat | k < 4

  /** A word shifted left to its place in a sample. */
  function Place(word: Word, k: ReadSelect): (r: Sample)
    ensures forall i :: 0 <= i < 128 ==> r[i] == (32 * k <= i < 32 * k + 32 && word[i - 32 * k])
  {
    Zeros(32 * k) + word + Zeros(96 - 32 * k)
  }

  /** The first `n` words put together. */
  function Assemble(words: seq<Word>): (r: Sample)
    requires |words| <= 4
    ensures forall i :: 0 <= i < 128 ==> r[i] == (i / 32 < |words| && words[i / 32][i % 32])
  {
    if words == [] then Zeros(128)
    else Or(Assemble(words[..|words| - 1]), Place(words[|words| - 1], |words| - 1))
  }

  /** Where a signal sits in a sample; the shift is negative when no bit is used. */
  datatype ShiftMask = ShiftMask(shift: int, mask: seq<bool>)

  function At(mask: seq<bool>): ShiftMask {
    ShiftMask(LowestBit(mask), mask)
  }

  /** Cuts a signal out of the raw data; a negative shift is an error. */
  function Extract(data: seq<bool>, at: ShiftMask): Option<seq<bool>>
    requires |at.mask| == |data| && at.shift <= |data|
  {
    if at.shift < 0 then None else Some(ShiftRight(And(data, at.mask), at.shift))
  }

  /** The value of a signal whose word was read on its own, widened to compare it with samples. */
  function DirectValue(word: Word, mask: Word): Option<seq<bool>> {
    var value := Extract(word, At(mask));
    if value.None? then None else Some(value.value + Zeros(96))
  }

  lemma LowestBitAtPlace(mask: Word, k: ReadSelect)
    ensures LowestBit(Place(mask, k)) == if LowestBit(mask) < 0 then -1 else LowestBit(mask) + 32 * k
  {
    var low, placed := LowestBit(mask), Place(mask, k);
    LowestBitIsLowest(mask);
    LowestBitIsLowest(placed);
    assert IsLowest(placed, if low < 0 then -1 else low + 32 * k);
    LowestIsUnique(placed, LowestBit(placed), if low < 0 then -1 else low + 32 * k);
  }

  /** Masking a sample at the place of one word leaves that word, masked, at its place. */
  lemma MaskedSample(words: seq<Word>, mask: Word, k: ReadSelect)
    requires |words| == 4
    ensures And(Assemble(words), Place(mask, k)) == Place(And(words[k], mask), k)
  {
  }

  lemma ShiftBack(word: Word, k: ReadSelect, low: nat)
    requires low < 32
    ensures ShiftRight(Place(word, k), low + 32 * k) == ShiftRight(word, low) + Zeros(96)
  {
  }

  /** Cutting a one-part signal out of the sample gives what reading it directly gives, for every
      mask, place and sample; both fail for the empty mask. */
  lemma OnePartAgrees(words: seq<Word>, mask: Word, k: ReadSelect)
    requires |words| == 4
    ensures Extract(Assemble(words), At(Place(mask, k))) == DirectValue(words[k], mask)
  {
    LowestBitAtPlace(mask, k);
    MaskedSample(words, mask, k);
    if LowestBit(mask) >= 0 {
      ShiftBack(And(words[k], mask), k, LowestBit(mask));
    }
  }

  datatype Signal = Signal(name: string, readSelect: ReadSelect, daisySelect: nat, signalSelect: nat, mask: Word,
      acrossGroups: bool) {
    predicate In(daisy: nat, signal: nat) {
      !acrossGroups && daisySelect == daisy && signalSelect == signal
    }
  }

  /** The name up to the first slash, if there is one. */
  function BaseName(name: string): string {
    if name == [] || name[0] == '/' then [] else [name[0]] + BaseName(name[1..])
  }

  /** That is the name up to the first slash, or the whole name. */
  lemma {:induction false} BaseNameEndsAtSlash(name: string)
    ensures '/' !in BaseName(name) && BaseName(name) <= name &&
            (|BaseName(name)| < |name| ==> name[|BaseName(name)|] == '/')
  {
    if name != [] && name[0] != '/' {
      BaseNameEndsAtSlash(name[1..]);
    }
  }

  /** The signals of a group that are parts of `base`, in order. */
  function Parts(signals: seq<Signal>, daisy: nat, signal: nat, base: string): (r: seq<Signal>)
    ensures forall s <- r :: s in signals && s.In(daisy, signal) && BaseName(s.name) == base
  {
    if signals == [] then []
    else
      var last := signals[|signals| - 1];
      var before := Parts(signals[..|signals| - 1], daisy, signal, base);
      if last.In(daisy, signal) && BaseName(last.name) == base then before + [last] else before
  }

  /** All parts at their places. */
  function Combined(parts: seq<Signal>): Sample {
    if parts == [] then Zeros(128)
    else Or(Combined(parts[..|parts| - 1]), Place(parts[|parts| - 1].mask, parts[|parts| - 1].readSelect))
  }

  /** What every part reads on its own, masked and put at its place. */
  function PartsRead(parts: seq<Signal>, words: seq<Word>): Sample
    requires |words| == 4
  {
    if parts == [] then Zeros(128)
    else
      var last := parts[|parts| - 1];
      Or(PartsRead(parts[..|parts| - 1], words), Place(And(words[last.readSelect], last.mask), last.readSelect))
  }

  /** A signal is one of the parts exactly when it is selected by the group's two numbers, is not read
      across groups, and has the base name. */
  lemma {:induction false} PartsExactly(signals: seq<Signal>, daisy: nat, signal: nat, base: string, s: Signal)
    ensures s in Parts(signals, daisy, signal, base) <==>
            s in signals && s.acrossGroups == false && s.daisySelect == daisy && s.signalSelect == signal &&
            BaseName(s.name) == base
    decreases |signals|
  {
    if signals != [] {
      PartsExactly(signals[..|signals| - 1], daisy, signal, base, s);
    }
  }

  lemma {:induction false} MaskedParts(parts: seq<Signal>, words: seq<Word>)
    requires |words| == 4
    ensures And(Assemble(words), Combined(parts)) == PartsRead(parts, words)
    decreases |parts|
  {
    if parts != [] {
      var last := parts[|parts| - 1];
      MaskedParts(parts[..|parts| - 1], words);
      MaskedSample(words, last.mask, last.readSelect);
      AndOverOr(Assemble(words), Combined(parts[..|parts| - 1]), Place(last.mask, last.readSelect));
    }
  }

  lemma AndOverOr(a: Sample, b: Sample, c: Sample)
    ensures And(a, Or(b, c)) == Or(And(a, b), And(a, c))
  {
  }

  /** A signal of several parts is its parts, read one by one, put at their places and shifted down
      to the lowest bit that any part uses. */
  lemma PartsAgree(parts: seq<Signal>, words: seq<Word>)
    requires |words| == 4
    ensures var at := At(Combined(parts));
            IsLowest(Combined(parts), at.shift) &&
            Extract(Assemble(words), at) == if at.shift < 0 then None
              else Some(ShiftRight(PartsRead(parts, words), at.shift))
  {
    LowestBitIsLowest(Combined(parts));
    MaskedParts(parts, words);
  }

  datatype Group = Group(name: string, daisySelect: nat, signalSelect: nat)

  /** What is stored for one base name. */
  ghost predicate IsStored(group: map<string, ShiftMask>, base: string, parts: seq<Signal>) {
    (base in group <==> parts != []) && (base in group ==> group[base] == At(Combined(parts)))
  }

  /** What is stored for a group: one place for each base name that has a part in it. */
  ghost predicate IsGroup(group: map<string, ShiftMask>, signals: seq<Signal>, daisy: nat, signal: nat) {
    forall base: string :: IsStored(group, base, Parts(signals, daisy, signal, base))
  }

  /** The part names collected for a combined signal. */
  function PartNames(signals: seq<Signal>, daisy: nat, signal: nat, base: string): seq<string> {
    if signals == [] then []
    else
      var last := signals[|signals| - 1];
      var before := PartNames(signals[..|signals| - 1], daisy, signal, base);
      if last.In(daisy, signal) && '/' in last.name && BaseName(last.name) == base then before + [last.name] else before
  }

  function AllPartNames(groups: seq<Group>, signals: seq<Signal>, base: string): seq<string> {
    if groups == [] then []
    else
      var last := groups[|groups| - 1];
      AllPartNames(groups[..|groups| - 1], signals, base) +
      PartNames(signals, last.daisySelect, last.signalSelect, base)
  }

  function NamesFor(combined: map<string, seq<string>>, base: string): seq<string> {
    if base in combined then combined[base] else []
  }

  ghost predicate IsCombined(combined: map<string, seq<string>>, before: map<string, seq<string>>, signals: seq<Signal>,
      daisy: nat, signal: nat) {
    forall base: string ::
      NamesFor(combined, base) == NamesFor(before, base) + PartNames(signals, daisy, signal, base)
  }

  lemma PartsGrow(seen: seq<Signal>, s: Signal, daisy: nat, signal: nat, base: string)
    ensures var before, all := Parts(seen, daisy, signal, base), seen + [s];
            var isPart := s.In(daisy, signal) && BaseName(s.name) == base;
            Parts(all, daisy, signal, base) == if isPart then before + [s] else before
  {
    var all := seen + [s];
    assert all[..|all| - 1] == seen;
  }

  lemma PartNamesGrow(seen: seq<Signal>, s: Signal, daisy: nat, signal: nat, base: string)
    ensures var before, all := PartNames(seen, daisy, signal, base), seen + [s];
            var isPart := s.In(daisy, signal) && '/' in s.name && BaseName(s.name) == base;
            PartNames(all, daisy, signal, base) == if isPart then before + [s.name] else before
  {
    var all := seen + [s];
    assert all[..|all| - 1] == seen;
  }

  lemma CombinedGrowsByOne(parts: seq<Signal>, s: Signal)
    ensures Combined(parts + [s]) == Or(Combined(parts), Place(s.mask, s.readSelect))
  {
    assert (parts + [s])[..|parts|] == parts;
  }

  /** The mask collected for a base name so far. */
  function MaskFor(group: map<string, ShiftMask>, base: string): seq<bool> {
    if base in group then group[base].mask else Zeros(128)
  }

  /** Adds a signal to the mask of its base name. */
  function WithSignal(group: map<string, ShiftMask>, s: Signal): map<string, ShiftMask>
    requires |MaskFor(group, BaseName(s.name))| == 128
  {
    group[BaseName(s.name) := At(Or(MaskFor(group, BaseName(s.name)), Place(s.mask, s.readSelect)))]
  }

  function WithName(combined: map<string, seq<string>>, s: Signal): map<string, seq<string>> {
    combined[BaseName(s.name) := NamesFor(combined, BaseName(s.name)) + [s.name]]
  }

  lemma StoredGrows(group: map<string, ShiftMask>, parts: seq<Signal>, s: Signal)
    requires IsStored(group, BaseName(s.name), parts)
    ensures |MaskFor(group, BaseName(s.name))| == 128 && IsStored(WithSignal(group, s), BaseName(s.name), parts + [s])
  {
    CombinedGrowsByOne(parts, s);
    assert MaskFor(group, BaseName(s.name)) == Combined(parts);
  }

  lemma OthersStay(group: map<string, ShiftMask>, s: Signal, base: string, parts: seq<Signal>)
    requires |MaskFor(group, BaseName(s.name))| == 128 && IsStored(group, base, parts) && base != BaseName(s.name)
    ensures IsStored(WithSignal(group, s), base, parts)
  {
  }

  lemma GroupGrows(group: map<string, ShiftMask>, seen: seq<Signal>, s: Signal, daisy: nat, signal: nat)
    requires IsGroup(group, seen, daisy, signal)
    ensures |MaskFor(group, BaseName(s.name))| == 128
    ensures IsGroup(if s.In(daisy, signal) then WithSignal(group, s) else group, seen + [s], daisy, signal)
  {
    var name := BaseName(s.name);
    assert IsStored(group, name, Parts(seen, daisy, signal, name));
    StoredGrows(group, Parts(seen, daisy, signal, name), s);
    var grown := if s.In(daisy, signal) then WithSignal(group, s) else group;
    forall base: string ensures IsStored(grown, base, Parts(seen + [s], daisy, signal, base)) {
      assert IsStored(group, base, Parts(seen, daisy, signal, base));
      PartsGrow(seen, s, daisy, signal, base);
      if s.In(daisy, signal) && base != name {
        OthersStay(group, s, base, Parts(seen, daisy, signal, base));
      }
    }
  }

  lemma NamesGrow(combined: map<string, seq<string>>, before: map<string, seq<string>>, seen: seq<Signal>, s: Signal,
      daisy: nat, signal: nat)
    requires IsCombined(combined, before, seen, daisy, signal)
    ensures IsCombined(if s.In(daisy, signal) && '/' in s.name then WithName(combined, s) else combined,
                       before, seen + [s], daisy, signal)
  {
    var grown := if s.In(daisy, signal) && '/' in s.name then WithName(combined, s) else combined;
    forall base: string
      ensures NamesFor(grown, base) == NamesFor(before, base) + PartNames(seen + [s], daisy, signal, base)
    {
      PartNamesGrow(seen, s, daisy, signal, base);
      Associative(NamesFor(before, base), PartNames(seen, daisy, signal, base), [s.name]);
    }
  }

  lemma Associative(a: seq<string>, b: seq<string>, c: seq<string>)
    ensures a + b + c == a + (b + c)
  {
  }

  method AddName(combined: map<string, seq<string>>, s: Signal) returns (names: map<string, seq<string>>)
    ensures names == WithName(combined, s)
  {
    var base := BaseName(s.name);
    names := combined;
    if base !in names {
      names := names[base := []];
    }
    names := names[base := names[base] + [s.name]];
  }

  /** Adds one signal to the group being built and to the part names collected. */
  method AddSignal(group: map<string, ShiftMask>, combined: map<string, seq<string>>, s: Signal, daisy: nat,
      signal: nat)
    returns (grown: map<string, ShiftMask>, names: map<string, seq<string>>)
    requires |MaskFor(group, BaseName(s.name))| == 128
    ensures grown == if s.In(daisy, signal) then WithSignal(group, s) else group
    ensures names == if s.In(daisy, signal) && '/' in s.name then WithName(combined, s) else combined
  {
    grown, names := group, combined;
    if s.acrossGroups {
      return;
    }
    if s.daisySelect == daisy && s.signalSelect == signal {
      grown := WithSignal(group, s);
      if '/' in s.name {
        names := AddName(combined, s);
      }
    }
  }

  /** Builds one group, adding the part names it finds to `before`. */
  method BuildGroup(signals: seq<Signal>, daisy: nat, signal: nat, before: map<string, seq<string>>)
    returns (group: map<string, ShiftMask>, combined: map<string, seq<string>>)
    ensures IsGroup(group, signals, daisy, signal)
    ensures IsCombined(combined, before, signals, daisy, signal)
  {
    group, combined := map[], before;
    ghost var seen: seq<Signal> := [];
    NothingSeen(before, daisy, signal);
    var i := 0;
    while i < |signals|
      invariant i <= |signals| && seen == signals[..i]
      invariant IsGroup(group, seen, daisy, signal) && IsCombined(combined, before, seen, daisy, signal)
    {
      GroupGrows(group, seen, signals[i], daisy, signal);
      NamesGrow(combined, before, seen, signals[i], daisy, signal);
      group, combined := AddSignal(group, combined, signals[i], daisy, signal);
      seen := seen + [signals[i]];
      i := i + 1;
    }
    assert seen == signals;
  }

  lemma NothingSeen(before: map<string, seq<string>>, daisy: nat, signal: nat)
    ensures IsGroup(map[], [], daisy, signal) && IsCombined(before, before, [], daisy, signal)
  {
  }

  function NamesOf(groups: seq<Group>): set<string> {
    if groups == [] then {} else NamesOf(groups[..|groups| - 1]) + {groups[|groups| - 1].name}
  }

  /** Every group is stored under its own name, and nothing else is. */
  ghost predicate AreGroups(signalGroups: map<string, map<string, ShiftMask>>, groups: seq<Group>,
      signals: seq<Signal>) {
    signalGroups.Keys == NamesOf(groups) &&
    forall g <- groups ::
      g.name in signalGroups && IsGroup(signalGroups[g.name], signals, g.daisySelect, g.signalSelect)
  }

  lemma {:induction false} NameIsNew(groups: seq<Group>, name: string)
    requires forall g <- groups :: g.name != name
    ensures name !in NamesOf(groups)
    decreases |groups|
  {
    if groups != [] {
      NameIsNew(groups[..|groups| - 1], name);
    }
  }

  lemma GroupsGrow(signalGroups: map<string, map<string, ShiftMask>>, groups: seq<Group>, signals: seq<Signal>,
      g: Group, group: map<string, ShiftMask>)
    requires AreGroups(signalGroups, groups, signals) && forall h <- groups :: h.name != g.name
    requires IsGroup(group, signals, g.daisySelect, g.signalSelect)
    ensures AreGroups(signalGroups[g.name := group], groups + [g], signals)
  {
  }

  ghost predicate AreAllNames(combined: map<string, seq<string>>, groups: seq<Group>, signals: seq<Signal>) {
    forall base: string :: NamesFor(combined, base) == AllPartNames(groups, signals, base)
  }

  lemma AllNamesGrow(combined: map<string, seq<string>>, groups: seq<Group>, signals: seq<Signal>, g: Group,
      names: map<string, seq<string>>)
    requires AreAllNames(combined, groups, signals)
    requires IsCombined(names, combined, signals, g.daisySelect, g.signalSelect)
    ensures AreAllNames(names, groups + [g], signals)
  {
  }

  /** Stores every group under its name, and collects the part names of combined signals group by
      group. */
  method CreateInitialization(groups: seq<Group>, signals: seq<Signal>)
    returns (signalGroups: map<string, map<string, ShiftMask>>, combined: map<string, seq<string>>)
    requires forall i, j :: 0 <= i < j < |groups| ==> groups[i].name != groups[j].name
    ensures AreGroups(signalGroups, groups, signals)
    ensures AreAllNames(combined, groups, signals)
  {
    signalGroups, combined := map[], map[];
    assert AreGroups(signalGroups, [], signals) && AreAllNames(combined, [], signals);
    var n := 0;
    while n < |groups|
      invariant n <= |groups|
      invariant AreGroups(signalGroups, groups[..n], signals)
      invariant AreAllNames(combined, groups[..n], signals)
    {
      var g := groups[n];
      assert forall h <- groups[..n] :: h.name != g.name;
      var group, names := BuildGroup(signals, g.daisySelect, g.signalSelect, combined);
      GroupsGrow(signalGroups, groups[..n], signals, g, group);
      AllNamesGrow(combined, groups[..n], signals, g, names);
      assert groups[..n + 1] == groups[..n] + [g];
      signalGroups, combined := signalGroups[g.name := group], names;
      n := n + 1;
    }
    assert groups[..n] == groups;
  }

  /** The control word that selects what the data register shows: the fields added up. */
  function Config(k: nat, daisy: nat, signal: nat): nat {
    0x2000_0000 + k * 0x200_0000 + daisy * 0x1_0000 + signal
  }

  lemma JoinWordSelect(k: nat)
    requires k <= 3
    ensures BitOr(0x2000_0000, k * 0x200_0000) == Config(k, 0, 0)
  {
    SomePowersOfTwo();
    OrField(1, 0, k, 0x200_0000, 0x10);
  }

  lemma JoinDaisySelect(k: nat, daisy: nat, word: nat)
    requires k <= 3 && daisy <= 255 && word == Config(k, 0, 0)
    ensures BitOr(word, daisy * 0x1_0000) == Config(k, daisy, 0)
  {
    SomePowersOfTwo();
    OrField(0x10 + k, 0, daisy, 0x1_0000, 0x200);
  }

  lemma JoinSignal(k: nat, daisy: nat, signal: nat, word: nat)
    requires signal <= 65535 && word == Config(k, daisy, 0)
    ensures BitOr(word, signal) == Config(k, daisy, signal)
  {
    SomePowersOfTwo();
    OrField(0x2000 + k * 0x200 + daisy, 0, signal, 0x1, 0x1_0000);
  }

  /** The fields do not overlap: putting them together with or adds them up. */
  lemma ConfigJoinsFields(k: nat, daisy: nat, signal: nat)
    requires k <= 3 && daisy <= 255 && signal <= 65535
    ensures BitOr(BitOr(BitOr(0x2000_0000, k * 0x200_0000), daisy * 0x1_0000), signal) == Config(k, daisy, signal)
  {
    JoinWordSelect(k);
    JoinDaisySelect(k, daisy, Config(k, 0, 0));
    JoinSignal(k, daisy, signal, Config(k, daisy, 0));
  }

  /** No two selections share a control word. */
  lemma ConfigIsInjective(k: nat, daisy: nat, signal: nat, k': nat, daisy': nat, signal': nat)
    requires k <= 3 && daisy <= 255 && signal <= 65535 && k' <= 3 && daisy' <= 255 && signal' <= 65535
    ensures Config(k, daisy, signal) == Config(k', daisy', signal') <==> k == k' && daisy == daisy' && signal == signal'
  {
  }

  lemma StoredMasksFit(group: map<string, ShiftMask>, signals: seq<Signal>, daisy: nat, signal: nat, base: string)
    requires IsGroup(group, signals, daisy, signal) && base in group
    ensures |group[base].mask| == 128 && group[base].shift <= 128
  {
    assert IsStored(group, base, Parts(signals, daisy, signal, base));
  }

  /** A one-part signal, cut out of a sample at its stored place, has the value that reading it gives. */
  lemma StoredAgrees(group: map<string, ShiftMask>, signals: seq<Signal>, s: Signal, words: seq<Word>)
    requires IsGroup(group, signals, s.daisySelect, s.signalSelect) && |words| == 4
    requires Parts(signals, s.daisySelect, s.signalSelect, BaseName(s.name)) == [s]
    ensures var base := BaseName(s.name);
            base in group && |group[base].mask| == 128 && group[base].shift <= 128 &&
            Extract(Assemble(words), group[base]) == DirectValue(words[s.readSelect], s.mask)
  {
    OnePartAgrees(words, s.mask, s.readSelect);
    CombinedOfOne(s);
    assert IsStored(group, BaseName(s.name), [s]);
  }

  /** The debug bus as seen through its two registers: `bus` says what the data register shows for
      each control word. */
  class DebugBusSignalStore {
    const bus: nat -> Word
    var control: nat

    constructor (bus: nat -> Word)
      ensures this.bus == bus
    {
      this.bus := bus;
      control := 0;
    }

    function WordsOf(daisy: nat, signal: nat): seq<Word> {
      [bus(Config(0, daisy, signal)), bus(Config(1, daisy, signal)),
       bus(Config(2, daisy, signal)), bus(Config(3, daisy, signal))]
    }

    method ReadSignalData(k: nat, daisy: nat, signal: nat) returns (word: Word)
      modifies this
      ensures word == bus(Config(k, daisy, signal)) && control == Config(k, daisy, signal)
    {
      control := Config(k, daisy, signal);
      word := bus(control);
    }

    /** Fails when no bit of the signal is used. */
    method ReadSignal(s: Signal) returns (value: Option<seq<bool>>)
      modifies this
      ensures value == Extract(bus(Config(s.readSelect, s.daisySelect, s.signalSelect)), At(s.mask))
    {
      var data := ReadSignalData(s.readSelect, s.daisySelect, s.signalSelect);
      var shift := LowestBit(s.mask);
      if shift < 0 {
        return None;
      }
      value := Some(ShiftRight(And(data, s.mask), shift));
    }

    method ReadSignalGroupUnsafe(daisy: nat, signal: nat) returns (data: Sample)
      modifies this
      ensures data == Assemble(WordsOf(daisy, signal))
    {
      data := Zeros(128);
      ghost var words := WordsOf(daisy, signal);
      for k := 0 to 4
        invariant data == Assemble(words[..k])
      {
        var word := ReadSignalData(k, daisy, signal);
        assert words[..k + 1][..k] == words[..k] && words[k] == word;
        data := Or(data, Place(word, k));
      }
      assert words[..4] == words;
    }

    /** Bit i of a sample is bit i % 32 of what the bus shows for word i / 32 of the group. */
    lemma SampleByBit(daisy: nat, signal: nat, i: nat)
      requires i < 128
      ensures Assemble(WordsOf(daisy, signal))[i] == bus(Config(i / 32, daisy, signal))[i % 32]
    {
    }

    /** Samples the group of a signal and cuts the signal out. */
    method ReadSampled(signals: seq<Signal>, s: Signal) returns (sampled: Option<seq<bool>>)
      modifies this
      ensures Parts(signals, s.daisySelect, s.signalSelect, BaseName(s.name)) == [s] ==>
                sampled == DirectValue(WordsOf(s.daisySelect, s.signalSelect)[s.readSelect], s.mask)
    {
      var group, _ := BuildGroup(signals, s.daisySelect, s.signalSelect, map[]);
      var data := ReadSignalGroupUnsafe(s.daisySelect, s.signalSelect);
      var base := BaseName(s.name);
      if Parts(signals, s.daisySelect, s.signalSelect, base) == [s] {
        StoredAgrees(group, signals, s, WordsOf(s.daisySelect, s.signalSelect));
      }
      if base !in group {
        return None;
      }
      StoredMasksFit(group, signals, s.daisySelect, s.signalSelect, base);
      sampled := Extract(data, group[base]);
    }

    lemma WordOf(daisy: nat, signal: nat, k: ReadSelect)
      ensures WordsOf(daisy, signal)[k] == bus(Config(k, daisy, signal))
    {
    }

    /** A one-part signal has the same value in a sample of its group and when it is read directly. */
    method SampleAndSignalAgree(signals: seq<Signal>, s: Signal)
      returns (sampled: Option<seq<bool>>, direct: Option<seq<bool>>)
      modifies this
      ensures Parts(signals, s.daisySelect, s.signalSelect, BaseName(s.name)) == [s] ==>
                (sampled.Some? <==> direct.Some?) && (direct.Some? ==> sampled.value == direct.value + Zeros(96))
    {
      sampled := ReadSampled(signals, s);
      direct := ReadSignal(s);
      WordOf(s.daisySelect, s.signalSelect, s.readSelect);
    }
  }

  lemma CombinedOfOne(s: Signal)
    ensures Combined([s]) == Place(s.mask, s.readSelect)
  {
  }
}
