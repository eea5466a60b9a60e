/** The watchpoint table of a core: from the Z and z packets down to the settings register, in
    which four bits describe each slot. */
module Watchpoints {
  import opened Options
  import opened Nibbles

  const MAX_SLOTS: nat := 8

  /** A 32-bit register value. */
  type Word = x: nat | x < 0x1_0000_0000

  // ----- The settings register

  /** Writing the four bits of slot i puts the value at its place in the register, as a number, and
      leaves the seven other slots as they are. */
  lemma SettingOneSlot(settings: Word, i: nat, value: nat)
    requires i < 8 && value < 16
    ensures var r := WithNibble(settings, i, value);
            r < 0x1_0000_0000 && r / Pow16(i) % 16 == value &&
            forall j: nat {:trigger Pow16(j)} :: j < 8 && j != i ==> r / Pow16(j) % 16 == settings / Pow16(j) % 16
  {
    PowersOf16();
    WithNibbleSetsOne(settings, i, value, 8);
    var r := WithNibble(settings, i, value);
    NibbleIsDigit(r, i);
    forall j: nat {:trigger Pow16(j)} | j < 8 && j != i ensures r / Pow16(j) % 16 == settings / Pow16(j) % 16 {
      NibbleIsDigit(r, j);
      NibbleIsDigit(settings, j);
    }
  }

  datatype Kind = Pc | Read | Write | Access

  const ENABLED: nat := 8

  function KindBits(kind: Kind): nat {
    match kind
    case Pc => 0
    case Read => 1
    case Write => 2
    case Access => 3
  }

  /** What four bits say about a slot: bit 0 is for reads, bit 1 for writes, bit 3 enables. */
  function KindOf(bits: nat): Kind {
    if bits % 4 == 0 then Pc
    else if bits % 2 == 1 && bits / 2 % 2 == 1 then Access
    else if bits % 2 == 1 then Read
    else Write
  }

  predicate IsEnabled(bits: nat) {
    bits / ENABLED % 2 == 1
  }

  /** The settings by number: what is written for each kind, and what is read for each number. */
  lemma SettingsByNumber(kind: Kind, bits: nat)
    requires bits < 16
    ensures ENABLED + KindBits(kind) ==
            if kind == Pc then 8 else if kind == Read then 9 else if kind == Write then 10 else 11
    ensures IsEnabled(bits) <==> bits >= 8
    ensures KindOf(bits) == [Pc, Read, Write, Access][bits % 4]
  {
  }

  lemma SettingDecodes(kind: Kind)
    ensures IsEnabled(ENABLED + KindBits(kind)) && KindOf(ENABLED + KindBits(kind)) == kind
    ensures ENABLED + KindBits(kind) <= 15
  {
  }

  // ----- The table

  datatype Slot = Slot(enabled: bool, kind: Kind, address: Word)

  type Table = seq<Slot>

  /** A packet about slots of one kind also accepts some others. */
  predicate Accepts(asked: Kind, kind: Kind) {
    asked == kind || (kind == Access && (asked == Read || asked == Write))
  }

  predicate Hit(s: Slot, asked: Kind, address: nat) {
    s.enabled && Accepts(asked, s.kind) && s.address == address
  }

  /** The lowest slot from `i` on that a packet is about. */
  function FindHit(t: Table, asked: Kind, address: nat, i: nat): (r: Option<nat>)
    requires i <= |t|
    ensures r.None? ==> forall k :: i <= k < |t| ==> !Hit(t[k], asked, address)
    ensures r.Some? ==> i <= r.value < |t| && Hit(t[r.value], asked, address) &&
                        forall k :: i <= k < r.value ==> !Hit(t[k], asked, address)
    decreases |t| - i
  {
    if i == |t| then None
    else if Hit(t[i], asked, address) then Some(i)
    else FindHit(t, asked, address, i + 1)
  }

  function FindFree(t: Table, i: nat): (r: Option<nat>)
    requires i <= |t|
    ensures r.None? ==> forall k :: i <= k < |t| ==> t[k].enabled
    ensures r.Some? ==> i <= r.value < |t| && !t[r.value].enabled && forall k :: i <= k < r.value ==> t[k].enabled
    decreases |t| - i
  {
    if i == |t| then None
    else if !t[i].enabled then Some(i)
    else FindFree(t, i + 1)
  }

  /** Slot i is the lowest that is not enabled. */
  predicate FreeAt(t: Table, i: nat) {
    i < |t| && !t[i].enabled && forall k :: 0 <= k < i ==> t[k].enabled
  }

  /** Empty is the reply that nothing has been written for. */
  datatype Reply = Ok | Error | Empty | Exception

  datatype Done = Done(reply: Reply, table: Table)

  /** A Z packet. An address that does not fit a register raises before anything is written. */
  function Insert(t: Table, kind: Kind, address: Option<nat>): Done {
    if address.None? then Done(Error, t)
    else if FindHit(t, kind, address.value, 0).Some? then Done(Ok, t)
    else
      var free := FindFree(t, 0);
      if free.None? then Done(Error, t)
      else if address.value >= 0x1_0000_0000 then Done(Exception, t)
      else Done(Ok, t[free.value := Slot(true, kind, address.value)])
  }

  /** A z packet. Disabling a slot clears its four bits and leaves its address. */
  function Remove(t: Table, kind: Kind, address: Option<nat>): Done {
    if address.None? || FindHit(t, kind, address.value, 0).None? then Done(Empty, t)
    else
      var i := FindHit(t, kind, address.value, 0).value;
      Done(Ok, t[i := Slot(false, Pc, t[i].address)])
  }

  // ----- What the table means

  type Entry = (Kind, nat)

  function Entries(t: Table): (r: set<Entry>)
    ensures forall k, a :: (k, a) in r <==>
            exists i :: 0 <= i < |t| && t[i].enabled && t[i].kind == k && t[i].address == a
  {
    set i | 0 <= i < |t| && t[i].enabled :: (t[i].kind, t[i].address)
  }

  /** No two enabled slots are of the same kind at the same address. */
  ghost predicate NoDuplicates(t: Table) {
    forall i, j :: 0 <= i < j < |t| && t[i].enabled && t[j].enabled ==>
      t[i].kind != t[j].kind || t[i].address != t[j].address
  }

  lemma {:induction false} EntriesAfterEnabling(t: Table, i: nat, s: Slot)
    requires i < |t| && !t[i].enabled && s.enabled
    ensures Entries(t[i := s]) == Entries(t) + {(s.kind, s.address)}
  {
    var t' := t[i := s];
    forall k, a ensures (k, a) in Entries(t') <==> (k, a) in Entries(t) + {(s.kind, s.address)} {
      if (k, a) in Entries(t) {
        var j :| 0 <= j < |t| && t[j].enabled && t[j].kind == k && t[j].address == a;
        assert t'[j] == t[j];
      }
      if (k, a) == (s.kind, s.address) {
        assert t'[i].enabled;
      }
    }
  }

  lemma {:induction false} EntriesAfterDisabling(t: Table, i: nat, s: Slot)
    requires i < |t| && t[i].enabled && !s.enabled && NoDuplicates(t)
    ensures Entries(t[i := s]) == Entries(t) - {(t[i].kind, t[i].address)}
  {
    var t' := t[i := s];
    forall k, a ensures (k, a) in Entries(t') <==> (k, a) in Entries(t) - {(t[i].kind, t[i].address)} {
      if (k, a) in Entries(t) && (k, a) != (t[i].kind, t[i].address) {
        var j :| 0 <= j < |t| && t[j].enabled && t[j].kind == k && t[j].address == a;
        assert t'[j] == t[j];
      }
    }
  }

  /** Programming the address of a slot that is not enabled adds no entry. */
  lemma {:induction false} ReaddressingAddsNothing(t: Table, i: nat, address: Word)
    requires i < |t| && !t[i].enabled
    ensures Entries(t[i := t[i].(address := address)]) <= Entries(t)
  {
  }

  /** The entries a packet may be answered with. */
  predicate Answers(t: Table, asked: Kind, address: nat, k: Kind) {
    (k == asked || (k == Access && asked in {Read, Write})) && (k, address) in Entries(t)
  }

  /** Inserting adds the entry unless one that answers for it is there already; it is refused
      only when there is none and no slot is free. */
  lemma {:induction false} InsertRefines(t: Table, kind: Kind, address: nat)
    requires NoDuplicates(t)
    ensures var r := Insert(t, kind, Some(address));
            var present := exists k :: Answers(t, kind, address, k);
            && NoDuplicates(r.table) && |r.table| == |t|
            && (r.reply == Error <==> !present && forall s <- t :: s.enabled)
            && (r.reply == Exception <==> !present && address >= 0x1_0000_0000 && exists s :: s in t && !s.enabled)
            && (r.reply == Ok ==> Entries(r.table) == if present then Entries(t) else Entries(t) + {(kind, address)})
            && (r.reply != Ok ==> r.table == t)
  {
    var hit := FindHit(t, kind, address, 0);
    if hit.Some? {
      assert Answers(t, kind, address, t[hit.value].kind);
    } else {
      forall k ensures !Answers(t, kind, address, k) {
      }
      var free := FindFree(t, 0);
      if free.Some? {
        assert t[free.value] in t;
        if address < 0x1_0000_0000 {
          EntriesAfterEnabling(t, free.value, Slot(true, kind, address));
        }
      }
    }
  }

  /** Removing takes away exactly one entry that answers for the packet, if there is one; for
      program counters and access watchpoints that is the entry the packet names. */
  lemma {:induction false} RemoveRefines(t: Table, kind: Kind, address: nat)
    requires NoDuplicates(t)
    ensures var r := Remove(t, kind, Some(address));
            && NoDuplicates(r.table) && |r.table| == |t|
            && (r.reply == Ok <==> exists k :: Answers(t, kind, address, k))
            && (r.reply == Ok || (r.reply == Empty && r.table == t))
            && (r.reply == Ok ==>
                  exists k :: Answers(t, kind, address, k) && Entries(r.table) == Entries(t) - {(k, address)})
            && (kind == Pc || kind == Access ==> Entries(r.table) == Entries(t) - {(kind, address)})
  {
    var hit := FindHit(t, kind, address, 0);
    if hit.Some? {
      var i := hit.value;
      assert Answers(t, kind, address, t[i].kind);
      EntriesAfterDisabling(t, i, Slot(false, Pc, t[i].address));
    } else {
      forall k ensures !Answers(t, kind, address, k) {
      }
    }
  }

  /** A packet without an address is refused, or not answered, and changes nothing. */
  lemma AddressIsNeeded(t: Table, kind: Kind)
    ensures Insert(t, kind, None) == Done(Error, t) && Remove(t, kind, None) == Done(Empty, t)
  {
  }

  function PcAddresses(t: Table): (r: set<nat>)
    ensures forall a :: a in r <==> (Pc, a) in Entries(t)
  {
    set e | e in Entries(t) && e.0 == Pc :: e.1
  }

  datatype Packet = Z(kind: Kind, address: Option<nat>) | z(kind: Kind, address: Option<nat>)

  function Handle(t: Table, p: Packet): Done {
    match p
    case Z(kind, address) => Insert(t, kind, address)
    case z(kind, address) => Remove(t, kind, address)
  }

  /** Breakpoints as a client counts them: what it inserted and has not removed. */
  function Count(pcs: set<nat>, p: Packet, reply: Reply): set<nat> {
    if p.kind != Pc || p.address.None? then pcs
    else if p.z? then pcs - {p.address.value}
    else if reply == Ok then pcs + {p.address.value}
    else pcs
  }

  lemma InsertCounts(t: Table, kind: Kind, address: nat)
    requires NoDuplicates(t)
    ensures var r := Insert(t, kind, Some(address));
            NoDuplicates(r.table) && PcAddresses(r.table) == Count(PcAddresses(t), Z(kind, Some(address)), r.reply)
  {
    InsertRefines(t, kind, address);
    if kind == Pc {
      assert Answers(t, Pc, address, Pc) <==> (Pc, address) in Entries(t);
    }
    var r := Insert(t, kind, Some(address));
    assert PcAddresses(r.table) == Count(PcAddresses(t), Z(kind, Some(address)), r.reply);
  }

  lemma RemoveCounts(t: Table, kind: Kind, address: nat)
    requires NoDuplicates(t)
    ensures var r := Remove(t, kind, Some(address));
            NoDuplicates(r.table) && PcAddresses(r.table) == Count(PcAddresses(t), z(kind, Some(address)), r.reply)
  {
    RemoveRefines(t, kind, address);
    var r := Remove(t, kind, Some(address));
    assert PcAddresses(r.table) == Count(PcAddresses(t), z(kind, Some(address)), r.reply);
  }

  lemma HandleCounts(t: Table, p: Packet)
    requires NoDuplicates(t)
    ensures var r := Handle(t, p);
            NoDuplicates(r.table) && PcAddresses(r.table) == Count(PcAddresses(t), p, r.reply)
  {
    if p.address.Some? {
      if p.Z? {
        InsertCounts(t, p.kind, p.address.value);
      } else {
        RemoveCounts(t, p.kind, p.address.value);
      }
    }
  }

  function After(t: Table, packets: seq<Packet>): Table
    decreases |packets|
  {
    if packets == [] then t else After(Handle(t, packets[0]).table, packets[1..])
  }

  function CountAll(t: Table, packets: seq<Packet>, pcs: set<nat>): set<nat>
    decreases |packets|
  {
    if packets == [] then pcs
    else
      var r := Handle(t, packets[0]);
      CountAll(r.table, packets[1..], Count(pcs, packets[0], r.reply))
  }

  /** Over any mix of packets the enabled breakpoints are those that were inserted and not
      removed since, and no entry is there twice. */
  lemma {:induction false} BreakpointsAreInsertedMinusRemoved(t: Table, packets: seq<Packet>)
    requires NoDuplicates(t)
    ensures NoDuplicates(After(t, packets)) && PcAddresses(After(t, packets)) == CountAll(t, packets, PcAddresses(t))
    decreases |packets|
  {
    if packets != [] {
      HandleCounts(t, packets[0]);
      BreakpointsAreInsertedMinusRemoved(Handle(t, packets[0]).table, packets[1..]);
    }
  }

  /** Removing a read or write watchpoint spares an access watchpoint at its address exactly
      when one of the asked kind sits in a lower slot. */
  lemma {:induction false} RemoveSparesAccess(t: Table, kind: Kind, address: nat)
    requires NoDuplicates(t) && (kind == Read || kind == Write) && (Access, address) in Entries(t)
    ensures (Access, address) in Entries(Remove(t, kind, Some(address)).table) <==>
            exists i, j :: 0 <= i < j < |t| && t[i] == Slot(true, kind, address) && t[j] == Slot(true, Access, address)
  {
    var j :| 0 <= j < |t| && t[j].enabled && t[j].kind == Access && t[j].address == address;
    var hit := FindHit(t, kind, address, 0);
    assert Hit(t[j], kind, address);
    var i := hit.value;
    EntriesAfterDisabling(t, i, Slot(false, Pc, t[i].address));
    if t[i].kind == kind {
      assert t[i] == Slot(true, kind, address) && t[j] == Slot(true, Access, address) && i < j;
    } else {
      assert i == j;
    }
  }

  // ----- The hardware

  /** Slot i is described by the four bits at 4i and by the address register with its number. */
  function SlotOf(settings: Word, addresses: seq<Word>, i: nat): Slot
    requires i < MAX_SLOTS && |addresses| == MAX_SLOTS
  {
    var bits := settings / Pow16(i) % 16;
    Slot(IsEnabled(bits), KindOf(bits), addresses[i])
  }

  /** A slot is enabled from setting 8 on, and of the kind that the lower two bits number. */
  lemma SlotByNumber(settings: Word, addresses: seq<Word>, i: nat)
    requires i < 8 && |addresses| == 8
    ensures var bits := settings / Pow16(i) % 16;
            SlotOf(settings, addresses, i) == Slot(bits >= 8, [Pc, Read, Write, Access][bits % 4], addresses[i])
  {
    SettingsByNumber(Pc, settings / Pow16(i) % 16);
  }

  /** The table that the registers of a core with `count` slots hold. */
  function TableOf(settings: Word, addresses: seq<Word>, count: nat): (t: Table)
    requires count <= MAX_SLOTS && |addresses| == MAX_SLOTS
    ensures |t| == count && forall i :: 0 <= i < count ==> t[i] == SlotOf(settings, addresses, i)
  {
    seq(count, i requires 0 <= i < count => SlotOf(settings, addresses, i))
  }

  class WatchpointHardware {
    const count: nat
    var settings: Word
    var addresses: seq<Word>
    var halted: bool
    ghost var history: seq<Table>
    /** A watchpoint register was written while the core was running. */
    ghost var wroteRunning: bool

    ghost predicate Valid()
      reads this
    {
      count <= MAX_SLOTS && |addresses| == MAX_SLOTS
    }

    function Slots(): Table
      reads this
      requires count <= MAX_SLOTS && |addresses| == MAX_SLOTS
    {
      TableOf(settings, addresses, count)
    }

    constructor (count: nat)
      requires count <= MAX_SLOTS
      ensures Valid() && this.count == count && history == [] && !wroteRunning
    {
      this.count := count;
      settings := 0;
      addresses := [0, 0, 0, 0, 0, 0, 0, 0];
      halted := false;
      history, wroteRunning := [], false;
    }

    /** Writes the four bits of one slot while the core is halted. */
    method UpdateSetting(i: nat, value: nat)
      requires Valid() && i < count && value <= 15
      modifies this
      ensures Valid() && halted == old(halted) && addresses == old(addresses)
      ensures settings / Pow16(i) % 16 == value && OthersKept(i, old(settings))
      ensures Slots() == old(Slots())[i := Slot(IsEnabled(value), KindOf(value), addresses[i])]
      ensures history == old(history) + [Slots()] && wroteRunning == old(wroteRunning)
    {
      var wasHalted := halted;
      halted := true;
      SettingOneSlot(settings, i, value);
      settings := WithNibble(settings, i, value);
      history, wroteRunning := history + [Slots()], wroteRunning || !halted;
      if !wasHalted {
        halted := false;
      }
    }

    /** The bits of the other slots are as in `before`. */
    ghost predicate OthersKept(i: nat, before: Word)
      reads this
    {
      forall j: nat {:trigger Pow16(j)} :: j < 8 && j != i ==> settings / Pow16(j) % 16 == before / Pow16(j) % 16
    }

    method WriteAddress(i: nat, address: Word)
      requires Valid() && i < count
      modifies this`addresses, this`history, this`wroteRunning
      ensures Valid() && addresses == old(addresses)[i := address]
      ensures Slots() == old(Slots())[i := old(Slots())[i].(address := address)]
      ensures history == old(history) + [Slots()] && wroteRunning == (old(wroteRunning) || !halted)
    {
      addresses := addresses[i := address];
      history, wroteRunning := history + [Slots()], wroteRunning || !halted;
    }

    /** Programs the address of a slot, and only then enables it. */
    method SetWatchpoint(i: nat, kind: Kind, address: Word)
      requires Valid() && i < count
      modifies this
      ensures Valid() && halted == old(halted) && wroteRunning == old(wroteRunning)
      ensures addresses == old(addresses)[i := address] && OthersKept(i, old(settings))
      ensures settings / Pow16(i) % 16 ==
              if kind == Pc then 8 else if kind == Read then 9 else if kind == Write then 10 else 11
      ensures Slots() == old(Slots())[i := Slot(true, kind, address)]
      ensures history == old(history) + [old(Slots())[i := old(Slots())[i].(address := address)], Slots()]
    {
      var wasHalted := halted;
      halted := true;
      WriteAddress(i, address);
      SettingDecodes(kind);
      SettingsByNumber(kind, 0);
      UpdateSetting(i, ENABLED + KindBits(kind));
      if !wasHalted {
        halted := false;
      }
    }

    method DisableWatchpoint(i: nat)
      requires Valid() && i < count
      modifies this
      ensures Valid() && halted == old(halted) && addresses == old(addresses)
      ensures settings / Pow16(i) % 16 == 0 && OthersKept(i, old(settings))
      ensures Slots() == old(Slots())[i := Slot(false, Pc, old(Slots())[i].address)]
      ensures history == old(history) + [Slots()] && wroteRunning == old(wroteRunning)
    {
      UpdateSetting(i, 0);
    }

    method LookUpHit(kind: Kind, address: nat) returns (r: Option<nat>)
      requires Valid()
      ensures r == FindHit(Slots(), kind, address, 0)
    {
      var i := 0;
      while i < count
        invariant i <= count
        invariant FindHit(Slots(), kind, address, 0) == FindHit(Slots(), kind, address, i)
      {
        if Hit(SlotOf(settings, addresses, i), kind, address) {
          return Some(i);
        }
        i := i + 1;
      }
      return None;
    }

    method LookUpFree() returns (r: Option<nat>)
      requires Valid()
      ensures r == FindFree(Slots(), 0)
    {
      var i := 0;
      while i < count
        invariant i <= count
        invariant FindFree(Slots(), 0) == FindFree(Slots(), i)
      {
        if !SlotOf(settings, addresses, i).enabled {
          return Some(i);
        }
        i := i + 1;
      }
      return None;
    }

    /** The lowest free slot, and no other, was programmed: its address register holds the address, and
        its four bits say enabled and which kind. */
    ghost predicate Programmed(kind: Kind, address: nat, slots: Table, settings': Word, addresses': seq<Word>)
      reads this
      requires Valid() && |slots| == count
    {
      exists i: nat ::
        && FreeAt(slots, i) && |addresses'| == MAX_SLOTS && address < 0x1_0000_0000
        && addresses == addresses'[i := address] && OthersKept(i, settings')
        && settings / Pow16(i) % 16 ==
             if kind == Pc then 8 else if kind == Read then 9 else if kind == Write then 10 else 11
    }

    /** Handles a Z packet. On the way, no slot is ever enabled that was not enabled before or
        is not the one requested, with its address in place. */
    method InsertWatchpoint(kind: Kind, address: Option<nat>) returns (reply: Reply)
      requires Valid()
      modifies this
      ensures Valid() && halted == old(halted) && wroteRunning == old(wroteRunning)
      ensures Insert(old(Slots()), kind, address) == Done(reply, Slots())
      ensures (settings == old(settings) && addresses == old(addresses)) ||
              (reply == Ok && address.Some? &&
               Programmed(kind, address.value, old(Slots()), old(settings), old(addresses)))
      ensures old(history) <= history
      ensures forall k :: |old(history)| <= k < |history| ==>
                address.Some? && Entries(history[k]) <= old(Entries(Slots())) + {(kind, address.value)}
    {
      if address.None? {
        return Error;
      }
      var hit := LookUpHit(kind, address.value);
      if hit.Some? {
        return Ok;
      }
      var free := LookUpFree();
      if free.None? {
        return Error;
      }
      if address.value >= 0x1_0000_0000 {
        return Exception;
      }
      ReaddressingAddsNothing(Slots(), free.value, address.value);
      EntriesAfterEnabling(Slots(), free.value, Slot(true, kind, address.value));
      assert FreeAt(Slots(), free.value);
      SetWatchpoint(free.value, kind, address.value);
      return Ok;
    }

    /** Handles a z packet. On the way, no entry is ever enabled that was not enabled before. */
    method RemoveWatchpoint(kind: Kind, address: Option<nat>) returns (reply: Reply)
      requires Valid()
      modifies this
      ensures Valid() && halted == old(halted) && wroteRunning == old(wroteRunning)
      ensures Remove(old(Slots()), kind, address) == Done(reply, Slots())
      ensures old(history) <= history
      ensures forall k :: |old(history)| <= k < |history| ==> Entries(history[k]) <= old(Entries(Slots()))
    {
      if address.None? {
        return Empty;
      }
      var hit := LookUpHit(kind, address.value);
      if hit.None? {
        return Empty;
      }
      DisableWatchpoint(hit.value);
      return Ok;
    }
  }
}
