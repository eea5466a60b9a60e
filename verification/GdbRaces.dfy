/** Three ways to leave all-stop: a core that enters reset at the wrong access makes the packet raise
    while another attached core is running. */
module GdbRaces {
  import opened Options
  import opened ProcessIds
  import opened GdbStub
  import opened GdbStubSafety
  import opened GdbSchedule
  import opened GdbAllStop

  const ONE := Process(1, 0, "a")
  const TWO := Process(2, 1, "b")
  const EVERYONE := [Clause(Some(99), Everyone)]

  /** Two cores, attached as 1 and 2 and both halted. The core at `l` enters reset right before
      access n + 1, and nothing else happens. */
  function TwoHalted(slots: nat, n: nat, l: Loc): State {
    State(World(map[0 := Core(false, true, {}), 1 := Core(false, true, {})], [0, 1], map[0 := "a", 1 := "b"], slots,
                seq(n, _ => Quiet) + [EnterReset(l)], []),
          Table(3, map[0 := ONE, 1 := TWO], map[1 := ONE, 2 := TWO]), [1, 2], [], false)
  }

  lemma DueHere(slots: nat, n: nat, l: Loc, e: Event, from: nat, until: nat)
    requires e != Quiet
    ensures Due(TwoHalted(slots, n, l).world, e, from, until) <==> e == EnterReset(l) && from <= n < until
  {
    DueByPosition(TwoHalted(slots, n, l).world, e, from, until);
  }

  /** Everything that is due, as a fact for the plans below. */
  lemma AllDueHere(slots: nat, n: nat, l: Loc)
    ensures forall e, from: nat, until: nat :: e != Quiet ==>
              (Due(TwoHalted(slots, n, l).world, e, from, until) <==> e == EnterReset(l) && from <= n < until)
  {
    forall e, from: nat, until: nat | e != Quiet
      ensures Due(TwoHalted(slots, n, l).world, e, from, until) <==> e == EnterReset(l) && from <= n < until
    {
      DueHere(slots, n, l, e, from, until);
    }
  }

  lemma RefreshTwo(t: Table, live: seq<Running>)
    requires live == [Running(0, "a"), Running(1, "b")] && t.last == map[0 := ONE, 1 := TWO]
    ensures Refresh(t, live) == Snapshot(map[1 := ONE, 2 := TWO], t)
  {
    var rest := [live[1]];
    assert live[1..] == rest && rest[1..] == [];
    var first := AddProcess(t.last, Snapshot(map[], t.(last := map[])), live[0]);
    var second := AddProcess(t.last, first, live[1]);
    assert AddAll(t.last, first, rest) == AddAll(t.last, second, []) == second;
  }

  lemma SnapOfTwo(slots: nat, n: nat, l: Loc)
    ensures Snap(TwoHalted(slots, n, l)) == (TwoHalted(slots, n, l), map[1 := ONE, 2 := TWO])
  {
    var s := TwoHalted(slots, n, l);
    var tail := [1];
    assert s.world.order[1..] == tail && tail[1..] == [];
    assert Live(s.world, tail) == [Running(1, "b")] + Live(s.world, []);
    assert Live(s.world, s.world.order) == [Running(0, "a")] + Live(s.world, tail);
    assert Live(s.world, s.world.order) == [Running(0, "a"), Running(1, "b")];
    RefreshTwo(s.table, [Running(0, "a"), Running(1, "b")]);
  }

  lemma TwoStart(slots: nat, n: nat, l: Loc)
    ensures var s := TwoHalted(slots, n, l);
            ValidState(s) && AllStop(s) && Starts(s, EVERYONE) && JobsOf(s, EVERYONE) == [Job(0, true), Job(1, true)]
  {
    SnapOfTwo(slots, n, l);
    var both, tail := [1, 2], [2];
    assert both[1..] == tail && tail[1..] == [];
    assert FirstMissing(tail, map[1 := ONE, 2 := TWO]) == FirstMissing([], map[1 := ONE, 2 := TWO]);
  }

  lemma PlanTwo(slots: nat, n: nat, l: Loc)
    requires 4 <= n
    ensures var w := TwoHalted(slots, n, l).world;
            PlanApply(w, [Job(0, true), Job(1, true)], Start(w)) == Planned(false, Plan(4, map[0 := 2, 1 := 4]), [0, 1])
  {
    var w, tail := TwoHalted(slots, n, l).world, [Job(1, true)];
    AllDueHere(slots, n, l);
    assert [Job(0, true), Job(1, true)][1..] == tail && tail[1..] == [];
    var p := Plan(2, map[0 := 2]);
    assert Start(w) == Plan(0, map[]);
    assert PlanApplyOne(w, Job(0, true), Start(w)) == Planned(false, p, [0]);
    assert PlanApplyOne(w, Job(1, true), p) == Planned(false, Plan(4, map[0 := 2, 1 := 4]), [1]);
    assert PlanApply(w, tail, p) == Planned(false, Plan(4, map[0 := 2, 1 := 4]), [1]);
  }

  lemma PlanFailingTwo(slots: nat)
    ensures var w := TwoHalted(slots, 2, 1).world;
            var q := PlanApply(w, [Job(0, true), Job(1, true)], Start(w));
            q.failed && q.plan == Plan(3, map[0 := 2])
  {
    var w, p, tail := TwoHalted(slots, 2, 1).world, Plan(2, map[0 := 2]), [Job(1, true)];
    AllDueHere(slots, 2, 1);
    assert [Job(0, true), Job(1, true)][1..] == tail && tail[1..] == [];
    assert Start(w) == Plan(0, map[]);
    assert PlanApplyOne(w, Job(0, true), Start(w)) == Planned(false, p, [0]);
    assert PlanApplyOne(w, Job(1, true), p) == Planned(true, Next(p), []);
    assert PlanApply(w, tail, p).failed && PlanApply(w, tail, p).plan == Next(p);
  }

  /** The second core enters reset while the actions are applied: the first one runs on. */
  lemma ResetWhileApplyingLeavesACoreRunning(slots: nat)
    ensures var s := TwoHalted(slots, 2, 1);
            var r := DoVCont(s, EVERYONE, []);
            ValidState(s) && AllStop(s) && r.reply == Exception && ValidState(r.state) && !AllStop(r.state)
  {
    var s := TwoHalted(slots, 2, 1);
    TwoStart(slots, 2, 1);
    PlanFailingTwo(slots);
    VContKeepsExactly(s, EVERYONE, []);
    assert Home(s, 1) == 0 && 1 in s.threads;
    NotStirred(slots, 2, 1, PlanVCont(s, EVERYONE, []).plan, 0);
  }

  lemma PlanStopTwo(slots: nat)
    ensures var w, p := TwoHalted(slots, 9, 0).world, Plan(4, map[0 := 2, 1 := 4]);
            PlanStop(w, [0, 1], PlanWatch(w, [0, 1], p, [])) == Planned(true, p.(time := 10), [])
  {
    var w, p, watch, tail := TwoHalted(slots, 9, 0).world, Plan(4, map[0 := 2, 1 := 4]), [0, 1], [1];
    AllDueHere(slots, 9, 0);
    assert watch[1..] == tail && tail[1..] == [];
    assert AfterPoll(tail, p.(time := 6)) == AfterPoll([], p.(time := 8));
    assert PlanWatch(w, watch, p, []) == p.(time := 8);
  }

  /** The first core enters reset between the two questions of the final loop: the second one is
      not halted any more. */
  lemma ResetWhileStoppingLeavesACoreRunning(slots: nat)
    ensures var s := TwoHalted(slots, 9, 0);
            var r := DoVCont(s, EVERYONE, []);
            ValidState(s) && AllStop(s) && r.reply == Exception && ValidState(r.state) && !AllStop(r.state)
  {
    var s := TwoHalted(slots, 9, 0);
    TwoStart(slots, 9, 0);
    PlanTwo(slots, 9, 0);
    PlanStopTwo(slots);
    VContKeepsExactly(s, EVERYONE, []);
    var p := PlanVCont(s, EVERYONE, []).plan;
    assert p == Plan(10, map[0 := 2, 1 := 4]);
    assert Home(s, 2) == 1 && 2 in s.threads;
    NotStirred(slots, 9, 0, p, 1);
  }

  lemma NotStirred(slots: nat, n: nat, l: Loc, p: Plan, k: Loc)
    requires k in p.going && k != l
    ensures !Stirred(TwoHalted(slots, n, l).world, p, k)
  {
    AllDueHere(slots, n, l);
  }

  lemma {:induction false} DisableQuietly(w: World, l: Loc, slot: nat, p: Plan)
    requires slot <= w.slots && !ResetBy(w, l, p.time + w.slots - slot)
    ensures PlanDisable(w, l, slot, p) == Planned(false, p.(time := p.time + w.slots - slot), [])
    decreases w.slots - slot
  {
    if slot < w.slots {
      DueExtends(w, EnterReset(l), 0, p.time + 1, p.time + w.slots - slot);
      DisableQuietly(w, l, slot + 1, Next(p));
    }
  }

  lemma LiveTwo(slots: nat, n: nat, l: Loc, t: nat)
    requires t <= n
    ensures LiveBy(TwoHalted(slots, n, l).world, [0, 1], t) == [Running(0, "a"), Running(1, "b")]
  {
    var w, tail := TwoHalted(slots, n, l).world, [1];
    AllDueHere(slots, n, l);
    ElfsTwo(slots, n, l, t);
    assert [0, 1][1..] == tail && tail[1..] == [];
    assert LiveBy(w, tail, t) == [Running(1, "b")] + LiveBy(w, [], t);
  }

  lemma {:induction false} ElfsTwo(slots: nat, n: nat, l: Loc, t: nat)
    ensures ElfsBy(TwoHalted(slots, n, l).world, t) == map[0 := "a", 1 := "b"]
    decreases t
  {
    if t > 0 {
      ElfsTwo(slots, n, l, t - 1);
    }
  }

  lemma PlanReleaseTwo(slots: nat)
    ensures var n := slots + 2;
            var w, p := TwoHalted(slots, n, 1).world, Plan(n, map[0 := n]);
            PlanRelease(w, 0, Start(w)) == Planned(false, p, []) && PlanRelease(w, 1, p) == Planned(true, Next(p), [])
  {
    var n := slots + 2;
    var w := TwoHalted(slots, n, 1).world;
    AllDueHere(slots, n, 1);
    assert Start(w) == Plan(0, map[]);
    DisableQuietly(w, 0, 0, Start(w));
  }

  lemma PlanDetachTwo(slots: nat)
    ensures var n := slots + 2;
            PlanDetachAll(TwoHalted(slots, n, 1)) == Planned(true, Plan(n + 1, map[0 := n]), [])
  {
    var n := slots + 2;
    var s, tail := TwoHalted(slots, n, 1), [2];
    var w, p := s.world, Plan(n, map[0 := n]);
    RefreshTwo(s.table, [Running(0, "a"), Running(1, "b")]);
    LiveTwo(slots, n, 1, 0);
    LiveTwo(slots, n, 1, n);
    PlanReleaseTwo(slots);
    assert s.threads[1..] == tail && tail[1..] == [];
    assert PlanReleaseAll(w, s.table, tail, p) == Planned(true, Next(p), []);
  }

  /** The second core enters reset when its watchpoints are about to be removed: the first one runs
      already, and both threads stay attached. */
  lemma ResetWhileDetachingLeavesACoreRunning(slots: nat)
    ensures var s := TwoHalted(slots, slots + 2, 1);
            var r := DoDetachAll(s);
            ValidState(s) && AllStop(s) && r.reply == Exception && r.state.threads == s.threads &&
            ValidState(r.state) && !AllStop(r.state)
  {
    var n := slots + 2;
    var s := TwoHalted(slots, n, 1);
    TwoStart(slots, n, 1);
    PlanDetachTwo(slots);
    DetachAllKeepsExactly(s);
    assert Home(s, 1) == 0 && 1 in s.threads;
    NotStirred(slots, n, 1, PlanDetachAll(s).plan, 0);
  }
}
