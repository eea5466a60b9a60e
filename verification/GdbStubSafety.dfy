/** What every packet keeps: between two packets, every attached core that is not in reset is
    halted. */
module GdbStubSafety {
  import opened Options
  import opened ProcessIds
  import opened GdbStub

  /** How the device changes while the stub works: no core leaves reset, a core that enters
      reset does so by one of the events that were due, and a core at rest stays at rest,
      except for those in `resumed`. */
  ghost predicate Evolves(w: World, w': World, resumed: set<Loc>) {
    && w'.cores.Keys == w.cores.Keys
    && w'.slots == w.slots && w'.order == w.order
    && (forall e <- w'.events :: e in w.events)
    && (forall l :: CoreAt(w, l).reset ==> CoreAt(w', l).reset)
    && (forall l :: CoreAt(w', l).reset ==> CoreAt(w, l).reset || EnterReset(l) in w.events)
    && (forall l :: AtRest(w, l) && l !in resumed ==> AtRest(w', l))
  }

  lemma EvolvesInTurn(a: World, b: World, c: World, r: set<Loc>, s: set<Loc>)
    requires Evolves(a, b, r) && Evolves(b, c, s)
    ensures Evolves(a, c, r + s)
  {
  }

  lemma TickEvolves(w: World)
    ensures Evolves(w, Tick(w), {})
  {
  }

  lemma SetHaltedEvolves(w: World, l: Loc)
    ensures Evolves(w, SetHalted(w, l, true), {})
  {
  }

  lemma SetRunningEvolves(w: World, l: Loc, action: Action)
    ensures Evolves(w, SetRunning(w, l, action), {l})
  {
  }

  function Locs(watch: seq<Process>): (r: set<Loc>)
    ensures forall l :: l in r <==> exists p :: p in watch && p.loc == l
  {
    set p | p in watch :: p.loc
  }

  lemma ApplyOneEvolves(w: World, p: Process, action: Option<Action>)
    ensures var r := ApplyOne(w, p, action);
            Evolves(w, r.world, Locs(r.watch)) && (r.raised ==> CoreAt(r.world, p.loc).reset && r.watch == []) &&
            forall q <- r.watch :: q == p
  {
    TickEvolves(w);
    var h := IsHalted(w, p.loc);
    if !h.Raised? && h.yes && action.Some? {
      TickEvolves(h.world);
      EvolvesInTurn(w, h.world, Tick(h.world), {}, {});
      var r := Resume(h.world, p.loc, action.value);
      if r.Answer? {
        SetRunningEvolves(Tick(h.world), p.loc, action.value);
        EvolvesInTurn(w, Tick(h.world), r.world, {}, {p.loc});
        assert p in [p];
      }
    }
  }

  /** After the actions have been applied, a core that was at rest and no longer is, is
      watched. */
  lemma {:induction false} ApplyAllEvolves(w: World, available: map<Pid, Process>, todo: seq<Todo>)
    ensures var r := ApplyAll(w, available, todo);
            !r.raised ==> Evolves(w, r.world, Locs(r.watch))
    ensures var r := ApplyAll(w, available, todo);
            forall p <- r.watch :: exists t :: t in todo && t.pid in available && available[t.pid] == p
    ensures var r := ApplyAll(w, available, todo);
            r.raised ==> exists all :: Evolves(w, r.world, all)
    ensures var r := ApplyAll(w, available, todo);
            r.raised ==> exists t :: t in todo && t.pid in available && CoreAt(r.world, available[t.pid].loc).reset
    decreases |todo|
  {
    if todo == [] {
    } else if todo[0].pid !in available {
      ApplyAllEvolves(w, available, todo[1..]);
    } else {
      var p := available[todo[0].pid];
      ApplyOneEvolves(w, p, todo[0].action);
      var first := ApplyOne(w, p, todo[0].action);
      if !first.raised {
        ApplyAllEvolves(first.world, available, todo[1..]);
        var rest := ApplyAll(first.world, available, todo[1..]);
        if rest.raised {
          var all :| Evolves(first.world, rest.world, all);
          EvolvesInTurn(w, first.world, rest.world, Locs(first.watch), all);
        } else {
          EvolvesInTurn(w, first.world, rest.world, Locs(first.watch), Locs(rest.watch));
          assert Locs(first.watch) + Locs(rest.watch) == Locs(first.watch + rest.watch);
        }
      }
    }
  }

  lemma PollAllEvolves(w: World, watch: seq<Process>)
    ensures Evolves(w, PollAll(w, watch).world, {})
    decreases |watch|
  {
    if watch != [] {
      TickEvolves(w);
      TickEvolves(Tick(w));
      EvolvesInTurn(w, Tick(w), Tick(Tick(w)), {}, {});
      var first := PollOne(w, watch[0]);
      PollAllEvolves(first.world, watch[1..]);
      EvolvesInTurn(w, first.world, PollAll(w, watch).world, {}, {});
    }
  }

  lemma WatchEvolves(w: World, watch: seq<Process>, interrupts: seq<bool>)
    ensures Evolves(w, Watch(w, watch, interrupts).world, {})
    decreases |interrupts|
  {
    PollAllEvolves(w, watch);
    var polled := PollAll(w, watch);
    if interrupts != [] && !interrupts[0] && polled.statuses == [] {
      WatchEvolves(polled.world, watch, interrupts[1..]);
      EvolvesInTurn(w, polled.world, Watch(w, watch, interrupts).world, {}, {});
    }
  }

  lemma HaltIfRunningEvolves(w: World, l: Loc)
    ensures var r := HaltIfRunning(w, l);
            Evolves(w, r.world, {}) && AtRest(r.world, l) && (r.Raised? ==> CoreAt(r.world, l).reset)
  {
    var w1 := Tick(w);
    TickEvolves(w);
    if !CoreAt(w1, l).reset && !CoreAt(w1, l).halted {
      var w2 := Tick(w1);
      TickEvolves(w1);
      EvolvesInTurn(w, w1, w2, {}, {});
      if !CoreAt(w2, l).reset {
        SetHaltedEvolves(w2, l);
        EvolvesInTurn(w, w2, SetHalted(w2, l, true), {}, {});
      }
    }
  }

  lemma StopOneEvolves(w: World, l: Loc)
    ensures var r := StopOne(w, l);
            Evolves(w, r.world, {}) && AtRest(r.world, l) && (r.raised ==> CoreAt(r.world, l).reset)
  {
    TickEvolves(w);
    if !CoreAt(Tick(w), l).reset {
      HaltIfRunningEvolves(Tick(w), l);
      EvolvesInTurn(w, Tick(w), StopOne(w, l).world, {}, {});
    }
  }

  lemma {:induction false} StopAllEvolves(w: World, watch: seq<Process>)
    ensures var r := StopAll(w, watch);
            Evolves(w, r.world, {}) &&
            (!r.raised ==> forall p <- watch :: AtRest(r.world, p.loc)) &&
            (r.raised ==> exists p :: p in watch && CoreAt(r.world, p.loc).reset)
    decreases |watch|
  {
    if watch != [] {
      var first := StopOne(w, watch[0].loc);
      StopOneEvolves(w, watch[0].loc);
      if !first.raised {
        StopAllEvolves(first.world, watch[1..]);
        EvolvesInTurn(w, first.world, StopAll(w, watch).world, {}, {});
      }
    }
  }

  lemma LiveCoresRun(w: World, order: seq<Loc>)
    ensures forall r <- Live(w, order) :: !CoreAt(w, r.loc).reset
  {
  }

  lemma {:induction false} AddAllListsLiveOnly(previous: map<Loc, Process>, s: Snapshot, live: seq<Running>)
    requires forall l <- previous :: previous[l].loc == l
    ensures forall pid <- AddAll(previous, s, live).available ::
              (exists r :: r in live && r.loc == AddAll(previous, s, live).available[pid].loc) ||
              (pid in s.available && s.available[pid] == AddAll(previous, s, live).available[pid])
    decreases |live|
  {
    if live != [] {
      AddAllListsLiveOnly(previous, AddProcess(previous, s, live[0]), live[1..]);
      assert live[0] in live;
    }
  }

  ghost predicate Distinct(threads: seq<Pid>) {
    forall i, j :: 0 <= i < j < |threads| ==> threads[i] != threads[j]
  }

  /** Attached ids are distinct and stand for processes that were issued. */
  ghost predicate ValidState(s: State) {
    ValidTable(s.table) && Distinct(s.threads) && forall t <- s.threads :: t in s.table.issued
  }

  function Home(s: State, t: Pid): Loc
    requires t in s.table.issued
  {
    s.table.issued[t].loc
  }

  /** Every attached core that is not in reset is halted. */
  ghost predicate AllStop(s: State)
    requires ValidState(s)
  {
    forall t <- s.threads :: AtRest(s.world, Home(s, t))
  }

  /** A snapshot changes nothing but the table, keeps what ids stand for, and lists cores that
      are out of reset. */
  lemma SnapKeeps(s: State)
    requires ValidState(s)
    ensures var (s', available) := Snap(s);
            && s' == s.(table := s'.table) && ValidState(s')
            && Extends(s.table.issued, s'.table.issued) && Recorded(available, s'.table.issued)
            && forall pid <- available :: !CoreAt(s.world, available[pid].loc).reset
  {
    var live := Live(s.world, s.world.order);
    RefreshValid(s.table, live);
    LiveCoresRun(s.world, s.world.order);
    AddAllListsLiveOnly(s.table.last, Snapshot(map[], s.table.(last := map[])), live);
  }

  /** Some attached core entered reset during the packet. */
  ghost predicate AttachedCoreReset(s: State)
    requires ValidState(s)
  {
    exists t :: t in s.threads && EnterReset(Home(s, t)) in s.world.events
  }

  /** What handling a packet guarantees about the attached cores. */
  ghost predicate Keeps(s: State, r: Done)
    requires ValidState(s)
  {
    && ValidState(r.state)
    && (forall e <- r.state.world.events :: e in s.world.events)
    && (AllStop(s) && r.reply != Exception ==> AllStop(r.state))
  }

  /** A new thread joins while the device evolves and its core comes to rest. */
  lemma JoinKeeps(s: State, p: Process, w: World)
    requires ValidState(s) && Known(p, s.table.issued) && p.pid !in s.threads
    requires Evolves(s.world, w, {}) && AtRest(w, p.loc)
    ensures var joined := s.(world := w, threads := s.threads + [p.pid]);
            ValidState(joined) && (AllStop(s) ==> AllStop(joined)) && AtRest(joined.world, Home(joined, p.pid))
  {
  }

  lemma EvolveKeeps(s: State, w: World)
    requires ValidState(s) && Evolves(s.world, w, {})
    ensures ValidState(s.(world := w)) && (AllStop(s) ==> AllStop(s.(world := w)))
  {
  }

  /** Attaching adds a core that is halted, or changes no thread at all. */
  lemma AttachKeeps(s: State, who: Option<Pid>)
    requires ValidState(s)
    ensures var r := DoAttach(s, who);
            && Keeps(s, r) && r.reply != Exception
            && (r.reply.Attached? ==> r.state.threads == s.threads + [r.reply.pid] && r.reply.pid !in s.threads &&
                                      AtRest(r.state.world, Home(r.state, r.reply.pid)))
            && (!r.reply.Attached? ==> r.state.threads == s.threads)
  {
    SnapKeeps(s);
    var (s1, first) := Snap(s);
    SnapKeeps(s1);
    var (s2, second) := Snap(s1);
    assert AllStop(s) ==> AllStop(s1) && AllStop(s2);
    if who.Some? && who.value in first && who.value in second && second[who.value].pid !in s.threads {
      var p := second[who.value];
      HaltIfRunningEvolves(s.world, p.loc);
      var stop := HaltIfRunning(s.world, p.loc);
      assert Known(p, s2.table.issued);
      EvolveKeeps(s2, stop.world);
      JoinKeeps(s2, p, stop.world);
    }
  }

  lemma ParsedThreads(threads: seq<Pid>, clauses: seq<Clause>)
    ensures var p := ParseActions(threads, clauses);
            p.Good? ==> forall t <- p.todo :: t.pid in threads
  {
  }

  /** A round that does not raise leaves every core at rest that was at rest; one that raises
      has seen a core of its own enter reset. */
  lemma {:induction false} RoundKeeps(w: World, available: map<Pid, Process>, todo: seq<Todo>, interrupts: seq<bool>)
    ensures var r := RunRound(w, available, todo, interrupts);
            exists resumed :: Evolves(w, r.world, resumed)
    ensures var r := RunRound(w, available, todo, interrupts);
            !r.raised ==> forall l :: AtRest(w, l) ==> AtRest(r.world, l)
    ensures var r := RunRound(w, available, todo, interrupts);
            r.raised ==> exists t :: t in todo && t.pid in available && CoreAt(r.world, available[t.pid].loc).reset
  {
    ApplyAllEvolves(w, available, todo);
    var applied := ApplyAll(w, available, todo);
    if applied.raised {
      var all :| Evolves(w, applied.world, all);
      assert Evolves(w, RunRound(w, available, todo, interrupts).world, all);
    } else {
      var resumed := Locs(applied.watch);
      var polled := Watch(applied.world, applied.watch, interrupts);
      WatchEvolves(applied.world, applied.watch, interrupts);
      EvolvesInTurn(w, applied.world, polled.world, resumed, {});
      StopAllEvolves(polled.world, applied.watch);
      EvolvesInTurn(w, polled.world, StopAll(polled.world, applied.watch).world, resumed, {});
      assert Evolves(w, RunRound(w, available, todo, interrupts).world, resumed + {});
    }
  }

  lemma VContKeeps(s: State, clauses: seq<Clause>, interrupts: seq<bool>)
    requires ValidState(s)
    ensures Keeps(s, DoVCont(s, clauses, interrupts))
    ensures DoVCont(s, clauses, interrupts).reply == Exception ==> AttachedCoreReset(s)
    ensures DoVCont(s, clauses, interrupts).state.threads == s.threads
  {
    var parsed := ParseActions(s.threads, clauses);
    SnapKeeps(s);
    var (s1, available) := Snap(s);
    if s.pending == [] && parsed.Good? && FirstMissing(s.threads, available).None? {
      ParsedThreads(s.threads, clauses);
      RoundKeeps(s.world, available, parsed.todo, interrupts);
      var round := RunRound(s.world, available, parsed.todo, interrupts);
      var resumed :| Evolves(s.world, round.world, resumed);
      if round.raised {
        var t :| t in parsed.todo && t.pid in available && CoreAt(round.world, available[t.pid].loc).reset;
        assert available[t.pid].loc == Home(s, t.pid);
      }
    }
  }

  // ----- Detaching

  lemma DisableEvolves(w: World, l: Loc, slot: nat)
    ensures var r := Disable(w, l, slot);
            Evolves(w, r.world, {}) && (r.Raised? ==> CoreAt(r.world, l).reset) &&
            (r.Answer? ==> CoreAt(r.world, l).armed == CoreAt(Tick(w), l).armed - {slot} && !CoreAt(r.world, l).reset)
  {
    TickEvolves(w);
  }

  lemma TickKeepsArmed(w: World, l: Loc)
    ensures CoreAt(Tick(w), l).armed == CoreAt(w, l).armed
  {
  }

  lemma {:induction false} DisableFromEvolves(w: World, l: Loc, slot: nat)
    ensures var r := DisableFrom(w, l, slot);
            Evolves(w, r.world, {}) && (r.Raised? ==> CoreAt(r.world, l).reset)
    decreases if slot < w.slots then w.slots - slot else 0
  {
    if slot < w.slots {
      DisableEvolves(w, l, slot);
      var first := Disable(w, l, slot);
      if first.Answer? {
        DisableFromEvolves(first.world, l, slot + 1);
        EvolvesInTurn(w, first.world, DisableFrom(w, l, slot).world, {}, {});
      }
    }
  }

  lemma {:induction false} DisableFromDisarms(w: World, l: Loc, slot: nat, i: nat)
    requires DisableFrom(w, l, slot).Answer? && i in CoreAt(DisableFrom(w, l, slot).world, l).armed
    ensures i in CoreAt(w, l).armed && !(slot <= i < w.slots)
    decreases if slot < w.slots then w.slots - slot else 0
  {
    if slot < w.slots {
      DisableEvolves(w, l, slot);
      TickKeepsArmed(w, l);
      DisableFromDisarms(Disable(w, l, slot).world, l, slot + 1, i);
    }
  }

  /** A released core has none of its slots enabled and is running. */
  lemma ReleaseEvolves(w: World, l: Loc)
    ensures var r := Release(w, l);
            Evolves(w, r.world, {l}) &&
            (r.Raised? ==> CoreAt(r.world, l).reset) &&
            (r.Answer? ==> !AtRest(r.world, l) && forall i :: i in CoreAt(r.world, l).armed ==> i >= w.slots)
  {
    DisableFromEvolves(w, l, 0);
    var cleared := DisableFrom(w, l, 0);
    if cleared.Answer? {
      forall i | i in CoreAt(cleared.world, l).armed ensures i in CoreAt(w, l).armed && i >= w.slots {
        DisableFromDisarms(w, l, 0, i);
      }
      TickEvolves(cleared.world);
      TickKeepsArmed(cleared.world, l);
      var w1 := Tick(cleared.world);
      EvolvesInTurn(w, cleared.world, w1, {}, {});
      var h := IsHalted(cleared.world, l);
      if h.Answer? && h.yes {
        TickEvolves(w1);
        TickKeepsArmed(w1, l);
        var w2 := Tick(w1);
        EvolvesInTurn(w, w1, w2, {}, {});
        if !CoreAt(w2, l).reset {
          SetRunningEvolves(w2, l, Continue);
          EvolvesInTurn(w, w2, SetRunning(w2, l, Continue), {}, {l});
        }
      }
    }
  }

  lemma WithoutRemoves(threads: seq<Pid>, pid: Pid)
    requires Distinct(threads)
    ensures var r := Without(threads, pid);
            Distinct(r) && forall t :: t in r <==> t in threads && t != pid
  {
    if threads != [] {
      assert forall t :: t in threads <==> t == threads[0] || t in threads[1..];
      WithoutRemoves(threads[1..], pid);
      assert threads[0] !in threads[1..] && threads[0] !in Without(threads[1..], pid);
    }
  }

  /** No other attached thread stands for the core of thread `pid`. */
  ghost predicate Apart(s: State, pid: Pid)
    requires ValidState(s) && pid in s.table.issued
  {
    forall t <- s.threads :: t != pid ==> Home(s, t) != Home(s, pid)
  }

  /** The thread is attached, available, and will be released when it is detached. */
  predicate WillRelease(s: State, who: Option<Pid>) {
    who.Some? && who.value in s.threads && !s.skipDetach &&
      who.value in Snap(s.(threads := Without(s.threads, who.value))).1
  }

  /** Detaching removes the thread, and only it. */
  lemma DetachKeeps(s: State, who: Option<Pid>)
    requires ValidState(s)
    ensures var r := DoDetach(s, who);
            && ValidState(r.state) && (forall e <- r.state.world.events :: e in s.world.events)
            && (r.reply == Exception ==> AttachedCoreReset(s))
            && (r.reply == Error ==> r.state == s)
            && (r.reply == Error <==> who.None? || who.value !in s.threads)
            && (r.reply != Error ==> forall t :: t in r.state.threads <==> t in s.threads && t != who.value)
            && (AllStop(s) && (r.reply == Exception || !WillRelease(s, who)) ==> AllStop(r.state))
  {
    if who.Some? && who.value in s.threads {
      WithoutRemoves(s.threads, who.value);
      var s0 := s.(threads := Without(s.threads, who.value));
      SnapKeeps(s0);
      var (s1, available) := Snap(s0);
      if WillRelease(s, who) {
        assert available[who.value].loc == Home(s, who.value);
        ReleaseEvolves(s.world, Home(s, who.value));
      }
    }
  }

  /** A thread that is available is left running with all its watchpoint slots disabled; the
      others stay stopped exactly when none of them stands for the same core. */
  lemma DetachReleases(s: State, who: Option<Pid>)
    requires ValidState(s) && WillRelease(s, who) && DoDetach(s, who).reply == Ok
    ensures var r := DoDetach(s, who);
            var l := Home(s, who.value);
            && !AtRest(r.state.world, l)
            && (forall i :: i in CoreAt(r.state.world, l).armed ==> i >= s.world.slots)
            && ValidState(r.state) && (AllStop(s) ==> (AllStop(r.state) <==> Apart(s, who.value)))
  {
    DetachKeeps(s, who);
    var s0 := s.(threads := Without(s.threads, who.value));
    SnapKeeps(s0);
    var (s1, available) := Snap(s0);
    var l := Home(s, who.value);
    assert available[who.value].loc == l;
    ReleaseEvolves(s.world, l);
    var r := DoDetach(s, who);
    assert r.state == s1.(world := Release(s.world, l).world);
    forall t | t in r.state.threads
      ensures Home(r.state, t) == Home(s, t)
      ensures AllStop(s) && Home(s, t) != l ==> AtRest(r.state.world, Home(r.state, t))
    {
    }
    assert !Apart(s, who.value) ==> exists t :: t in r.state.threads && Home(r.state, t) == l;
  }

  /** `s'` has the same threads as `s`, over a device that has evolved. */
  ghost predicate Advances(s: State, s': State, all: set<Loc>) {
    && ValidState(s) && ValidState(s')
    && s'.threads == s.threads && s'.skipDetach == s.skipDetach
    && Extends(s.table.issued, s'.table.issued)
    && Evolves(s.world, s'.world, all)
  }

  ghost predicate AdvancesSomehow(s: State, s': State) {
    exists all: set<Loc> :: Advances(s, s', all)
  }

  lemma {:induction false} ReleaseOneAdvances(s: State, t: Pid)
    requires ValidState(s) && t in s.threads && t in Snap(s).1
    ensures var (s1, available) := Snap(s);
            var r := Release(s1.world, available[t].loc);
            Advances(s, s1.(world := r.world), {Home(s, t)}) &&
            (r.Raised? ==> EnterReset(Home(s, t)) in s.world.events)
  {
    SnapKeeps(s);
    ReleaseEvolves(s.world, Home(s, t));
  }

  lemma {:induction false} ReleaseAllAdvances(s: State, threads: seq<Pid>)
    requires ValidState(s) && forall t <- threads :: t in s.threads
    ensures var r := ReleaseAll(s, threads);
            && AdvancesSomehow(s, r.state)
            && (r.reply == Ok || r.reply == Exception)
            && (r.reply == Exception ==> AttachedCoreReset(s))
    decreases |threads|
  {
    if threads == [] {
      assert Advances(s, s, {});
    } else {
      SnapKeeps(s);
      var (s1, available) := Snap(s);
      var s2 := s1;
      var step: set<Loc> := {};
      if threads[0] in available {
        ReleaseOneAdvances(s, threads[0]);
        s2, step := s1.(world := Release(s1.world, available[threads[0]].loc).world), {Home(s, threads[0])};
      }
      assert Advances(s, s2, step);
      if threads[0] !in available || Release(s1.world, available[threads[0]].loc).Answer? {
        ReleaseAllAdvances(s2, threads[1..]);
        var final := ReleaseAll(s2, threads[1..]).state;
        var all :| Advances(s2, final, all);
        AdvancesInTurn(s, s2, final, step, all);
        assert ReleaseAll(s, threads).state == final;
        var both: set<Loc> := step + all;
        assert Advances(s, ReleaseAll(s, threads).state, both);
      } else {
        assert Advances(s, ReleaseAll(s, threads).state, step);
      }
    }
  }

  lemma AdvancesInTurn(a: State, b: State, c: State, r: set<Loc>, s: set<Loc>)
    requires Advances(a, b, r) && Advances(b, c, s)
    ensures Advances(a, c, r + s) && (AttachedCoreReset(b) ==> AttachedCoreReset(a))
  {
  }

  lemma DetachAllKeeps(s: State)
    requires ValidState(s)
    ensures Keeps(s, DoDetachAll(s))
    ensures DoDetachAll(s).reply == Exception ==> AttachedCoreReset(s)
    ensures DoDetachAll(s).reply == Ok ==> DoDetachAll(s).state.threads == []
  {
    if !s.skipDetach {
      ReleaseAllAdvances(s, s.threads);
    }
  }

  lemma SetArmedSparesRest(w: World, l: Loc, armed: set<nat>, k: Loc)
    ensures AtRest(SetArmed(w, l, armed), k) == AtRest(w, k)
  {
  }

  lemma ChangeSlotsSpares(w: World, l: Loc, armed: set<nat>, resume: bool, k: Loc)
    ensures var r := ChangeSlots(w, l, armed, resume);
            (forall e <- r.world.events :: e in w.events) &&
              (AtRest(w, k) && (resume ==> k != l) ==> AtRest(r.world, k))
  {
    TickEvolves(w);
    var w1 := Tick(w);
    SetArmedSparesRest(w1, l, armed, k);
    if !CoreAt(w1, l).reset && resume {
      var changed := SetArmed(w1, l, armed);
      TickEvolves(changed);
      SetRunningEvolves(Tick(changed), l, Continue);
    }
  }

  /** A core at rest is never resumed for a change of its watchpoints, also when the packet fails. */
  lemma WatchpointsSpareRest(s: State, l: Loc, armed: set<nat>, k: Loc)
    ensures var w' := DoWatchpoints(s, l, armed).state.world;
            (forall e <- w'.events :: e in s.world.events) && (AtRest(s.world, k) ==> AtRest(w', k))
  {
    var h, held := IsHalted(s.world, l), HaltIfRunning(s.world, l);
    TickEvolves(s.world);
    HaltIfRunningEvolves(s.world, l);
    if held.Answer? {
      ChangeSlotsSpares(held.world, l, armed, !h.yes, k);
    }
  }

  /** Cores are only disarmed, and a running core stops only by an event that was due. */
  ghost predicate Unhindered(w: World, w': World) {
    && w'.slots == w.slots
    && (forall e <- w'.events :: e in w.events)
    && (forall l :: CoreAt(w', l).armed <= CoreAt(w, l).armed)
    && (forall l :: AtRest(w', l) && !AtRest(w, l) ==> BreakpointHit(l) in w.events || EnterReset(l) in w.events)
  }

  lemma TickUnhindered(w: World)
    ensures Unhindered(w, Tick(w))
  {
    assert w.events != [] ==> w.events[0] in w.events;
  }

  lemma ChangeSlotsDone(w: World, l: Loc, armed: set<nat>, resume: bool)
    requires ChangeSlots(w, l, armed, resume).Answer?
    ensures var w' := ChangeSlots(w, l, armed, resume).world;
            CoreAt(w', l).armed == armed && (resume ==> !AtRest(w', l))
  {
    var changed := SetArmed(Tick(w), l, armed);
    TickKeepsArmed(changed, l);
  }

  /** The packet leaves the slots as asked, and a core that was running, and that no event stops
      meanwhile, running. */
  lemma WatchpointsRestore(s: State, l: Loc, armed: set<nat>)
    requires DoWatchpoints(s, l, armed).reply == Ok
    ensures var w' := DoWatchpoints(s, l, armed).state.world;
            CoreAt(w', l).armed == armed &&
            (!AtRest(s.world, l) && BreakpointHit(l) !in s.world.events && EnterReset(l) !in s.world.events ==>
              !AtRest(w', l))
  {
    TickUnhindered(s.world);
    ChangeSlotsDone(HaltIfRunning(s.world, l).world, l, armed, !IsHalted(s.world, l).yes);
  }

  lemma WatchpointsKeep(s: State, l: Loc, armed: set<nat>)
    requires ValidState(s)
    ensures var r := DoWatchpoints(s, l, armed);
            ValidState(r.state) && (forall e <- r.state.world.events :: e in s.world.events) &&
            (AllStop(s) ==> AllStop(r.state))
  {
    var w' := DoWatchpoints(s, l, armed).state.world;
    WatchpointsSpareRest(s, l, armed, l);
    forall t <- s.threads ensures AtRest(s.world, Home(s, t)) ==> AtRest(w', Home(s, t)) {
      WatchpointsSpareRest(s, l, armed, Home(s, t));
    }
    assert DoWatchpoints(s, l, armed).state == s.(world := w');
  }

  // ----- Any packet

  lemma HandleKeeps(s: State, p: Packet)
    requires ValidState(s)
    ensures ValidState(Handle(s, p).state)
    ensures forall e <- Handle(s, p).state.world.events :: e in s.world.events
    ensures Handle(s, p).reply == Exception && !p.Watchpoints? ==> AttachedCoreReset(s)
  {
    match p
    case Attach(who) => AttachKeeps(s, who);
    case VCont(clauses, interrupts) => VContKeeps(s, clauses, interrupts);
    case Detach(who) => DetachKeeps(s, who);
    case DetachAll => DetachAllKeeps(s);
    case Watchpoints(l, armed) => WatchpointsKeep(s, l, armed);
    case TimePasses => TickEvolves(s.world);
    case Reconnect =>
  }

  /** A stub with no client: its first snapshot is still to come. */
  function Fresh(w: World, skipDetach: bool): State {
    State(w, INITIAL, [], [], skipDetach)
  }

  lemma FreshIsAllStop(w: World, skipDetach: bool)
    ensures ValidState(Fresh(w, skipDetach)) && AllStop(Fresh(w, skipDetach))
  {
  }
}
