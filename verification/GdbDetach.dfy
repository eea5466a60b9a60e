/** What detaching everything leaves of the cores: disarmed and running. */
module GdbDetach {
  import opened Options
  import opened ProcessIds
  import opened GdbStub
  import opened GdbStubSafety
  import opened GdbSchedule
  import opened GdbListing

  lemma UnhinderedInTurn(a: World, b: World, c: World)
    requires Unhindered(a, b) && Unhindered(b, c)
    ensures Unhindered(a, c)
  {
  }

  lemma SetRunningUnhindered(w: World, l: Loc)
    ensures Unhindered(w, SetRunning(w, l, Continue))
  {
  }

  lemma DisableUnhindered(w: World, l: Loc, slot: nat)
    ensures Unhindered(w, Disable(w, l, slot).world)
  {
    TickUnhindered(w);
  }

  lemma {:induction false} DisableFromUnhindered(w: World, l: Loc, slot: nat)
    ensures Unhindered(w, DisableFrom(w, l, slot).world)
    decreases if slot < w.slots then w.slots - slot else 0
  {
    if slot < w.slots {
      var first := Disable(w, l, slot);
      DisableUnhindered(w, l, slot);
      if first.Answer? {
        DisableFromUnhindered(first.world, l, slot + 1);
        UnhinderedInTurn(w, first.world, DisableFrom(first.world, l, slot + 1).world);
      }
    }
  }

  lemma ContUnhindered(w: World, l: Loc)
    ensures Unhindered(w, ContIfHalted(w, l, Continue).world)
  {
    var w1 := Tick(w);
    TickUnhindered(w);
    if !CoreAt(w1, l).reset && CoreAt(w1, l).halted {
      TickUnhindered(w1);
      UnhinderedInTurn(w, w1, Tick(w1));
      SetRunningUnhindered(Tick(w1), l);
      UnhinderedInTurn(w, Tick(w1), SetRunning(Tick(w1), l, Continue));
    }
  }

  lemma ReleaseUnhindered(w: World, l: Loc)
    ensures Unhindered(w, Release(w, l).world)
  {
    DisableFromUnhindered(w, l, 0);
    var cleared := DisableFrom(w, l, 0);
    if cleared.Answer? {
      ContUnhindered(cleared.world, l);
      UnhinderedInTurn(w, cleared.world, Release(w, l).world);
    }
  }

  lemma {:induction false} ReleaseAllUnhindered(s: State, threads: seq<Pid>)
    ensures Unhindered(s.world, ReleaseAll(s, threads).state.world)
    decreases |threads|
  {
    if threads != [] {
      var (s1, available) := Snap(s);
      if threads[0] !in available {
        ReleaseAllUnhindered(s1, threads[1..]);
      } else {
        var r := Release(s1.world, available[threads[0]].loc);
        ReleaseUnhindered(s1.world, available[threads[0]].loc);
        if r.Answer? {
          var s2 := s1.(world := r.world);
          ReleaseAllUnhindered(s2, threads[1..]);
          UnhinderedInTurn(s.world, r.world, ReleaseAll(s2, threads[1..]).state.world);
        }
      }
    }
  }

  /** None of the slots of the core is enabled, and it runs unless an event that was due stopped it. */
  ghost predicate Freed(w: World, w': World, l: Loc) {
    && (forall i :: i in CoreAt(w', l).armed ==> i >= w.slots)
    && (AtRest(w', l) ==> BreakpointHit(l) in w.events || EnterReset(l) in w.events)
  }

  lemma FreedStays(w: World, freed: World, w': World, l: Loc)
    requires Unhindered(w, freed) && Unhindered(freed, w') && Freed(w, freed, l)
    ensures Freed(w, w', l)
  {
  }

  lemma FreedBefore(w: World, mid: World, w': World, l: Loc)
    requires Unhindered(w, mid) && Freed(mid, w', l)
    ensures Freed(w, w', l)
  {
  }

  /** The state when the turn of thread k comes. */
  function AtTurn(s: State, threads: seq<Pid>, k: nat): State
    requires k <= |threads|
  {
    ReleaseAll(s, threads[..k]).state
  }

  /** A thread that is available when its turn comes is freed, and stays so. */
  lemma {:induction false} ReleaseAllFrees(s: State, threads: seq<Pid>, k: nat)
    requires ValidState(s) && k < |threads| && (forall t <- threads :: t in s.threads)
    requires ReleaseAll(s, threads).reply == Ok
    requires threads[k] in Snap(AtTurn(s, threads, k)).1
    ensures Freed(s.world, ReleaseAll(s, threads).state.world, Home(s, threads[k]))
    decreases |threads|
  {
    SnapKeeps(s);
    var (s1, available) := Snap(s);
    var t := threads[0];
    var s2 := if t in available then s1.(world := Release(s1.world, Home(s, t)).world) else s1;
    var done := ReleaseAll(s2, threads[1..]);
    if t in available {
      ReleaseUnhindered(s.world, Home(s, t));
      ReleaseOneAdvances(s, t);
    }
    ReleaseAllUnhindered(s2, threads[1..]);
    if k == 0 {
      assert threads[..0] == [];
      ReleaseEvolves(s.world, Home(s, t));
      FreedStays(s.world, s2.world, done.state.world, Home(s, t));
    } else {
      TurnStep(s, threads, k);
      assert forall x <- threads[1..] :: x in s2.threads;
      ReleaseAllFrees(s2, threads[1..], k - 1);
      FreedBefore(s.world, s2.world, done.state.world, Home(s, threads[k]));
    }
  }

  lemma TurnStep(s: State, threads: seq<Pid>, k: nat)
    requires ValidState(s) && 0 < k < |threads| && (forall t <- threads :: t in s.threads)
    requires ReleaseAll(s, threads).reply == Ok
    ensures var (s1, available) := Snap(s); var t := threads[0];
            var s2 := if t in available then s1.(world := Release(s1.world, Home(s, t)).world) else s1;
            ReleaseAll(s, threads) == ReleaseAll(s2, threads[1..]) &&
              AtTurn(s, threads, k) == AtTurn(s2, threads[1..], k - 1)
  {
    SnapKeeps(s);
    assert threads[..k][1..] == threads[1..][..k - 1] && threads[..k][0] == threads[0];
  }

  /** A thread that is listed is so again after another core was released. */
  lemma StaysListedOnce(s: State, t: Pid, l: Loc)
    requires ValidState(s) && EachOnce(s.world.order) && t in s.threads && t in Snap(s).1 && Steady(s.world, Home(s, t))
    ensures var s1 := Snap(s).0;
            Snap(s1).0.world == s.world && t in Snap(s1).1 && t in Snap(s1.(world := Release(s.world, l).world)).1
    ensures Steady(Release(s.world, l).world, Home(s, t)) && Release(s.world, l).world.order == s.world.order
  {
    var s1 := Snap(s).0;
    SnapKeeps(s);
    ListedIsSettled(s, t);
    SettledIsListed(s1, t);
    StartFollows(s.world);
    ReleaseFollows(s.world, Start(s.world), s.world, l);
    SettledStays(s1, t, PlanRelease(s.world, l, Start(s.world)).plan, Release(s.world, l).world);
    SettledIsListed(s1.(world := Release(s.world, l).world), t);
  }

  lemma {:induction false} StaysListed(s: State, threads: seq<Pid>, t: Pid)
    requires ValidState(s) && EachOnce(s.world.order) && t in s.threads && t in Snap(s).1 && Steady(s.world, Home(s, t))
    ensures t in Snap(ReleaseAll(s, threads).state).1
    decreases |threads|
  {
    if threads != [] {
      SnapKeeps(s);
      var (s1, available) := Snap(s);
      StaysListedOnce(s, t, if threads[0] in available then available[threads[0]].loc else 0);
      if threads[0] !in available {
        StaysListed(s1, threads[1..], t);
      } else {
        var r := Release(s1.world, available[threads[0]].loc);
        if r.Answer? {
          StaysListed(s1.(world := r.world), threads[1..], t);
        }
      }
    }
  }

  /** Detaching everything frees the core of each thread that is available when the packet comes
      and whose core then neither enters reset nor gets another ELF: its slots are disabled, and
      it runs unless a breakpoint that was due stopped it. */
  lemma DetachAllFrees(s: State, t: Pid)
    requires ValidState(s) && EachOnce(s.world.order) && !s.skipDetach && DoDetachAll(s).reply == Ok
    requires t in s.threads && t in Snap(s).1 && Steady(s.world, Home(s, t))
    ensures var w', l := DoDetachAll(s).state.world, Home(s, t);
            (forall i :: i in CoreAt(w', l).armed ==> i >= s.world.slots) &&
            (AtRest(w', l) ==> BreakpointHit(l) in s.world.events)
  {
    var k :| 0 <= k < |s.threads| && s.threads[k] == t;
    StaysListed(s, s.threads[..k], t);
    ReleaseAllAdvances(s, s.threads);
    ReleaseAllFrees(s, s.threads, k);
  }
}
