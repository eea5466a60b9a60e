/** Runs in which no core enters reset and no ELF is loaded: nothing the client sends breaks all-stop. */
module GdbCalm {
  import opened Options
  import opened ProcessIds
  import opened GdbStub
  import opened GdbStubSafety
  import opened GdbSchedule
  import opened GdbListing
  import opened GdbAllStop

  lemma ChangeSlotsFollows(w: World, p: Plan, w': World, l: Loc, armed: set<nat>, resume: bool) returns (after: Plan)
    requires Follows(w, p, w')
    ensures Follows(w, after, ChangeSlots(w', l, armed, resume).world)
  {
    TickFollows(w, p, w');
    after := Next(p);
    if !CoreAt(Tick(w'), l).reset {
      var changed := SetArmed(Tick(w'), l, armed);
      ArmedFollows(w, after, Tick(w'), l, armed);
      if resume {
        TickFollows(w, after, changed);
        after := Next(after);
        if !CoreAt(Tick(changed), l).reset {
          ResumeFollows(w, after, Tick(changed), l, Continue);
          after := after.(going := after.going[l := after.time]);
        }
      }
    }
  }

  lemma HoldFollows(w: World, l: Loc) returns (after: Plan)
    ensures Follows(w, after, HaltIfRunning(w, l).world)
  {
    StartFollows(w);
    HaltIfRunningFollows(w, Start(w), w, l);
    var p1 := Next(Start(w));
    var p2 := Next(p1);
    after := if ResetBy(w, l, p1.time) || HaltedBy(w, p1, l) then p1
             else if ResetBy(w, l, p2.time) then p2
             else p2.(going := p2.going - {l});
  }

  lemma AttachFollows(s: State, who: Option<Pid>) returns (plan: Plan)
    ensures Follows(s.world, plan, DoAttach(s, who).state.world)
  {
    plan := Start(s.world);
    StartFollows(s.world);
    if who.Some? && who.value in Snap(s).1 {
      var second := Snap(Snap(s).0).1;
      if who.value in second && second[who.value].pid !in s.threads {
        plan := HoldFollows(s.world, second[who.value].loc);
      }
    }
  }

  lemma WatchpointsFollow(s: State, l: Loc, armed: set<nat>) returns (plan: Plan)
    ensures Follows(s.world, plan, DoWatchpoints(s, l, armed).state.world)
  {
    plan := HoldFollows(s.world, l);
    var held := HaltIfRunning(s.world, l);
    if held.Answer? {
      plan := ChangeSlotsFollows(s.world, plan, held.world, l, armed, !IsHalted(s.world, l).yes);
    }
  }

  /** Every packet takes the device along the schedule. */
  lemma PacketFollows(s: State, p: Packet) returns (plan: Plan)
    requires ValidState(s)
    ensures Follows(s.world, plan, Handle(s, p).state.world)
  {
    plan := Start(s.world);
    StartFollows(s.world);
    match p
    case Attach(who) =>
      plan := AttachFollows(s, who);
    case VCont(clauses, interrupts) =>
      VContKeepsExactly(s, clauses, interrupts);
      if Starts(s, clauses) {
        WatchAsPlanned(s, clauses, interrupts);
        plan := PlanVCont(s, clauses, interrupts).plan;
      }
    case Detach(who) =>
      if WillRelease(s, who) {
        var l := Snap(s.(threads := Without(s.threads, who.value))).1[who.value].loc;
        ReleaseFollows(s.world, plan, s.world, l);
        plan := PlanRelease(s.world, l, plan).plan;
      }
    case DetachAll =>
      if !s.skipDetach {
        ReleaseAllFollows(s.world, plan, s, s.threads);
        plan := PlanDetachAll(s).plan;
      }
    case Watchpoints(l, armed) =>
      plan := WatchpointsFollow(s, l, armed);
    case TimePasses =>
      TickFollows(s.world, plan, s.world);
      plan := Next(plan);
    case Reconnect =>
  }

  ghost predicate CalmWorld(w: World) {
    EachOnce(w.order) && forall e <- w.events :: !e.EnterReset? && !e.LoadElf?
  }

  ghost predicate CalmState(s: State) {
    ValidState(s) && CalmWorld(s.world) && forall t <- s.threads :: Settled(s, t)
  }

  lemma CalmWorldIsSteady(w: World, l: Loc)
    requires CalmWorld(w)
    ensures Steady(w, l)
  {
  }

  lemma CalmIsHarmless(s: State, p: Packet)
    requires CalmState(s)
    ensures Harmless(s, p)
  {
    match p
    case VCont(clauses, interrupts) =>
      if Starts(s, clauses) {
        VContKeepsExactly(s, clauses, interrupts);
        VContKeeps(s, clauses, interrupts);
      }
    case Detach(who) =>
      if WillRelease(s, who) {
        forall t <- s.threads | t != who.value ensures Home(s, t) != Home(s, who.value) {
          SettledApart(s, t, who.value);
        }
      }
    case DetachAll =>
      DetachAllKeepsExactly(s);
      DetachAllKeeps(s);
    case _ =>
  }

  lemma AttachSettles(s: State, who: Option<Pid>, t: Pid)
    requires CalmState(s) && t in DoAttach(s, who).state.threads
    ensures Settled(DoAttach(s, who).state.(world := s.world), t)
  {
    var s1 := Snap(s).0;
    SnapKeeps(s);
    SnapKeeps(s1);
    if t in s.threads {
      SettledIsListed(s, t);
      SettledIsListed(s1, t);
    } else {
      ListedIsSettled(s1, t);
    }
  }

  lemma DetachSettles(s: State, who: Option<Pid>, t: Pid)
    requires CalmState(s) && t in DoDetach(s, who).state.threads
    ensures Settled(DoDetach(s, who).state.(world := s.world), t)
  {
    DetachKeeps(s, who);
    if who.Some? && who.value in s.threads {
      WithoutRemoves(s.threads, who.value);
      SettledIsListed(s.(threads := Without(s.threads, who.value)), t);
    }
  }

  /** The threads of the packet's final state are settled in it. */
  lemma TablesSettle(s: State, p: Packet, t: Pid)
    requires CalmState(s) && t in Handle(s, p).state.threads
    ensures Settled(Handle(s, p).state.(world := s.world), t)
  {
    match p
    case Attach(who) => AttachSettles(s, who, t);
    case VCont(clauses, interrupts) => SettledIsListed(s, t);
    case Detach(who) =>
      DetachSettles(s, who, t);
    case DetachAll => DetachAllKeeps(s);
    case _ =>
  }

  lemma CalmStep(s: State, p: Packet)
    requires CalmState(s)
    ensures CalmState(Handle(s, p).state)
  {
    var s' := Handle(s, p).state;
    HandleKeeps(s, p);
    var plan := PacketFollows(s, p);
    forall t <- s'.threads ensures Settled(s', t) {
      TablesSettle(s, p, t);
      CalmWorldIsSteady(s.world, s'.table.issued[t].loc);
      SettledStays(s'.(world := s.world), t, plan, s'.world);
    }
  }

  lemma {:induction false} CalmRunsAreHarmless(s: State, packets: seq<Packet>)
    requires CalmState(s)
    ensures HarmlessRun(s, packets)
    decreases |packets|
  {
    if packets != [] {
      CalmIsHarmless(s, packets[0]);
      CalmStep(s, packets[0]);
      CalmRunsAreHarmless(Handle(s, packets[0]).state, packets[1..]);
    }
  }

  /** A stub that starts over a device whose cores neither enter reset nor get another ELF keeps
      all-stop whatever the client sends. */
  lemma CalmRunsKeepAllStop(w: World, skipDetach: bool, packets: seq<Packet>)
    requires CalmWorld(w)
    ensures AllStopThroughout(Fresh(w, skipDetach), packets)
  {
    var s := Fresh(w, skipDetach);
    FreshIsAllStop(w, skipDetach);
    CalmRunsAreHarmless(s, packets);
    EveryRunKeepsAllStop(s, packets);
  }
}
