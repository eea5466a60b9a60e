/** When all-stop survives: each packet keeps it, or loses it, as the events that are due decide. */
module GdbAllStop {
  import opened Options
  import opened ProcessIds
  import opened GdbStub
  import opened GdbStubSafety
  import opened GdbSchedule

  // ----- One vCont packet

  /** The packet starts a watch: it is not answered from the queue, refused, or told of a gone thread. */
  predicate Starts(s: State, clauses: seq<Clause>) {
    s.pending == [] && ParseActions(s.threads, clauses).Good? && FirstMissing(s.threads, Snap(s).1).None?
  }

  ghost function JobsOf(s: State, clauses: seq<Clause>): seq<Job>
    requires ValidState(s)
  {
    seq(|s.threads|, k requires 0 <= k < |s.threads| =>
      Job(Home(s, s.threads[k]), Leftmost(clauses, s.threads[k]).Some?))
  }

  ghost function PlanVCont(s: State, clauses: seq<Clause>, interrupts: seq<bool>): Planned
    requires ValidState(s)
  {
    PlanRound(s.world, JobsOf(s, clauses), interrupts)
  }

  /** Every attached core that is going when the plan ends was stirred. */
  ghost predicate StaysStopped(s: State, p: Plan)
    requires ValidState(s)
  {
    forall t <- s.threads :: Home(s, t) in p.going ==> Stirred(s.world, p, Home(s, t))
  }

  lemma {:induction false} NothingMissing(threads: seq<Pid>, available: map<Pid, Process>)
    requires FirstMissing(threads, available).None?
    ensures forall t <- threads :: t in available
  {
    if threads != [] {
      NothingMissing(threads[1..], available);
    }
  }

  lemma StopsAsPlanned(s: State, s': State, p: Plan)
    requires ValidState(s) && ValidState(s') && s'.threads == s.threads && Extends(s.table.issued, s'.table.issued)
    requires Follows(s.world, p, s'.world)
    ensures AllStop(s') <==> StaysStopped(s, p)
  {
    forall t <- s.threads
      ensures AtRest(s'.world, Home(s', t)) <==> (Home(s, t) in p.going ==> Stirred(s.world, p, Home(s, t)))
    {
      RestByPlan(s.world, p, s'.world, Home(s, t));
    }
  }

  lemma WatchAsPlanned(s: State, clauses: seq<Clause>, interrupts: seq<bool>)
    requires ValidState(s) && Starts(s, clauses)
    ensures var todo, q := ParseActions(s.threads, clauses).todo, PlanVCont(s, clauses, interrupts);
            var round := RunRound(s.world, Snap(s).1, todo, interrupts);
            round.raised == q.failed && Follows(s.world, q.plan, round.world)
  {
    SnapKeeps(s);
    NothingMissing(s.threads, Snap(s).1);
    RoundFollows(s.world, Snap(s).1, ParseActions(s.threads, clauses).todo, interrupts, JobsOf(s, clauses));
  }

  /** A vCont packet that starts a watch raises exactly when its plan fails, and leaves every attached
      core at rest exactly when each core that is still going by then was stirred. Any other
      vCont packet leaves the device alone. */
  lemma VContKeepsExactly(s: State, clauses: seq<Clause>, interrupts: seq<bool>)
    requires ValidState(s)
    ensures var r, q := DoVCont(s, clauses, interrupts), PlanVCont(s, clauses, interrupts);
            && ValidState(r.state)
            && (r.reply == Exception <==> Starts(s, clauses) && q.failed)
            && (Starts(s, clauses) ==> (AllStop(r.state) <==> StaysStopped(s, q.plan)))
            && (!Starts(s, clauses) ==> r.state.world == s.world && (AllStop(r.state) <==> AllStop(s)))
  {
    VContKeeps(s, clauses, interrupts);
    SnapKeeps(s);
    var r, q := DoVCont(s, clauses, interrupts), PlanVCont(s, clauses, interrupts);
    if Starts(s, clauses) {
      WatchAsPlanned(s, clauses, interrupts);
      StopsAsPlanned(s, r.state, q.plan);
    }
  }

  /** A plan fails only at the reset of an attached core, and one that does not fail stops every core. */
  lemma FailsByReset(s: State, clauses: seq<Clause>, interrupts: seq<bool>)
    requires ValidState(s) && Starts(s, clauses)
    ensures var q := PlanVCont(s, clauses, interrupts);
            if q.failed then exists t :: t in s.threads && Due(s.world, EnterReset(Home(s, t)), 0, q.plan.time)
            else AllStop(s) ==> StaysStopped(s, q.plan)
  {
    var todo, q := ParseActions(s.threads, clauses).todo, PlanVCont(s, clauses, interrupts);
    var available := Snap(s).1;
    SnapKeeps(s);
    VContKeepsExactly(s, clauses, interrupts);
    VContKeeps(s, clauses, interrupts);
    if q.failed {
      WatchAsPlanned(s, clauses, interrupts);
      RoundKeeps(s.world, available, todo, interrupts);
      var round := RunRound(s.world, available, todo, interrupts);
      var t :| t in todo && t.pid in available && CoreAt(round.world, available[t.pid].loc).reset;
      ParsedThreads(s.threads, clauses);
      assert t.pid in s.threads && ResetBy(s.world, Home(s, t.pid), q.plan.time);
    }
  }

  // ----- Detaching

  ghost function PlanDetachAll(s: State): Planned {
    PlanReleaseAll(s.world, s.table, s.threads, Start(s.world))
  }

  /** Detaching everything fails exactly when its plan does. The threads stay attached then, and
      their cores are at rest exactly when each one that was set going was stirred. */
  lemma DetachAllKeepsExactly(s: State)
    requires ValidState(s)
    ensures var r, q := DoDetachAll(s), PlanDetachAll(s);
            && ValidState(r.state)
            && (r.reply == Exception <==> !s.skipDetach && q.failed)
            && (r.reply == Exception ==>
                  r.state.threads == s.threads && (AllStop(r.state) <==> StaysStopped(s, q.plan)))
            && (r.reply != Exception ==> r.state.threads == [] && AllStop(r.state))
  {
    DetachAllKeeps(s);
    if !s.skipDetach {
      StartFollows(s.world);
      ReleaseAllFollows(s.world, Start(s.world), s, s.threads);
      ReleaseAllAdvances(s, s.threads);
      var r := ReleaseAll(s, s.threads);
      if r.reply == Exception {
        StopsAsPlanned(s, r.state, PlanDetachAll(s).plan);
      }
    }
  }

  ghost function PlanDetach(s: State, pid: Pid): Planned
    requires ValidState(s) && pid in s.threads
  {
    PlanRelease(s.world, Home(s, pid), Start(s.world))
  }

  /** Detaching one thread resumes its core, unless it raises; the other threads stay stopped then
      exactly when none of them stands for that core. */
  lemma DetachKeepsExactly(s: State, who: Option<Pid>)
    requires ValidState(s)
    ensures var r := DoDetach(s, who);
            && ValidState(r.state)
            && (r.reply == Exception <==> WillRelease(s, who) && PlanDetach(s, who.value).failed)
            && (AllStop(s) ==>
                  (AllStop(r.state) <==>
                     (WillRelease(s, who) && !PlanDetach(s, who.value).failed ==> Apart(s, who.value))))
  {
    DetachKeeps(s, who);
    if WillRelease(s, who) {
      WithoutRemoves(s.threads, who.value);
      var s0 := s.(threads := Without(s.threads, who.value));
      SnapKeeps(s0);
      StartFollows(s.world);
      ReleaseFollows(s.world, Start(s.world), s.world, Home(s, who.value));
      assert Snap(s0).1[who.value].loc == Home(s, who.value);
      if DoDetach(s, who).reply == Ok {
        DetachReleases(s, who);
      }
    }
  }

  // ----- Any packet, and any run

  /** The packet keeps all-stop. This only looks at the state and at the events that are due. */
  ghost predicate Harmless(s: State, p: Packet)
    requires ValidState(s)
  {
    match p
    case VCont(clauses, interrupts) =>
      var q := PlanVCont(s, clauses, interrupts);
      Starts(s, clauses) && q.failed ==> StaysStopped(s, q.plan)
    case Detach(who) => WillRelease(s, who) && !PlanDetach(s, who.value).failed ==> Apart(s, who.value)
    case DetachAll => !s.skipDetach && PlanDetachAll(s).failed ==> StaysStopped(s, PlanDetachAll(s).plan)
    case _ => true
  }

  lemma HandleKeepsExactly(s: State, p: Packet)
    requires ValidState(s) && AllStop(s)
    ensures ValidState(Handle(s, p).state) && (AllStop(Handle(s, p).state) <==> Harmless(s, p))
  {
    match p
    case Attach(who) => AttachKeeps(s, who);
    case VCont(clauses, interrupts) =>
      VContKeepsExactly(s, clauses, interrupts);
      if Starts(s, clauses) {
        FailsByReset(s, clauses, interrupts);
      }
    case Detach(who) => DetachKeepsExactly(s, who);
    case DetachAll => DetachAllKeepsExactly(s);
    case Watchpoints(l, armed) => WatchpointsKeep(s, l, armed);
    case TimePasses => TickEvolves(s.world);
    case Reconnect =>
  }

  function After(s: State, packets: seq<Packet>): State
    decreases |packets|
  {
    if packets == [] then s else After(Handle(s, packets[0]).state, packets[1..])
  }

  ghost predicate HarmlessRun(s: State, packets: seq<Packet>)
    requires ValidState(s)
    decreases |packets|
  {
    packets == [] ||
    (Harmless(s, packets[0]) && (HandleKeeps(s, packets[0]); HarmlessRun(Handle(s, packets[0]).state, packets[1..])))
  }

  ghost predicate StopsAfter(s: State, packets: seq<Packet>) {
    ValidState(After(s, packets)) && AllStop(After(s, packets))
  }

  ghost predicate AllStopThroughout(s: State, packets: seq<Packet>) {
    forall k :: 0 <= k <= |packets| ==> StopsAfter(s, packets[..k])
  }

  lemma StopsAtStart(s: State, packets: seq<Packet>)
    requires AllStopThroughout(s, packets)
    ensures StopsAfter(s, [])
  {
    assert packets[..0] == [];
  }

  lemma ThroughoutStep(s: State, packets: seq<Packet>)
    requires packets != [] && StopsAfter(s, [])
    ensures AllStopThroughout(s, packets) <==> AllStopThroughout(Handle(s, packets[0]).state, packets[1..])
  {
    var s' := Handle(s, packets[0]).state;
    forall k | 0 < k <= |packets| ensures After(s, packets[..k]) == After(s', packets[1..][..k - 1]) {
      assert packets[..k][1..] == packets[1..][..k - 1];
    }
    assert packets[..0] == [];
    if AllStopThroughout(s, packets) {
      forall k | 0 <= k <= |packets[1..]| ensures StopsAfter(s', packets[1..][..k]) {
        assert StopsAfter(s, packets[..k + 1]);
      }
    }
    if AllStopThroughout(s', packets[1..]) {
      forall k | 0 <= k <= |packets| ensures StopsAfter(s, packets[..k]) {
        if k > 0 {
          assert StopsAfter(s', packets[1..][..k - 1]);
        }
      }
    }
  }

  /** Over every run: between any two packets every attached core that is not in reset is halted,
      exactly when every packet of the run is harmless where it comes. */
  lemma {:induction false} EveryRunKeepsAllStop(s: State, packets: seq<Packet>)
    requires ValidState(s) && AllStop(s)
    ensures AllStopThroughout(s, packets) <==> HarmlessRun(s, packets)
    decreases |packets|
  {
    if packets == [] {
      assert forall k :: 0 <= k <= |packets| ==> packets[..k] == [];
    } else {
      var s' := Handle(s, packets[0]).state;
      HandleKeepsExactly(s, packets[0]);
      HandleKeeps(s, packets[0]);
      ThroughoutStep(s, packets);
      if AllStop(s') {
        EveryRunKeepsAllStop(s', packets[1..]);
      } else if AllStopThroughout(s', packets[1..]) {
        StopsAtStart(s', packets[1..]);
      }
    }
  }
}
