/** When cores are left running, told from the events alone. Every access of the stub to the device
    lets one event happen, so the events that are due are a schedule: the n-th access sees exactly
    the first n events. A plan follows the accesses of a packet along that schedule. */
module GdbSchedule {
  import opened Options
  import opened ProcessIds
  import opened GdbStub

  // ----- The schedule

  function EventAt(w: World, n: nat): Event {
    if n < |w.events| then w.events[n] else Quiet
  }

  /** `e` happens at one of the accesses from+1..until. */
  predicate Due(w: World, e: Event, from: nat, until: nat)
    decreases until
  {
    from < until && (EventAt(w, until - 1) == e || Due(w, e, from, until - 1))
  }

  lemma {:induction false} DueByPosition(w: World, e: Event, from: nat, until: nat)
    requires e != Quiet
    ensures Due(w, e, from, until) <==> exists j :: from <= j < until && j < |w.events| && w.events[j] == e
    decreases until
  {
    if from < until {
      DueByPosition(w, e, from, until - 1);
      if EventAt(w, until - 1) == e {
        assert w.events[until - 1] == e;
      }
    }
  }

  /** The core is in reset at access `t`. Nothing the stub does changes that. */
  predicate ResetBy(w: World, l: Loc, t: nat) {
    (l in w.cores ==> w.cores[l].reset) || Due(w, EnterReset(l), 0, t)
  }

  function ElfsBy(w: World, t: nat): map<Loc, string>
    decreases t
  {
    if t == 0 then w.elfs
    else
      match EventAt(w, t - 1)
      case LoadElf(l, elf) => ElfsBy(w, t - 1)[l := elf]
      case _ => ElfsBy(w, t - 1)
  }

  /** How far a packet has come: the number of accesses it has made, and for every core that may
      be running the access at which it was last seen or set running. */
  datatype Plan = Plan(time: nat, going: map<Loc, nat>)

  /** A core that was going has hit a breakpoint since, or entered reset. */
  predicate Stirred(w: World, p: Plan, l: Loc)
    requires l in p.going
  {
    Due(w, BreakpointHit(l), p.going[l], p.time) || Due(w, EnterReset(l), p.going[l], p.time)
  }

  /** A core that is not in reset is halted unless it is going and no breakpoint was hit since. */
  predicate HaltedBy(w: World, p: Plan, l: Loc) {
    l in p.going ==> Due(w, BreakpointHit(l), p.going[l], p.time)
  }

  function Next(p: Plan): Plan {
    p.(time := p.time + 1)
  }

  function Start(w: World): Plan {
    Plan(0, map l | l in w.cores && !w.cores[l].reset && !w.cores[l].halted :: 0)
  }

  // ----- What a plan says of the device

  ghost predicate SameStatus(w: World, p: Plan, w': World) {
    && (forall l :: CoreAt(w', l).reset <==> ResetBy(w, l, p.time))
    && (forall l :: l !in p.going ==> AtRest(w', l))
    && (forall l <- p.going :: !CoreAt(w', l).reset ==> (CoreAt(w', l).halted <==> HaltedBy(w, p, l)))
  }

  ghost predicate ValidPlan(w: World, p: Plan) {
    forall l <- p.going :: l in w.cores && p.going[l] <= p.time && !ResetBy(w, l, p.going[l])
  }

  /** `w'` is the device as it is after the accesses of the plan. */
  ghost predicate Follows(w: World, p: Plan, w': World) {
    && w'.cores.Keys == w.cores.Keys && w'.order == w.order && w'.slots == w.slots
    && w'.events == (if p.time <= |w.events| then w.events[p.time..] else [])
    && w'.elfs == ElfsBy(w, p.time)
    && ValidPlan(w, p) && SameStatus(w, p, w')
  }

  lemma StartFollows(w: World)
    ensures Follows(w, Start(w), w)
  {
  }

  lemma TickFollows(w: World, p: Plan, w': World)
    requires Follows(w, p, w')
    ensures Follows(w, Next(p), Tick(w'))
  {
    TickStatus(w, p, w');
    assert w'.events != [] ==> w'.events[0] == EventAt(w, p.time);
  }

  /** What an event does to one core. */
  function Stepped(c: Core, l: Loc, e: Event): Core {
    match e
    case BreakpointHit(k) => if k == l && !c.reset then c.(halted := true) else c
    case EnterReset(k) => if k == l then c.(reset := true) else c
    case _ => c
  }

  lemma TickSteps(w: World, p: Plan, w': World, l: Loc)
    requires w'.events == (if p.time <= |w.events| then w.events[p.time..] else [])
    ensures CoreAt(Tick(w'), l) == Stepped(CoreAt(w', l), l, EventAt(w, p.time))
  {
    assert w'.events != [] ==> w'.events[0] == EventAt(w, p.time);
  }

  lemma TickStatus(w: World, p: Plan, w': World)
    requires Follows(w, p, w')
    ensures SameStatus(w, Next(p), Tick(w')) && ValidPlan(w, Next(p))
  {
    var e, w1 := EventAt(w, p.time), Tick(w');
    forall l ensures CoreAt(w1, l) == Stepped(CoreAt(w', l), l, e) {
      TickSteps(w, p, w', l);
    }
    forall l ensures CoreAt(w1, l).reset <==> ResetBy(w, l, p.time + 1) {
      assert CoreAt(w', l).reset <==> ResetBy(w, l, p.time);
    }
    forall l <- p.going | !CoreAt(w1, l).reset ensures CoreAt(w1, l).halted <==> HaltedBy(w, Next(p), l) {
      assert CoreAt(w', l).halted <==> HaltedBy(w, p, l);
    }
  }

  lemma ResumeFollows(w: World, p: Plan, w': World, l: Loc, action: Action)
    requires Follows(w, p, w') && !CoreAt(w', l).reset
    ensures Follows(w, p.(going := p.going[l := p.time]), SetRunning(w', l, action))
  {
  }

  lemma HaltFollows(w: World, p: Plan, w': World, l: Loc)
    requires Follows(w, p, w')
    ensures Follows(w, p.(going := p.going - {l}), SetHalted(w', l, true))
  {
  }

  lemma {:induction false} DueExtends(w: World, e: Event, from: nat, mid: nat, until: nat)
    requires from <= mid <= until
    ensures Due(w, e, from, until) <==> Due(w, e, from, mid) || Due(w, e, mid, until)
    decreases until
  {
    if mid < until {
      DueExtends(w, e, from, mid, until - 1);
    }
  }

  /** A going core is at rest exactly when it was stirred; the others are at rest. */
  lemma RestByPlan(w: World, p: Plan, w': World, l: Loc)
    requires Follows(w, p, w')
    ensures AtRest(w', l) <==> (l in p.going ==> Stirred(w, p, l))
  {
    if l in p.going {
      DueExtends(w, EnterReset(l), 0, p.going[l], p.time);
    }
  }

  // ----- The plan of a vCont packet

  /** The core of an attached thread, and whether the thread has an action. */
  datatype Job = Job(loc: Loc, act: bool)

  datatype Planned = Planned(failed: bool, plan: Plan, watch: seq<Loc>)

  /** One access asks for the status, and another one resumes a halted core. */
  function PlanCont(w: World, l: Loc, p: Plan): Planned {
    var p1, p2 := Next(p), Next(Next(p));
    if ResetBy(w, l, p1.time) then Planned(true, p1, [])
    else if !HaltedBy(w, p1, l) then Planned(false, p1, [])
    else if ResetBy(w, l, p2.time) then Planned(true, p2, [])
    else Planned(false, p2.(going := p2.going[l := p2.time]), [])
  }

  /** Applying the actions. The cores that are resumed are watched, and those that run already and
      have no action. */
  function PlanApply(w: World, jobs: seq<Job>, p: Plan): Planned
    decreases |jobs|
  {
    if jobs == [] then Planned(false, p, [])
    else
      var first := PlanApplyOne(w, jobs[0], p);
      if first.failed then first
      else
        var rest := PlanApply(w, jobs[1..], first.plan);
        rest.(watch := first.watch + rest.watch)
  }

  function PlanApplyOne(w: World, job: Job, p: Plan): Planned {
    var p1 := Next(p);
    if job.act then
      var r := PlanCont(w, job.loc, p);
      if r.failed || !HaltedBy(w, p1, job.loc) then r else r.(watch := [job.loc])
    else if ResetBy(w, job.loc, p1.time) then Planned(true, p1, [])
    else Planned(false, p1, if HaltedBy(w, p1, job.loc) then [] else [job.loc])
  }

  /** One poll, two accesses for each core, finds something to report. */
  predicate ReportDue(w: World, watch: seq<Loc>, p: Plan)
    decreases |watch|
  {
    watch != [] &&
    (ResetBy(w, watch[0], p.time + 1) || HaltedBy(w, Next(Next(p)), watch[0]) ||
      ReportDue(w, watch[1..], Next(Next(p))))
  }

  function AfterPoll(watch: seq<Loc>, p: Plan): Plan
    decreases |watch|
  {
    if watch == [] then p else AfterPoll(watch[1..], Next(Next(p)))
  }

  function PlanWatch(w: World, watch: seq<Loc>, p: Plan, interrupts: seq<bool>): Plan
    decreases |interrupts|
  {
    var polled := AfterPoll(watch, p);
    if interrupts == [] || interrupts[0] || ReportDue(w, watch, p) then polled
    else PlanWatch(w, watch, polled, interrupts[1..])
  }

  /** The final loop asks whether a core is in reset, then whether it is halted, and then halts it.
      It raises when the core enters reset right after the first question. */
  function PlanStop(w: World, watch: seq<Loc>, p: Plan): Planned
    decreases |watch|
  {
    if watch == [] then Planned(false, p, [])
    else
      var l, p1, p2, p3 := watch[0], Next(p), Next(Next(p)), Next(Next(Next(p)));
      if ResetBy(w, l, p1.time) then PlanStop(w, watch[1..], p1)
      else if ResetBy(w, l, p2.time) then Planned(true, p2, [])
      else if HaltedBy(w, p2, l) then PlanStop(w, watch[1..], p2)
      else if ResetBy(w, l, p3.time) then Planned(true, p3, [])
      else PlanStop(w, watch[1..], p3.(going := p3.going - {l}))
  }

  function PlanRound(w: World, jobs: seq<Job>, interrupts: seq<bool>): Planned {
    var applied := PlanApply(w, jobs, Start(w));
    if applied.failed then applied
    else PlanStop(w, applied.watch, PlanWatch(w, applied.watch, applied.plan, interrupts))
  }

  // ----- The plan is what happens

  ghost predicate AreJobs(jobs: seq<Job>, todo: seq<Todo>, available: map<Pid, Process>) {
    |jobs| == |todo| &&
    forall k :: 0 <= k < |todo| ==>
      todo[k].pid in available && jobs[k] == Job(available[todo[k].pid].loc, todo[k].action.Some?)
  }

  function LocsOf(watch: seq<Process>): (r: seq<Loc>)
    ensures |r| == |watch| && forall k :: 0 <= k < |r| ==> r[k] == watch[k].loc
  {
    seq(|watch|, k requires 0 <= k < |watch| => watch[k].loc)
  }

  ghost predicate AppliedAsPlanned(w: World, r: Applied, q: Planned) {
    r.raised == q.failed && Follows(w, q.plan, r.world) && (!q.failed ==> LocsOf(r.watch) == q.watch)
  }

  lemma ContFollows(w: World, p: Plan, w': World, l: Loc, action: Action)
    requires Follows(w, p, w')
    ensures var r, q := ContIfHalted(w', l, action), PlanCont(w, l, p);
            r.Raised? == q.failed && Follows(w, q.plan, r.world)
  {
    var w1, p1, p2 := Tick(w'), Next(p), Next(Next(p));
    TickFollows(w, p, w');
    if !ResetBy(w, l, p1.time) && HaltedBy(w, p1, l) {
      TickFollows(w, p1, w1);
      if !ResetBy(w, l, p2.time) {
        ResumeFollows(w, p2, Tick(w1), l, action);
      }
    }
  }

  lemma ApplyOneFollows(w: World, p: Plan, w': World, process: Process, action: Option<Action>)
    requires Follows(w, p, w')
    ensures AppliedAsPlanned(w, ApplyOne(w', process, action), PlanApplyOne(w, Job(process.loc, action.Some?), p))
  {
    TickFollows(w, p, w');
    if action.Some? {
      ContFollows(w, p, w', process.loc, action.value);
    }
  }

  lemma JoinedAsPlanned(w: World, first: Applied, q: Planned, rest: Applied, q': Planned)
    requires AppliedAsPlanned(w, first, q) && !first.raised && AppliedAsPlanned(w, rest, q')
    ensures AppliedAsPlanned(w, rest.(watch := first.watch + rest.watch), q'.(watch := q.watch + q'.watch))
  {
    assert LocsOf(first.watch + rest.watch) == LocsOf(first.watch) + LocsOf(rest.watch);
  }

  lemma {:induction false} ApplyFollows(w: World, p: Plan, w': World, available: map<Pid, Process>, todo: seq<Todo>,
      jobs: seq<Job>)
    requires Follows(w, p, w') && AreJobs(jobs, todo, available)
    ensures AppliedAsPlanned(w, ApplyAll(w', available, todo), PlanApply(w, jobs, p))
    decreases |todo|
  {
    if todo != [] {
      var process := available[todo[0].pid];
      var first, q := ApplyOne(w', process, todo[0].action), PlanApplyOne(w, jobs[0], p);
      ApplyOneFollows(w, p, w', process, todo[0].action);
      if !first.raised {
        ApplyFollows(w, q.plan, first.world, available, todo[1..], jobs[1..]);
        JoinedAsPlanned(w, first, q, ApplyAll(first.world, available, todo[1..]), PlanApply(w, jobs[1..], q.plan));
      }
    }
  }

  lemma PollOneFollows(w: World, p: Plan, w': World, process: Process)
    requires Follows(w, p, w')
    ensures var r := PollOne(w', process);
            Follows(w, Next(Next(p)), r.world) &&
            (r.statuses != [] <==> ResetBy(w, process.loc, p.time + 1) || HaltedBy(w, Next(Next(p)), process.loc))
  {
    var w1 := Tick(w');
    TickFollows(w, p, w');
    TickFollows(w, Next(p), w1);
    TickSteps(w, Next(p), w1, process.loc);
    assert !CoreAt(w1, process.loc).reset ==> (CoreAt(w1, process.loc).halted <==> HaltedBy(w, Next(p), process.loc));
  }

  lemma {:induction false} PollFollows(w: World, p: Plan, w': World, watch: seq<Process>)
    requires Follows(w, p, w')
    ensures var r := PollAll(w', watch);
            Follows(w, AfterPoll(LocsOf(watch), p), r.world) && (r.statuses != [] <==> ReportDue(w, LocsOf(watch), p))
    decreases |watch|
  {
    if watch != [] {
      PollOneFollows(w, p, w', watch[0]);
      assert LocsOf(watch)[1..] == LocsOf(watch[1..]);
      PollFollows(w, Next(Next(p)), PollOne(w', watch[0]).world, watch[1..]);
    }
  }

  lemma {:induction false} WatchFollows(w: World, p: Plan, w': World, watch: seq<Process>, interrupts: seq<bool>)
    requires Follows(w, p, w')
    ensures Follows(w, PlanWatch(w, LocsOf(watch), p, interrupts), Watch(w', watch, interrupts).world)
    decreases |interrupts|
  {
    PollFollows(w, p, w', watch);
    var polled := PollAll(w', watch);
    if interrupts != [] && !interrupts[0] && polled.statuses == [] {
      WatchFollows(w, AfterPoll(LocsOf(watch), p), polled.world, watch, interrupts[1..]);
    }
  }

  lemma StopOneFollows(w: World, p: Plan, w': World, l: Loc)
    requires Follows(w, p, w')
    ensures var r, q := StopOne(w', l), PlanStop(w, [l], p);
            r.raised == q.failed && Follows(w, q.plan, r.world)
  {
    assert [l][1..] == [];
    TickFollows(w, p, w');
    if !ResetBy(w, l, p.time + 1) {
      HaltIfRunningFollows(w, Next(p), Tick(w'), l);
    }
  }

  lemma HaltIfRunningFollows(w: World, p: Plan, w': World, l: Loc)
    requires Follows(w, p, w')
    ensures var r, p1, p2 := HaltIfRunning(w', l), Next(p), Next(Next(p));
            if ResetBy(w, l, p1.time) then r.Raised? && Follows(w, p1, r.world)
            else if HaltedBy(w, p1, l) then r.Answer? && Follows(w, p1, r.world)
            else if ResetBy(w, l, p2.time) then r.Raised? && Follows(w, p2, r.world)
            else r.Answer? && Follows(w, p2.(going := p2.going - {l}), r.world)
  {
    TickFollows(w, p, w');
    if !ResetBy(w, l, p.time + 1) && !HaltedBy(w, Next(p), l) {
      TickFollows(w, Next(p), Tick(w'));
      if !ResetBy(w, l, p.time + 2) {
        HaltFollows(w, Next(Next(p)), Tick(Tick(w')), l);
      }
    }
  }

  lemma PlanStopStep(w: World, watch: seq<Loc>, p: Plan)
    requires watch != []
    ensures var first := PlanStop(w, [watch[0]], p);
            PlanStop(w, watch, p) == if first.failed then first else PlanStop(w, watch[1..], first.plan)
  {
    assert [watch[0]][1..] == [];
  }

  lemma {:induction false} StopFollows(w: World, p: Plan, w': World, watch: seq<Process>)
    requires Follows(w, p, w')
    ensures var r, q := StopAll(w', watch), PlanStop(w, LocsOf(watch), p);
            r.raised == q.failed && Follows(w, q.plan, r.world)
    decreases |watch|
  {
    if watch != [] {
      StopOneFollows(w, p, w', watch[0].loc);
      PlanStopStep(w, LocsOf(watch), p);
      assert LocsOf(watch)[1..] == LocsOf(watch[1..]);
      var first := StopOne(w', watch[0].loc);
      if !first.raised {
        StopFollows(w, PlanStop(w, [watch[0].loc], p).plan, first.world, watch[1..]);
      }
    }
  }

  /** One round of a vCont packet goes as planned: it raises when the plan fails, and leaves the
      device as the plan says. */
  lemma RoundFollows(w: World, available: map<Pid, Process>, todo: seq<Todo>, interrupts: seq<bool>, jobs: seq<Job>)
    requires AreJobs(jobs, todo, available)
    ensures var r, q := RunRound(w, available, todo, interrupts), PlanRound(w, jobs, interrupts);
            r.raised == q.failed && Follows(w, q.plan, r.world)
  {
    StartFollows(w);
    ApplyFollows(w, Start(w), w, available, todo, jobs);
    var applied, q := ApplyAll(w, available, todo), PlanApply(w, jobs, Start(w));
    if !applied.raised {
      WatchFollows(w, q.plan, applied.world, applied.watch, interrupts);
      StopFollows(w, PlanWatch(w, q.watch, q.plan, interrupts), Watch(applied.world, applied.watch, interrupts).world,
        applied.watch);
    }
  }

  // ----- The plan of a detach packet

  /** The running cores with a known ELF at access `t`. */
  function LiveBy(w: World, order: seq<Loc>, t: nat): seq<Running> {
    if order == [] then []
    else
      var l := order[0];
      (if l in ElfsBy(w, t) && !ResetBy(w, l, t) then [Running(l, ElfsBy(w, t)[l])] else []) + LiveBy(w, order[1..], t)
  }

  /** Disabling the slots takes one access for each. */
  function PlanDisable(w: World, l: Loc, slot: nat, p: Plan): Planned
    decreases if slot < w.slots then w.slots - slot else 0
  {
    if slot >= w.slots then Planned(false, p, [])
    else if ResetBy(w, l, p.time + 1) then Planned(true, Next(p), [])
    else PlanDisable(w, l, slot + 1, Next(p))
  }

  function PlanRelease(w: World, l: Loc, p: Plan): Planned {
    var cleared := PlanDisable(w, l, 0, p);
    if cleared.failed then cleared else PlanCont(w, l, cleared.plan)
  }

  /** Releasing the cores of threads in turn. A thread that is not listed then is passed over. */
  function PlanReleaseAll(w: World, table: Table, threads: seq<Pid>, p: Plan): Planned
    decreases |threads|
  {
    if threads == [] then Planned(false, p, [])
    else
      var snapshot := Refresh(table, LiveBy(w, w.order, p.time));
      if threads[0] !in snapshot.available then PlanReleaseAll(w, snapshot.table, threads[1..], p)
      else
        var first := PlanRelease(w, snapshot.available[threads[0]].loc, p);
        if first.failed then first else PlanReleaseAll(w, snapshot.table, threads[1..], first.plan)
  }

  lemma {:induction false} LiveFollows(w: World, p: Plan, w': World, order: seq<Loc>)
    requires Follows(w, p, w')
    ensures Live(w', order) == LiveBy(w, order, p.time)
    decreases |order|
  {
    if order != [] {
      LiveFollows(w, p, w', order[1..]);
    }
  }

  lemma ArmedFollows(w: World, p: Plan, w': World, l: Loc, armed: set<nat>)
    requires Follows(w, p, w')
    ensures Follows(w, p, SetArmed(w', l, armed))
  {
  }

  lemma DisableOneFollows(w: World, p: Plan, w': World, l: Loc, slot: nat)
    requires Follows(w, p, w')
    ensures var r := Disable(w', l, slot);
            (r.Raised? <==> ResetBy(w, l, p.time + 1)) && Follows(w, Next(p), r.world)
  {
    TickFollows(w, p, w');
    if !ResetBy(w, l, p.time + 1) {
      ArmedFollows(w, Next(p), Tick(w'), l, CoreAt(Tick(w'), l).armed - {slot});
    }
  }

  lemma {:induction false} DisableFollows(w: World, p: Plan, w': World, l: Loc, slot: nat)
    requires Follows(w, p, w')
    ensures var r, q := DisableFrom(w', l, slot), PlanDisable(w, l, slot, p);
            r.Raised? == q.failed && Follows(w, q.plan, r.world)
    decreases if slot < w.slots then w.slots - slot else 0
  {
    assert w'.slots == w.slots;
    if slot < w.slots {
      var first := Disable(w', l, slot);
      DisableOneFollows(w, p, w', l, slot);
      if first.Answer? {
        DisableFollows(w, Next(p), first.world, l, slot + 1);
      }
    }
  }

  lemma ReleaseFollows(w: World, p: Plan, w': World, l: Loc)
    requires Follows(w, p, w')
    ensures var r, q := Release(w', l), PlanRelease(w, l, p);
            r.Raised? == q.failed && Follows(w, q.plan, r.world)
  {
    DisableFollows(w, p, w', l, 0);
    var cleared, q := DisableFrom(w', l, 0), PlanDisable(w, l, 0, p);
    if cleared.Answer? {
      ContFollows(w, q.plan, cleared.world, l, Continue);
    }
  }

  /** Detaching everything goes as planned. */
  lemma {:induction false} ReleaseAllFollows(w: World, p: Plan, s: State, threads: seq<Pid>)
    requires Follows(w, p, s.world)
    ensures var r, q := ReleaseAll(s, threads), PlanReleaseAll(w, s.table, threads, p);
            (r.reply == Exception <==> q.failed) && Follows(w, q.plan, r.state.world) &&
              (r.reply == Ok || r.reply == Exception)
    decreases |threads|
  {
    if threads != [] {
      LiveFollows(w, p, s.world, w.order);
      var (s1, available) := Snap(s);
      if threads[0] !in available {
        ReleaseAllFollows(w, p, s1, threads[1..]);
      } else {
        var l := available[threads[0]].loc;
        ReleaseFollows(w, p, s1.world, l);
        var r := Release(s1.world, l);
        if r.Answer? {
          ReleaseAllFollows(w, PlanRelease(w, l, p).plan, s1.(world := r.world), threads[1..]);
        }
      }
    }
  }
}
