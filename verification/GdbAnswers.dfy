/** How attach and vCont packets are answered, and what they do to the cores, said by the packet. */
module GdbAnswers {
  import opened Options
  import opened ProcessIds
  import opened GdbStub
  import opened GdbStubSafety
  import opened GdbSchedule
  import opened GdbAllStop
  import opened GdbListing

  // ----- Attaching

  /** The core can be halted: neither of the two accesses this takes, or the one it takes if the core
      is halted by then, finds it in reset. */
  ghost predicate CanBeHalted(w: World, l: Loc) {
    && !Due(w, EnterReset(l), 0, 1)
    && (CoreAt(w, l).halted || Due(w, BreakpointHit(l), 0, 1) || !Due(w, EnterReset(l), 0, 2))
  }

  lemma HaltsExactly(w: World, l: Loc)
    requires !CoreAt(w, l).reset
    ensures HaltIfRunning(w, l).Answer? <==> CanBeHalted(w, l)
  {
    StartFollows(w);
    HaltIfRunningFollows(w, Start(w), w, l);
  }

  /** Attaching succeeds exactly for a listed process that is not attached yet and whose core can be
      halted; it is an error in all other cases. */
  lemma AttachAnswers(s: State, who: Option<Pid>)
    requires ValidState(s) && EachOnce(s.world.order)
    ensures var r := DoAttach(s, who);
            && (r.reply.Attached? || r.reply == Error)
            && (r.reply.Attached? <==>
                  who.Some? && who.value in Snap(s).1 && who.value !in s.threads &&
                  CanBeHalted(s.world, Snap(s).1[who.value].loc))
            && (r.reply.Attached? ==> r.reply.pid == who.value)
  {
    if who.Some? && who.value in Snap(s).1 {
      SnapKeeps(s);
      ListedIsSettled(s, who.value);
      var s1 := Snap(s).0;
      SnapKeeps(s1);
      SettledIsListed(s1, who.value);
      HaltsExactly(s.world, Snap(s).1[who.value].loc);
    }
  }

  // ----- The actions of a vCont packet

  /** 'c' and 'C' continue, 's' and 'R' step, and no other letter is an action. */
  lemma ActionLetters(letter: Option<nat>)
    ensures ActionOf(letter) == Some(Continue) <==> letter in {Some('c' as nat), Some('C' as nat)}
    ensures ActionOf(letter) == Some(Step) <==> letter in {Some('s' as nat), Some('R' as nat)}
    ensures ActionOf(letter).Some? <==>
            letter in {Some('c' as nat), Some('C' as nat), Some('s' as nat), Some('R' as nat)}
  {
  }

  /** Clause k is refused: for its letter, or for a thread that is not attached. */
  predicate Refused(clauses: seq<Clause>, threads: seq<Pid>, k: nat)
    requires k < |clauses|
  {
    clauses[k].letter !in {Some('c' as nat), Some('C' as nat), Some('s' as nat), Some('R' as nat)} ||
    (clauses[k].selector.One? && clauses[k].selector.pid !in threads)
  }

  /** Some clause is refused, and none before it is for all threads, which ends the reading. */
  ghost predicate RefusedBeforeEveryone(clauses: seq<Clause>, threads: seq<Pid>) {
    exists k :: 0 <= k < |clauses| && RefusedAt(clauses, threads, k)
  }

  ghost predicate RefusedAt(clauses: seq<Clause>, threads: seq<Pid>, k: nat)
    requires k < |clauses|
  {
    Refused(clauses, threads, k) && forall j :: 0 <= j < k ==> clauses[j].selector.One?
  }

  lemma {:induction false} RefusedExactly(clauses: seq<Clause>, threads: seq<Pid>)
    ensures ParseActions(threads, clauses).Bad? <==> RefusedBeforeEveryone(clauses, threads)
    decreases |clauses|
  {
    if clauses != [] {
      ActionLetters(clauses[0].letter);
      RefusedExactly(clauses[1..], threads);
      if clauses[0].selector.One? {
        if RefusedBeforeEveryone(clauses[1..], threads) {
          var k :| 0 <= k < |clauses[1..]| && RefusedAt(clauses[1..], threads, k);
          assert clauses[1..][k] == clauses[k + 1];
          assert forall j :: 0 < j < k + 1 ==> clauses[j] == clauses[1..][j - 1];
          assert RefusedAt(clauses, threads, k + 1);
        }
        if RefusedBeforeEveryone(clauses, threads) {
          var k :| 0 <= k < |clauses| && RefusedAt(clauses, threads, k);
          if k > 0 {
            assert clauses[1..][k - 1] == clauses[k];
            assert forall j :: 0 <= j < k - 1 ==> clauses[1..][j] == clauses[j + 1];
            assert RefusedAt(clauses[1..], threads, k - 1);
          }
        }
      }
      if Refused(clauses, threads, 0) {
        assert RefusedAt(clauses, threads, 0);
      }
    }
  }

  lemma {:induction false} FirstMissingIsFirst(threads: seq<Pid>, available: map<Pid, Process>)
    ensures var r := FirstMissing(threads, available);
            && (r.None? ==> forall t <- threads :: t in available)
            && (r.Some? ==> exists k :: 0 <= k < |threads| && threads[k] == r.value && r.value !in available &&
                                        forall j :: 0 <= j < k ==> threads[j] in available)
  {
    if threads != [] && threads[0] in available {
      FirstMissingIsFirst(threads[1..], available);
      var r := FirstMissing(threads[1..], available);
      if r.Some? {
        var k :| 0 <= k < |threads[1..]| && threads[1..][k] == r.value &&
                 forall j :: 0 <= j < k ==> threads[1..][j] in available;
        assert threads[k + 1] == r.value;
        assert forall j :: 0 < j < k + 1 ==> threads[j] == threads[1..][j - 1];
      }
    }
  }

  /** With nothing queued, the packet is refused exactly for a refused clause, told of the first
      attached thread that is not listed any more, and else starts a watch. */
  lemma VContAnswers(s: State, clauses: seq<Clause>, interrupts: seq<bool>)
    requires s.pending == []
    ensures var r, refused := DoVCont(s, clauses, interrupts), RefusedBeforeEveryone(clauses, s.threads);
            && (refused <==> r.reply == Error)
            && (r.reply.Gone? <==> !refused && exists t :: t in s.threads && t !in Snap(s).1)
            && (r.reply.Gone? ==> exists k :: 0 <= k < |s.threads| && s.threads[k] == r.reply.pid &&
                                    r.reply.pid !in Snap(s).1 && forall j :: 0 <= j < k ==> s.threads[j] in Snap(s).1)
            && (Starts(s, clauses) <==> !refused && forall t <- s.threads :: t in Snap(s).1)
  {
    RefusedExactly(clauses, s.threads);
    FirstMissingIsFirst(s.threads, Snap(s).1);
  }

  // ----- What lets cores run

  lemma TickResumesNothing(w: World)
    ensures Tick(w).resumed == w.resumed
  {
  }

  /** The command is what the action of one of the threads asks for. */
  ghost predicate IsAsked(c: Resumption, available: map<Pid, Process>, todo: seq<Todo>) {
    exists t :: t in todo && t.pid in available && available[t.pid].loc == c.loc && t.action == Some(c.action)
  }

  ghost predicate AreAsked(cs: seq<Resumption>, available: map<Pid, Process>, todo: seq<Todo>) {
    forall c <- cs :: IsAsked(c, available, todo)
  }

  lemma ApplyOneResumes(w: World, p: Process, action: Option<Action>)
    ensures var r := ApplyOne(w, p, action);
            r.world.resumed == w.resumed + if action.Some? && r.watch != [] then [Resumption(p.loc, action.value)]
              else []
  {
    TickResumesNothing(w);
    TickResumesNothing(Tick(w));
  }

  /** Applying the actions sends one command for each watched process that has an action, that command,
      and no other. */
  lemma {:induction false} ApplyResumes(w: World, available: map<Pid, Process>, todo: seq<Todo>)
    returns (cs: seq<Resumption>)
    ensures var r := ApplyAll(w, available, todo);
            r.world.resumed == w.resumed + cs && AreAsked(cs, available, todo)
    decreases |todo|
  {
    cs := [];
    if todo != [] {
      if todo[0].pid !in available {
        cs := ApplyResumes(w, available, todo[1..]);
      } else {
        var p := available[todo[0].pid];
        var first := ApplyOne(w, p, todo[0].action);
        ApplyOneResumes(w, p, todo[0].action);
        var here := if todo[0].action.Some? && first.watch != [] then [Resumption(p.loc, todo[0].action.value)] else [];
        cs := here;
        assert here != [] ==> IsAsked(here[0], available, todo);
        if !first.raised {
          var on := ApplyResumes(first.world, available, todo[1..]);
          cs := here + on;
          assert w.resumed + here + on == w.resumed + (here + on);
        }
      }
      assert forall t <- todo[1..] :: t in todo;
    }
  }

  lemma {:induction false} PollResumesNothing(w: World, watch: seq<Process>)
    ensures PollAll(w, watch).world.resumed == w.resumed
    decreases |watch|
  {
    if watch != [] {
      TickResumesNothing(w);
      TickResumesNothing(Tick(w));
      PollResumesNothing(PollOne(w, watch[0]).world, watch[1..]);
    }
  }

  lemma {:induction false} WatchResumesNothing(w: World, watch: seq<Process>, interrupts: seq<bool>)
    ensures Watch(w, watch, interrupts).world.resumed == w.resumed
    decreases |interrupts|
  {
    PollResumesNothing(w, watch);
    var polled := PollAll(w, watch);
    if interrupts != [] && !interrupts[0] && polled.statuses == [] {
      WatchResumesNothing(polled.world, watch, interrupts[1..]);
    }
  }

  lemma StopOneResumesNothing(w: World, l: Loc)
    ensures StopOne(w, l).world.resumed == w.resumed
  {
    TickResumesNothing(w);
    TickResumesNothing(Tick(w));
    TickResumesNothing(Tick(Tick(w)));
  }

  lemma {:induction false} StopResumesNothing(w: World, watch: seq<Process>)
    ensures StopAll(w, watch).world.resumed == w.resumed
    decreases |watch|
  {
    if watch != [] {
      StopOneResumesNothing(w, watch[0].loc);
      var first := StopOne(w, watch[0].loc);
      if !first.raised {
        StopResumesNothing(first.world, watch[1..]);
      }
    }
  }

  /** The command is the action of the leftmost clause for an attached thread, sent to its core. */
  ghost predicate IsLeftmostAction(s: State, clauses: seq<Clause>, c: Resumption)
    requires ValidState(s)
  {
    exists t :: t in s.threads && Home(s, t) == c.loc && Leftmost(clauses, t) == Some(c.action)
  }

  /** A vCont packet lets cores run only by the actions it asks for. */
  lemma VContResumes(s: State, clauses: seq<Clause>, interrupts: seq<bool>) returns (cs: seq<Resumption>)
    requires ValidState(s)
    ensures DoVCont(s, clauses, interrupts).state.world.resumed == s.world.resumed + cs
    ensures (forall c <- cs :: IsLeftmostAction(s, clauses, c)) && (cs != [] ==> Starts(s, clauses))
  {
    cs := [];
    SnapKeeps(s);
    if Starts(s, clauses) {
      var todo, available := ParseActions(s.threads, clauses).todo, Snap(s).1;
      cs := ApplyResumes(s.world, available, todo);
      var applied := ApplyAll(s.world, available, todo);
      if !applied.raised {
        WatchResumesNothing(applied.world, applied.watch, interrupts);
        StopResumesNothing(Watch(applied.world, applied.watch, interrupts).world, applied.watch);
      }
      forall c <- cs ensures IsLeftmostAction(s, clauses, c) {
        assert IsAsked(c, available, todo);
        var t :| t in todo && t.pid in available && available[t.pid].loc == c.loc && t.action == Some(c.action);
        assert Home(s, t.pid) == c.loc && Leftmost(clauses, t.pid) == t.action && t.pid in s.threads;
      }
    }
  }
}
