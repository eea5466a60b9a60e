/** Stop reports: found in one watch, delivered one per packet. */
module GdbReports {
  import opened Options
  import opened ProcessIds
  import opened GdbStub
  import opened GdbStubSafety
  import opened GdbSchedule
  import opened GdbAllStop
  import opened GdbFindings

  /** A vCont packet: its clauses, and when the user interrupts the watch it may start. */
  datatype Call = Call(clauses: seq<Clause>, interrupts: seq<bool>)

  function Replies(s: State, calls: seq<Call>): seq<Reply>
    decreases |calls|
  {
    if calls == [] then []
    else
      var r := DoVCont(s, calls[0].clauses, calls[0].interrupts);
      [r.reply] + Replies(r.state, calls[1..])
  }

  function AfterCalls(s: State, calls: seq<Call>): State
    decreases |calls|
  {
    if calls == [] then s
    else AfterCalls(DoVCont(s, calls[0].clauses, calls[0].interrupts).state, calls[1..])
  }

  function AsReplies(reports: seq<Status>): (r: seq<Reply>)
    ensures |r| == |reports| && forall k :: 0 <= k < |r| ==> r[k] == Report(reports[k])
  {
    seq(|reports|, k requires 0 <= k < |reports| => Report(reports[k]))
  }

  /** As many vCont packets as there are reports left deliver them in order, and do nothing
      else: no core is resumed, whatever actions the packets ask for. */
  lemma {:induction false} QueueDrainsInOrder(s: State, queue: seq<Status>, calls: seq<Call>)
    requires s.pending == Reverse(queue) && |calls| == |queue|
    ensures Replies(s, calls) == AsReplies(queue) && AfterCalls(s, calls) == s.(pending := [])
    decreases |calls|
  {
    if calls != [] {
      var r := DoVCont(s, calls[0].clauses, calls[0].interrupts);
      assert r.reply == Report(queue[0]);
      assert Reverse(queue[1..]) == s.pending[..|s.pending| - 1];
      QueueDrainsInOrder(r.state, queue[1..], calls[1..]);
      assert AsReplies(queue) == [Report(queue[0])] + AsReplies(queue[1..]);
    } else {
      assert s == s.(pending := []);
    }
  }

  /** What the watch of this packet finds, with the closing report; nothing if it never begins. */
  function Found(s: State, call: Call): seq<Status>
    requires Starts(s, call.clauses)
  {
    RunRound(s.world, Snap(s).1, ParseActions(s.threads, call.clauses).todo, call.interrupts).reports
  }

  /** A watch begins exactly when no action raises, and then there is something to report. */
  lemma WatchBegins(s: State, call: Call)
    requires ValidState(s) && Starts(s, call.clauses)
    ensures Found(s, call) == [] <==> PlanApply(s.world, JobsOf(s, call.clauses), Start(s.world)).failed
  {
    SnapKeeps(s);
    NothingMissing(s.threads, Snap(s).1);
    StartFollows(s.world);
    ApplyFollows(s.world, Start(s.world), s.world, Snap(s).1, ParseActions(s.threads, call.clauses).todo,
      JobsOf(s, call.clauses));
  }

  /** The packet answers with the first report and queues the others. When it raises, the others are
      queued all the same. */
  lemma FirstReport(s: State, first: Call)
    requires ValidState(s) && Starts(s, first.clauses) && Found(s, first) != []
    ensures var r, found := DoVCont(s, first.clauses, first.interrupts), Found(s, first);
            r.state.pending == Reverse(found[1..]) &&
            r.reply == if PlanVCont(s, first.clauses, first.interrupts).failed then Exception else Report(found[0])
  {
    VContKeepsExactly(s, first.clauses, first.interrupts);
  }

  /** What a packet that raises leaves in the writer, which is not cleared then. */
  function LeftBehind(s: State, call: Call): seq<Reply> {
    if Starts(s, call.clauses) && Found(s, call) != [] then [Report(Found(s, call)[0])] else []
  }

  /** What is sent for packets in turn, as messages of one or more replies, and what is still in the
      writer then. A packet that raises sends nothing; what it wrote comes in front of the next reply. */
  function Messages(s: State, held: seq<Reply>, calls: seq<Call>): (seq<seq<Reply>>, seq<Reply>)
    decreases |calls|
  {
    if calls == [] then ([], held)
    else
      var r := DoVCont(s, calls[0].clauses, calls[0].interrupts);
      if r.reply == Exception then Messages(r.state, held + LeftBehind(s, calls[0]), calls[1..])
      else
        var (messages, left) := Messages(r.state, [], calls[1..]);
        ([held + [r.reply]] + messages, left)
  }

  function OneByOne(reports: seq<Status>): (r: seq<seq<Reply>>)
    ensures |r| == |reports| && forall k :: 0 <= k < |r| ==> r[k] == [Report(reports[k])]
  {
    seq(|reports|, k requires 0 <= k < |reports| => [Report(reports[k])])
  }

  /** The messages that carry the reports left, with `held` in front of the first. */
  function Glued(held: seq<Reply>, queue: seq<Status>): (seq<seq<Reply>>, seq<Reply>) {
    if queue == [] then ([], held) else ([held + [Report(queue[0])]] + OneByOne(queue[1..]), [])
  }

  lemma GluedToNothing(queue: seq<Status>)
    ensures Glued([], queue) == (OneByOne(queue), [])
  {
    if queue != [] {
      var first := [Report(queue[0])];
      assert [] + first == first;
      assert [first] + OneByOne(queue[1..]) == OneByOne(queue);
    }
  }

  lemma {:induction false} QueueIsSent(s: State, held: seq<Reply>, queue: seq<Status>, calls: seq<Call>)
    requires s.pending == Reverse(queue) && |calls| == |queue|
    ensures Messages(s, held, calls) == Glued(held, queue)
    decreases |calls|
  {
    if calls != [] {
      var r := DoVCont(s, calls[0].clauses, calls[0].interrupts);
      assert r.reply == Report(queue[0]);
      assert Reverse(queue[1..]) == s.pending[..|s.pending| - 1];
      QueueIsSent(r.state, [], queue[1..], calls[1..]);
      GluedToNothing(queue[1..]);
    }
  }

  /** The reports of one watch, the closing one included, are sent once each and in the order they
      were found: the first by the packet that started the watch, the others by the packets after
      it. When stopping the cores raises, the first is not sent on its own: it is glued to the
      second, or stays in the writer if it is the only one. */
  lemma ReportsAreDeliveredOnce(s: State, first: Call, more: seq<Call>)
    requires ValidState(s) && Starts(s, first.clauses) && 1 + |more| == |Found(s, first)|
    ensures var r, found := DoVCont(s, first.clauses, first.interrupts), Found(s, first);
            && AfterCalls(s, [first] + more) == r.state.(pending := [])
            && Messages(s, [], [first] + more) ==
               if PlanVCont(s, first.clauses, first.interrupts).failed then Glued([Report(found[0])], found[1..])
               else (OneByOne(found), [])
  {
    var r, found := DoVCont(s, first.clauses, first.interrupts), Found(s, first);
    FirstReport(s, first);
    QueueDrainsInOrder(r.state, found[1..], more);
    assert ([first] + more)[1..] == more;
    if r.reply == Exception {
      assert [] + LeftBehind(s, first) == [Report(found[0])];
      QueueIsSent(r.state, [Report(found[0])], found[1..], more);
    } else {
      QueueIsSent(r.state, [], found[1..], more);
      GluedToNothing(found[1..]);
      GluedToNothing(found);
    }
  }

  lemma {:induction false} WatchedAreListed(w: World, available: map<Pid, Process>, todo: seq<Todo>)
    ensures forall p <- ApplyAll(w, available, todo).watch ::
              exists t :: t in todo && t.pid in available && available[t.pid] == p
  {
    ApplyAllEvolves(w, available, todo);
  }

  lemma JoinedDistinct(a: seq<Process>, b: seq<Process>, pid: Pid)
    requires |a| <= 1 && (forall p <- a :: p.pid == pid) && DistinctPids(b) && forall p <- b :: p.pid != pid
    ensures DistinctPids(a + b)
  {
    forall i, j | 0 <= i < j < |a + b| ensures (a + b)[i].pid != (a + b)[j].pid {
      assert i < |a| ==> a[i] in a;
      assert b[j - |a|] in b;
    }
  }

  lemma {:induction false} WatchedOnce(w: World, available: map<Pid, Process>, todo: seq<Todo>)
    requires (forall pid <- available :: available[pid].pid == pid)
    requires forall i, j :: 0 <= i < j < |todo| ==> todo[i].pid != todo[j].pid
    ensures DistinctPids(ApplyAll(w, available, todo).watch)
    decreases |todo|
  {
    if todo != [] {
      if todo[0].pid !in available {
        WatchedOnce(w, available, todo[1..]);
      } else {
        var first := ApplyOne(w, available[todo[0].pid], todo[0].action);
        if !first.raised {
          WatchedOnce(first.world, available, todo[1..]);
          var rest := ApplyAll(first.world, available, todo[1..]).watch;
          WatchedAreListed(first.world, available, todo[1..]);
          forall p | p in rest ensures p.pid != todo[0].pid {
            var t :| t in todo[1..] && t.pid in available && available[t.pid] == p;
            var k :| 0 <= k < |todo[1..]| && todo[1..][k] == t;
            assert todo[k + 1] == t && todo[0].pid != todo[k + 1].pid;
          }
          JoinedDistinct(first.watch, rest, todo[0].pid);
        }
      }
    }
  }

  /** The packet reports each attached core that is found in reset as exited, and each that is found
      halted as stopped, once and in no other case, and closes the list; if nothing is found, and so
      the user has interrupted, it says just that. */
  lemma VContReportsFindings(s: State, call: Call)
    requires ValidState(s) && Starts(s, call.clauses) && Found(s, call) != []
    ensures var applied := ApplyAll(s.world, Snap(s).1, ParseActions(s.threads, call.clauses).todo);
            DistinctPids(applied.watch) && exists n, statuses ::
              EndsInRound(applied.world, applied.watch, call.interrupts, n, statuses) &&
              Found(s, call) == if statuses == [] then [Interrupted] else statuses + [EndOfReports]
  {
    var applied := ApplyAll(s.world, Snap(s).1, ParseActions(s.threads, call.clauses).todo);
    SnapKeeps(s);
    WatchedOnce(s.world, Snap(s).1, ParseActions(s.threads, call.clauses).todo);
    WatchFinds(applied.world, applied.watch, call.interrupts);
    var statuses := Watch(applied.world, applied.watch, call.interrupts).statuses;
    assert Found(s, call) == if statuses == [] then [Interrupted] else statuses + [EndOfReports];
  }
}
