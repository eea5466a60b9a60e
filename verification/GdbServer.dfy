/** The GDB stub as the object it is: its methods update the state that `GdbStub` describes. */
module GdbServer {
  import opened Options
  import opened ProcessIds
  import opened GdbStub

  lemma PollAllStep(w: World, watch: seq<Process>, i: nat, before: seq<Status>)
    requires i < |watch|
    ensures var first := PollOne(w, watch[i]); var rest := PollAll(first.world, watch[i + 1..]);
            PollAll(w, watch[i..]).world == rest.world &&
            before + PollAll(w, watch[i..]).statuses == before + first.statuses + rest.statuses
  {
    assert watch[i..][0] == watch[i] && watch[i..][1..] == watch[i + 1..];
    var first := PollOne(w, watch[i]);
    var rest := PollAll(first.world, watch[i + 1..]);
    assert before + (first.statuses + rest.statuses) == before + first.statuses + rest.statuses;
  }

  class GdbServer {
    var world: World
    var table: Table
    var threads: seq<Pid>
    var pending: seq<Status>
    const skipDetach: bool

    constructor (world: World, skipDetach: bool)
      ensures State() == GdbStub.State(world, INITIAL, [], [], skipDetach)
    {
      this.world, this.skipDetach := world, skipDetach;
      table, threads, pending := INITIAL, [], [];
    }

    function State(): State
      reads this
    {
      GdbStub.State(world, table, threads, pending, skipDetach)
    }

    method AvailableProcesses() returns (available: map<Pid, Process>)
      modifies this`table
      ensures Snap(old(State())) == (State(), available)
    {
      var ids := new ProcessTable();
      ids.table := table;
      available := ids.AvailableProcesses(Live(world, world.order));
      table := ids.table;
    }

    /** Reads the actions of a vCont packet, stopping at the first one for all threads. */
    method ParseVCont(clauses: seq<Clause>) returns (r: Parsed)
      ensures r == ParseActions(threads, clauses)
    {
      var actions: map<Pid, Option<Action>> := map pid | pid in threads :: None;
      var i := 0;
      while i < |clauses|
        invariant i <= |clauses|
        invariant AllAcceptable(clauses, threads) <==> AllAcceptable(clauses[i..], threads)
        invariant forall pid <- threads :: pid in actions
        invariant forall pid <- threads :: Leftmost(clauses, pid) ==
                    if actions[pid].Some? then actions[pid] else Leftmost(clauses[i..], pid)
        invariant actions.Keys == set pid | pid in threads
      {
        var c := clauses[i];
        assert clauses[i..][0] == c && clauses[i..][1..] == clauses[i + 1..];
        var action := ActionOf(c.letter);
        if action.None? {
          return Bad;
        }
        if c.selector.One? {
          if c.selector.pid !in threads {
            return Bad;
          }
          if actions[c.selector.pid].None? {
            actions := actions[c.selector.pid := action];
          }
        } else {
          actions := map pid | pid in actions :: if actions[pid].None? then action else actions[pid];
          var todo := Listed(actions);
          return Good(todo);
        }
        i := i + 1;
      }
      var todo := Listed(actions);
      return Good(todo);
    }

    method Listed(actions: map<Pid, Option<Action>>) returns (todo: seq<Todo>)
      requires forall pid <- threads :: pid in actions
      ensures |todo| == |threads| && forall k :: 0 <= k < |todo| ==> todo[k] == Todo(threads[k], actions[threads[k]])
    {
      var pids := threads;
      todo := seq(|pids|, k requires 0 <= k < |pids| && pids[k] in actions => Todo(pids[k], actions[pids[k]]));
    }

    method ApplyActions(available: map<Pid, Process>, todo: seq<Todo>) returns (raised: bool, watch: seq<Process>)
      modifies this`world
      ensures ApplyAll(old(world), available, todo) == Applied(raised, world, watch)
    {
      raised, watch := false, [];
      var i := 0;
      while i < |todo|
        invariant i <= |todo|
        invariant var rest := ApplyAll(world, available, todo[i..]);
                  ApplyAll(old(world), available, todo) == rest.(watch := watch + rest.watch)
      {
        assert todo[i..][0] == todo[i] && todo[i..][1..] == todo[i + 1..];
        if todo[i].pid in available {
          var p := available[todo[i].pid];
          var h := IsHalted(world, p.loc);
          world := h.world;
          if h.Raised? {
            return true, watch;
          }
          if todo[i].action.Some? {
            if h.yes {
              var r := Resume(world, p.loc, todo[i].action.value);
              world := r.world;
              if r.Raised? {
                return true, watch;
              }
              watch := watch + [p];
            }
          } else if !h.yes {
            watch := watch + [p];
          }
        }
        i := i + 1;
      }
    }

    method PollCore(p: Process) returns (found: seq<Status>)
      modifies this`world
      ensures PollOne(old(world), p) == Polled(world, found)
    {
      found := [];
      world := Tick(world);
      if CoreAt(world, p.loc).reset {
        found := found + [Exited(p.pid)];
      }
      world := Tick(world);
      if CoreAt(world, p.loc).halted {
        found := found + [Stopped(p.pid)];
      }
    }

    /** Asks every watched core once whether it is in reset and whether it has stopped. */
    method PollCores(watch: seq<Process>) returns (statuses: seq<Status>)
      modifies this`world
      ensures PollAll(old(world), watch) == Polled(world, statuses)
    {
      statuses := [];
      ghost var all := PollAll(world, watch);
      var i := 0;
      while i < |watch|
        invariant i <= |watch|
        invariant all.world == PollAll(world, watch[i..]).world
        invariant all.statuses == statuses + PollAll(world, watch[i..]).statuses
      {
        PollAllStep(world, watch, i, statuses);
        var found := PollCore(watch[i]);
        statuses := statuses + found;
        i := i + 1;
      }
    }

    /** Polls the watched cores until one of them reports or the user interrupts. */
    method WatchCores(watch: seq<Process>, interrupts: seq<bool>) returns (statuses: seq<Status>)
      modifies this`world
      ensures Watch(old(world), watch, interrupts) == Polled(world, statuses)
    {
      statuses := [];
      var round := 0;
      var stop := false;
      while !stop
        invariant round <= |interrupts|
        invariant !stop ==> statuses == []
        invariant !stop ==> Watch(old(world), watch, interrupts) == Watch(world, watch, interrupts[round..])
        invariant stop ==> Watch(old(world), watch, interrupts) == Polled(world, statuses)
        decreases if stop then 0 else 1 + |interrupts| - round
      {
        stop := round == |interrupts| || interrupts[round];
        statuses := PollCores(watch);
        if statuses != [] {
          stop := true;
        }
        if !stop {
          assert interrupts[round..][1..] == interrupts[round + 1..];
          round := round + 1;
        }
      }
    }

    method StopCores(watch: seq<Process>) returns (raised: bool)
      modifies this`world
      ensures StopAll(old(world), watch) == Stopping(raised, world)
    {
      var i := 0;
      while i < |watch|
        invariant i <= |watch|
        invariant StopAll(old(world), watch) == StopAll(world, watch[i..])
      {
        assert watch[i..][0] == watch[i] && watch[i..][1..] == watch[i + 1..];
        world := Tick(world);
        if !CoreAt(world, watch[i].loc).reset {
          var h := HaltIfRunning(world, watch[i].loc);
          world := h.world;
          if h.Raised? {
            return true;
          }
        }
        i := i + 1;
      }
      return false;
    }

    method MissingThread(available: map<Pid, Process>) returns (missing: Option<Pid>)
      ensures missing == FirstMissing(threads, available)
    {
      var i := 0;
      while i < |threads|
        invariant i <= |threads|
        invariant FirstMissing(threads, available) == FirstMissing(threads[i..], available)
      {
        if threads[i] !in available {
          return Some(threads[i]);
        }
        i := i + 1;
      }
      return None;
    }

    /** Queues the reports, last first, and takes the first one off again. */
    method QueueReports(statuses: seq<Status>) returns (reply: Reply)
      modifies this`pending
      ensures var reports := Reports(statuses);
              reports != [] && reply == Report(reports[0]) && pending == Reverse(reports[1..])
    {
      var reports := Reports(statuses);
      pending := Reverse(reports);
      reply := Report(pending[|pending| - 1]);
      pending := pending[..|pending| - 1];
    }

    method VCont(clauses: seq<Clause>, interrupts: seq<bool>) returns (reply: Reply)
      modifies this
      ensures DoVCont(old(State()), clauses, interrupts) == Done(State(), reply)
    {
      if pending != [] {
        reply := Report(pending[|pending| - 1]);
        pending := pending[..|pending| - 1];
        return;
      }
      var parsed := ParseVCont(clauses);
      if parsed.Bad? {
        return Error;
      }
      var available := AvailableProcesses();
      var missing := MissingThread(available);
      if missing.Some? {
        return Gone(missing.value);
      }
      var raised, watch := ApplyActions(available, parsed.todo);
      if raised {
        return Exception;
      }
      var statuses := WatchCores(watch, interrupts);
      reply := QueueReports(statuses);
      raised := StopCores(watch);
      if raised {
        reply := Exception;
      }
    }

    method Attach(who: Option<Pid>) returns (reply: Reply)
      modifies this
      ensures DoAttach(old(State()), who) == Done(State(), reply)
    {
      if who.None? {
        return Error;
      }
      var available := AvailableProcesses();
      if who.value !in available {
        return Error;
      }
      available := AvailableProcesses();
      if who.value !in available || available[who.value].pid in threads {
        return Error;
      }
      var p := available[who.value];
      var h := HaltIfRunning(world, p.loc);
      world := h.world;
      if h.Raised? {
        return Error;
      }
      threads := threads + [p.pid];
      return Attached(p.pid);
    }

    /** Removes every watchpoint of a core and lets it run. */
    method ReleaseCore(l: Loc) returns (raised: bool)
      modifies this`world
      ensures var r := Release(old(world), l);
              r.Raised? == raised && r.world == world
    {
      var slot := 0;
      while slot < world.slots
        invariant DisableFrom(old(world), l, 0) == DisableFrom(world, l, slot)
        invariant world.slots == old(world.slots)
      {
        var d := Disable(world, l, slot);
        world := d.world;
        if d.Raised? {
          return true;
        }
        slot := slot + 1;
      }
      var h := IsHalted(world, l);
      world := h.world;
      if h.Raised? {
        return true;
      }
      if h.yes {
        var r := Resume(world, l, Continue);
        world := r.world;
        return r.Raised?;
      }
      return false;
    }

    method Detach(who: Option<Pid>) returns (reply: Reply)
      modifies this
      ensures DoDetach(old(State()), who) == Done(State(), reply)
    {
      if who.None? || who.value !in threads {
        return Error;
      }
      threads := Without(threads, who.value);
      if !skipDetach {
        var available := AvailableProcesses();
        if who.value in available {
          var raised := ReleaseCore(available[who.value].loc);
          if raised {
            return Exception;
          }
        }
      }
      return Ok;
    }

    method DetachAll() returns (reply: Reply)
      modifies this
      ensures DoDetachAll(old(State())) == Done(State(), reply)
    {
      if !skipDetach {
        var i := 0;
        while i < |threads|
          invariant i <= |threads| && threads == old(threads)
          invariant ReleaseAll(old(State()), old(threads)) == ReleaseAll(State(), threads[i..])
        {
          assert threads[i..][0] == threads[i] && threads[i..][1..] == threads[i + 1..];
          var available := AvailableProcesses();
          if threads[i] in available {
            var raised := ReleaseCore(available[threads[i]].loc);
            if raised {
              return Exception;
            }
          }
          i := i + 1;
        }
      }
      threads := [];
      return Ok;
    }

    /** Holds the core halted while its slots change, and resumes it if it was running. */
    method ChangeWatchpoints(l: Loc, armed: set<nat>) returns (reply: Reply)
      modifies this`world
      ensures DoWatchpoints(old(State()), l, armed) == Done(State(), reply)
    {
      var h := IsHalted(world, l);
      world := h.world;
      if h.Raised? {
        return Exception;
      }
      var wasRunning := !h.yes;
      if wasRunning {
        var held := Halt(world, l);
        world := held.world;
        if held.Raised? {
          return Exception;
        }
      }
      world := Tick(world);
      if CoreAt(world, l).reset {
        return Exception;
      }
      world := SetArmed(world, l, armed);
      if wasRunning {
        var r := Resume(world, l, Continue);
        world := r.world;
        if r.Raised? {
          return Exception;
        }
      }
      return Ok;
    }
  }
}
