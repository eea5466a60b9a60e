/** Threads whose core runs on with the same ELF: every snapshot lists them again. */
module GdbListing {
  import opened Options
  import opened ProcessIds
  import opened GdbStub
  import opened GdbStubSafety
  import opened GdbSchedule

  ghost predicate EachOnce(order: seq<Loc>) {
    forall i, j :: 0 <= i < j < |order| ==> order[i] != order[j]
  }

  lemma {:induction false} LiveExactly(w: World, order: seq<Loc>, r: Running)
    ensures r in Live(w, order) <==>
            r.loc in order && r.loc in w.elfs && r.elf == w.elfs[r.loc] && !CoreAt(w, r.loc).reset
    decreases |order|
  {
    if order != [] {
      LiveExactly(w, order[1..], r);
      assert r.loc in order <==> r.loc == order[0] || r.loc in order[1..];
    }
  }

  lemma {:induction false} LiveDistinct(w: World, order: seq<Loc>)
    requires EachOnce(order)
    ensures DistinctCores(Live(w, order))
    decreases |order|
  {
    if order != [] {
      LiveDistinct(w, order[1..]);
      forall r | r in Live(w, order[1..]) ensures r.loc != order[0] {
        LiveExactly(w, order[1..], r);
      }
    }
  }

  /** Every process listed is the one remembered for its core. */
  ghost predicate ListsLast(s: Snapshot) {
    forall pid <- s.available ::
      s.available[pid].loc in s.table.last && s.table.last[s.available[pid].loc] == s.available[pid]
  }

  ghost predicate NoneListed(s: Snapshot, live: seq<Running>) {
    forall pid <- s.available :: forall r <- live :: s.available[pid].loc != r.loc
  }

  lemma {:induction false} AddAllListsLast(previous: map<Loc, Process>, s: Snapshot, live: seq<Running>)
    requires (forall l <- previous :: previous[l].loc == l) && DistinctCores(live) && ListsLast(s)
    requires NoneListed(s, live)
    ensures ListsLast(AddAll(previous, s, live))
    decreases |live|
  {
    if live != [] {
      assert forall r <- live[1..] :: r.loc != live[0].loc;
      AddAllListsLast(previous, AddProcess(previous, s, live[0]), live[1..]);
    }
  }

  /** The core of the thread is running its ELF, and will be listed under the same id again. */
  ghost predicate Settled(s: State, t: Pid) {
    && t in s.table.issued
    && var p := s.table.issued[t];
       p.loc in s.table.last && s.table.last[p.loc] == p && Running(p.loc, p.elf) in Live(s.world, s.world.order)
  }

  lemma SettledIsListed(s: State, t: Pid)
    requires ValidState(s) && EachOnce(s.world.order) && Settled(s, t)
    ensures t in Snap(s).1 && Settled(Snap(s).0, t)
  {
    var live, p := Live(s.world, s.world.order), s.table.issued[t];
    LiveDistinct(s.world, s.world.order);
    SnapKeeps(s);
    AddAllLists(s.table.last, Snapshot(map[], s.table.(last := map[])), live, Running(p.loc, p.elf));
  }

  lemma ListedIsSettled(s: State, t: Pid)
    requires ValidState(s) && EachOnce(s.world.order) && t in Snap(s).1
    ensures Settled(Snap(s).0, t)
  {
    var live, start := Live(s.world, s.world.order), Snapshot(map[], s.table.(last := map[]));
    var p := Snap(s).1[t];
    LiveDistinct(s.world, s.world.order);
    SnapKeeps(s);
    AddAllListsLiveOnly(s.table.last, start, live);
    AddAllListsLast(s.table.last, start, live);
    var r :| r in live && r.loc == p.loc;
    AddAllLists(s.table.last, start, live, r);
  }

  /** Two settled threads have different cores. */
  lemma SettledApart(s: State, t: Pid, u: Pid)
    requires ValidState(s) && Settled(s, t) && Settled(s, u) && t != u
    ensures Home(s, t) != Home(s, u)
  {
  }

  /** The core neither enters reset nor gets another ELF. */
  ghost predicate Steady(w: World, l: Loc) {
    forall e <- w.events :: e != EnterReset(l) && (e.LoadElf? ==> e.loc != l)
  }

  lemma {:induction false} SteadyElf(w: World, l: Loc, t: nat)
    requires Steady(w, l)
    ensures (l in ElfsBy(w, t) <==> l in w.elfs) && (l in w.elfs ==> ElfsBy(w, t)[l] == w.elfs[l])
    decreases t
  {
    if t > 0 {
      SteadyElf(w, l, t - 1);
      assert t - 1 < |w.events| ==> w.events[t - 1] in w.events;
    }
  }

  lemma SteadyStays(w: World, p: Plan, w': World, l: Loc)
    requires Follows(w, p, w') && Steady(w, l)
    ensures Steady(w', l) && (l in w'.elfs <==> l in w.elfs) && (l in w.elfs ==> w'.elfs[l] == w.elfs[l])
    ensures CoreAt(w', l).reset <==> CoreAt(w, l).reset
  {
    SteadyElf(w, l, p.time);
    DueByPosition(w, EnterReset(l), 0, p.time);
  }

  lemma SettledStays(s: State, t: Pid, p: Plan, w': World)
    requires Settled(s, t) && Follows(s.world, p, w') && Steady(s.world, s.table.issued[t].loc)
    ensures Settled(s.(world := w'), t) && Steady(w', s.table.issued[t].loc)
  {
    var q := s.table.issued[t];
    SteadyStays(s.world, p, w', q.loc);
    LiveExactly(s.world, s.world.order, Running(q.loc, q.elf));
    LiveExactly(w', w'.order, Running(q.loc, q.elf));
  }
}
