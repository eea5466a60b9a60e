/** Process ids: the debugger shows every running core with a known ELF as a process. */
module ProcessIds {
  type Loc = nat
  type Pid = nat

  /** A core that is out of reset and whose ELF path is known. */
  datatype Running = Running(loc: Loc, elf: string)

  datatype Process = Process(pid: Pid, loc: Loc, elf: string)

  /** The next unused id and the processes of the last snapshot; `issued` records, for the
      proofs, every process that ever got an id. */
  datatype Table = Table(nextPid: Pid, last: map<Loc, Process>, issued: map<Pid, Process>)

  /** A snapshot being built: what it lists, and the table that will replace the old one. */
  datatype Snapshot = Snapshot(available: map<Pid, Process>, table: Table)

  const INITIAL := Table(1, map[], map[])

  /** Lists a core under the id it had in the previous snapshot, or under a new one. */
  function AddProcess(previous: map<Loc, Process>, s: Snapshot, r: Running): Snapshot {
    if r.loc in previous && previous[r.loc].elf == r.elf then
      var p := previous[r.loc];
      Snapshot(s.available[p.pid := p], s.table.(last := s.table.last[r.loc := p]))
    else
      var p := Process(s.table.nextPid, r.loc, r.elf);
      Snapshot(s.available[p.pid := p],
               Table(p.pid + 1, s.table.last[r.loc := p], s.table.issued[p.pid := p]))
  }

  function AddAll(previous: map<Loc, Process>, s: Snapshot, live: seq<Running>): Snapshot
    decreases |live|
  {
    if live == [] then s else AddAll(previous, AddProcess(previous, s, live[0]), live[1..])
  }

  function Refresh(t: Table, live: seq<Running>): Snapshot {
    AddAll(t.last, Snapshot(map[], t.(last := map[])), live)
  }

  /** The table as an object, listing the processes of one moment. */
  class ProcessTable {
    var table: Table

    constructor ()
      ensures table == INITIAL
    {
      table := INITIAL;
    }

    method AvailableProcesses(live: seq<Running>) returns (available: map<Pid, Process>)
      modifies this
      ensures Refresh(old(table), live) == Snapshot(available, table)
    {
      available := map[];
      var last: map<Loc, Process> := map[];
      var nextPid: Pid := table.nextPid;
      var issued: map<Pid, Process> := table.issued;
      var i := 0;
      while i < |live|
        invariant i <= |live|
        invariant Refresh(table, live) ==
                  AddAll(table.last, Snapshot(available, Table(nextPid, last, issued)), live[i..])
      {
        var r := live[i];
        assert live[i..][0] == r && live[i..][1..] == live[i + 1..];
        var process: Process;
        if r.loc !in table.last || table.last[r.loc].elf != r.elf {
          process := Process(nextPid, r.loc, r.elf);
          nextPid := nextPid + 1;
          issued := issued[process.pid := process];
        } else {
          process := table.last[r.loc];
        }
        available := available[process.pid := process];
        last := last[r.loc := process];
        i := i + 1;
      }
      table := Table(nextPid, last, issued);
    }
  }

  ghost predicate Known(p: Process, issued: map<Pid, Process>) {
    p.pid in issued && issued[p.pid] == p
  }

  /** Every process is listed under its own id, as it was issued. */
  ghost predicate Recorded(available: map<Pid, Process>, issued: map<Pid, Process>) {
    forall pid <- available :: available[pid].pid == pid && Known(available[pid], issued)
  }

  /** Ids below `nextPid` have been issued, each to one process for good. */
  ghost predicate ValidTable(t: Table) {
    && (forall pid <- t.issued :: pid < t.nextPid && t.issued[pid].pid == pid)
    && ValidLast(t.last, t.issued)
  }

  ghost predicate ValidLast(last: map<Loc, Process>, issued: map<Pid, Process>) {
    forall l <- last :: last[l].loc == l && Known(last[l], issued)
  }

  ghost predicate Extends(a: map<Pid, Process>, b: map<Pid, Process>) {
    forall pid <- a :: pid in b && b[pid] == a[pid]
  }

  ghost predicate ValidSnapshot(previous: map<Loc, Process>, s: Snapshot) {
    && ValidTable(s.table)
    && ValidLast(previous, s.table.issued)
    && Recorded(s.available, s.table.issued)
  }

  lemma {:induction false} AddAllValid(previous: map<Loc, Process>, s: Snapshot, live: seq<Running>)
    requires ValidSnapshot(previous, s)
    ensures var r := AddAll(previous, s, live);
            ValidSnapshot(previous, r) && Extends(s.table.issued, r.table.issued) && Extends(s.available, r.available)
    decreases |live|
  {
    if live != [] {
      var next := AddProcess(previous, s, live[0]);
      assert s.table.nextPid !in s.table.issued;
      AddAllValid(previous, next, live[1..]);
    }
  }

  /** A snapshot keeps the table valid, lists every process under its own id, and never takes
      an id back. */
  lemma RefreshValid(t: Table, live: seq<Running>)
    requires ValidTable(t)
    ensures var s := Refresh(t, live);
            ValidTable(s.table) && Extends(t.issued, s.table.issued) && Recorded(s.available, s.table.issued)
  {
    AddAllValid(t.last, Snapshot(map[], t.(last := map[])), live);
  }

  ghost predicate DistinctCores(live: seq<Running>) {
    forall i, j :: 0 <= i < j < |live| ==> live[i].loc != live[j].loc
  }

  /** `r` is listed by the snapshot, under the id its table will remember. */
  ghost predicate Lists(s: Snapshot, r: Running) {
    && r.loc in s.table.last
    && var p := s.table.last[r.loc];
       p.loc == r.loc && p.elf == r.elf && p.pid in s.available && s.available[p.pid] == p
  }

  lemma {:induction false} AddAllLists(previous: map<Loc, Process>, s: Snapshot, live: seq<Running>, r: Running)
    requires ValidSnapshot(previous, s) && DistinctCores(live)
    requires r in live || (Lists(s, r) && forall x <- live :: x.loc != r.loc)
    ensures var done := AddAll(previous, s, live);
            Lists(done, r) &&
            (r in live && r.loc in previous && previous[r.loc].elf == r.elf ==>
              done.table.last[r.loc] == previous[r.loc]) &&
            (r !in live ==> done.table.last[r.loc] == s.table.last[r.loc])
    decreases |live|
  {
    if live != [] {
      var next := AddProcess(previous, s, live[0]);
      assert s.table.nextPid !in s.table.issued;
      AddAllValid(previous, s, live[..1]);
      assert AddAll(previous, s, live[..1]) == next by {
        assert live[..1][1..] == [];
      }
      AddAllLists(previous, next, live[1..], r);
      if r == live[0] {
        assert r !in live[1..];
      }
    }
  }

  /** Every running core is listed, and two cores are never listed under one id. */
  lemma SnapshotIdsAreDistinct(t: Table, live: seq<Running>, a: Running, b: Running)
    requires ValidTable(t) && DistinctCores(live) && a in live && b in live
    ensures var s := Refresh(t, live);
            Lists(s, a) && Lists(s, b) &&
            (a.loc != b.loc ==> s.table.last[a.loc].pid != s.table.last[b.loc].pid)
  {
    var start := Snapshot(map[], t.(last := map[]));
    AddAllLists(t.last, start, live, a);
    AddAllLists(t.last, start, live, b);
  }

  lemma {:induction false} NewIdsCountUp(s: Snapshot, live: seq<Running>, k: nat)
    requires DistinctCores(live) && k < |live|
    ensures var r := live[k]; var done := AddAll(map[], s, live);
            r.loc in done.table.last && done.table.last[r.loc] == Process(s.table.nextPid + k, r.loc, r.elf)
    decreases |live|
  {
    var next := AddProcess(map[], s, live[0]);
    if k > 0 {
      assert live[1..][k - 1] == live[k];
      NewIdsCountUp(next, live[1..], k - 1);
    } else {
      LastStays(next, live[1..], live[0].loc);
    }
  }

  lemma {:induction false} LastStays(s: Snapshot, live: seq<Running>, l: Loc)
    requires l in s.table.last && forall r <- live :: r.loc != l
    ensures var done := AddAll(map[], s, live); l in done.table.last && done.table.last[l] == s.table.last[l]
    decreases |live|
  {
    if live != [] {
      LastStays(AddProcess(map[], s, live[0]), live[1..], l);
    }
  }

  /** The first snapshot numbers the running cores from 1 on, in order. */
  lemma FirstIdsCountFromOne(live: seq<Running>, k: nat)
    requires DistinctCores(live) && k < |live|
    ensures var s := Refresh(INITIAL, live);
            live[k].loc in s.table.last && s.table.last[live[k].loc] == Process(k + 1, live[k].loc, live[k].elf)
  {
    NewIdsCountUp(Snapshot(map[], INITIAL), live, k);
  }

  /** A core that runs the same ELF in two consecutive snapshots keeps its id. */
  lemma IdsAreStable(t: Table, live: seq<Running>, later: seq<Running>, r: Running)
    requires ValidTable(t) && DistinctCores(live) && DistinctCores(later) && r in live && r in later
    ensures var s := Refresh(t, live);
            var s' := Refresh(s.table, later);
            Lists(s, r) && Lists(s', r) && s'.table.last[r.loc] == s.table.last[r.loc]
  {
    RefreshValid(t, live);
    var s := Refresh(t, live);
    AddAllLists(t.last, Snapshot(map[], t.(last := map[])), live, r);
    AddAllLists(s.table.last, Snapshot(map[], s.table.(last := map[])), later, r);
  }

  /** The snapshots of a whole run, each over whatever happens to be running then. */
  function Run(t: Table, moments: seq<seq<Running>>): (r: seq<Snapshot>)
    ensures |r| == |moments|
    decreases |moments|
  {
    if moments == [] then []
    else
      var s := Refresh(t, moments[0]);
      [s] + Run(s.table, moments[1..])
  }

  function FinalTable(t: Table, moments: seq<seq<Running>>): Table {
    if moments == [] then t else Run(t, moments)[|moments| - 1].table
  }

  lemma {:induction false} RunRecordsIds(t: Table, moments: seq<seq<Running>>)
    requires ValidTable(t)
    ensures Extends(t.issued, FinalTable(t, moments).issued)
    ensures forall k :: 0 <= k < |moments| ==> Recorded(Run(t, moments)[k].available, FinalTable(t, moments).issued)
    decreases |moments|
  {
    if moments != [] {
      RefreshValid(t, moments[0]);
      var s := Refresh(t, moments[0]);
      RunRecordsIds(s.table, moments[1..]);
      assert FinalTable(s.table, moments[1..]) == FinalTable(t, moments);
      assert Recorded(s.available, FinalTable(t, moments).issued);
    }
  }

  /** Over a whole run an id always stands for the same core and the same ELF path. */
  lemma IdsAreNeverReissued(moments: seq<seq<Running>>, i: nat, j: nat, pid: Pid)
    requires i < |moments| && j < |moments|
    ensures var run := Run(INITIAL, moments);
            pid in run[i].available && pid in run[j].available ==> run[i].available[pid] == run[j].available[pid]
  {
    RunRecordsIds(INITIAL, moments);
  }
}
