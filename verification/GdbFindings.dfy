/** What a watch reports: exactly the cores found in reset and the cores found halted. */
module GdbFindings {
  import opened Options
  import opened ProcessIds
  import opened GdbStub

  /** The device `n` accesses later. */
  function Later(w: World, n: nat): World
    decreases n
  {
    if n == 0 then w else Tick(Later(w, n - 1))
  }

  /** In a poll after access t, core k is asked by access t + 2k + 1 whether it is in reset, and by the
      one after that whether it is halted. Each yes is a report of its own kind. */
  ghost predicate Finding(st: Status, w: World, watch: seq<Process>, t: nat, k: nat)
    requires k < |watch|
  {
    match st
    case Exited(pid) => pid == watch[k].pid && CoreAt(Later(w, t + 2 * k + 1), watch[k].loc).reset
    case Stopped(pid) => pid == watch[k].pid && CoreAt(Later(w, t + 2 * k + 2), watch[k].loc).halted
    case _ => false
  }

  ghost predicate FoundFrom(st: Status, w: World, watch: seq<Process>, t: nat, i: nat) {
    exists k :: i <= k < |watch| && Finding(st, w, watch, t, k)
  }

  ghost predicate AreFindings(statuses: seq<Status>, w: World, watch: seq<Process>, t: nat, i: nat) {
    forall st :: st in statuses <==> FoundFrom(st, w, watch, t, i)
  }

  lemma PollOneFinds(w: World, watch: seq<Process>, t: nat, k: nat)
    requires k < |watch|
    ensures PollOne(Later(w, t + 2 * k), watch[k]).world == Later(w, t + 2 * k + 2)
    ensures forall st :: st in PollOne(Later(w, t + 2 * k), watch[k]).statuses <==> Finding(st, w, watch, t, k)
  {
  }

  lemma FindingsJoin(here: seq<Status>, on: seq<Status>, w: World, watch: seq<Process>, t: nat, i: nat)
    requires i < |watch| && (forall st :: st in here <==> Finding(st, w, watch, t, i))
    requires AreFindings(on, w, watch, t, i + 1)
    ensures AreFindings(here + on, w, watch, t, i)
  {
  }

  lemma PollStep(w: World, watch: seq<Process>, i: nat)
    requires i < |watch|
    ensures var first := PollOne(w, watch[i]);
            var rest := PollAll(first.world, watch[i + 1..]);
            PollAll(w, watch[i..]) == Polled(rest.world, first.statuses + rest.statuses)
  {
    assert watch[i..][0] == watch[i] && watch[i..][1..] == watch[i + 1..];
  }

  /** A poll reports exactly what it finds. */
  lemma {:induction false} PollFinds(w: World, now: World, watch: seq<Process>, t: nat, i: nat)
    requires i <= |watch| && now == Later(w, t + 2 * i)
    ensures PollGives(PollAll(now, watch[i..]), w, watch, t, i)
    decreases |watch| - i
  {
    if i < |watch| {
      var here := PollOne(now, watch[i]);
      PollOneFinds(w, watch, t, i);
      PollFinds(w, here.world, watch, t, i + 1);
      PollStep(now, watch, i);
      GivesJoin(here, PollAll(here.world, watch[i + 1..]), w, watch, t, i);
    }
  }

  ghost predicate PollGives(r: Polled, w: World, watch: seq<Process>, t: nat, i: nat) {
    r.world == Later(w, t + 2 * |watch|) && AreFindings(r.statuses, w, watch, t, i)
  }

  lemma GivesJoin(here: Polled, on: Polled, w: World, watch: seq<Process>, t: nat, i: nat)
    requires i < |watch| && (forall st :: st in here.statuses <==> Finding(st, w, watch, t, i))
    requires PollGives(on, w, watch, t, i + 1)
    ensures PollGives(Polled(on.world, here.statuses + on.statuses), w, watch, t, i)
  {
    FindingsJoin(here.statuses, on.statuses, w, watch, t, i);
  }

  ghost predicate NoneTwice(statuses: seq<Status>) {
    forall i, j :: 0 <= i < j < |statuses| ==> statuses[i] != statuses[j]
  }

  ghost predicate DistinctPids(watch: seq<Process>) {
    forall i, j :: 0 <= i < j < |watch| ==> watch[i].pid != watch[j].pid
  }

  lemma JoinedNoneTwice(a: seq<Status>, b: seq<Status>)
    requires NoneTwice(a) && NoneTwice(b) && forall st <- a :: st !in b
    ensures NoneTwice(a + b)
  {
    forall i, j | 0 <= i < j < |a + b| ensures (a + b)[i] != (a + b)[j] {
      assert i < |a| ==> a[i] in a;
      assert j >= |a| ==> b[j - |a|] in b;
    }
  }

  ghost predicate IsAbout(st: Status, p: Process) {
    st == Exited(p.pid) || st == Stopped(p.pid)
  }

  ghost predicate AreAbout(statuses: seq<Status>, watch: seq<Process>) {
    forall st <- statuses :: exists p :: p in watch && IsAbout(st, p)
  }

  lemma PollOneIsAbout(w: World, p: Process)
    ensures NoneTwice(PollOne(w, p).statuses) && forall st <- PollOne(w, p).statuses :: IsAbout(st, p)
  {
  }

  /** And it reports nothing twice, since two watched threads have different ids. */
  lemma {:induction false} PollFindsOnce(w: World, watch: seq<Process>)
    requires DistinctPids(watch)
    ensures NoneTwice(PollAll(w, watch).statuses) && AreAbout(PollAll(w, watch).statuses, watch)
    decreases |watch|
  {
    if watch != [] {
      var here := PollOne(w, watch[0]);
      var on := PollAll(here.world, watch[1..]);
      PollOneIsAbout(w, watch[0]);
      PollFindsOnce(here.world, watch[1..]);
      forall st | st in on.statuses ensures exists p :: p in watch && IsAbout(st, p) && p.pid != watch[0].pid {
        var p :| p in watch[1..] && IsAbout(st, p);
        var k :| 0 <= k < |watch[1..]| && watch[1..][k] == p;
        assert watch[k + 1] == p && watch[0].pid != watch[k + 1].pid;
      }
      assert watch[0] in watch;
      JoinedNoneTwice(here.statuses, on.statuses);
    }
  }

  /** How many accesses were made before round n. */
  function Before(watch: seq<Process>, n: nat): nat {
    if n == 0 then 0 else Before(watch, n - 1) + 2 * |watch|
  }

  /** Before round n nothing was found and the user did not interrupt. */
  ghost predicate QuietBefore(w: World, watch: seq<Process>, interrupts: seq<bool>, n: nat) {
    n <= |interrupts| && forall i :: 0 <= i < n ==> QuietRound(w, watch, interrupts, i)
  }

  ghost predicate QuietRound(w: World, watch: seq<Process>, interrupts: seq<bool>, i: nat)
    requires i < |interrupts|
  {
    !interrupts[i] && AreFindings([], w, watch, Before(watch, i), 0)
  }

  /** The watch ends in round n, the first in which something is found or the user interrupts, and
      reports what is found then. */
  ghost predicate EndsInRound(w: World, watch: seq<Process>, interrupts: seq<bool>, n: nat, statuses: seq<Status>) {
    && QuietBefore(w, watch, interrupts, n) && AreFindings(statuses, w, watch, Before(watch, n), 0)
    && (DistinctPids(watch) ==> NoneTwice(statuses))
    && (statuses != [] || n == |interrupts| || interrupts[n])
  }

  lemma RoundFinds(w: World, watch: seq<Process>, t: nat)
    ensures var r := PollAll(Later(w, t), watch);
            && r.world == Later(w, t + 2 * |watch|) && AreFindings(r.statuses, w, watch, t, 0)
            && (DistinctPids(watch) ==> NoneTwice(r.statuses))
  {
    PollFinds(w, Later(w, t), watch, t, 0);
    assert watch[0..] == watch;
    if DistinctPids(watch) {
      PollFindsOnce(Later(w, t), watch);
    }
  }

  /** Polling until something is found or the user interrupts, whatever a poll is. */
  function PollUntil(poll: World -> Polled, now: World, interrupts: seq<bool>): Polled
    decreases |interrupts|
  {
    var polled := poll(now);
    if interrupts == [] || interrupts[0] || polled.statuses != [] then polled
    else PollUntil(poll, polled.world, interrupts[1..])
  }

  lemma {:induction false} WatchPollsUntil(now: World, watch: seq<Process>, interrupts: seq<bool>)
    ensures Watch(now, watch, interrupts) == PollUntil(PollOf(watch), now, interrupts)
    decreases |interrupts|
  {
    var polled := PollAll(now, watch);
    if interrupts != [] && !interrupts[0] && polled.statuses == [] {
      WatchPollsUntil(polled.world, watch, interrupts[1..]);
    }
  }

  /** `at` gives the device before each round. */
  ghost predicate Rounds(poll: World -> Polled, at: nat -> World) {
    forall i: nat :: Leads(poll, at, i)
  }

  ghost predicate Leads(poll: World -> Polled, at: nat -> World, i: nat) {
    poll(at(i)).world == at(i + 1)
  }

  /** Round n is the last one of the rounds from i on. */
  ghost predicate IsLast(poll: World -> Polled, at: nat -> World, interrupts: seq<bool>, i: nat, n: nat) {
    && i <= n <= |interrupts|
    && (forall k :: i <= k < n ==> !interrupts[k] && poll(at(k)).statuses == [])
    && (poll(at(n)).statuses != [] || n == |interrupts| || interrupts[n])
  }

  lemma {:induction false} LastRound(poll: World -> Polled, at: nat -> World, interrupts: seq<bool>, i: nat)
    returns (n: nat)
    requires Rounds(poll, at) && i <= |interrupts|
    ensures IsLast(poll, at, interrupts, i, n) && PollUntil(poll, at(i), interrupts[i..]) == poll(at(n))
    decreases |interrupts| - i
  {
    n := i;
    if i < |interrupts| && !interrupts[i] && poll(at(i)).statuses == [] {
      assert interrupts[i..][1..] == interrupts[i + 1..];
      assert Leads(poll, at, i);
      n := LastRound(poll, at, interrupts, i + 1);
    }
  }

  function PollOf(watch: seq<Process>): World -> Polled {
    (w: World) => PollAll(w, watch)
  }

  function DeviceBefore(w: World, watch: seq<Process>): nat -> World {
    (i: nat) => Later(w, Before(watch, i))
  }

  lemma RoundLeads(w: World, watch: seq<Process>, i: nat)
    ensures Leads(PollOf(watch), DeviceBefore(w, watch), i)
  {
    RoundFinds(w, watch, Before(watch, i));
  }

  lemma RoundHolds(w: World, watch: seq<Process>, i: nat)
    ensures RoundGives(w, watch, PollOf(watch), DeviceBefore(w, watch), i)
  {
    RoundFinds(w, watch, Before(watch, i));
  }

  /** Every watch ends so. */
  lemma WatchFinds(w: World, watch: seq<Process>, interrupts: seq<bool>)
    ensures exists n :: EndsInRound(w, watch, interrupts, n, Watch(w, watch, interrupts).statuses)
  {
    var poll, at := PollOf(watch), DeviceBefore(w, watch);
    forall i: nat ensures Leads(poll, at, i) {
      RoundLeads(w, watch, i);
    }
    var n := LastRound(poll, at, interrupts, 0);
    forall i: nat ensures RoundGives(w, watch, poll, at, i) {
      RoundHolds(w, watch, i);
    }
    WatchIsPolls(w, watch, interrupts);
    GivesFindings(w, watch, interrupts, poll, at, n);
  }

  lemma WatchIsPolls(w: World, watch: seq<Process>, interrupts: seq<bool>)
    ensures Watch(w, watch, interrupts) == PollUntil(PollOf(watch), DeviceBefore(w, watch)(0), interrupts[0..])
  {
    WatchPollsUntil(w, watch, interrupts);
    assert interrupts[0..] == interrupts;
  }

  ghost predicate RoundGives(w: World, watch: seq<Process>, poll: World -> Polled, at: nat -> World, n: nat) {
    var statuses := poll(at(n)).statuses;
    AreFindings(statuses, w, watch, Before(watch, n), 0) && (DistinctPids(watch) ==> NoneTwice(statuses))
  }

  lemma GivesFindings(w: World, watch: seq<Process>, interrupts: seq<bool>, poll: World -> Polled, at: nat -> World,
      n: nat)
    requires IsLast(poll, at, interrupts, 0, n) && forall i: nat :: RoundGives(w, watch, poll, at, i)
    ensures EndsInRound(w, watch, interrupts, n, poll(at(n)).statuses)
  {
    forall i | 0 <= i < n ensures QuietRound(w, watch, interrupts, i) {
      assert RoundGives(w, watch, poll, at, i) && poll(at(i)).statuses == [];
    }
    assert RoundGives(w, watch, poll, at, n);
  }
}
