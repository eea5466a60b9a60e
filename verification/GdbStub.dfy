/** The GDB stub as a state machine: attaching, resuming, watching, and detaching cores, with
    the cores' own events happening between any two accesses to the device. */
module GdbStub {
  import opened Options
  import opened ProcessIds

  /** `armed` holds the enabled watchpoint slots. */
  datatype Core = Core(reset: bool, halted: bool, armed: set<nat>)

  /** What can happen without the stub. Nothing but the stub resumes a halted core or takes a
      core out of reset. */
  datatype Event = Quiet | BreakpointHit(loc: Loc) | EnterReset(loc: Loc) | LoadElf(loc: Loc, elf: string)

  datatype Action = Continue | Step

  /** The command that let a core run. */
  datatype Resumption = Resumption(loc: Loc, action: Action)

  /** `resumed` lists these commands, in order. */
  datatype World = World(cores: map<Loc, Core>, order: seq<Loc>, elfs: map<Loc, string>, slots: nat,
    events: seq<Event>, resumed: seq<Resumption>)

  /** A location without a core behaves like one that stays in reset. */
  function CoreAt(w: World, l: Loc): Core {
    if l in w.cores then w.cores[l] else Core(true, false, {})
  }

  predicate AtRest(w: World, l: Loc) {
    CoreAt(w, l).reset || CoreAt(w, l).halted
  }

  function SetHalted(w: World, l: Loc, halted: bool): World {
    if l in w.cores then w.(cores := w.cores[l := w.cores[l].(halted := halted)]) else w
  }

  function SetRunning(w: World, l: Loc, action: Action): World {
    SetHalted(w, l, false).(resumed := w.resumed + [Resumption(l, action)])
  }

  function SetArmed(w: World, l: Loc, armed: set<nat>): World {
    if l in w.cores then w.(cores := w.cores[l := w.cores[l].(armed := armed)]) else w
  }

  function Happen(w: World, e: Event): World {
    match e
    case Quiet => w
    case BreakpointHit(l) => if CoreAt(w, l).reset then w else SetHalted(w, l, true)
    case EnterReset(l) => if l in w.cores then w.(cores := w.cores[l := w.cores[l].(reset := true)]) else w
    case LoadElf(l, elf) => w.(elfs := w.elfs[l := elf])
  }

  /** One event, at most, happens before each access to the device. */
  function Tick(w: World): World {
    if w.events == [] then w else Happen(w.(events := w.events[1..]), w.events[0])
  }

  /** An access either answers or raises, because the core is in reset. */
  datatype Answer = Raised(world: World) | Answer(world: World, yes: bool)

  function IsHalted(w: World, l: Loc): Answer {
    var w := Tick(w);
    if CoreAt(w, l).reset then Raised(w) else Answer(w, CoreAt(w, l).halted)
  }

  function Halt(w: World, l: Loc): Answer {
    var w := Tick(w);
    if CoreAt(w, l).reset then Raised(w) else Answer(SetHalted(w, l, true), true)
  }

  /** Continuing and stepping both resume the core; a finished step shows up as an event. */
  function Resume(w: World, l: Loc, action: Action): Answer {
    var w := Tick(w);
    if CoreAt(w, l).reset then Raised(w) else Answer(SetRunning(w, l, action), true)
  }

  function HaltIfRunning(w: World, l: Loc): Answer {
    var h := IsHalted(w, l);
    if h.Raised? || h.yes then h else Halt(h.world, l)
  }

  function Disable(w: World, l: Loc, slot: nat): Answer {
    var w := Tick(w);
    if CoreAt(w, l).reset then Raised(w) else Answer(SetArmed(w, l, CoreAt(w, l).armed - {slot}), true)
  }

  function Live(w: World, order: seq<Loc>): seq<Running> {
    if order == [] then []
    else
      var l := order[0];
      (if l in w.elfs && !CoreAt(w, l).reset then [Running(l, w.elfs[l])] else []) + Live(w, order[1..])
  }

  // ----- The vCont packet

  datatype Selector = Everyone | One(pid: Pid)

  /** An action letter, if the packet has one there, and the thread it is for. */
  datatype Clause = Clause(letter: Option<nat>, selector: Selector)

  /** 'c' and 'C' continue; 's' steps, and so does 'R' where 'S' was meant. 't' is refused, since
      the stub is never in non-stop mode, and so is every other letter. */
  function ActionOf(letter: Option<nat>): Option<Action> {
    if letter == Some(99) || letter == Some(67) then Some(Continue)
    else if letter == Some(115) || letter == Some(82) then Some(Step)
    else None
  }

  predicate Acceptable(c: Clause, threads: seq<Pid>) {
    ActionOf(c.letter).Some? && (c.selector.One? ==> c.selector.pid in threads)
  }

  predicate Matches(c: Clause, pid: Pid) {
    c.selector == Everyone || c.selector == One(pid)
  }

  /** The action of the first clause that matches the thread. */
  function Leftmost(clauses: seq<Clause>, pid: Pid): Option<Action> {
    if clauses == [] then None
    else if Matches(clauses[0], pid) then ActionOf(clauses[0].letter)
    else Leftmost(clauses[1..], pid)
  }

  /** Every clause is acceptable, up to and including the first one for all threads. */
  predicate AllAcceptable(clauses: seq<Clause>, threads: seq<Pid>) {
    clauses == [] ||
    (Acceptable(clauses[0], threads) && (clauses[0].selector.Everyone? || AllAcceptable(clauses[1..], threads)))
  }

  datatype Todo = Todo(pid: Pid, action: Option<Action>)

  datatype Parsed = Bad | Good(todo: seq<Todo>)

  function ParseActions(threads: seq<Pid>, clauses: seq<Clause>): Parsed {
    if AllAcceptable(clauses, threads) then
      Good(seq(|threads|, k requires 0 <= k < |threads| => Todo(threads[k], Leftmost(clauses, threads[k]))))
    else Bad
  }

  lemma {:induction false} LeftmostByPosition(clauses: seq<Clause>, pid: Pid, k: nat)
    requires k < |clauses| && clauses[k].selector in {Everyone, One(pid)}
    requires forall j :: 0 <= j < k ==> clauses[j].selector !in {Everyone, One(pid)}
    ensures Leftmost(clauses, pid) == ActionOf(clauses[k].letter)
  {
    if k > 0 {
      assert forall j :: 0 <= j < k - 1 ==> clauses[1..][j] == clauses[j + 1];
      LeftmostByPosition(clauses[1..], pid, k - 1);
    }
  }

  lemma {:induction false} LeftmostOfNone(clauses: seq<Clause>, pid: Pid)
    requires forall c <- clauses :: c.selector !in {Everyone, One(pid)}
    ensures Leftmost(clauses, pid) == None
  {
    if clauses != [] {
      LeftmostOfNone(clauses[1..], pid);
    }
  }

  datatype Applied = Applied(raised: bool, world: World, watch: seq<Process>)

  function ApplyOne(w: World, p: Process, action: Option<Action>): Applied {
    var h := IsHalted(w, p.loc);
    if h.Raised? then Applied(true, h.world, [])
    else if action.None? then Applied(false, h.world, if h.yes then [] else [p])
    else if !h.yes then Applied(false, h.world, [])
    else
      var r := Resume(h.world, p.loc, action.value);
      if r.Raised? then Applied(true, r.world, []) else Applied(false, r.world, [p])
  }

  function ApplyAll(w: World, available: map<Pid, Process>, todo: seq<Todo>): Applied
    decreases |todo|
  {
    if todo == [] then Applied(false, w, [])
    else if todo[0].pid !in available then ApplyAll(w, available, todo[1..])
    else
      var first := ApplyOne(w, available[todo[0].pid], todo[0].action);
      if first.raised then first
      else
        var rest := ApplyAll(first.world, available, todo[1..]);
        rest.(watch := first.watch + rest.watch)
  }

  /** Exited is "W00;process:", Stopped is "T05...thread:", EndOfReports is "T05" and
      Interrupted is "S02". */
  datatype Status = Exited(pid: Pid) | Stopped(pid: Pid) | EndOfReports | Interrupted

  datatype Polled = Polled(world: World, statuses: seq<Status>)

  function PollOne(w: World, p: Process): Polled {
    var w := Tick(w);
    var exited := if CoreAt(w, p.loc).reset then [Exited(p.pid)] else [];
    var w := Tick(w);
    var stopped := if CoreAt(w, p.loc).halted then [Stopped(p.pid)] else [];
    Polled(w, exited + stopped)
  }

  function PollAll(w: World, watch: seq<Process>): Polled
    decreases |watch|
  {
    if watch == [] then Polled(w, [])
    else
      var first := PollOne(w, watch[0]);
      var rest := PollAll(first.world, watch[1..]);
      rest.(statuses := first.statuses + rest.statuses)
  }

  /** `interrupts` says for each poll whether the user asks to stop; when it ends, they do. */
  function Watch(w: World, watch: seq<Process>, interrupts: seq<bool>): Polled
    decreases |interrupts|
  {
    var polled := PollAll(w, watch);
    if interrupts == [] || interrupts[0] || polled.statuses != [] then polled
    else Watch(polled.world, watch, interrupts[1..])
  }

  datatype Stopping = Stopping(raised: bool, world: World)

  function StopOne(w: World, l: Loc): Stopping {
    var w := Tick(w);
    if CoreAt(w, l).reset then Stopping(false, w)
    else
      var r := HaltIfRunning(w, l);
      Stopping(r.Raised?, r.world)
  }

  function StopAll(w: World, watch: seq<Process>): Stopping
    decreases |watch|
  {
    if watch == [] then Stopping(false, w)
    else
      var first := StopOne(w, watch[0].loc);
      if first.raised then first else StopAll(first.world, watch[1..])
  }

  // ----- The state and its packets

  /** `pending` is kept in reverse, so that the next report is its last element. */
  datatype State = State(world: World, table: Table, threads: seq<Pid>, pending: seq<Status>, skipDetach: bool)

  datatype Reply = Ok | Error | Attached(pid: Pid) | Gone(pid: Pid) | Report(status: Status) | Exception | Silent

  datatype Done = Done(state: State, reply: Reply)

  datatype Packet =
    | Attach(who: Option<Pid>)
    | VCont(clauses: seq<Clause>, interrupts: seq<bool>)
    | Detach(pid: Option<Pid>)
    | DetachAll
    | Watchpoints(loc: Loc, armed: set<nat>)
    | TimePasses
    | Reconnect

  function Snap(s: State): (r: (State, map<Pid, Process>)) {
    var snapshot := Refresh(s.table, Live(s.world, s.world.order));
    (s.(table := snapshot.table), snapshot.available)
  }

  function DoAttach(s: State, who: Option<Pid>): Done {
    if who.None? then Done(s, Error)
    else
      var (s1, first) := Snap(s);
      if who.value !in first then Done(s1, Error)
      else
        var (s2, second) := Snap(s1);
        if who.value !in second || second[who.value].pid in s.threads then Done(s2, Error)
        else
          var p := second[who.value];
          var stop := HaltIfRunning(s.world, p.loc);
          if stop.Raised? then Done(s2.(world := stop.world), Error)
          else Done(s2.(world := stop.world, threads := s.threads + [p.pid]), Attached(p.pid))
  }

  function FirstMissing(threads: seq<Pid>, available: map<Pid, Process>): Option<Pid> {
    if threads == [] then None
    else if threads[0] !in available then Some(threads[0])
    else FirstMissing(threads[1..], available)
  }

  function Reverse<T>(xs: seq<T>): (r: seq<T>)
    ensures |r| == |xs|
    ensures forall k :: 0 <= k < |r| ==> r[k] == xs[|xs| - 1 - k]
  {
    seq(|xs|, k requires 0 <= k < |xs| => xs[|xs| - 1 - k])
  }

  /** All reports of one watch, in the order they will be sent. */
  function Reports(statuses: seq<Status>): seq<Status> {
    if statuses == [] then [Interrupted] else statuses + [EndOfReports]
  }

  /** One round of applying actions, watching, and stopping every core again. There is always
      something to report, unless applying the actions raised. */
  datatype Round = Round(raised: bool, world: World, reports: seq<Status>)

  function RunRound(w: World, available: map<Pid, Process>, todo: seq<Todo>, interrupts: seq<bool>): (r: Round)
    ensures !r.raised ==> r.reports != []
  {
    var applied := ApplyAll(w, available, todo);
    if applied.raised then Round(true, applied.world, [])
    else
      var polled := Watch(applied.world, applied.watch, interrupts);
      var stopping := StopAll(polled.world, applied.watch);
      Round(stopping.raised, stopping.world, Reports(polled.statuses))
  }

  function DoVCont(s: State, clauses: seq<Clause>, interrupts: seq<bool>): Done {
    if s.pending != [] then
      Done(s.(pending := s.pending[..|s.pending| - 1]), Report(s.pending[|s.pending| - 1]))
    else
      var parsed := ParseActions(s.threads, clauses);
      if parsed.Bad? then Done(s, Error)
      else
        var (s1, available) := Snap(s);
        var missing := FirstMissing(s.threads, available);
        if missing.Some? then Done(s1, Gone(missing.value))
        else
          var round := RunRound(s.world, available, parsed.todo, interrupts);
          Done(s1.(world := round.world, pending := Reverse(if round.reports == [] then [] else round.reports[1..])),
               if round.raised then Exception else Report(round.reports[0]))
  }

  function DisableFrom(w: World, l: Loc, slot: nat): Answer
    decreases if slot < w.slots then w.slots - slot else 0
  {
    if slot >= w.slots then Answer(w, true)
    else
      var first := Disable(w, l, slot);
      if first.Raised? then first else DisableFrom(first.world, l, slot + 1)
  }

  /** Removes every watchpoint of a core and lets it run. */
  function Release(w: World, l: Loc): Answer {
    var cleared := DisableFrom(w, l, 0);
    if cleared.Raised? then cleared else ContIfHalted(cleared.world, l, Continue)
  }

  function ContIfHalted(w: World, l: Loc, action: Action): Answer {
    var h := IsHalted(w, l);
    if h.Raised? || !h.yes then h else Resume(h.world, l, action)
  }

  function Without(threads: seq<Pid>, pid: Pid): seq<Pid> {
    if threads == [] then []
    else (if threads[0] == pid then [] else [threads[0]]) + Without(threads[1..], pid)
  }

  function DoDetach(s: State, who: Option<Pid>): Done {
    if who.None? || who.value !in s.threads then Done(s, Error)
    else
      var s0 := s.(threads := Without(s.threads, who.value));
      if s.skipDetach then Done(s0, Ok)
      else
        var (s1, available) := Snap(s0);
        if who.value !in available then Done(s1, Ok)
        else
          var r := Release(s.world, available[who.value].loc);
          Done(s1.(world := r.world), if r.Raised? then Exception else Ok)
  }

  /** Releases the cores of `threads` one after the other. */
  function ReleaseAll(s: State, threads: seq<Pid>): Done
    decreases |threads|
  {
    if threads == [] then Done(s, Ok)
    else
      var (s1, available) := Snap(s);
      if threads[0] !in available then ReleaseAll(s1, threads[1..])
      else
        var r := Release(s1.world, available[threads[0]].loc);
        if r.Raised? then Done(s1.(world := r.world), Exception)
        else ReleaseAll(s1.(world := r.world), threads[1..])
  }

  function DoDetachAll(s: State): Done {
    var r := if s.skipDetach then Done(s, Ok) else ReleaseAll(s, s.threads);
    if r.reply == Exception then r else Done(r.state.(threads := []), Ok)
  }

  /** Changes the slots of a core that is held, and resumes it if it was running before. */
  function ChangeSlots(w: World, l: Loc, armed: set<nat>, resume: bool): Answer {
    var w := Tick(w);
    if CoreAt(w, l).reset then Raised(w)
    else
      var changed := SetArmed(w, l, armed);
      if resume then Resume(changed, l, Continue) else Answer(changed, true)
  }

  /** A packet that inserts or removes watchpoints holds the core halted around the change. */
  function DoWatchpoints(s: State, l: Loc, armed: set<nat>): Done {
    var h := IsHalted(s.world, l);
    var held := if h.Raised? || h.yes then h else Halt(h.world, l);
    var r := if held.Raised? then held else ChangeSlots(held.world, l, armed, !h.yes);
    Done(s.(world := r.world), if r.Raised? then Exception else Ok)
  }

  function Handle(s: State, p: Packet): Done {
    match p
    case Attach(who) => DoAttach(s, who)
    case VCont(clauses, interrupts) => DoVCont(s, clauses, interrupts)
    case Detach(pid) => DoDetach(s, pid)
    case DetachAll => DoDetachAll(s)
    case Watchpoints(l, armed) => DoWatchpoints(s, l, armed)
    case TimePasses => Done(s.(world := Tick(s.world)), Silent)
    case Reconnect => Done(s.(threads := []), Silent)
  }
}
