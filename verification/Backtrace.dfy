/** A whole callstack: the physical frames that unwinding finds, each expanded into its inlined
    functions, with the frames that tail calls left out put between them. */
module Backtrace {
  import opened Options
  import opened DieTree
  import opened Callstack

  /** A physical frame as unwinding gives it: its image, the address it is looked up at, the
      address it reports, its CFA and the address it returns to. */
  datatype Frame = Frame(elf: nat, computePc: nat, reportedPc: nat, cfa: nat, returnAddress: Option<nat>)

  ghost predicate ValidStack(images: seq<Image>, frames: seq<Frame>) {
    (forall i :: 0 <= i < |images| ==> ValidImage(images[i])) &&
    (forall i :: 0 <= i < |frames| ==> frames[i].elf < |images|)
  }

  /** The function that is left when everything inlined is passed over. */
  function Outermost(info: Info, die: Option<Offset>): (r: Option<Offset>)
    requires WellFormed(info) && (die.Some? ==> die.value in info.dies)
    ensures r.Some? ==> r.value in info.dies
  {
    if die.None? then None
    else
      var shown := Shown(info, die.value);
      Some(shown[|shown| - 1])
  }

  /** Where the walk ends: at the function asked for, and where a frame has no CFA or no return
      address. An empty name asks for nothing. */
  predicate IsLast(image: Image, f: Frame, function_: Option<Offset>, stop: string)
    requires function_.Some? ==> function_.value in image.info.dies
  {
    (stop != "" && function_.Some? && image.info.dies[function_.value].path == stop) ||
    f.cfa == 0 || f.returnAddress.None?
  }

  function OwnEntries(image: Image, f: Frame): seq<Entry>
    requires ValidImage(image)
  {
    FrameEntries(image.info, image.functionAt(f.computePc), f.reportedPc, image.lineAt(f.computePc), f.cfa)
  }

  function FunctionOf(image: Image, f: Frame): (r: Option<Offset>)
    requires ValidImage(image)
    ensures r.Some? ==> r.value in image.info.dies
  {
    Outermost(image.info, image.functionAt(f.computePc))
  }

  /** The tail calls between a frame and its caller, looked for only within one image. */
  function GapEntries(images: seq<Image>, frames: seq<Frame>, expand: bool): seq<Entry>
    requires ValidStack(images, frames) && frames != [] && frames[0].returnAddress.Some?
  {
    var f := frames[0];
    if |frames| > 1 && frames[1].elf == f.elf then
      TailCallFrames(images[f.elf], FunctionOf(images[f.elf], f), f.returnAddress.value, expand)
    else []
  }

  predicate Ends(images: seq<Image>, frames: seq<Frame>, stop: string)
    requires ValidStack(images, frames) && frames != []
  {
    var image := images[frames[0].elf];
    IsLast(image, frames[0], FunctionOf(image, frames[0]), stop)
  }

  /** What the first frame adds. */
  function Part(images: seq<Image>, frames: seq<Frame>, stop: string, expand: bool): seq<Entry>
    requires ValidStack(images, frames) && frames != []
  {
    var own := OwnEntries(images[frames[0].elf], frames[0]);
    if Ends(images, frames, stop) then own else own + GapEntries(images, frames, expand)
  }

  /** What each frame adds, up to the last one. */
  function Parts(images: seq<Image>, frames: seq<Frame>, stop: string, expand: bool): seq<seq<Entry>>
    requires ValidStack(images, frames)
    decreases |frames|
  {
    if frames == [] then []
    else
      [Part(images, frames, stop, expand)] +
      if Ends(images, frames, stop) then [] else Parts(images, frames[1..], stop, expand)
  }

  /** Parts are added until there are `limit` entries; limit 0 is no limit. */
  function Collect(parts: seq<seq<Entry>>, limit: nat, sofar: nat): seq<Entry>
    decreases |parts|
  {
    if parts == [] || (limit != 0 && sofar >= limit) then []
    else parts[0] + Collect(parts[1..], limit, sofar + |parts[0]|)
  }

  /** The callstack of `frames`. */
  function Walk(images: seq<Image>, frames: seq<Frame>, stop: string, expand: bool, limit: nat): seq<Entry>
    requires ValidStack(images, frames)
  {
    Collect(Parts(images, frames, stop, expand), limit, 0)
  }

  /** `last` is the outermost function shown for the frame, if its address is covered. */
  ghost predicate EndsIn(image: Image, f: Frame, last: Option<Offset>)
    requires ValidImage(image)
  {
    match image.functionAt(f.computePc)
    case None => last == None
    case Some(die) => last == Some(Enclosing(image.info, die)[|Enclosing(image.info, die)| - 1])
  }

  lemma OutermostIsEnclosing(image: Image, f: Frame)
    requires ValidImage(image)
    ensures EndsIn(image, f, FunctionOf(image, f))
  {
    if image.functionAt(f.computePc).Some? {
      ShownGoesOutwards(image.info, image.functionAt(f.computePc).value);
    }
  }

  /** The whole callstack, frame by frame: the entries of the first frame; nothing more if it has no
      CFA, no return address, or ends in the function asked for; else the tail calls up to its
      caller, looked for only within one image, and then the callstack of the caller. */
  lemma WalkFrameByFrame(images: seq<Image>, frames: seq<Frame>, stop: string, expand: bool, function_: Option<Offset>)
    requires ValidStack(images, frames) && frames != [] && EndsIn(images[frames[0].elf], frames[0], function_)
    ensures function_.Some? ==> function_.value in images[frames[0].elf].info.dies
    ensures var f, image := frames[0], images[frames[0].elf];
            var own := FrameEntries(image.info, image.functionAt(f.computePc), f.reportedPc, image.lineAt(f.computePc),
              f.cfa);
            var ends := f.cfa == 0 || f.returnAddress == None ||
                        (stop != "" && function_.Some? && image.info.dies[function_.value].path == stop);
            var inOneImage := |frames| >= 2 && frames[0].elf == frames[1].elf;
            Walk(images, frames, stop, expand, 0) ==
              own + if ends then []
                    else (if inOneImage then TailCallFrames(image, function_, f.returnAddress.value, expand) else []) +
                         Walk(images, frames[1..], stop, expand, 0)
  {
    OutermostIsEnclosing(images[frames[0].elf], frames[0]);
    var parts := Parts(images, frames, stop, expand);
    CollectFrom(parts[1..], |parts[0]|, 0);
    if !Ends(images, frames, stop) {
      Regroup(OwnEntries(images[frames[0].elf], frames[0]), GapEntries(images, frames, expand),
        Walk(images, frames[1..], stop, expand, 0));
    }
  }

  lemma {:induction false} CollectFrom(parts: seq<seq<Entry>>, a: nat, b: nat)
    ensures Collect(parts, 0, a) == Collect(parts, 0, b)
    decreases |parts|
  {
    if parts != [] {
      CollectFrom(parts[1..], a + |parts[0]|, b + |parts[0]|);
    }
  }

  lemma {:induction false} CollectPrefix(parts: seq<seq<Entry>>, limit: nat, sofar: nat)
    ensures var cut, whole := Collect(parts, limit, sofar), Collect(parts, 0, sofar);
            cut <= whole && (cut == whole || sofar + |cut| >= limit > 0)
    decreases |parts|
  {
    if parts != [] && (limit == 0 || sofar < limit) {
      CollectPrefix(parts[1..], limit, sofar + |parts[0]|);
    }
  }

  lemma {:induction false} CollectLazily(parts: seq<seq<Entry>>, limit: nat, larger: nat, sofar: nat)
    requires 0 < limit <= larger <= sofar + |Collect(parts, limit, sofar)|
    ensures Collect(parts, larger, sofar) == Collect(parts, limit, sofar)
    decreases |parts|
  {
    if parts != [] && sofar < limit {
      CollectLazily(parts[1..], limit, larger, sofar + |parts[0]|);
    }
  }

  /** A limit only cuts off the end, and not before it is reached. */
  lemma LimitCutsTheEnd(images: seq<Image>, frames: seq<Frame>, stop: string, expand: bool, limit: nat)
    requires ValidStack(images, frames)
    ensures var cut, whole := Walk(images, frames, stop, expand, limit), Walk(images, frames, stop, expand, 0);
            cut <= whole && (cut == whole || |cut| >= limit > 0)
  {
    CollectPrefix(Parts(images, frames, stop, expand), limit, 0);
  }

  /** No frame is visited once the limit is reached: a limit that the result of a smaller one
      reaches already gives the same result. */
  lemma LimitStopsAtOnce(images: seq<Image>, frames: seq<Frame>, stop: string, expand: bool, limit: nat, larger: nat)
    requires ValidStack(images, frames) && 0 < limit <= larger <= |Walk(images, frames, stop, expand, limit)|
    ensures Walk(images, frames, stop, expand, larger) == Walk(images, frames, stop, expand, limit)
  {
    CollectLazily(Parts(images, frames, stop, expand), limit, larger, 0);
  }

  /** The frames a walk without limit visits. */
  function Visited(images: seq<Image>, frames: seq<Frame>, stop: string): (r: seq<Frame>)
    requires ValidStack(images, frames)
    ensures r <= frames
    decreases |frames|
  {
    if frames == [] then []
    else [frames[0]] + if Ends(images, frames, stop) then [] else Visited(images, frames[1..], stop)
  }

  /** The addresses of the entries that stand for physical frames: those with a CFA and an address. */
  function Physical(entries: seq<Entry>): seq<nat> {
    if entries == [] then []
    else (if entries[0].cfa.Some? && entries[0].pc.Some? then [entries[0].pc.value] else []) + Physical(entries[1..])
  }

  lemma {:induction false} PhysicalConcat(a: seq<Entry>, b: seq<Entry>)
    ensures Physical(a + b) == Physical(a) + Physical(b)
  {
    if a == [] {
      assert a + b == b;
    } else {
      assert (a + b)[0] == a[0] && (a + b)[1..] == a[1..] + b;
      PhysicalConcat(a[1..], b);
    }
  }

  /** Inlined functions and tail calls add no physical frame. */
  lemma {:induction false} VirtualEntries(info: Info, shown: seq<Offset>, pc: Option<nat>, line: Option<FileLine>,
      cfa: Option<nat>)
    requires (forall x <- shown :: x in info.dies) && (pc.None? || cfa.None?)
    ensures Physical(Entries(info, shown, pc, line, cfa)) == []
    decreases |shown|
  {
    if shown != [] {
      VirtualEntries(info, shown[1..], None, info.dies[shown[0]].callFileLine, cfa);
      var entries := Entries(info, shown, pc, line, cfa);
      assert entries[1..] == Entries(info, shown[1..], None, info.dies[shown[0]].callFileLine, cfa);
    }
  }

  lemma {:induction false} OwnEntriesPhysical(image: Image, f: Frame)
    requires ValidImage(image)
    ensures Physical(OwnEntries(image, f)) == [f.reportedPc]
  {
    var own := OwnEntries(image, f);
    var die := image.functionAt(f.computePc);
    if die.Some? && IsFunctionScope(image.info.dies[die.value].tag) {
      var shown := Shown(image.info, die.value);
      var line := image.info.dies[shown[0]].callFileLine;
      VirtualEntries(image.info, shown[1..], None, line, Some(f.cfa));
      assert own[1..] == Entries(image.info, shown[1..], None, line, Some(f.cfa));
    } else {
      assert own[1..] == [];
    }
  }

  lemma {:induction false} TailFramePhysical(image: Image, site: Offset, expand: bool)
    requires ValidImage(image) && site in image.info.dies
    ensures Physical(TailFrame(image, site, expand)) == []
  {
    var die := image.info.dies[site];
    if die.returnPc.Some? {
      TailEntriesPhysical(image, Wrap64(die.returnPc.value - image.loadedOffset), Wrap64(die.returnPc.value - 1),
        expand);
    } else if die.callPc.Some? {
      TailEntriesPhysical(image, Wrap64(die.callPc.value - image.loadedOffset), die.callPc.value, expand);
    }
  }

  lemma {:induction false} TailEntriesPhysical(image: Image, reportedPc: nat, lookupPc: nat, expand: bool)
    requires ValidImage(image)
    ensures Physical(TailEntries(image, reportedPc, lookupPc, expand)) == []
  {
    var entries := TailEntries(image, reportedPc, lookupPc, expand);
    var die := image.functionAt(lookupPc);
    if die.Some? && expand {
      VirtualEntries(image.info, Shown(image.info, die.value), Some(reportedPc), image.lineAt(lookupPc), None);
    } else {
      assert |entries| == 1 && entries[1..] == [];
    }
  }

  lemma {:induction false} InnermostFirstPhysical(image: Image, sites: seq<Offset>, expand: bool)
    requires ValidImage(image) && forall s <- sites :: s in image.info.dies
    ensures Physical(InnermostFirst(FramesOf(image, sites, expand))) == []
    decreases |sites|
  {
    if sites != [] {
      InnermostFirstPhysical(image, sites[1..], expand);
      TailFramePhysical(image, sites[0], expand);
      PhysicalConcat(InnermostFirst(FramesOf(image, sites[1..], expand)), TailFrame(image, sites[0], expand));
    }
  }

  lemma {:induction false} GapEntriesPhysical(images: seq<Image>, frames: seq<Frame>, expand: bool)
    requires ValidStack(images, frames) && frames != [] && frames[0].returnAddress.Some?
    ensures Physical(GapEntries(images, frames, expand)) == []
  {
    var f, image := frames[0], images[frames[0].elf];
    var callee := FunctionOf(image, f);
    match FindBridge(image, callee, f.returnAddress.value)
    case Nothing =>
    case Chain(_, path) =>
      BridgeIsPath(image, callee, f.returnAddress.value);
      InnermostFirstPhysical(image, TailCallSearch.DiesOf(path), expand);
  }

  lemma PartPhysical(images: seq<Image>, frames: seq<Frame>, stop: string, expand: bool)
    requires ValidStack(images, frames) && frames != []
    ensures Physical(Part(images, frames, stop, expand)) == [frames[0].reportedPc]
  {
    OwnEntriesPhysical(images[frames[0].elf], frames[0]);
    if !Ends(images, frames, stop) {
      GapEntriesPhysical(images, frames, expand);
      PhysicalConcat(OwnEntries(images[frames[0].elf], frames[0]), GapEntries(images, frames, expand));
    }
  }

  /** One part for each frame, with one entry for it. */
  ghost predicate PartsOf(parts: seq<seq<Entry>>, frames: seq<Frame>) {
    |parts| == |frames| && forall k :: 0 <= k < |parts| ==> Physical(parts[k]) == [frames[k].reportedPc]
  }

  lemma PartsOfMore(part: seq<Entry>, f: Frame, parts: seq<seq<Entry>>, frames: seq<Frame>)
    requires Physical(part) == [f.reportedPc] && PartsOf(parts, frames)
    ensures PartsOf([part] + parts, [f] + frames)
  {
  }

  lemma {:induction false} PartsPhysical(images: seq<Image>, frames: seq<Frame>, stop: string, expand: bool)
    requires ValidStack(images, frames)
    ensures PartsOf(Parts(images, frames, stop, expand), Visited(images, frames, stop))
    decreases |frames|
  {
    if frames != [] {
      PartPhysical(images, frames, stop, expand);
      var part := Part(images, frames, stop, expand);
      if Ends(images, frames, stop) {
        PartsOfMore(part, frames[0], [], []);
      } else {
        PartsPhysical(images, frames[1..], stop, expand);
        PartsOfMore(part, frames[0], Parts(images, frames[1..], stop, expand), Visited(images, frames[1..], stop));
      }
    }
  }

  function ReportedPcs(frames: seq<Frame>): (r: seq<nat>)
    ensures |r| == |frames| && forall k :: 0 <= k < |r| ==> r[k] == frames[k].reportedPc
  {
    seq(|frames|, k requires 0 <= k < |frames| => frames[k].reportedPc)
  }

  lemma PartsOfRest(parts: seq<seq<Entry>>, frames: seq<Frame>)
    requires PartsOf(parts, frames) && parts != []
    ensures Physical(parts[0]) == [frames[0].reportedPc] && PartsOf(parts[1..], frames[1..])
    ensures ReportedPcs(frames) == [frames[0].reportedPc] + ReportedPcs(frames[1..])
  {
  }

  lemma {:induction false} CollectPhysical(parts: seq<seq<Entry>>, frames: seq<Frame>, sofar: nat)
    requires PartsOf(parts, frames)
    ensures Physical(Collect(parts, 0, sofar)) == ReportedPcs(frames)
    decreases |parts|
  {
    if parts != [] {
      var rest := Collect(parts[1..], 0, sofar + |parts[0]|);
      PartsOfRest(parts, frames);
      CollectPhysical(parts[1..], frames[1..], sofar + |parts[0]|);
      PhysicalConcat(parts[0], rest);
    }
  }

  /** Expansion and reconstruction add entries and nothing else: the entries with an address and a
      CFA are the visited physical frames, each once and in order. */
  lemma PhysicalFramesRemain(images: seq<Image>, frames: seq<Frame>, stop: string, expand: bool)
    requires ValidStack(images, frames)
    ensures Physical(Walk(images, frames, stop, expand, 0)) == ReportedPcs(Visited(images, frames, stop))
  {
    PartsPhysical(images, frames, stop, expand);
    CollectPhysical(Parts(images, frames, stop, expand), Visited(images, frames, stop), 0);
  }

  method AppendOwn(image: Image, f: Frame, stop: string, callstack: seq<Entry>)
    returns (out: seq<Entry>, function_: Option<Offset>, last: bool)
    requires ValidImage(image)
    ensures out == callstack + OwnEntries(image, f) && function_ == FunctionOf(image, f)
    ensures last <==> IsLast(image, f, function_, stop)
  {
    out, function_ := AppendFrameCallstack(image, f.computePc, f.reportedPc, f.cfa, callstack);
    if stop != "" && function_.Some? && image.info.dies[function_.value].path == stop {
      last := true;
    } else if f.cfa == 0 {
      last := true;
    } else {
      last := f.returnAddress.None?;
    }
  }

  method AppendGap(images: seq<Image>, frames: seq<Frame>, callee: Option<Offset>, expand: bool, callstack: seq<Entry>)
    returns (out: seq<Entry>)
    requires ValidStack(images, frames) && frames != [] && frames[0].returnAddress.Some?
    requires callee == FunctionOf(images[frames[0].elf], frames[0])
    ensures out == callstack + GapEntries(images, frames, expand)
  {
    out := callstack;
    var f := frames[0];
    if |frames| > 1 && frames[1].elf == f.elf {
      out := AppendTailCallFrames(images[f.elf], callee, f.returnAddress.value, out, expand);
    }
  }

  /** Appends what the first frame adds; `last` says that the walk ends there. */
  method AppendFrame(images: seq<Image>, frames: seq<Frame>, stop: string, expand: bool, callstack: seq<Entry>)
    returns (out: seq<Entry>, last: bool)
    requires ValidStack(images, frames) && frames != []
    ensures out == callstack + Part(images, frames, stop, expand)
    ensures last <==> Ends(images, frames, stop)
  {
    var image := images[frames[0].elf];
    var function_;
    out, function_, last := AppendOwn(image, frames[0], stop, callstack);
    if !last {
      out := AppendGap(images, frames, function_, expand, out);
      Regroup(callstack, OwnEntries(image, frames[0]), GapEntries(images, frames, expand));
    }
  }

  lemma Regroup<T>(a: seq<T>, b: seq<T>, c: seq<T>)
    ensures a + b + c == a + (b + c)
  {
  }

  lemma DropAfterFirst<T>(first: T, rest: seq<T>, i: nat)
    requires 0 < i <= |rest|
    ensures ([first] + rest)[i..] == rest[i - 1..]
  {
  }

  lemma {:induction false} PartsFrom(images: seq<Image>, frames: seq<Frame>, stop: string, expand: bool, i: nat)
    requires ValidStack(images, frames) && i < |Parts(images, frames, stop, expand)|
    ensures i < |frames| && Parts(images, frames, stop, expand)[i..] == Parts(images, frames[i..], stop, expand)
    decreases i
  {
    if i > 0 {
      PartsFrom(images, frames[1..], stop, expand, i - 1);
      DropAfterFirst(Part(images, frames, stop, expand), Parts(images, frames[1..], stop, expand), i);
      DropAfterFirst(frames[0], frames[1..], i);
      assert [frames[0]] + frames[1..] == frames;
    } else {
      assert frames[i..] == frames;
    }
  }

  lemma PartsNext(images: seq<Image>, frames: seq<Frame>, stop: string, expand: bool)
    requires ValidStack(images, frames) && frames != []
    ensures var parts := Parts(images, frames, stop, expand);
            parts != [] && parts[0] == Part(images, frames, stop, expand) &&
            (|parts| == 1 <==> Ends(images, frames, stop) || |frames| == 1)
  {
  }

  /** Appends what frame i adds; `last` says that the walk ends there. */
  method VisitFrame(images: seq<Image>, frames: seq<Frame>, i: nat, stop: string, expand: bool, callstack: seq<Entry>)
    returns (out: seq<Entry>, last: bool)
    requires ValidStack(images, frames) && i < |Parts(images, frames, stop, expand)|
    ensures out == callstack + Parts(images, frames, stop, expand)[i]
    ensures i < |frames| && (|Parts(images, frames, stop, expand)| == i + 1 <==> last || |frames| == i + 1)
  {
    PartsFrom(images, frames, stop, expand, i);
    PartsNext(images, frames[i..], stop, expand);
    out, last := AppendFrame(images, frames[i..], stop, expand, callstack);
  }

  /** Walks from frame to frame. `frames` is what unwinding would find, the top frame first. */
  method GetCallstack(images: seq<Image>, frames: seq<Frame>, limit: nat, stop: string, expand: bool)
    returns (callstack: seq<Entry>)
    requires ValidStack(images, frames)
    ensures callstack == Walk(images, frames, stop, expand, limit)
  {
    callstack := [];
    var i := 0;
    ghost var parts := Parts(images, frames, stop, expand);
    ghost var all := Collect(parts, limit, 0);
    while i < |frames| && (limit == 0 || |callstack| < limit)
      invariant i <= |frames| && i <= |parts| && (i == |parts| <==> i == |frames|)
      invariant all == callstack + Collect(parts[i..], limit, |callstack|)
    {
      ghost var before := callstack;
      var last;
      callstack, last := VisitFrame(images, frames, i, stop, expand, callstack);
      CollectStep(parts, i, limit, before);
      i := i + 1;
      if last {
        break;
      }
    }
    CollectDone(parts[i..], limit, callstack);
  }

  lemma CollectDone(parts: seq<seq<Entry>>, limit: nat, callstack: seq<Entry>)
    requires parts == [] || (limit != 0 && |callstack| >= limit)
    ensures callstack + Collect(parts, limit, |callstack|) == callstack
  {
  }

  lemma CollectStep(parts: seq<seq<Entry>>, i: nat, limit: nat, before: seq<Entry>)
    requires i < |parts| && (limit == 0 || |before| < limit)
    ensures var after := before + parts[i];
            before + Collect(parts[i..], limit, |before|) == after + Collect(parts[i + 1..], limit, |after|)
  {
    assert parts[i..][1..] == parts[i + 1..];
  }
}
