/** The entries of a callstack: the expansion of one physical frame into its inlined functions,
    and the frames that tail calls left out of the physical stack. */
module Callstack {
  import opened Options
  import opened DieTree
  import opened TailCallSearch

  datatype Entry = Entry(pc: Option<nat>, name: Option<string>, line: Option<FileLine>, cfa: Option<nat>)

  /** One ELF image. Lookups by address are given by its line table and its address ranges. */
  datatype Image = Image(
    info: Info,
    loadedOffset: int,
    functionAt: nat -> Option<Offset>,
    lineAt: nat -> Option<FileLine>)

  ghost predicate ValidImage(image: Image) {
    WellFormed(image.info) &&
    forall pc: nat {:trigger image.functionAt(pc)} ::
      image.functionAt(pc).Some? ==> image.functionAt(pc).value in image.info.dies
  }

  /** Addresses are unsigned 64-bit values. */
  function Wrap64(x: int): (r: nat)
    ensures r < 0x1_0000_0000_0000_0000
  {
    x % 0x1_0000_0000_0000_0000
  }

  /** `die` and its ancestors up to the first one that is neither inlined nor a lexical block. */
  function Enclosing(info: Info, die: Offset): (r: seq<Offset>)
    requires WellFormed(info) && die in info.dies
    ensures r != [] && forall x <- r :: x in info.dies
    decreases die
  {
    if info.dies[die].tag == LexicalBlock || info.dies[die].tag == InlinedSubroutine then
      assert LinkedUp(info, die);
      [die] + Enclosing(info, info.dies[die].parent.value)
    else [die]
  }

  /** The functions a walk outwards from `die` reports: lexical blocks are passed over. */
  function Shown(info: Info, die: Offset): (r: seq<Offset>)
    requires WellFormed(info) && die in info.dies
    ensures r != [] && forall x <- r :: x in info.dies
    decreases die
  {
    var tag := info.dies[die].tag;
    assert LinkedUp(info, die);
    if tag == LexicalBlock then Shown(info, info.dies[die].parent.value)
    else if tag == InlinedSubroutine then [die] + Shown(info, info.dies[die].parent.value)
    else [die]
  }

  function CountInlined(info: Info, chain: seq<Offset>): nat
    requires forall x <- chain :: x in info.dies
  {
    if chain == [] then 0
    else (if info.dies[chain[0]].tag == InlinedSubroutine then 1 else 0) + CountInlined(info, chain[1..])
  }

  /** The walk reports exactly the enclosing scopes that are no lexical blocks. */
  lemma {:induction false} ShownIsInlinedAncestors(info: Info, die: Offset, x: Offset)
    requires WellFormed(info) && die in info.dies
    ensures x in Shown(info, die) <==> x in Enclosing(info, die) && info.dies[x].tag != LexicalBlock
    decreases die
  {
    if IsScope(info.dies[die].tag) {
      assert LinkedUp(info, die);
      ShownIsInlinedAncestors(info, info.dies[die].parent.value, x);
    }
  }

  /** One function per inlined ancestor, then the function that is not inlined, and none per
      lexical block. */
  lemma {:induction false} ShownCountsInlined(info: Info, die: Offset)
    requires WellFormed(info) && die in info.dies
    ensures |Shown(info, die)| == CountInlined(info, Enclosing(info, die)) + 1
    decreases die
  {
    var chain := Enclosing(info, die);
    if IsScope(info.dies[die].tag) {
      assert LinkedUp(info, die);
      assert chain[1..] == Enclosing(info, info.dies[die].parent.value);
      ShownCountsInlined(info, info.dies[die].parent.value);
    }
  }

  /** Functions are reported from the inside out: all but the last are inlined, and the last is
      the function around them. */
  lemma {:induction false} ShownGoesOutwards(info: Info, die: Offset)
    requires WellFormed(info) && die in info.dies
    ensures var shown, chain := Shown(info, die), Enclosing(info, die);
            && (forall k :: 0 <= k < |shown| - 1 ==>
                  info.dies[shown[k]].tag == InlinedSubroutine && shown[k + 1] < shown[k])
            && shown[|shown| - 1] == chain[|chain| - 1]
            && info.dies[shown[|shown| - 1]].tag !in {LexicalBlock, InlinedSubroutine}
            && shown[0] <= die
    decreases die
  {
    if IsScope(info.dies[die].tag) {
      assert LinkedUp(info, die);
      var parent := info.dies[die].parent.value;
      ShownGoesOutwards(info, parent);
      var rest := Shown(info, parent);
      if info.dies[die].tag == InlinedSubroutine {
        assert forall k :: 1 <= k < |rest| + 1 ==> Shown(info, die)[k] == rest[k - 1];
      }
    }
  }

  /** The entries for `shown`, innermost first. */
  function Entries(info: Info, shown: seq<Offset>, pc: Option<nat>, line: Option<FileLine>,
      cfa: Option<nat>): seq<Entry>
    requires forall x <- shown :: x in info.dies
  {
    if shown == [] then []
    else
      [Entry(pc, Some(info.dies[shown[0]].path), line, cfa)] +
      Entries(info, shown[1..], None, info.dies[shown[0]].callFileLine, cfa)
  }

  /** Only the innermost entry has an address, and every outer entry is on the line where the
      entry inside it was inlined. */
  ghost predicate AreEntriesOf(r: seq<Entry>, info: Info, shown: seq<Offset>, pc: Option<nat>, line: Option<FileLine>,
      cfa: Option<nat>)
    requires forall x <- shown :: x in info.dies
  {
    && |r| == |shown|
    && forall k :: 0 <= k < |r| ==>
         && r[k].pc == (if k == 0 then pc else None)
         && r[k].name == Some(info.dies[shown[k]].path)
         && r[k].line == (if k == 0 then line else info.dies[shown[k - 1]].callFileLine)
         && r[k].cfa == cfa
  }

  lemma {:induction false} EntriesByPosition(info: Info, shown: seq<Offset>, pc: Option<nat>, line: Option<FileLine>,
      cfa: Option<nat>)
    requires forall x <- shown :: x in info.dies
    ensures AreEntriesOf(Entries(info, shown, pc, line, cfa), info, shown, pc, line, cfa)
  {
    if shown != [] {
      var inner := info.dies[shown[0]].callFileLine;
      EntriesByPosition(info, shown[1..], None, inner, cfa);
      var rest := Entries(info, shown[1..], None, inner, cfa);
      assert forall k :: 1 <= k <= |rest| ==> Entries(info, shown, pc, line, cfa)[k] == rest[k - 1];
    }
  }

  predicate IsFunctionScope(t: Tag) {
    IsScope(t) || t == Subprogram
  }

  /** What the walk over a physical frame adds. */
  function FrameEntries(info: Info, die: Option<Offset>, pc: nat, line: Option<FileLine>, cfa: nat): seq<Entry>
    requires WellFormed(info) && (die.Some? ==> die.value in info.dies)
  {
    if die.Some? && IsFunctionScope(info.dies[die.value].tag) then
      Entries(info, Shown(info, die.value), Some(pc), line, Some(cfa))
    else [Entry(Some(pc), None, line, Some(cfa))]
  }

  /** Expands the function covering a physical frame; returns the outermost function shown. */
  method AppendFrameCallstack(image: Image, dwarfPc: nat, reportedPc: nat, cfa: nat, callstack: seq<Entry>)
    returns (out: seq<Entry>, function_: Option<Offset>)
    requires ValidImage(image)
    ensures out == callstack +
                   FrameEntries(image.info, image.functionAt(dwarfPc), reportedPc, image.lineAt(dwarfPc), cfa)
    ensures image.functionAt(dwarfPc).None? ==> function_ == None
    ensures image.functionAt(dwarfPc).Some? ==>
              var die := image.functionAt(dwarfPc).value;
              var shown := Shown(image.info, die);
              function_ == Some(shown[|shown| - 1])
  {
    var info := image.info;
    var line := image.lineAt(dwarfPc);
    function_ := image.functionAt(dwarfPc);
    out := callstack;
    if function_.Some? && IsScope(info.dies[function_.value].tag) {
      ghost var start := function_.value;
      ghost var all := Shown(info, start);
      var die := SkipLexicalBlocks(info, function_.value);
      out := out + [Entry(Some(reportedPc), Some(info.dies[die].path), line, Some(cfa))];
      line := info.dies[die].callFileLine;
      ghost var shown := all;
      while info.dies[die].tag == InlinedSubroutine
        invariant die in info.dies && info.dies[die].tag != LexicalBlock
        invariant shown == Shown(info, die) && shown[0] == die && shown[|shown| - 1] == all[|all| - 1]
        invariant forall x <- shown[1..] :: x in info.dies
        invariant out + Entries(info, shown[1..], None, line, Some(cfa)) ==
                  callstack + Entries(info, all, Some(reportedPc), image.lineAt(dwarfPc), Some(cfa))
        decreases die
      {
        assert LinkedUp(info, die);
        shown := shown[1..];
        assert shown == Shown(info, info.dies[die].parent.value);
        die := SkipLexicalBlocks(info, info.dies[die].parent.value);
        out := out + [Entry(None, Some(info.dies[die].path), line, Some(cfa))];
        line := info.dies[die].callFileLine;
      }
      assert shown[1..] == [];
      assert out + [] == out;
      assert out == callstack + Entries(info, all, Some(reportedPc), image.lineAt(dwarfPc), Some(cfa));
      assert out == callstack + FrameEntries(info, function_, reportedPc, image.lineAt(dwarfPc), cfa);
      function_ := Some(die);
    } else if function_.Some? && info.dies[function_.value].tag == Subprogram {
      assert Shown(info, function_.value) == [function_.value];
      assert [function_.value][1..] == [];
      assert Entries(info, [function_.value], Some(reportedPc), line, Some(cfa)) ==
             [Entry(Some(reportedPc), Some(info.dies[function_.value].path), line, Some(cfa))];
      out := out + [Entry(Some(reportedPc), Some(info.dies[function_.value].path), line, Some(cfa))];
    } else {
      out := out + [Entry(Some(reportedPc), None, line, Some(cfa))];
    }
  }

  /** The walks never stop on a lexical block: one always has a parent. */
  method SkipLexicalBlocks(info: Info, start: Offset) returns (die: Offset)
    requires WellFormed(info) && start in info.dies
    ensures die in info.dies && die <= start && info.dies[die].tag != LexicalBlock
    ensures Shown(info, die) == Shown(info, start) && Shown(info, start)[0] == die
  {
    die := start;
    while info.dies[die].tag == LexicalBlock
      invariant die in info.dies && die <= start
      invariant Shown(info, die) == Shown(info, start)
      decreases die
    {
      assert LinkedUp(info, die);
      die := info.dies[die].parent.value;
    }
  }

  /** What one reconstructed tail call adds. */
  function TailFrame(image: Image, site: Offset, expand: bool): seq<Entry>
    requires ValidImage(image) && site in image.info.dies
  {
    var die := image.info.dies[site];
    if die.returnPc.Some? then
      TailEntries(image, Wrap64(die.returnPc.value - image.loadedOffset), Wrap64(die.returnPc.value - 1), expand)
    else if die.callPc.Some? then
      TailEntries(image, Wrap64(die.callPc.value - image.loadedOffset), die.callPc.value, expand)
    else []
  }

  function TailEntries(image: Image, reportedPc: nat, lookupPc: nat, expand: bool): seq<Entry>
    requires ValidImage(image)
  {
    var function_ := image.functionAt(lookupPc);
    var line := image.lineAt(lookupPc);
    if function_.None? then [Entry(Some(reportedPc), None, line, None)]
    else if !expand then [Entry(Some(reportedPc), Some(image.info.dies[function_.value].path), line, None)]
    else Entries(image.info, Shown(image.info, function_.value), Some(reportedPc), line, None)
  }

  lemma EntriesStep(info: Info, shown: seq<Offset>, line: Option<FileLine>, out: seq<Entry>)
    requires shown != [] && forall x <- shown :: x in info.dies
    ensures var d := info.dies[shown[0]];
            out + Entries(info, shown, None, line, None) ==
            out + [Entry(None, Some(d.path), line, None)] + Entries(info, shown[1..], None, d.callFileLine, None)
  {
  }

  /** Appends the synthetic frame of one tail call, or one entry per inlined function there. */
  method AppendTailCallFrame(image: Image, site: Offset, expand: bool, callstack: seq<Entry>) returns (out: seq<Entry>)
    requires ValidImage(image) && site in image.info.dies
    ensures out == callstack + TailFrame(image, site, expand)
  {
    var info := image.info;
    var die := info.dies[site];
    var reportedPc: nat, lookupPc: nat;
    if die.returnPc.Some? {
      reportedPc, lookupPc := Wrap64(die.returnPc.value - image.loadedOffset), Wrap64(die.returnPc.value - 1);
    } else if die.callPc.Some? {
      reportedPc, lookupPc := Wrap64(die.callPc.value - image.loadedOffset), die.callPc.value;
    } else {
      return callstack;
    }
    var line := image.lineAt(lookupPc);
    var function_ := image.functionAt(lookupPc);
    if !expand || function_.None? {
      var path := if function_.Some? then Some(info.dies[function_.value].path) else None;
      return callstack + [Entry(Some(reportedPc), path, line, None)];
    }
    ghost var all := Shown(info, function_.value);
    var current := SkipLexicalBlocks(info, function_.value);
    out := callstack + [Entry(Some(reportedPc), Some(info.dies[current].path), line, None)];
    line := info.dies[current].callFileLine;
    ghost var shown := all;
    while info.dies[current].tag == InlinedSubroutine
      invariant current in info.dies && info.dies[current].tag != LexicalBlock
      invariant shown == Shown(info, current) && shown[0] == current
      invariant forall x <- shown[1..] :: x in info.dies
      invariant out + Entries(info, shown[1..], None, line, None) ==
                callstack + Entries(info, all, Some(reportedPc), image.lineAt(lookupPc), None)
      decreases current
    {
      assert LinkedUp(info, current);
      shown := shown[1..];
      assert shown == Shown(info, info.dies[current].parent.value);
      EntriesStep(info, shown, line, out);
      current := SkipLexicalBlocks(info, info.dies[current].parent.value);
      out := out + [Entry(None, Some(info.dies[current].path), line, None)];
      line := info.dies[current].callFileLine;
    }
  }

  function WithoutCfa(entries: seq<Entry>): (r: seq<Entry>)
    ensures |r| == |entries|
    ensures forall k :: 0 <= k < |r| ==> r[k] == entries[k].(cfa := None)
  {
    seq(|entries|, k requires 0 <= k < |entries| => entries[k].(cfa := None))
  }

  /** The walk over a physical frame and the expanded walk over a tail call that look up the
      same address report the same names, addresses and lines, exactly when what covers the
      address is a function, a block inside one, or nothing. */
  lemma WalksAgree(image: Image, reportedPc: nat, lookupPc: nat, cfa: nat)
    requires ValidImage(image)
    ensures var die := image.functionAt(lookupPc);
            WithoutCfa(FrameEntries(image.info, die, reportedPc, image.lineAt(lookupPc), cfa)) ==
              TailEntries(image, reportedPc, lookupPc, true)
            <==> (die.Some? ==> image.info.dies[die.value].tag in {LexicalBlock, InlinedSubroutine, Subprogram})
  {
    var die := image.functionAt(lookupPc);
    var line := image.lineAt(lookupPc);
    if die.Some? {
      var shown := Shown(image.info, die.value);
      EntriesByPosition(image.info, shown, Some(reportedPc), line, Some(cfa));
      EntriesByPosition(image.info, shown, Some(reportedPc), line, None);
      var mine := FrameEntries(image.info, die, reportedPc, line, cfa);
      var other := TailEntries(image, reportedPc, lookupPc, true);
      if IsFunctionScope(image.info.dies[die.value].tag) {
        assert AreEntriesOf(mine, image.info, shown, Some(reportedPc), line, Some(cfa));
        assert AreEntriesOf(other, image.info, shown, Some(reportedPc), line, None);
        forall k | 0 <= k < |mine| ensures WithoutCfa(mine)[k] == other[k] {
          assert mine[k].pc == other[k].pc && mine[k].name == other[k].name;
          assert mine[k].line == (if k == 0 then line else image.info.dies[shown[k - 1]].callFileLine);
          assert other[k].line == (if k == 0 then line else image.info.dies[shown[k - 1]].callFileLine);
          assert WithoutCfa(mine)[k].cfa == None == other[k].cfa;
        }
      } else {
        assert WithoutCfa(mine)[0].name == None && other[0].name.Some?;
      }
    }
  }

  function FramesOf(image: Image, sites: seq<Offset>, expand: bool): (r: seq<seq<Entry>>)
    requires ValidImage(image) && forall s <- sites :: s in image.info.dies
    ensures |r| == |sites|
    ensures forall k {:trigger TailFrame(image, sites[k], expand)} :: 0 <= k < |r| ==>
            r[k] == TailFrame(image, sites[k], expand)
  {
    if sites == [] then [] else [TailFrame(image, sites[0], expand)] + FramesOf(image, sites[1..], expand)
  }

  /** Frames given from caller to callee, put innermost first. */
  function InnermostFirst(frames: seq<seq<Entry>>): seq<Entry> {
    if frames == [] then [] else InnermostFirst(frames[1..]) + frames[0]
  }

  lemma {:induction false} InnermostFirstLast(frames: seq<seq<Entry>>)
    requires frames != []
    ensures InnermostFirst(frames) == frames[|frames| - 1] + InnermostFirst(frames[..|frames| - 1])
  {
    var init := frames[..|frames| - 1];
    if |frames| == 1 {
      assert InnermostFirst(frames[1..]) == [] && init == [];
    } else {
      InnermostFirstLast(frames[1..]);
      assert frames[1..][..|frames| - 2] == init[1..];
    }
  }

  /** How the reconstruction of the frames below a return address ends. */
  datatype Bridge = Nothing | Chain(origin: Offset, path: seq<Site>)

  /** The tail calls that lie between the call that returns to `returnAddress` and `callee`. */
  function FindBridge(image: Image, callee: Option<Offset>, returnAddress: nat): (r: Bridge)
    requires ValidImage(image) && (callee.Some? ==> callee.value in image.info.dies)
    ensures r.Chain? ==> r.origin in image.info.dies && image.info.dies[r.origin].tag == Subprogram
  {
    if callee.None? || image.info.dies[callee.value].tag != Subprogram then Nothing
    else
      var origin := CalledFrom(image, returnAddress);
      if origin.None? || origin == callee then Nothing
      else
        var r := Search(CallGraph(image.info), origin.value, callee.value, {}, 0);
        if r.found then Chain(origin.value, r.path) else Nothing
  }

  /** The function that was called from where `returnAddress` returns to. */
  function CalledFrom(image: Image, returnAddress: nat): (r: Option<Offset>)
    requires ValidImage(image)
    ensures r.Some? ==> r.value in image.info.dies && image.info.dies[r.value].tag == Subprogram
  {
    var returnPc: int := Wrap64(returnAddress + image.loadedOffset);
    LookedUp(image.info, image.functionAt(Wrap64(returnPc - 1)), returnPc)
  }

  /** The function that the first call which returns to `pc` invokes, among the calls of the function
      around `covering`. */
  function LookedUp(info: Info, covering: Option<Offset>, pc: nat): (r: Option<Offset>)
    requires WellFormed(info) && (covering.Some? ==> covering.value in info.dies)
    ensures r.Some? ==> r.value in info.dies && info.dies[r.value].tag == Subprogram
  {
    var caller := EnclosingSubprogram(info, covering);
    if caller.None? then None
    else
      var site := FirstReturningTo(info, CallSites(info, caller.value), pc);
      if site.None? then None else CallSiteOrigin(info, site.value)
  }

  lemma {:induction false} PathSitesAreDies(info: Info, graph: Graph, f: Offset, path: seq<Site>, target: Offset)
    requires WellFormed(info) && Represents(info, graph) && IsPath(graph, f, path, target)
    ensures forall s <- DiesOf(path) :: s in info.dies
    decreases |path|
  {
    assert SitesMatch(info, graph, f);
    var k :| 0 <= k < |graph[f]| && graph[f][k] == path[0];
    assert path[0].die == TailCallSites(info, f)[k];
    if |path| > 1 {
      PathSitesAreDies(info, graph, path[0].origin.value, path[1..], target);
      forall s <- DiesOf(path) ensures s in info.dies {
        var i :| 0 <= i < |path| && DiesOf(path)[i] == s;
        if i > 0 {
          assert DiesOf(path[1..])[i - 1] == s;
        }
      }
    }
  }

  /** A bridge is a path of tail calls from the function that was called to the one that was
      found on the stack, through distinct functions. */
  lemma BridgeIsPath(image: Image, callee: Option<Offset>, returnAddress: nat)
    requires ValidImage(image) && (callee.Some? ==> callee.value in image.info.dies)
    ensures var r := FindBridge(image, callee, returnAddress);
            r.Chain? ==> callee.Some? && r.origin != callee.value &&
                         IsPath(CallGraph(image.info), r.origin, r.path, callee.value) &&
                         (forall s <- r.path :: s.origin.Some?) && Distinct(Intermediates(r.path)) &&
                         callee.value !in Intermediates(r.path) &&
                         |r.path| <= 65 &&
                         forall s <- DiesOf(r.path) :: s in image.info.dies
  {
    var r := FindBridge(image, callee, returnAddress);
    if r.Chain? {
      FoundChainIsSimplePath(CallGraph(image.info), r.origin, callee.value);
      CallGraphRepresents(image.info);
      PathSitesAreDies(image.info, CallGraph(image.info), r.origin, r.path, callee.value);
    }
  }

  /** The frames a tail call left out, innermost first: those of the bridge, if there is one. */
  function TailCallFrames(image: Image, callee: Option<Offset>, returnAddress: nat, expand: bool): seq<Entry>
    requires ValidImage(image) && (callee.Some? ==> callee.value in image.info.dies)
  {
    match FindBridge(image, callee, returnAddress)
    case Nothing => []
    case Chain(_, path) =>
      BridgeIsPath(image, callee, returnAddress);
      InnermostFirst(FramesOf(image, DiesOf(path), expand))
  }

  /** Follows the call-site information from the return address to the callee. */
  method FindChain(image: Image, callee: Option<Offset>, returnAddress: nat) returns (chain: seq<Offset>)
    requires ValidImage(image) && (callee.Some? ==> callee.value in image.info.dies)
    ensures var bridge := FindBridge(image, callee, returnAddress);
            chain == if bridge.Chain? then DiesOf(bridge.path) else []
  {
    var info := image.info;
    if callee.None? || info.dies[callee.value].tag != Subprogram {
      return [];
    }
    var origin := LookUpOrigin(image, returnAddress);
    if origin.None? || origin.value == callee.value {
      return [];
    }
    var search := new ChainSearch(info);
    var found := search.Find(origin, callee.value, 0);
    chain := if found then search.chain else [];
  }

  method LookUpOrigin(image: Image, returnAddress: nat) returns (origin: Option<Offset>)
    requires ValidImage(image)
    ensures origin == CalledFrom(image, returnAddress)
  {
    var info := image.info;
    var returnPc: int := Wrap64(returnAddress + image.loadedOffset);
    var caller := FindEnclosingSubprogram(info, image.functionAt(Wrap64(returnPc - 1)));
    if caller.None? {
      return None;
    }
    var site := FindCallSiteByReturnPc(info, caller.value, returnPc);
    if site.None? {
      return None;
    }
    assert OriginKnown(info, site.value);
    origin := FindEnclosingSubprogram(info, info.dies[site.value].origin);
  }

  method AppendTailCallFrames(image: Image, callee: Option<Offset>, returnAddress: nat, callstack: seq<Entry>,
      expand: bool)
    returns (out: seq<Entry>)
    requires ValidImage(image) && (callee.Some? ==> callee.value in image.info.dies)
    ensures out == callstack + TailCallFrames(image, callee, returnAddress, expand)
  {
    var chain := FindChain(image, callee, returnAddress);
    BridgeIsPath(image, callee, returnAddress);
    out := AppendInnermostFirst(image, chain, callstack, expand);
  }

  lemma Regrouped(before: seq<Entry>, done: seq<Entry>, frame: seq<Entry>, rest: seq<Entry>)
    ensures before + done + frame == before + (done + frame) && done + (frame + rest) == (done + frame) + rest
  {
  }

  method AppendInnermostFirst(image: Image, chain: seq<Offset>, callstack: seq<Entry>, expand: bool)
    returns (out: seq<Entry>)
    requires ValidImage(image) && forall s <- chain :: s in image.info.dies
    ensures out == callstack + InnermostFirst(FramesOf(image, chain, expand))
  {
    out := callstack;
    ghost var frames := FramesOf(image, chain, expand);
    ghost var all := InnermostFirst(frames);
    ghost var done: seq<Entry> := [];
    var i := |chain|;
    assert frames[..i] == frames && done + all == all;
    while i > 0
      invariant 0 <= i <= |chain|
      invariant all == done + InnermostFirst(frames[..i])
      invariant out == callstack + done
    {
      InnermostFirstLast(frames[..i]);
      assert frames[..i][..i - 1] == frames[..i - 1];
      i := i - 1;
      ghost var frame, rest := frames[i], InnermostFirst(frames[..i]);
      out := AppendTailCallFrame(image, chain[i], expand, out);
      Regrouped(callstack, done, frame, rest);
      done := done + frame;
    }
    assert done + [] == done;
  }
}
