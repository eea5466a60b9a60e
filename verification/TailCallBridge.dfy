/** When tail calls are reconstructed, said without the functions that do it: from the return address
    to the function that was called, and from there by tail calls to the one on the stack. */
module TailCallBridge {
  import opened Options
  import opened DieTree
  import opened TailCallSearch
  import opened Callstack

  /** `s` is the first call site of `f`, in document order, that returns to `pc`. */
  ghost predicate IsFirstReturning(info: Info, f: Offset, pc: nat, s: Offset)
    requires WellFormed(info) && f in info.dies
  {
    exists k :: 0 <= k < |CallSites(info, f)| && IsFirstAt(info, CallSites(info, f), pc, s, k)
  }

  ghost predicate IsFirstAt(info: Info, sites: seq<Offset>, pc: nat, s: Offset, k: nat)
    requires k < |sites|
  {
    && s == sites[k] && s in info.dies && info.dies[s].returnPc == Some(pc)
    && forall j :: 0 <= j < k ==> sites[j] in info.dies && info.dies[sites[j]].returnPc != Some(pc)
  }

  /** The return address in the image, and the address of the byte before it. */
  function ReturnPc(image: Image, returnAddress: nat): nat {
    (returnAddress + image.loadedOffset) % 0x1_0000_0000_0000_0000
  }

  function CallByte(pc: nat): nat {
    (pc + 0xFFFF_FFFF_FFFF_FFFF) % 0x1_0000_0000_0000_0000
  }

  /** `o` is the function that the call which returns to `returnAddress` invokes: it is named by the
      first call site that returns there in the innermost subprogram around the call. */
  ghost predicate Invokes(image: Image, returnAddress: nat, o: Offset)
    requires ValidImage(image)
  {
    var pc := ReturnPc(image, returnAddress);
    var covering := image.functionAt(CallByte(pc));
    covering.Some? && exists f, s :: CallsBy(image.info, covering.value, pc, f, s, o)
  }

  ghost predicate CallsBy(info: Info, covering: Offset, pc: nat, f: Offset, s: Offset, o: Offset)
    requires WellFormed(info) && covering in info.dies
  {
    && IsInnermostSubprogram(info, covering, f) && IsFirstReturning(info, f, pc, s) && s in info.dies
    && OriginKnown(info, s) && info.dies[s].origin.Some? && IsInnermostSubprogram(info, info.dies[s].origin.value, o)
  }

  lemma FirstReturningIsFirst(info: Info, f: Offset, pc: nat, s: Offset)
    requires WellFormed(info) && f in info.dies
    ensures FirstReturningTo(info, CallSites(info, f), pc) == Some(s) <==> IsFirstReturning(info, f, pc, s)
  {
    var sites := CallSites(info, f);
    var r := FirstReturningTo(info, sites, pc);
    if r.Some? {
      var k :| 0 <= k < |sites| && sites[k] == r.value && info.dies[sites[k]].returnPc == Some(pc) &&
               forall j :: 0 <= j < k ==> info.dies[sites[j]].returnPc != Some(pc);
      assert IsFirstAt(info, sites, pc, r.value, k);
    }
  }

  lemma OriginIsInnermost(info: Info, s: Offset, o: Offset)
    requires WellFormed(info) && s in info.dies
    ensures CallSiteOrigin(info, s) == Some(o) <==>
            OriginKnown(info, s) && info.dies[s].origin.Some? &&
              IsInnermostSubprogram(info, info.dies[s].origin.value, o)
  {
    assert OriginKnown(info, s);
    if info.dies[s].origin.Some? {
      EnclosingIsInnermost(info, info.dies[s].origin.value);
    }
  }

  lemma LookedUpCalls(info: Info, covering: Offset, pc: nat, o: Offset)
    requires WellFormed(info) && covering in info.dies
    ensures LookedUp(info, Some(covering), pc) == Some(o) <==> exists f, s :: CallsBy(info, covering, pc, f, s, o)
  {
    EnclosingIsInnermost(info, covering);
    var caller := EnclosingSubprogram(info, Some(covering));
    if caller.Some? {
      var site := FirstReturningTo(info, CallSites(info, caller.value), pc);
      forall s: Offset ensures site == Some(s) <==> IsFirstReturning(info, caller.value, pc, s) {
        FirstReturningIsFirst(info, caller.value, pc, s);
      }
      if site.Some? {
        OriginIsInnermost(info, site.value, o);
        if LookedUp(info, Some(covering), pc) == Some(o) {
          assert CallsBy(info, covering, pc, caller.value, site.value, o);
        }
      }
    }
  }

  /** The names of a frame that was expanded, innermost first. */
  ghost predicate AreNamed(entries: seq<Entry>, info: Info, shown: seq<Offset>) {
    && |entries| == |shown|
    && forall k :: 0 <= k < |entries| ==> shown[k] in info.dies && entries[k].name == Some(info.dies[shown[k]].path)
  }

  /** The synthetic frame of a tail call: it reports the address the call would return to, or else its
      own, where the image is loaded, and is named after what covers the jump. */
  lemma TailFrameByAddress(image: Image, site: Offset, expand: bool)
    requires ValidImage(image) && site in image.info.dies
    ensures var r, d := TailFrame(image, site, expand), image.info.dies[site];
            if d.returnPc.Some? then SyntheticFrame(r, image, d.returnPc.value, CallByte(d.returnPc.value), expand)
            else if d.callPc.Some? then SyntheticFrame(r, image, d.callPc.value, d.callPc.value, expand)
            else r == []
  {
    var d := image.info.dies[site];
    if d.returnPc.Some? {
      TailEntriesAreSynthetic(image, d.returnPc.value, Wrap64(d.returnPc.value - 1), expand);
      WrapsAround(d.returnPc.value);
    } else if d.callPc.Some? {
      TailEntriesAreSynthetic(image, d.callPc.value, d.callPc.value, expand);
    }
  }

  lemma WrapsAround(pc: int)
    requires pc >= 0
    ensures Wrap64(pc - 1) == CallByte(pc)
  {
  }

  ghost predicate SyntheticFrame(r: seq<Entry>, image: Image, pc: nat, lookup: nat, expand: bool)
    requires ValidImage(image)
  {
    && r != [] && r[0].pc.Some? && r[0].pc.value < 0x1_0000_0000_0000_0000
    && (r[0].pc.value + image.loadedOffset - pc) % 0x1_0000_0000_0000_0000 == 0
    && r[0].line == image.lineAt(lookup)
    && (forall k :: 0 <= k < |r| ==> r[k].cfa == None && (k > 0 ==> r[k].pc == None))
    && match image.functionAt(lookup)
       case None => |r| == 1 && r[0].name == None
       case Some(die) => AreNamed(r, image.info, if expand then Shown(image.info, die) else [die])
  }

  lemma TailEntriesAreSynthetic(image: Image, pc: nat, lookup: nat, expand: bool)
    requires ValidImage(image)
    ensures SyntheticFrame(TailEntries(image, Wrap64(pc - image.loadedOffset), lookup, expand), image, pc, lookup,
            expand)
  {
    var reported := Wrap64(pc - image.loadedOffset);
    Reported(pc, image.loadedOffset);
    if image.functionAt(lookup).Some? && expand {
      EntriesByPosition(image.info, Shown(image.info, image.functionAt(lookup).value), Some(reported),
        image.lineAt(lookup), None);
    }
  }

  lemma Reported(pc: int, offset: int)
    ensures (Wrap64(pc - offset) + offset - pc) % 0x1_0000_0000_0000_0000 == 0
  {
  }

  /** A physical frame: its innermost entry has the address and the line, all have the CFA, and they
      are named after the functions around the address, unless none covers it. */
  lemma FrameByAddress(image: Image, lookup: nat, pc: nat, cfa: nat)
    requires ValidImage(image)
    ensures var r := FrameEntries(image.info, image.functionAt(lookup), pc, image.lineAt(lookup), cfa);
            && r != [] && r[0].pc == Some(pc) && r[0].line == image.lineAt(lookup)
            && (forall k :: 0 <= k < |r| ==> r[k].cfa == Some(cfa) && (k > 0 ==> r[k].pc == None))
            && match image.functionAt(lookup)
               case None => |r| == 1 && r[0].name == None
               case Some(die) =>
                 if image.info.dies[die].tag in {LexicalBlock, InlinedSubroutine, Subprogram} then
                   AreNamed(r, image.info, Shown(image.info, die))
                 else |r| == 1 && r[0].name == None
  {
    var die := image.functionAt(lookup);
    if die.Some? {
      EntriesByPosition(image.info, Shown(image.info, die.value), Some(pc), image.lineAt(lookup), Some(cfa));
    }
  }

  /** A path of tail calls through pairwise distinct functions, none of them the last. */
  ghost predicate IsSimplePath(g: Graph, f: Offset, path: seq<Site>, target: Offset) {
    && IsPath(g, f, path, target) && (forall s <- path :: s.origin.Some?)
    && Distinct(Intermediates(path)) && target !in Intermediates(path) && |path| <= 65
  }

  ghost predicate AreFramesOf(image: Image, path: seq<Site>, expand: bool, frames: seq<Entry>)
    requires ValidImage(image)
  {
    (forall s <- DiesOf(path) :: s in image.info.dies) &&
      frames == InnermostFirst(FramesOf(image, DiesOf(path), expand))
  }

  /** The code finds the function that was called, and none exactly when nothing says which it is. */
  lemma CalledFromExactly(image: Image, returnAddress: nat)
    requires ValidImage(image)
    ensures forall o: Offset :: CalledFrom(image, returnAddress) == Some(o) <==> Invokes(image, returnAddress, o)
  {
    var pc := ReturnPc(image, returnAddress);
    WrapsAround(pc);
    var covering := image.functionAt(CallByte(pc));
    if covering.Some? {
      forall o: Offset ensures CalledFrom(image, returnAddress) == Some(o) <==> Invokes(image, returnAddress, o) {
        LookedUpCalls(image.info, covering.value, pc, o);
      }
    }
  }

  /** Nothing is appended unless the function on the stack is a subprogram and another one than the
      return address says was called. */
  lemma NothingToBridge(image: Image, callee: Option<Offset>, returnAddress: nat, expand: bool)
    requires ValidImage(image) && (callee.Some? ==> callee.value in image.info.dies)
    requires callee.Some? && image.info.dies[callee.value].tag == Subprogram ==>
               forall o :: Invokes(image, returnAddress, o) ==> o == callee.value
    ensures TailCallFrames(image, callee, returnAddress, expand) == []
  {
    CalledFromExactly(image, returnAddress);
  }

  /** Otherwise frames are appended for a simple path of tail calls from the function that was called
      to the one on the stack, if there is one and no chain is too long for the search. */
  lemma BridgedExactlyWhenReachable(image: Image, callee: Offset, returnAddress: nat, o: Offset)
    requires ValidImage(image) && callee in image.info.dies && image.info.dies[callee].tag == Subprogram
    requires Invokes(image, returnAddress, o) && o != callee
    ensures var g, bridge := CallGraph(image.info), FindBridge(image, Some(callee), returnAddress);
            (bridge.Chain? ==> IsSimplePath(g, o, bridge.path, callee)) &&
            (ChainsFit(g, o, callee) ==> (bridge.Chain? <==> Reachable(g, o, callee)))
  {
    CalledFromExactly(image, returnAddress);
    BridgeIsPath(image, Some(callee), returnAddress);
    if ChainsFit(CallGraph(image.info), o, callee) {
      FindsExactlyTheReachable(CallGraph(image.info), o, callee);
    }
  }

  /** The same for the frames that are appended. */
  lemma FramesExactlyWhenReachable(image: Image, callee: Offset, returnAddress: nat, expand: bool, o: Offset)
    requires ValidImage(image) && callee in image.info.dies && image.info.dies[callee].tag == Subprogram
    requires Invokes(image, returnAddress, o) && o != callee && ChainsFit(CallGraph(image.info), o, callee)
    ensures var g, frames := CallGraph(image.info), TailCallFrames(image, Some(callee), returnAddress, expand);
            if Reachable(g, o, callee) then
              exists path :: IsSimplePath(g, o, path, callee) && AreFramesOf(image, path, expand, frames)
            else frames == []
  {
    BridgedExactlyWhenReachable(image, callee, returnAddress, o);
    BridgeIsPath(image, Some(callee), returnAddress);
  }
}
