/** Debugging information entries (DIEs) of one ELF image, as the stack walker sees them:
    a table from offset to DIE, with links to the parent and to the children. */
module DieTree {
  import opened Options

  type Offset = nat

  datatype FileLine = FileLine(file: string, line: nat, column: nat)

  datatype Tag = CompileUnit | Subprogram | InlinedSubroutine | LexicalBlock | CallSite | GnuCallSite | OtherTag

  /** A flag attribute: absent, present with a value that is not a boolean, or a boolean. */
  datatype Flag = Absent | NotBool | Bool(value: bool)

  datatype Die = Die(
    tag: Tag,
    parent: Option<Offset>,
    children: seq<Offset>,
    path: string,
    callFileLine: Option<FileLine>,
    callTailCall: Flag,
    gnuTailCall: Flag,
    returnPc: Option<nat>,
    callPc: Option<nat>,
    origin: Option<Offset>)

  /** All DIEs of an image; `end` is the size of the section that holds them. */
  datatype Info = Info(dies: map<Offset, Die>, end: nat)

  predicate IsScope(t: Tag) {
    t == LexicalBlock || t == InlinedSubroutine
  }

  predicate IsCallSite(t: Tag) {
    t == CallSite || t == GnuCallSite
  }

  /** What DWARF guarantees of a tree of DIEs: a child is stored after its parent, the links
      agree, and only a compile unit (or an entry unknown to the walker) can be a root. */
  ghost predicate WellFormed(info: Info) {
    && (forall o {:trigger LinkedUp(info, o)} | o in info.dies :: LinkedUp(info, o))
    && (forall o {:trigger LinkedDown(info, o)} | o in info.dies :: LinkedDown(info, o))
    && (forall o {:trigger OriginKnown(info, o)} | o in info.dies :: OriginKnown(info, o))
  }

  ghost predicate OriginKnown(info: Info, o: Offset)
    requires o in info.dies
  {
    var origin := info.dies[o].origin;
    origin.Some? ==> origin.value in info.dies
  }

  ghost predicate LinkedUp(info: Info, o: Offset)
    requires o in info.dies
  {
    match info.dies[o].parent
    case None => !IsScope(info.dies[o].tag)
    case Some(p) => p < o && p in info.dies && o in info.dies[p].children
  }

  ghost predicate LinkedDown(info: Info, o: Offset)
    requires o in info.dies
  {
    o < info.end &&
    forall c <- info.dies[o].children :: o < c < info.end && c in info.dies && info.dies[c].parent == Some(o)
  }

  /** The call sites under children i.. of `scope`, in document order, looking inside lexical
      blocks and inlined subroutines but not inside any other entry. */
  function CallSitesFrom(info: Info, scope: Offset, i: nat): (r: seq<Offset>)
    requires WellFormed(info) && scope in info.dies && i <= |info.dies[scope].children|
    ensures forall s <- r :: s in info.dies
    decreases info.end - scope, |info.dies[scope].children| - i, 1
  {
    if i == |info.dies[scope].children| then []
    else CallSitesAt(info, scope, i) + CallSitesFrom(info, scope, i + 1)
  }

  /** The call sites that child i of `scope` contributes. */
  function CallSitesAt(info: Info, scope: Offset, i: nat): (r: seq<Offset>)
    requires WellFormed(info) && scope in info.dies && i < |info.dies[scope].children|
    ensures forall s <- r :: s in info.dies
    decreases info.end - scope, |info.dies[scope].children| - i, 0
  {
    assert LinkedDown(info, scope);
    var c := info.dies[scope].children[i];
    if IsCallSite(info.dies[c].tag) then [c]
    else if IsScope(info.dies[c].tag) then CallSitesFrom(info, c, 0)
    else []
  }

  function CallSites(info: Info, scope: Offset): seq<Offset>
    requires WellFormed(info) && scope in info.dies
  {
    CallSitesFrom(info, scope, 0)
  }

  /** `o` is `scope`, or is nested in it through lexical blocks and inlined subroutines only. */
  predicate Nested(info: Info, o: Offset, scope: Offset)
    requires WellFormed(info) && o in info.dies
    decreases o
  {
    o == scope ||
    ((info.dies[o].tag == LexicalBlock || info.dies[o].tag == InlinedSubroutine) &&
     (assert LinkedUp(info, o); Nested(info, info.dies[o].parent.value, scope)))
  }

  /** `s` is a call site whose innermost enclosing function, after inlining, is `scope`. */
  predicate BelongsTo(info: Info, s: Offset, scope: Offset)
    requires WellFormed(info)
  {
    s in info.dies && (info.dies[s].tag == CallSite || info.dies[s].tag == GnuCallSite) && info.dies[s].parent.Some? &&
    (assert LinkedUp(info, s); Nested(info, info.dies[s].parent.value, scope))
  }

  lemma {:induction false} CallSitesFromBelong(info: Info, scope: Offset, i: nat)
    requires WellFormed(info) && scope in info.dies && i <= |info.dies[scope].children|
    ensures forall s <- CallSitesFrom(info, scope, i) :: BelongsTo(info, s, scope)
    decreases info.end - scope, |info.dies[scope].children| - i
  {
    var children := info.dies[scope].children;
    if i < |children| {
      var c := children[i];
      assert LinkedDown(info, scope);
      CallSitesFromBelong(info, scope, i + 1);
      if IsScope(info.dies[c].tag) {
        CallSitesFromBelong(info, c, 0);
        forall s <- CallSitesFrom(info, c, 0) ensures BelongsTo(info, s, scope) {
          assert BelongsTo(info, s, c) && LinkedUp(info, s);
          NestedTransitive(info, info.dies[s].parent.value, c, scope);
        }
      }
    }
  }

  lemma {:induction false} NestedTransitive(info: Info, o: Offset, mid: Offset, scope: Offset)
    requires WellFormed(info) && o in info.dies && mid in info.dies
    requires Nested(info, o, mid) && Nested(info, mid, scope)
    ensures Nested(info, o, scope)
    decreases o
  {
    if o != mid {
      assert LinkedUp(info, o);
      NestedTransitive(info, info.dies[o].parent.value, mid, scope);
    }
  }

  /** The sites of a child are among the sites of its parent. */
  lemma {:induction false} ChildSitesIncluded(info: Info, scope: Offset, i: nat, k: nat, s: Offset)
    requires WellFormed(info) && scope in info.dies && i <= k < |info.dies[scope].children|
    requires var c := info.dies[scope].children[k];
             LinkedDown(info, scope) &&
             (if IsCallSite(info.dies[c].tag) then s == c
              else IsScope(info.dies[c].tag) && s in CallSites(info, c))
    ensures s in CallSitesFrom(info, scope, i)
    decreases k - i
  {
    assert CallSitesFrom(info, scope, i) == CallSitesAt(info, scope, i) + CallSitesFrom(info, scope, i + 1);
    if i < k {
      ChildSitesIncluded(info, scope, i + 1, k, s);
    }
  }

  lemma {:induction false} NestedSitesIncluded(info: Info, o: Offset, scope: Offset, s: Offset)
    requires WellFormed(info) && o in info.dies && scope in info.dies
    requires Nested(info, o, scope) && s in CallSites(info, o)
    ensures s in CallSites(info, scope)
    decreases o
  {
    if o != scope {
      assert LinkedUp(info, o);
      var p := info.dies[o].parent.value;
      assert LinkedDown(info, p);
      var k :| 0 <= k < |info.dies[p].children| && info.dies[p].children[k] == o;
      ChildSitesIncluded(info, p, 0, k, s);
      NestedSitesIncluded(info, p, scope, s);
    }
  }

  /** The traversal finds a call site exactly when walking out from the site, past lexical
      blocks and inlined subroutines, arrives at the scope. */
  lemma CallSitesComplete(info: Info, scope: Offset, s: Offset)
    requires WellFormed(info) && scope in info.dies
    ensures s in CallSites(info, scope) <==> BelongsTo(info, s, scope)
  {
    CallSitesFromBelong(info, scope, 0);
    if BelongsTo(info, s, scope) {
      assert LinkedUp(info, s);
      var p := info.dies[s].parent.value;
      assert LinkedDown(info, p);
      var k :| 0 <= k < |info.dies[p].children| && info.dies[p].children[k] == s;
      ChildSitesIncluded(info, p, 0, k, s);
      NestedSitesIncluded(info, p, scope, s);
    }
  }

  /** `x` is `o`, or lies below it. */
  predicate Under(info: Info, x: Offset, o: Offset)
    requires WellFormed(info) && x in info.dies
    decreases x
  {
    x == o || (info.dies[x].parent.Some? && (assert LinkedUp(info, x); Under(info, info.dies[x].parent.value, o)))
  }

  lemma {:induction false} UnderIsLater(info: Info, x: Offset, o: Offset)
    requires WellFormed(info) && x in info.dies && Under(info, x, o)
    ensures o <= x && o in info.dies
    decreases x
  {
    if x != o {
      assert LinkedUp(info, x);
      UnderIsLater(info, info.dies[x].parent.value, o);
    }
  }

  lemma {:induction false} UnderTransitive(info: Info, x: Offset, mid: Offset, o: Offset)
    requires WellFormed(info) && x in info.dies && mid in info.dies && Under(info, x, mid) && Under(info, mid, o)
    ensures Under(info, x, o)
    decreases x
  {
    if x != mid {
      assert LinkedUp(info, x);
      UnderTransitive(info, info.dies[x].parent.value, mid, o);
    }
  }

  /** Everything below a child is stored before the next child, as DWARF stores it. */
  ghost predicate StoredInOrder(info: Info)
    requires WellFormed(info)
  {
    forall o <- info.dies :: ChildrenInOrder(info, info.dies[o].children)
  }

  ghost predicate ChildrenInOrder(info: Info, children: seq<Offset>)
    requires WellFormed(info)
  {
    forall i, j, x :: 0 <= i < j < |children| && x in info.dies && Under(info, x, children[i]) ==> x < children[j]
  }

  ghost predicate Ascending(xs: seq<Offset>) {
    forall i, j :: 0 <= i < j < |xs| ==> xs[i] < xs[j]
  }

  lemma AscendingConcat(a: seq<Offset>, b: seq<Offset>)
    requires Ascending(a) && Ascending(b) && forall x <- a, y <- b :: x < y
    ensures Ascending(a + b)
  {
    forall i, j | 0 <= i < j < |a + b| ensures (a + b)[i] < (a + b)[j] {
      assert i < |a| ==> a[i] in a;
      assert j >= |a| ==> b[j - |a|] in b;
    }
  }

  /** The sites from child i on lie below children from i on. */
  ghost predicate BelowFrom(info: Info, children: seq<Offset>, i: nat, sites: seq<Offset>)
    requires WellFormed(info) && i <= |children|
  {
    forall s <- sites :: s in info.dies && exists k :: i <= k < |children| && Under(info, s, children[k])
  }

  lemma {:induction false} CallSitesFromAscend(info: Info, scope: Offset, i: nat)
    requires WellFormed(info) && StoredInOrder(info) && scope in info.dies && i <= |info.dies[scope].children|
    ensures Ascending(CallSitesFrom(info, scope, i))
    ensures BelowFrom(info, info.dies[scope].children, i, CallSitesFrom(info, scope, i))
    decreases info.end - scope, |info.dies[scope].children| - i
  {
    var children := info.dies[scope].children;
    if i < |children| {
      assert LinkedDown(info, scope);
      CallSitesAtAscend(info, scope, i);
      CallSitesFromAscend(info, scope, i + 1);
      var here, later := CallSitesAt(info, scope, i), CallSitesFrom(info, scope, i + 1);
      forall x <- here, y <- later ensures x < y {
        var k :| i + 1 <= k < |children| && Under(info, y, children[k]);
        assert ChildrenInOrder(info, children) && Under(info, x, children[i]);
        UnderIsLater(info, y, children[k]);
      }
      AscendingConcat(here, later);
    }
  }

  lemma {:induction false} CallSitesAtAscend(info: Info, scope: Offset, i: nat)
    requires WellFormed(info) && StoredInOrder(info) && scope in info.dies && i < |info.dies[scope].children|
    ensures Ascending(CallSitesAt(info, scope, i))
    ensures forall s <- CallSitesAt(info, scope, i) :: Under(info, s, info.dies[scope].children[i])
    decreases info.end - scope, |info.dies[scope].children| - i, 0
  {
    assert LinkedDown(info, scope);
    var c := info.dies[scope].children[i];
    if !IsCallSite(info.dies[c].tag) && IsScope(info.dies[c].tag) {
      CallSitesFromAscend(info, c, 0);
      forall s <- CallSitesFrom(info, c, 0) ensures Under(info, s, c) {
        var k :| 0 <= k < |info.dies[c].children| && Under(info, s, info.dies[c].children[k]);
        assert LinkedDown(info, c);
        var child := info.dies[c].children[k];
        assert Under(info, child, c);
        UnderTransitive(info, s, child, c);
      }
    }
  }

  /** The traversal lists call sites in document order. */
  lemma CallSitesAscend(info: Info, scope: Offset)
    requires WellFormed(info) && StoredInOrder(info) && scope in info.dies
    ensures Ascending(CallSites(info, scope)) && Ascending(TailCallSites(info, scope))
  {
    CallSitesFromAscend(info, scope, 0);
    TailCallsAscend(info, CallSites(info, scope));
  }

  lemma {:induction false} TailCallsAscend(info: Info, sites: seq<Offset>)
    requires (forall s <- sites :: s in info.dies) && Ascending(sites)
    ensures Ascending(TailCalls(info, sites)) && forall s <- TailCalls(info, sites) :: s in sites
  {
    if sites != [] {
      TailCallsAscend(info, sites[1..]);
      assert forall s <- sites[1..] :: sites[0] < s;
      if IsTailCallSite(info.dies[sites[0]]) {
        AscendingConcat([sites[0]], TailCalls(info, sites[1..]));
      }
    }
  }

  /** DW_AT_call_tail_call decides when present, else DW_AT_GNU_tail_call; a value that is not
      a boolean counts as set. */
  predicate IsTailCallSite(die: Die) {
    var flag := if die.callTailCall != Absent then die.callTailCall else die.gnuTailCall;
    flag == NotBool || flag == Bool(true)
  }

  function TailCalls(info: Info, sites: seq<Offset>): seq<Offset>
    requires forall s <- sites :: s in info.dies
  {
    if sites == [] then []
    else (if IsTailCallSite(info.dies[sites[0]]) then [sites[0]] else []) + TailCalls(info, sites[1..])
  }

  lemma {:induction false} TailCallsConcat(info: Info, a: seq<Offset>, b: seq<Offset>)
    requires forall s <- a + b :: s in info.dies
    ensures (forall s <- a :: s in info.dies) && (forall s <- b :: s in info.dies)
    ensures TailCalls(info, a + b) == TailCalls(info, a) + TailCalls(info, b)
    decreases |a|
  {
    assert forall s <- a :: s in a + b;
    assert forall s <- b :: s in a + b;
    if a == [] {
      assert a + b == b;
    } else {
      assert (a + b)[1..] == a[1..] + b && (a + b)[0] == a[0];
      TailCallsConcat(info, a[1..], b);
    }
  }

  lemma {:induction false} TailCallsExact(info: Info, sites: seq<Offset>, s: Offset)
    requires forall s <- sites :: s in info.dies
    ensures s in TailCalls(info, sites) <==>
            s in sites &&
            var d := info.dies[s];
            d.callTailCall == Bool(true) || d.callTailCall == NotBool ||
            (d.callTailCall == Absent && (d.gnuTailCall == Bool(true) || d.gnuTailCall == NotBool))
  {
    if sites != [] {
      TailCallsExact(info, sites[1..], s);
    }
  }

  function FirstReturningTo(info: Info, sites: seq<Offset>, pc: nat): (r: Option<Offset>)
    requires forall s <- sites :: s in info.dies
    ensures r.None? ==> forall s <- sites :: info.dies[s].returnPc != Some(pc)
    ensures r.Some? ==> exists k :: 0 <= k < |sites| && sites[k] == r.value &&
                          info.dies[sites[k]].returnPc == Some(pc) &&
                          forall j :: 0 <= j < k ==> info.dies[sites[j]].returnPc != Some(pc)
  {
    if sites == [] then None
    else if info.dies[sites[0]].returnPc == Some(pc) then Some(sites[0])
    else
      var r := FirstReturningTo(info, sites[1..], pc);
      assert r.Some? ==> exists k :: 0 <= k < |sites[1..]| && sites[1..][k] == r.value &&
                            info.dies[sites[1..][k]].returnPc == Some(pc) &&
                            forall j :: 0 <= j < k ==> info.dies[sites[1..][j]].returnPc != Some(pc);
      assert forall j :: 1 <= j < |sites| ==> sites[j] == sites[1..][j - 1];
      r
  }

  lemma FirstReturningConcat(info: Info, a: seq<Offset>, b: seq<Offset>, pc: nat)
    requires forall s <- a + b :: s in info.dies
    ensures (forall s <- a :: s in info.dies) && (forall s <- b :: s in info.dies)
    ensures FirstReturningTo(info, a + b, pc) ==
            if FirstReturningTo(info, a, pc).Some? then FirstReturningTo(info, a, pc)
            else FirstReturningTo(info, b, pc)
  {
    assert forall s <- a :: s in a + b;
    assert forall s <- b :: s in a + b;
    if a == [] {
      assert a + b == b;
    } else {
      assert (a + b)[1..] == a[1..] + b;
      FirstReturningConcat(info, a[1..], b, pc);
    }
  }

  function TailCallSites(info: Info, scope: Offset): seq<Offset>
    requires WellFormed(info) && scope in info.dies
  {
    TailCalls(info, CallSites(info, scope))
  }

  lemma TailCallsStep(info: Info, scope: Offset, i: nat, before: seq<Offset>)
    requires WellFormed(info) && scope in info.dies && i < |info.dies[scope].children|
    ensures before + TailCalls(info, CallSitesFrom(info, scope, i)) ==
            before + TailCalls(info, CallSitesAt(info, scope, i)) + TailCalls(info, CallSitesFrom(info, scope, i + 1))
  {
    var here, later := CallSitesAt(info, scope, i), CallSitesFrom(info, scope, i + 1);
    TailCallsConcat(info, here, later);
    assert before + (TailCalls(info, here) + TailCalls(info, later)) ==
      before + TailCalls(info, here) + TailCalls(info, later);
  }

  /** Appends to `found` the tail-call sites under `scope`. */
  method CollectTailCallSites(info: Info, scope: Offset, found: seq<Offset>) returns (out: seq<Offset>)
    requires WellFormed(info) && scope in info.dies
    ensures out == found + TailCallSites(info, scope)
    decreases info.end - scope
  {
    out := found;
    var children := info.dies[scope].children;
    var i := 0;
    while i < |children|
      invariant i <= |children|
      invariant out + TailCalls(info, CallSitesFrom(info, scope, i)) == found + TailCallSites(info, scope)
    {
      assert LinkedDown(info, scope);
      var c := children[i];
      TailCallsStep(info, scope, i, out);
      if IsCallSite(info.dies[c].tag) {
        if IsTailCallSite(info.dies[c]) {
          out := out + [c];
        }
      } else if IsScope(info.dies[c].tag) {
        out := CollectTailCallSites(info, c, out);
      }
      i := i + 1;
    }
  }

  /** The first call site under `scope`, in document order, that returns to `pc`. */
  method FindCallSiteByReturnPc(info: Info, scope: Offset, pc: nat) returns (r: Option<Offset>)
    requires WellFormed(info) && scope in info.dies
    ensures r == FirstReturningTo(info, CallSites(info, scope), pc)
    decreases info.end - scope
  {
    var children := info.dies[scope].children;
    var i := 0;
    while i < |children|
      invariant i <= |children|
      invariant FirstReturningTo(info, CallSitesFrom(info, scope, i), pc) ==
                FirstReturningTo(info, CallSites(info, scope), pc)
    {
      assert LinkedDown(info, scope);
      var c := children[i];
      FirstReturningConcat(info, CallSitesAt(info, scope, i), CallSitesFrom(info, scope, i + 1), pc);
      if IsCallSite(info.dies[c].tag) {
        if info.dies[c].returnPc == Some(pc) {
          return Some(c);
        }
      } else if IsScope(info.dies[c].tag) {
        var inner := FindCallSiteByReturnPc(info, c, pc);
        if inner.Some? {
          return inner;
        }
      }
      i := i + 1;
    }
    return None;
  }

  /** The subprogram around a DIE, walking outwards. */
  function EnclosingSubprogram(info: Info, die: Option<Offset>): (r: Option<Offset>)
    requires WellFormed(info)
    requires die.Some? ==> die.value in info.dies
    ensures r.Some? ==> r.value in info.dies && info.dies[r.value].tag == Subprogram
    decreases if die.Some? then die.value + 1 else 0
  {
    if die.None? || info.dies[die.value].tag == Subprogram then die
    else
      assert LinkedUp(info, die.value);
      EnclosingSubprogram(info, info.dies[die.value].parent)
  }

  /** `f` is the innermost subprogram that `die` is or lies below. */
  ghost predicate IsInnermostSubprogram(info: Info, die: Offset, f: Offset)
    requires WellFormed(info) && die in info.dies
  {
    && f in info.dies && info.dies[f].tag == Subprogram && Under(info, die, f)
    && forall g :: g in info.dies && info.dies[g].tag == Subprogram && Under(info, die, g) ==> g <= f
  }

  /** The walk outwards ends at the innermost subprogram, and at none only where there is none. */
  lemma {:induction false} EnclosingIsInnermost(info: Info, die: Offset)
    requires WellFormed(info) && die in info.dies
    ensures forall f: Offset :: EnclosingSubprogram(info, Some(die)) == Some(f) <==> IsInnermostSubprogram(info, die, f)
    decreases die
  {
    assert LinkedUp(info, die);
    if info.dies[die].tag == Subprogram {
      forall g | g in info.dies && Under(info, die, g) ensures g <= die {
        UnderIsLater(info, die, g);
      }
    } else if info.dies[die].parent.Some? {
      var parent := info.dies[die].parent.value;
      EnclosingIsInnermost(info, parent);
      assert forall f: Offset :: IsInnermostSubprogram(info, die, f) <==> IsInnermostSubprogram(info, parent, f);
    }
  }

  method FindEnclosingSubprogram(info: Info, start: Option<Offset>) returns (die: Option<Offset>)
    requires WellFormed(info)
    requires start.Some? ==> start.value in info.dies
    ensures die == EnclosingSubprogram(info, start)
  {
    die := start;
    while die.Some? && info.dies[die.value].tag != Subprogram
      invariant die.Some? ==> die.value in info.dies
      invariant EnclosingSubprogram(info, die) == EnclosingSubprogram(info, start)
      decreases if die.Some? then die.value + 1 else 0
    {
      assert LinkedUp(info, die.value);
      die := info.dies[die.value].parent;
    }
  }

  /** The function a call site invokes. */
  function CallSiteOrigin(info: Info, site: Offset): (r: Option<Offset>)
    requires WellFormed(info) && site in info.dies
    ensures r.Some? ==> r.value in info.dies && info.dies[r.value].tag == Subprogram
  {
    assert OriginKnown(info, site);
    EnclosingSubprogram(info, info.dies[site].origin)
  }
}
