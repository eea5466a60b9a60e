/** The depth-first search that reconstructs the tail calls between the function a caller
    invoked and the function the core is physically stopped in. */
module TailCallSearch {
  import opened Options
  import opened DieTree

  /** A tail-call site and the function it jumps to, when that is known. */
  datatype Site = Site(die: Offset, origin: Option<Offset>)

  /** For every function, its tail-call sites in document order. */
  type Graph = map<Offset, seq<Site>>

  ghost predicate Closed(g: Graph) {
    forall f {:trigger SitesIn(g, g[f])} | f in g :: SitesIn(g, g[f])
  }

  ghost predicate SitesIn(g: Graph, sites: seq<Site>) {
    forall s <- sites :: s.origin.Some? ==> s.origin.value in g
  }

  function SitesOf(info: Info, dies: seq<Offset>): (r: seq<Site>)
    requires WellFormed(info) && forall s <- dies :: s in info.dies
    ensures |r| == |dies|
    ensures forall k :: 0 <= k < |r| ==> r[k] == Site(dies[k], CallSiteOrigin(info, dies[k]))
  {
    seq(|dies|, k requires 0 <= k < |dies| => Site(dies[k], CallSiteOrigin(info, dies[k])))
  }

  lemma TailCallsAreDies(info: Info, sites: seq<Offset>)
    requires forall s <- sites :: s in info.dies
    ensures forall s <- TailCalls(info, sites) :: s in info.dies
  {
  }

  function FunctionSites(info: Info, f: Offset): seq<Site>
    requires WellFormed(info) && f in info.dies
  {
    TailCallsAreDies(info, CallSites(info, f));
    SitesOf(info, TailCallSites(info, f))
  }

  function CallGraph(info: Info): (g: Graph)
    requires WellFormed(info)
    ensures Closed(g)
  {
    map f | f in info.dies && info.dies[f].tag == Subprogram :: FunctionSites(info, f)
  }

  const MAX_DEPTH := 64

  /** What one search did: the sites from caller to callee when it succeeded, the functions it
      marked, and the functions whose sites it collected, in order. */
  datatype Outcome = Outcome(found: bool, path: seq<Site>, visited: set<Offset>, expanded: seq<Offset>)

  function Search(g: Graph, f: Offset, target: Offset, visited: set<Offset>, depth: nat): Outcome
    requires Closed(g) && f in g
    decreases if depth > MAX_DEPTH then 0 else MAX_DEPTH + 1 - depth, |g[f]| + 1
  {
    if depth > MAX_DEPTH then Outcome(false, [], visited, [])
    else
      var r := Scan(g, g[f], target, visited, depth);
      r.(expanded := [f] + r.expanded)
  }

  function Scan(g: Graph, sites: seq<Site>, target: Offset, visited: set<Offset>, depth: nat): Outcome
    requires Closed(g) && SitesIn(g, sites) && depth <= MAX_DEPTH
    decreases MAX_DEPTH + 1 - depth, |sites|
  {
    if sites == [] then Outcome(false, [], visited, [])
    else
      var site := sites[0];
      match site.origin
      case None => Scan(g, sites[1..], target, visited, depth)
      case Some(origin) =>
        if origin == target then Outcome(true, [site], visited, [])
        else if origin in visited then Scan(g, sites[1..], target, visited, depth)
        else
          var inner := Search(g, origin, target, visited + {origin}, depth + 1);
          if inner.found then inner.(path := [site] + inner.path)
          else
            var rest := Scan(g, sites[1..], target, inner.visited, depth);
            rest.(expanded := inner.expanded + rest.expanded)
  }

  /** A chain of tail calls: each site is in the function the previous one jumps to, and the
      last one jumps to `target`. */
  ghost predicate IsPath(g: Graph, f: Offset, path: seq<Site>, target: Offset)
    decreases |path|
  {
    && f in g && path != [] && path[0] in g[f] && path[0].origin.Some?
    && if |path| == 1 then path[0].origin.value == target
       else IsPath(g, path[0].origin.value, path[1..], target)
  }

  ghost predicate Reachable(g: Graph, f: Offset, target: Offset) {
    exists path :: IsPath(g, f, path, target)
  }

  /** The functions a path goes through, its two ends excluded. */
  ghost function Intermediates(path: seq<Site>): (r: seq<Offset>)
    requires forall s <- path :: s.origin.Some?
    ensures |r| == if |path| == 0 then 0 else |path| - 1
    ensures forall k :: 0 <= k < |r| ==> r[k] == path[k].origin.value
  {
    if |path| <= 1 then [] else [path[0].origin.value] + Intermediates(path[1..])
  }

  ghost predicate Distinct(xs: seq<Offset>) {
    forall i, j :: 0 <= i < j < |xs| ==> xs[i] != xs[j]
  }

  ghost predicate FreshFor(xs: seq<Offset>, visited: set<Offset>, target: Offset) {
    Distinct(xs) && forall x <- xs :: x !in visited && x != target
  }

  /** What a found chain is worth. */
  ghost predicate GoodChain(g: Graph, f: Offset, path: seq<Site>, target: Offset, visited: set<Offset>) {
    && IsPath(g, f, path, target)
    && (forall s <- path :: s.origin.Some?)
    && FreshFor(Intermediates(path), visited, target)
  }

  lemma GoodChainGrows(g: Graph, f: Offset, site: Site, rest: seq<Site>, target: Offset, visited: set<Offset>)
    requires Closed(g) && f in g && site in g[f] && site.origin.Some? && site.origin.value in g
    requires site.origin.value != target && site.origin.value !in visited
    requires GoodChain(g, site.origin.value, rest, target, visited + {site.origin.value})
    ensures GoodChain(g, f, [site] + rest, target, visited)
  {
  }

  lemma {:induction false} SearchSound(g: Graph, f: Offset, target: Offset, visited: set<Offset>, depth: nat)
    requires Closed(g) && f in g
    ensures var r := Search(g, f, target, visited, depth);
            r.found ==> GoodChain(g, f, r.path, target, visited) && |r.path| + depth <= MAX_DEPTH + 1
    decreases if depth > MAX_DEPTH then 0 else MAX_DEPTH + 1 - depth, |g[f]| + 1
  {
    if depth <= MAX_DEPTH {
      ScanSound(g, f, g[f], target, visited, depth);
    }
  }

  lemma {:induction false} ScanSound(g: Graph, f: Offset, sites: seq<Site>, target: Offset, visited: set<Offset>,
      depth: nat)
    requires Closed(g) && f in g && SitesIn(g, sites) && (forall s <- sites :: s in g[f]) && depth <= MAX_DEPTH
    ensures var r := Scan(g, sites, target, visited, depth);
            r.found ==> GoodChain(g, f, r.path, target, visited) && |r.path| + depth <= MAX_DEPTH + 1
    decreases MAX_DEPTH + 1 - depth, |sites|
  {
    if sites != [] {
      var site := sites[0];
      if site.origin.None? || (site.origin.value != target && site.origin.value in visited) {
        ScanPassesOver(g, sites, target, visited, depth);
        ScanSound(g, f, sites[1..], target, visited, depth);
      } else if site.origin.value == target {
        GoodChainOfOne(g, f, site, target, visited);
      } else {
        var origin := site.origin.value;
        var inner := Search(g, origin, target, visited + {origin}, depth + 1);
        SearchSound(g, origin, target, visited + {origin}, depth + 1);
        if inner.found {
          GoodChainGrows(g, f, site, inner.path, target, visited);
        } else {
          VisitedGrows(g, origin, target, visited + {origin}, depth + 1);
          ScanSound(g, f, sites[1..], target, inner.visited, depth);
          GoodChainShrinks(g, f, Scan(g, sites[1..], target, inner.visited, depth), target, visited, inner.visited);
        }
      }
    }
  }

  /** A chain that avoids more functions than it has to. */
  lemma GoodChainShrinks(g: Graph, f: Offset, r: Outcome, target: Offset, visited: set<Offset>, more: set<Offset>)
    requires visited <= more && (r.found ==> GoodChain(g, f, r.path, target, more))
    ensures r.found ==> GoodChain(g, f, r.path, target, visited)
  {
  }

  lemma GoodChainOfOne(g: Graph, f: Offset, site: Site, target: Offset, visited: set<Offset>)
    requires Closed(g) && f in g && site in g[f] && site.origin == Some(target)
    ensures GoodChain(g, f, [site], target, visited)
  {
  }

  /** Marks are never lost, and a function that is collected was not marked before the search
      that reached it and is marked after it; so no function is collected twice that way. */
  lemma {:induction false} VisitedGrows(g: Graph, f: Offset, target: Offset, visited: set<Offset>, depth: nat)
    requires Closed(g) && f in g
    ensures var r := Search(g, f, target, visited, depth);
            visited <= r.visited &&
            (depth <= MAX_DEPTH ==>
               r.expanded != [] && r.expanded[0] == f && Marked(r.expanded[1..], visited, r.visited, target)) &&
            (depth > MAX_DEPTH ==> r.expanded == [])
    decreases if depth > MAX_DEPTH then 0 else MAX_DEPTH + 1 - depth, |g[f]| + 1
  {
    if depth <= MAX_DEPTH {
      ScanGrows(g, g[f], target, visited, depth);
      var r := Scan(g, g[f], target, visited, depth);
      assert ([f] + r.expanded)[1..] == r.expanded;
    }
  }

  ghost predicate Marked(xs: seq<Offset>, before: set<Offset>, after: set<Offset>, target: Offset) {
    FreshFor(xs, before, target) && forall x <- xs :: x in after
  }

  lemma {:induction false} ScanGrows(g: Graph, sites: seq<Site>, target: Offset, visited: set<Offset>, depth: nat)
    requires Closed(g) && SitesIn(g, sites) && depth <= MAX_DEPTH
    ensures var r := Scan(g, sites, target, visited, depth);
            visited <= r.visited && Marked(r.expanded, visited, r.visited, target)
    decreases MAX_DEPTH + 1 - depth, |sites|
  {
    if sites != [] {
      var site := sites[0];
      if site.origin.None? || (site.origin.value != target && site.origin.value in visited) {
        ScanGrows(g, sites[1..], target, visited, depth);
      } else if site.origin.value != target {
        var origin := site.origin.value;
        var inner := Search(g, origin, target, visited + {origin}, depth + 1);
        VisitedGrows(g, origin, target, visited + {origin}, depth + 1);
        assert Marked(inner.expanded, visited, inner.visited, target) by {
          if depth + 1 <= MAX_DEPTH {
            assert inner.expanded == [origin] + inner.expanded[1..];
          }
        }
        if !inner.found {
          ScanGrows(g, sites[1..], target, inner.visited, depth);
          var rest := Scan(g, sites[1..], target, inner.visited, depth);
          MarkedConcat(inner.expanded, rest.expanded, visited, inner.visited, rest.visited, target);
        }
      }
    }
  }

  lemma MarkedConcat(xs: seq<Offset>, ys: seq<Offset>, before: set<Offset>, mid: set<Offset>, after: set<Offset>,
      target: Offset)
    requires before <= mid <= after && Marked(xs, before, mid, target) && Marked(ys, mid, after, target)
    ensures Marked(xs + ys, before, after, target)
  {
    forall i, j | 0 <= i < j < |xs + ys| ensures (xs + ys)[i] != (xs + ys)[j] {
      if i < |xs| <= j {
        assert xs[i] in xs && ys[j - |xs|] in ys;
      }
    }
  }

  /** Some site of `f` jumps to `h`. */
  ghost predicate Calls(g: Graph, f: Offset, h: Offset) {
    f in g && exists s :: s in g[f] && s.origin == Some(h)
  }

  function EndOf(f: Offset, chain: seq<Offset>): Offset {
    if chain == [] then f else chain[|chain| - 1]
  }

  /** Functions other than the target, each tail-called by the one before it, the first by `f`. */
  ghost predicate IsChain(g: Graph, f: Offset, target: Offset, chain: seq<Offset>)
    decreases |chain|
  {
    chain == [] ||
    (var init := chain[..|chain| - 1];
     IsChain(g, f, target, init) && Calls(g, EndOf(f, init), EndOf(f, chain)) && EndOf(f, chain) != target)
  }

  ghost predicate IsSimpleChain(g: Graph, f: Offset, target: Offset, chain: seq<Offset>) {
    IsChain(g, f, target, chain) && Distinct(chain)
  }

  /** No chain of distinct functions is longer than 64, which is as deep as the search goes. */
  ghost predicate ChainsFit(g: Graph, f: Offset, target: Offset) {
    forall chain :: IsSimpleChain(g, f, target, chain) ==> |chain| <= 64
  }

  /** No site of `f` jumps to the target, and all of them jump into `visited`. */
  ghost predicate Exhausted(g: Graph, f: Offset, target: Offset, visited: set<Offset>) {
    f in g && forall s <- g[f] :: s.origin.Some? ==> s.origin.value != target && s.origin.value in visited
  }

  ghost predicate NewlyExhausted(g: Graph, target: Offset, before: set<Offset>, after: set<Offset>) {
    forall h <- after - before :: Exhausted(g, h, target, after)
  }

  /** The search stands at the end of a simple chain of marked functions, as deep as that is long. */
  ghost predicate StandsAt(g: Graph, root: Offset, target: Offset, chain: seq<Offset>, f: Offset, visited: set<Offset>,
      depth: nat) {
    IsSimpleChain(g, root, target, chain) && f == EndOf(root, chain) && depth == |chain| &&
      forall x <- chain :: x in visited
  }

  lemma StepDown(g: Graph, root: Offset, target: Offset, chain: seq<Offset>, f: Offset, visited: set<Offset>,
      depth: nat, origin: Offset)
    requires StandsAt(g, root, target, chain, f, visited, depth) && ChainsFit(g, root, target)
    requires Calls(g, f, origin) && origin != target && origin !in visited
    ensures StandsAt(g, root, target, chain + [origin], origin, visited + {origin}, depth + 1) && depth + 1 <= MAX_DEPTH
  {
    var longer := chain + [origin];
    assert longer[..|longer| - 1] == chain;
    assert IsSimpleChain(g, root, target, longer);
  }

  lemma {:induction false} SearchExhausts(g: Graph, root: Offset, target: Offset, chain: seq<Offset>, f: Offset,
      visited: set<Offset>, depth: nat)
    requires Closed(g) && f in g && ChainsFit(g, root, target)
    requires StandsAt(g, root, target, chain, f, visited, depth)
    ensures var r := Search(g, f, target, visited, depth);
            !r.found ==> Exhausted(g, f, target, r.visited) && NewlyExhausted(g, target, visited, r.visited)
    decreases if depth > MAX_DEPTH then 0 else MAX_DEPTH + 1 - depth, |g[f]| + 1
  {
    ScanExhausts(g, root, target, chain, f, g[f], visited, depth);
  }

  lemma {:induction false} ScanExhausts(g: Graph, root: Offset, target: Offset, chain: seq<Offset>, f: Offset,
      sites: seq<Site>, visited: set<Offset>, depth: nat)
    requires Closed(g) && f in g && SitesIn(g, sites) && (forall s <- sites :: s in g[f]) && depth <= MAX_DEPTH
    requires ChainsFit(g, root, target) && StandsAt(g, root, target, chain, f, visited, depth)
    ensures var r := Scan(g, sites, target, visited, depth);
            !r.found ==>
              visited <= r.visited && NewlyExhausted(g, target, visited, r.visited) &&
              forall s <- sites :: s.origin.Some? ==> s.origin.value != target && s.origin.value in r.visited
    decreases MAX_DEPTH + 1 - depth, |sites|
  {
    if sites != [] {
      var site := sites[0];
      if site.origin.None? || (site.origin.value != target && site.origin.value in visited) {
        ScanExhausts(g, root, target, chain, f, sites[1..], visited, depth);
      } else if site.origin.value != target {
        var origin := site.origin.value;
        var marked := visited + {origin};
        assert Calls(g, f, origin);
        StepDown(g, root, target, chain, f, visited, depth, origin);
        SearchExhausts(g, root, target, chain + [origin], origin, marked, depth + 1);
        VisitedGrows(g, origin, target, marked, depth + 1);
        var inner := Search(g, origin, target, marked, depth + 1);
        if !inner.found {
          ScanExhausts(g, root, target, chain, f, sites[1..], inner.visited, depth);
          ExhaustedInTurn(g, target, visited, origin, inner.visited, Scan(g, sites[1..], target, inner.visited, depth));
        }
      }
    }
  }

  lemma ExhaustedInTurn(g: Graph, target: Offset, visited: set<Offset>, origin: Offset, mid: set<Offset>, rest: Outcome)
    requires visited + {origin} <= mid && Exhausted(g, origin, target, mid)
    requires NewlyExhausted(g, target, visited + {origin}, mid)
    ensures !rest.found && mid <= rest.visited && NewlyExhausted(g, target, mid, rest.visited) ==>
              NewlyExhausted(g, target, visited, rest.visited)
  {
    if !rest.found && mid <= rest.visited && NewlyExhausted(g, target, mid, rest.visited) {
      forall h <- rest.visited - visited ensures Exhausted(g, h, target, rest.visited) {
        if h in mid {
          assert h == origin || h in mid - (visited + {origin});
          assert Exhausted(g, h, target, mid);
        } else {
          assert h in rest.visited - mid;
        }
      }
    }
  }

  /** A set of exhausted functions never lets a path out to the target. */
  lemma {:induction false} ExhaustedHasNoPath(g: Graph, f: Offset, target: Offset, visited: set<Offset>,
      path: seq<Site>)
    requires Exhausted(g, f, target, visited) && forall h <- visited :: Exhausted(g, h, target, visited)
    ensures !IsPath(g, f, path, target)
    decreases |path|
  {
    if IsPath(g, f, path, target) && |path| > 1 {
      ExhaustedHasNoPath(g, path[0].origin.value, target, visited, path[1..]);
    }
  }

  /** A chain that the search returns is a path of tail calls through pairwise distinct
      functions, none of them the target, and has at most 65 sites. */
  lemma {:induction false} FoundChainIsSimplePath(g: Graph, f: Offset, target: Offset)
    requires Closed(g) && f in g
    ensures var r := Search(g, f, target, {}, 0);
            r.found ==> IsPath(g, f, r.path, target) && |r.path| <= 65 &&
                        (forall s <- r.path :: s.origin.Some?) &&
                        Distinct(Intermediates(r.path)) && target !in Intermediates(r.path)
  {
    SearchSound(g, f, target, {}, 0);
  }

  /** No function is expanded twice, except that the function the search starts from can be
      expanded once more when it is itself tail-called. */
  lemma {:induction false} EachFunctionExpandedOnce(g: Graph, f: Offset, target: Offset)
    requires Closed(g) && f in g
    ensures var r := Search(g, f, target, {}, 0);
            r.expanded != [] && r.expanded[0] == f && Distinct(r.expanded[1..]) && target !in r.expanded[1..] &&
            forall x <- r.expanded[1..] :: x in r.visited
  {
    VisitedGrows(g, f, target, {}, 0);
  }

  /** When no chain of distinct functions is longer than 64, the search succeeds exactly when the
      target can be reached. */
  lemma {:induction false} FindsExactlyTheReachable(g: Graph, f: Offset, target: Offset)
    requires Closed(g) && f in g && ChainsFit(g, f, target)
    ensures Search(g, f, target, {}, 0).found <==> Reachable(g, f, target)
  {
    var r := Search(g, f, target, {}, 0);
    SearchSound(g, f, target, {}, 0);
    SearchExhausts(g, f, target, [], f, {}, 0);
    if !r.found {
      assert r.visited - {} == r.visited;
      forall path ensures !IsPath(g, f, path, target) {
        ExhaustedHasNoPath(g, f, target, r.visited, path);
      }
    }
  }

  /** `pool` holds every function other than the target that tail calls lead to from `f`. */
  ghost predicate IsPool(g: Graph, f: Offset, target: Offset, pool: set<Offset>) {
    && pool <= g.Keys
    && (f in g ==> Leads(g, f, target, pool))
    && forall h {:trigger Leads(g, h, target, pool)} | h in pool :: Leads(g, h, target, pool)
  }

  ghost predicate Leads(g: Graph, f: Offset, target: Offset, pool: set<Offset>)
    requires f in g
  {
    forall s <- g[f] :: s.origin.Some? && s.origin.value != target ==> s.origin.value in pool
  }

  lemma {:induction false} ChainStaysInPool(g: Graph, f: Offset, target: Offset, pool: set<Offset>, chain: seq<Offset>)
    requires IsPool(g, f, target, pool) && IsChain(g, f, target, chain)
    ensures forall x <- chain :: x in pool
    decreases |chain|
  {
    if chain != [] {
      var init := chain[..|chain| - 1];
      ChainStaysInPool(g, f, target, pool, init);
      assert chain == init + [EndOf(f, chain)];
      var last := EndOf(f, init);
      assert last == f || last in init;
      assert Leads(g, last, target, pool);
    }
  }

  lemma {:induction false} DistinctSize(xs: seq<Offset>, pool: set<Offset>)
    requires Distinct(xs) && forall x <- xs :: x in pool
    ensures |xs| <= |pool|
    decreases |xs|
  {
    if xs != [] {
      var x, rest := xs[0], xs[1..];
      assert forall i :: 0 <= i < |rest| ==> rest[i] == xs[i + 1];
      DistinctSize(rest, pool - {x});
    }
  }

  /** In particular the search is exact when tail calls lead to at most 64 functions other than
      the target. */
  lemma {:induction false} FewFunctionsSuffice(g: Graph, f: Offset, target: Offset, pool: set<Offset>)
    requires Closed(g) && f in g && IsPool(g, f, target, pool) && |pool| <= 64
    ensures ChainsFit(g, f, target)
    ensures Search(g, f, target, {}, 0).found <==> Reachable(g, f, target)
  {
    forall chain | IsSimpleChain(g, f, target, chain) ensures |chain| <= 64 {
      ChainStaysInPool(g, f, target, pool, chain);
      DistinctSize(chain, pool);
    }
    FindsExactlyTheReachable(g, f, target);
  }

  function UpTo(n: nat): (r: set<Offset>)
    ensures |r| == n && forall i :: i in r <==> 1 <= i <= n
  {
    if n == 0 then {} else UpTo(n - 1) + {n}
  }

  /** n functions in a row, each tail-calling the next, and then the last one. */
  function Line(n: nat): (g: Graph)
    ensures Closed(g)
  {
    map i | i in UpTo(n) + {0} :: if i < n then [Site(i, Some(i + 1))] else []
  }

  lemma {:induction false} LinePath(n: nat, k: nat)
    requires k < n
    ensures Reachable(Line(n), k, n)
    decreases n - k
  {
    if k + 1 == n {
      assert IsPath(Line(n), k, [Site(k, Some(n))], n);
    } else {
      LinePath(n, k + 1);
      var path :| IsPath(Line(n), k + 1, path, n);
      var longer := [Site(k, Some(k + 1))] + path;
      assert longer[1..] == path;
      assert IsPath(Line(n), k, longer, n);
    }
  }

  lemma {:induction false} LineIsCutOff(n: nat, visited: set<Offset>, k: nat)
    requires k <= MAX_DEPTH + 1 < n && forall x <- visited :: x <= k
    ensures !Search(Line(n), k, n, visited, k).found
    decreases n - k
  {
    var g := Line(n);
    if k <= MAX_DEPTH {
      LineIsCutOff(n, visited + {k + 1}, k + 1);
      assert g[k] == [Site(k, Some(k + 1))];
      assert g[k][1..] == [];
      var inner := Search(g, k + 1, n, visited + {k + 1}, k + 1);
      assert !Scan(g, [], n, inner.visited, k).found;
      assert !Scan(g, g[k], n, visited, k).found;
    }
  }

  /** A target at the end of a row is found when it is 1 to 65 calls away, and no further, although
      it is reachable however long the row is: the bound of 64 functions in between is exact. */
  lemma DepthLimitIsTight(n: nat)
    ensures Search(Line(n), 0, n, {}, 0).found <==> 1 <= n <= 65
    ensures n > 0 ==> Reachable(Line(n), 0, n) && IsPool(Line(n), 0, n, UpTo(n - 1)) && |UpTo(n - 1)| == n - 1
  {
    if n > 0 {
      LinePath(n, 0);
      if n <= 65 {
        FewFunctionsSuffice(Line(n), 0, n, UpTo(n - 1));
      } else {
        LineIsCutOff(n, {}, 0);
      }
    }
  }

  /** A row of n functions before the target n, whose first function also calls the last one. */
  function Detour(n: nat): (g: Graph)
    requires n > 1
    ensures Closed(g)
  {
    map i | i in UpTo(n) + {0} :: if i == 0 then [Site(0, Some(1)), Site(n, Some(n - 1))]
                                  else if i < n then [Site(i, Some(i + 1))] else []
  }

  lemma {:induction false} DetourIsCutOff(n: nat, visited: set<Offset>, k: nat)
    requires n == MAX_DEPTH + 2 && 0 < k <= MAX_DEPTH + 1 && (forall x <- visited :: x <= k) && k in visited
    ensures var r := Search(Detour(n), k, n, visited, k);
            !r.found && MAX_DEPTH + 1 in r.visited
    decreases n - k
  {
    var g := Detour(n);
    if k <= MAX_DEPTH {
      assert g[k] == [Site(k, Some(k + 1))] && g[k][1..] == [];
      DetourIsCutOff(n, visited + {k + 1}, k + 1);
      var inner := Search(g, k + 1, n, visited + {k + 1}, k + 1);
      assert Scan(g, [], n, inner.visited, k) == Outcome(false, [], inner.visited, []);
    }
  }

  /** The depth limit also hides targets that are near: the target is two calls away, but the
      search first follows the long way, marks the last function where it is cut off, and then
      passes over the direct call to it. */
  lemma {:induction false} NearTargetIsMissed(n: nat)
    requires n == 66
    ensures IsPath(Detour(n), 0, [Site(n, Some(n - 1)), Site(n - 1, Some(n))], n)
    ensures !Search(Detour(n), 0, n, {}, 0).found
  {
    var g := Detour(n);
    var path := [Site(n, Some(n - 1)), Site(n - 1, Some(n))];
    var tail := [Site(n - 1, Some(n))];
    assert path[1..] == tail && IsPath(g, n - 1, tail, n);
    assert path[0] == g[0][1];
    var later := [Site(n, Some(n - 1))];
    assert g[0][0] == Site(0, Some(1)) && g[0][1..] == later && later[1..] == [];
    DetourIsCutOff(n, {1}, 1);
    var inner := Search(g, 1, n, {1}, 1);
    assert {} + {1} == {1};
    assert !Scan(g, [], n, inner.visited, 0).found;
    assert !Scan(g, later, n, inner.visited, 0).found;
  }

  function DiesOf(path: seq<Site>): (r: seq<Offset>)
    ensures |r| == |path| && forall k :: 0 <= k < |r| ==> r[k] == path[k].die
  {
    seq(|path|, k requires 0 <= k < |path| => path[k].die)
  }

  /** `graph` holds the tail-call sites of every subprogram of `info`. */
  ghost predicate Represents(info: Info, graph: Graph)
    requires WellFormed(info)
  {
    && Closed(graph)
    && (forall f {:trigger SitesMatch(info, graph, f)} | f in graph :: SitesMatch(info, graph, f))
    && (forall f :: f in graph <==> f in info.dies && info.dies[f].tag == Subprogram)
  }

  ghost predicate SitesMatch(info: Info, graph: Graph, f: Offset)
    requires WellFormed(info) && f in graph
  {
    && f in info.dies
    && (forall s <- TailCallSites(info, f) :: s in info.dies)
    && graph[f] == SitesOf(info, TailCallSites(info, f))
  }

  lemma {:induction false} CallGraphRepresents(info: Info)
    requires WellFormed(info)
    ensures Represents(info, CallGraph(info))
  {
    var graph := CallGraph(info);
    forall f | f in graph ensures SitesMatch(info, graph, f) {
      TailCallsAreDies(info, CallSites(info, f));
    }
  }

  /** What is left of a scan yields the rest of what the whole scan does. */
  ghost predicate LeadsTo(before: seq<Offset>, want: Outcome, now: seq<Offset>, r: Outcome) {
    want.found == r.found && want.path == r.path && want.visited == r.visited &&
      before + want.expanded == now + r.expanded
  }

  /** A site that is passed over changes nothing. */
  lemma ScanPassesOver(g: Graph, sites: seq<Site>, target: Offset, visited: set<Offset>, depth: nat)
    requires Closed(g) && SitesIn(g, sites) && depth <= MAX_DEPTH && sites != []
    requires sites[0].origin.Some? ==> sites[0].origin.value != target && sites[0].origin.value in visited
    ensures Scan(g, sites, target, visited, depth) == Scan(g, sites[1..], target, visited, depth)
  {
  }

  /** A site that was tried in vain leaves its marks and its expansions. */
  lemma ScanGoesOn(g: Graph, sites: seq<Site>, origin: Offset, target: Offset, visited: set<Offset>, depth: nat,
      now: seq<Offset>)
    requires Closed(g) && SitesIn(g, sites) && depth <= MAX_DEPTH && sites != [] && sites[0].origin == Some(origin)
    requires origin in g && origin != target && origin !in visited
    requires !Search(g, origin, target, visited + {origin}, depth + 1).found
    ensures var inner := Search(g, origin, target, visited + {origin}, depth + 1);
            LeadsTo(now, Scan(g, sites, target, visited, depth), now + inner.expanded,
                    Scan(g, sites[1..], target, inner.visited, depth))
  {
  }

  lemma Regrouped(a: seq<Offset>, b: seq<Offset>, c: seq<Offset>)
    ensures a + b + c == a + (b + c)
  {
  }

  /** The search with its in-place chain and its set of visited functions. */
  class ChainSearch {
    const info: Info
    ghost const graph: Graph
    var chain: seq<Offset>
    var visited: set<Offset>
    ghost var expanded: seq<Offset>

    constructor (info: Info)
      requires WellFormed(info)
      ensures this.info == info && graph == CallGraph(info) && Represents(info, graph)
      ensures chain == [] && visited == {} && expanded == []
    {
      this.info := info;
      graph := CallGraph(info);
      chain, visited, expanded := [], {}, [];
      CallGraphRepresents(info);
    }

    /** Extends `chain` with the tail calls from `fromFunc` to `target`, or leaves it as it was. */
    method Find(fromFunc: Option<Offset>, target: Offset, depth: nat) returns (found: bool)
      requires WellFormed(info) && Represents(info, graph)
      requires fromFunc.Some? ==> fromFunc.value in graph
      modifies this
      ensures fromFunc.None? ==> !found && chain == old(chain) && visited == old(visited) && expanded == old(expanded)
      ensures fromFunc.Some? ==>
                var r := Search(graph, fromFunc.value, target, old(visited), depth);
                found == r.found && visited == r.visited && expanded == old(expanded) + r.expanded &&
                chain == old(chain) + if found then DiesOf(r.path) else []
      decreases if depth > MAX_DEPTH then 0 else MAX_DEPTH + 1 - depth, 1
    {
      if fromFunc.None? || depth > MAX_DEPTH {
        return false;
      }
      assert SitesMatch(info, graph, fromFunc.value);
      ghost var all := graph[fromFunc.value];
      ghost var want := Scan(graph, all, target, visited, depth);
      expanded := expanded + [fromFunc.value];
      var sites := CollectTailCallSites(info, fromFunc.value, []);
      assert sites == TailCallSites(info, fromFunc.value);
      found := ScanSites(sites, all, target, depth);
      Regrouped(old(expanded), [fromFunc.value], want.expanded);
    }

    /** The loop of `Find` over the sites it collected. */
    method ScanSites(sites: seq<Offset>, ghost all: seq<Site>, target: Offset, depth: nat) returns (found: bool)
      requires WellFormed(info) && Represents(info, graph) && depth <= MAX_DEPTH
      requires |all| == |sites| && SitesIn(graph, all)
      requires forall k :: 0 <= k < |sites| ==>
               sites[k] in info.dies && all[k] == Site(sites[k], CallSiteOrigin(info, sites[k]))
      modifies this
      ensures var r := Scan(graph, all, target, old(visited), depth);
              found == r.found && visited == r.visited && expanded == old(expanded) + r.expanded &&
              chain == old(chain) + if found then DiesOf(r.path) else []
      decreases MAX_DEPTH + 1 - depth, 0
    {
      ghost var want := Scan(graph, all, target, visited, depth);
      ghost var rest := all;
      var i := 0;
      while i < |sites|
        invariant i <= |sites| && rest == all[i..] && SitesIn(graph, rest)
        invariant chain == old(chain)
        invariant LeadsTo(old(expanded), want, expanded, Scan(graph, rest, target, visited, depth))
      {
        var site := sites[i];
        assert rest[0] == all[i];
        assert OriginKnown(info, site);
        var origin := FindEnclosingSubprogram(info, info.dies[site].origin);
        if origin.Some? {
          if origin.value == target {
            chain := chain + [site];
            return true;
          }
          if origin.value !in visited {
            ghost var before, was := expanded, visited;
            var inner := TryOrigin(site, origin.value, target, depth);
            if inner {
              return true;
            }
            ScanGoesOn(graph, rest, origin.value, target, was, depth, before);
          } else {
            ScanPassesOver(graph, rest, target, visited, depth);
          }
        } else {
          ScanPassesOver(graph, rest, target, visited, depth);
        }
        rest := rest[1..];
        i := i + 1;
      }
      return false;
    }

    /** Marks `origin` and searches on from it, with `site` pushed on the chain meanwhile. */
    method TryOrigin(site: Offset, origin: Offset, target: Offset, depth: nat) returns (found: bool)
      requires WellFormed(info) && Represents(info, graph) && depth <= MAX_DEPTH
      requires origin in graph
      modifies this
      ensures var r := Search(graph, origin, target, old(visited) + {origin}, depth + 1);
              found == r.found && visited == r.visited && expanded == old(expanded) + r.expanded &&
              chain == old(chain) + if found then [site] + DiesOf(r.path) else []
      decreases MAX_DEPTH - depth, 2
    {
      visited := visited + {origin};
      chain := chain + [site];
      found := Find(Some(origin), target, depth + 1);
      if !found {
        chain := chain[..|chain| - 1];
      }
    }
  }
}
