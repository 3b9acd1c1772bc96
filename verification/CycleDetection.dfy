/** `detect_cycles`: a three-colour depth-first search that rebuilds a cycle at every back edge. */
module CycleDetection {
  import opened Ordering
  import opened Digraph

  datatype Color = White | Gray | Black

  function Reverse<T>(s: seq<T>): (r: seq<T>)
    ensures |r| == |s|
  {
    if s == [] then [] else [s[|s| - 1]] + Reverse(s[..|s| - 1])
  }

  /** `c` is what the walk back through `parent` yields for the back edge from the end of the
      search path `p` to `v`: the part of `p` after the nearest earlier `v` or empty name, then `v`. */
  ghost predicate ReportOf(g: Graph, c: seq<string>, p: seq<string>, v: string, k: nat) {
    && k < |p| && NoDup(p) && Walk(g, p)
    && v in p && g.Edge(p[|p| - 1], v)
    && c == p[k..] + [v]
    && (forall i :: k <= i < |p| - 1 ==> p[i] != "" && p[i] != v)
    && (k == 0 || p[k - 1] == "" || p[k - 1] == v)
  }

  ghost predicate IsReport(g: Graph, c: seq<string>) {
    exists p, v, k :: ReportOf(g, c, p, v, k)
  }

  /** `p` is a path of the search started at key `n`: no earlier key leads to any of its nodes. */
  ghost predicate SearchPath(g: Graph, p: seq<string>, n: nat) {
    && n < |g.order| && p != [] && p[0] == g.order[n]
    && forall m, x :: 0 <= m < n && x in p ==> !Reaches(g, g.order[m], x)
  }

  /** A report whose path the search of some key has taken. */
  ghost predicate SearchReport(g: Graph, c: seq<string>) {
    exists p, v, k, n :: ReportOf(g, c, p, v, k) && SearchPath(g, p, n)
  }

  lemma SearchReportIsReport(g: Graph, c: seq<string>)
    requires SearchReport(g, c)
    ensures IsReport(g, c)
  {
    var p, v, k, n :| ReportOf(g, c, p, v, k) && SearchPath(g, p, n);
  }

  /** The report closes with the edge from `u` to `v`. */
  predicate EdgeEnds(c: seq<string>, u: string, v: string) {
    |c| >= 2 && c[|c| - 2] == u && c[|c| - 1] == v
  }

  ghost predicate EdgeReported(cycles: seq<seq<string>>, u: string, v: string) {
    exists i :: 0 <= i < |cycles| && EdgeEnds(cycles[i], u, v)
  }

  /** How many reports close with that edge. */
  function EndCount(cycles: seq<seq<string>>, u: string, v: string): nat {
    if cycles == [] then 0
    else EndCount(cycles[..|cycles| - 1], u, v) + if EdgeEnds(cycles[|cycles| - 1], u, v) then 1 else 0
  }

  /** The part of a search path from `v` on is closed by the back edge to `v`. */
  lemma PathLoop(g: Graph, p: seq<string>, v: string) returns (i: nat)
    requires Walk(g, p) && v in p && g.Edge(p[|p| - 1], v)
    ensures i < |p| && p[i] == v && ClosedWalk(g, p[i..])
  {
    i :| 0 <= i < |p| && p[i] == v;
  }

  lemma ReportHasCycle(g: Graph, c: seq<string>)
    requires IsReport(g, c)
    ensures HasCycle(g)
  {
    var p, v, k :| ReportOf(g, c, p, v, k);
    var i := PathLoop(g, p, v);
  }

  /** With no empty name on the closed part of the path, the walk back stops just after `v`. */
  lemma StopsAtTarget(g: Graph, c: seq<string>, p: seq<string>, v: string, k: nat, i: nat)
    requires ReportOf(g, c, p, v, k) && i < |p| - 1 && p[i] == v
    requires "" !in p[i..]
    ensures k == i + 1
  {
    assert k > i ==> p[k - 1] in p[i..];
  }

  /** Without empty names on the cycle, a report that closes no self-loop is a simple cycle. */
  lemma ReportIsSimpleCycle(g: Graph, c: seq<string>)
    requires IsReport(g, c) && !OnCycle(g, "")
    requires forall u :: !g.Edge(u, u)
    ensures SimpleCycle(g, c)
  {
    var p, v, k :| ReportOf(g, c, p, v, k);
    var i := PathLoop(g, p, v);
    assert p[|p| - 1] != v;
    StopsAtTarget(g, c, p, v, k, i);
    assert ClosedWalk(g, c) by {
      assert forall j :: 0 < j < |c| ==> g.Edge(c[j - 1], c[j]);
    }
    assert NoDup(c);
  }

  /** The reports are all simple cycles exactly when no node has an edge to itself. */
  lemma ReportsSimpleIffNoSelfLoop(g: Graph, cycles: seq<seq<string>>)
    requires !OnCycle(g, "")
    requires forall c :: c in cycles ==> IsReport(g, c)
    requires forall u :: g.Edge(u, u) ==> EdgeReported(cycles, u, u)
    ensures (forall c :: c in cycles ==> SimpleCycle(g, c)) <==> forall u :: !g.Edge(u, u)
  {
    if u :| g.Edge(u, u) {
      var i :| 0 <= i < |cycles| && EdgeEnds(cycles[i], u, u);
      assert cycles[i] in cycles && !NoDup(cycles[i]);
    } else {
      forall c | c in cycles ensures SimpleCycle(g, c) {
        ReportIsSimpleCycle(g, c);
      }
    }
  }

  /** `parent.get(x)`. */
  function ParentOf(parent: map<string, Option<string>>, x: string): Option<string> {
    if x in parent then parent[x] else None
  }

  /** Nodes the search has not entered yet; some may have no colour. */
  ghost function Unvisited(nodes: set<string>, color: map<string, Color>): set<string> {
    set x | x in nodes && (x !in color || color[x] == White)
  }

  /** The grey nodes are exactly the search path. */
  ghost predicate GrayIsPath(color: map<string, Color>, path: seq<string>) {
    && NoDup(path)
    && (forall x :: x in path <==> x in color && color[x] == Gray)
  }

  /** `parent` links the search path back to its root. */
  ghost predicate ParentChain(parent: map<string, Option<string>>, path: seq<string>) {
    && (forall i :: 0 < i < |path| ==> ParentOf(parent, path[i]) == Some(path[i - 1]))
    && (path != [] ==> ParentOf(parent, path[0]) == None)
  }

  ghost predicate EdgesIn(g: Graph, nodes: set<string>) {
    forall u, v :: g.Edge(u, v) ==> v in nodes
  }

  ghost predicate BlackIsFinished(color: map<string, Color>, finished: seq<string>) {
    forall x :: x in finished <==> x in color && color[x] == Black
  }

  ghost predicate ColorsOk(g: Graph, nodes: set<string>, color: map<string, Color>, finished: seq<string>,
                           path: seq<string>) {
    && Walk(g, path) && GrayIsPath(color, path)
    && g.adj.Keys <= color.Keys <= nodes && EdgesIn(g, nodes)
    && BlackIsFinished(color, finished)
  }

  /** `parent` knows nothing of unvisited nodes, but for the one about to be entered. */
  ghost predicate Parentless(parent: map<string, Option<string>>, unvisited: set<string>, entering: set<string>) {
    forall x :: x in unvisited - entering ==> ParentOf(parent, x) == None
  }

  ghost predicate ParentsOk(parent: map<string, Option<string>>, unvisited: set<string>, path: seq<string>,
                            entering: set<string>) {
    ParentChain(parent, path) && Parentless(parent, unvisited, entering)
  }

  ghost predicate AllReports(g: Graph, cycles: seq<seq<string>>) {
    forall c :: c in cycles ==> SearchReport(g, c)
  }

  /** Every edge out of a finished node leads to a node that finished earlier, or closes a report. */
  ghost predicate Caught(g: Graph, cycles: seq<seq<string>>, finished: seq<string>) {
    forall i, v :: 0 <= i < |finished| && g.Edge(finished[i], v) ==> EdgeCaught(cycles, finished, i, v)
  }

  ghost predicate EdgeCaught(cycles: seq<seq<string>>, finished: seq<string>, i: nat, v: string)
    requires i < |finished|
  {
    v in finished[..i] || EdgeReported(cycles, finished[i], v)
  }

  ghost predicate ReportsOk(g: Graph, cycles: seq<seq<string>>, finished: seq<string>) {
    AllReports(g, cycles) && Caught(g, cycles, finished)
  }

  ghost predicate ClosedUnder(g: Graph, s: set<string>) {
    forall u, v :: u in s && g.Edge(u, v) ==> v in s
  }

  /** The keys before `root` were settled, with all they lead to, before this search started. */
  ghost predicate Rooted(g: Graph, root: nat, settled: set<string>, finished: seq<string>, path: seq<string>) {
    && root <= |g.order| && (forall m :: 0 <= m < root ==> g.order[m] in settled)
    && ClosedUnder(g, settled) && settled <= Elements(finished)
    && (path != [] ==> root < |g.order| && path[0] == g.order[root])
  }

  /** Every successor of a finished node has been entered. */
  ghost predicate SuccessorsEntered(g: Graph, finished: seq<string>, unvisited: set<string>) {
    forall u, v :: u in finished && g.Edge(u, v) ==> v !in unvisited
  }

  lemma ColorsEntered(g: Graph, nodes: set<string>, color: map<string, Color>, finished: seq<string>,
                      path: seq<string>, u: string)
    requires ColorsOk(g, nodes, color, finished, path) && u in color && color[u] == White
    requires path != [] ==> g.Edge(path[|path| - 1], u)
    ensures ColorsOk(g, nodes, color[u := Gray], finished, path + [u])
    ensures Unvisited(nodes, color[u := Gray]) == Unvisited(nodes, color) - {u} && u in Unvisited(nodes, color)
  {
  }

  lemma GrayLeft(color: map<string, Color>, path: seq<string>, u: string)
    requires GrayIsPath(color, path + [u])
    ensures u in color && color[u] == Gray && GrayIsPath(color[u := Black], path)
  {
    assert (path + [u])[|path|] == u;
    assert forall i :: 0 <= i < |path| ==> (path + [u])[i] == path[i];
    assert forall x :: x in path ==> x in path + [u];
  }

  lemma ColorsLeft(g: Graph, nodes: set<string>, color: map<string, Color>, finished: seq<string>,
                   path: seq<string>, u: string)
    requires ColorsOk(g, nodes, color, finished, path + [u])
    ensures u in color && ColorsOk(g, nodes, color[u := Black], finished + [u], path)
    ensures Unvisited(nodes, color[u := Black]) == Unvisited(nodes, color)
  {
    GrayLeft(color, path, u);
    assert forall i :: 0 <= i < |path| ==> (path + [u])[i] == path[i];
  }

  lemma ParentsEntered(parent: map<string, Option<string>>, unvisited: set<string>, path: seq<string>, u: string)
    requires ParentsOk(parent, unvisited, path, {u})
    requires ParentOf(parent, u) == if path == [] then None else Some(path[|path| - 1])
    ensures ParentsOk(parent, unvisited - {u}, path + [u], {})
  {
  }

  lemma ParentsLeft(parent: map<string, Option<string>>, unvisited: set<string>, path: seq<string>, u: string)
    requires ParentsOk(parent, unvisited, path + [u], {})
    ensures ParentsOk(parent, unvisited, path, {})
  {
    assert forall i :: 0 <= i < |path| ==> (path + [u])[i] == path[i];
  }

  /** A node about to be entered gets the end of the path as its parent. */
  lemma ParentsFollowed(parent: map<string, Option<string>>, unvisited: set<string>, path: seq<string>, v: string,
                        u: string)
    requires ParentsOk(parent, unvisited, path, {}) && v !in path
    ensures ParentsOk(parent[v := Some(u)], unvisited, path, {v})
  {
    forall x | x != v ensures ParentOf(parent[v := Some(u)], x) == ParentOf(parent, x) {
    }
    forall x | x in unvisited - {v} ensures ParentOf(parent, x) == None {
      assert x in unvisited - {};
    }
    assert forall i :: 0 <= i < |path| ==> path[i] != v;
  }

  lemma ReportsLeft(g: Graph, cycles: seq<seq<string>>, finished: seq<string>, u: string)
    requires ReportsOk(g, cycles, finished)
    requires forall v :: g.Edge(u, v) ==> v in finished || EdgeReported(cycles, u, v)
    ensures ReportsOk(g, cycles, finished + [u])
  {
    var longer := finished + [u];
    forall i, v | 0 <= i < |longer| && g.Edge(longer[i], v) ensures EdgeCaught(cycles, longer, i, v) {
      assert longer[..i] == finished[..i];
      if i < |finished| {
        assert EdgeCaught(cycles, finished, i, v);
      }
    }
  }

  /** What has been reported stays reported. */
  lemma EdgeStaysReported(cycles: seq<seq<string>>, longer: seq<seq<string>>, u: string, v: string)
    requires cycles <= longer && EdgeReported(cycles, u, v)
    ensures EdgeReported(longer, u, v)
  {
    var i :| 0 <= i < |cycles| && EdgeEnds(cycles[i], u, v);
    assert longer[i] == cycles[i];
  }

  lemma ReportsGrow(g: Graph, cycles: seq<seq<string>>, finished: seq<string>, c: seq<string>)
    requires ReportsOk(g, cycles, finished) && SearchReport(g, c)
    ensures ReportsOk(g, cycles + [c], finished)
  {
    forall i, v | 0 <= i < |finished| && g.Edge(finished[i], v) ensures EdgeCaught(cycles + [c], finished, i, v) {
      assert EdgeCaught(cycles, finished, i, v);
      if EdgeReported(cycles, finished[i], v) {
        EdgeStaysReported(cycles, cycles + [c], finished[i], v);
      }
    }
  }

  lemma SearchLeft(g: Graph, root: nat, settled: set<string>, finished: seq<string>, unvisited: set<string>,
                   path: seq<string>, u: string)
    requires Rooted(g, root, settled, finished, path + [u]) && SuccessorsEntered(g, finished, unvisited)
    requires forall v :: g.Edge(u, v) ==> v !in unvisited
    ensures Rooted(g, root, settled, finished + [u], path) && SuccessorsEntered(g, finished + [u], unvisited)
  {
    ElementsConcat(finished, [u]);
    assert path != [] ==> (path + [u])[0] == path[0];
  }

  lemma {:induction false} ClosedReach(g: Graph, s: set<string>, p: seq<string>)
    requires ClosedUnder(g, s) && Walk(g, p) && p != [] && p[0] in s
    ensures p[|p| - 1] in s
  {
    if |p| > 1 {
      ClosedReach(g, s, p[..|p| - 1]);
      assert g.Edge(p[|p| - 2], p[|p| - 1]);
    }
  }

  /** The search path meets nothing an earlier key leads to: that was all finished before. */
  lemma PathOfSearch(g: Graph, root: nat, settled: set<string>, color: map<string, Color>, finished: seq<string>,
                     path: seq<string>)
    requires Rooted(g, root, settled, finished, path) && path != []
    requires GrayIsPath(color, path) && BlackIsFinished(color, finished)
    ensures SearchPath(g, path, root)
  {
    forall m, x | 0 <= m < root && x in path ensures !Reaches(g, g.order[m], x) {
      assert x !in finished;
      if Reaches(g, g.order[m], x) {
        var p :| WalkBetween(g, p, g.order[m], x);
        ClosedReach(g, settled, p);
      }
    }
  }

  /** Between two searches, the finished nodes are closed under edges. */
  lemma FinishedClosed(g: Graph, nodes: set<string>, color: map<string, Color>, finished: seq<string>)
    requires ColorsOk(g, nodes, color, finished, []) && SuccessorsEntered(g, finished, Unvisited(nodes, color))
    ensures ClosedUnder(g, Elements(finished))
  {
    forall u, v | u in Elements(finished) && g.Edge(u, v) ensures v in Elements(finished) {
      assert v in nodes && v !in Unvisited(nodes, color);
      assert v !in [];
    }
  }

  // ---- The reference search: one path, no colours and no parents ----

  /** The nodes entered and the reports made so far. */
  datatype Trace = Trace(seen: set<string>, reports: seq<seq<string>>)

  function Then(first: Trace, second: Trace): Trace {
    Trace(second.seen, first.reports + second.reports)
  }

  function WalkBack(p: seq<string>, v: string, k: nat): (r: nat)
    requires k < |p|
    ensures r <= k
  {
    if k == 0 || p[k - 1] == "" || p[k - 1] == v then k else WalkBack(p, v, k - 1)
  }

  /** The end of the path after the nearest earlier `v` or empty name, then `v`. */
  function CycleOf(p: seq<string>, v: string): seq<string>
    requires p != []
  {
    p[WalkBack(p, v, |p| - 1)..] + [v]
  }

  lemma {:induction false} WalkBackStops(p: seq<string>, v: string, j: nat, k: nat)
    requires k <= j < |p| && (k == 0 || p[k - 1] == "" || p[k - 1] == v)
    requires forall i :: k <= i < j ==> p[i] != "" && p[i] != v
    ensures WalkBack(p, v, j) == k
  {
    if k < j {
      WalkBackStops(p, v, j - 1, k);
    }
  }

  lemma ReportIsCycleOf(g: Graph, c: seq<string>, p: seq<string>, v: string, k: nat)
    requires ReportOf(g, c, p, v, k)
    ensures c == CycleOf(p, v)
  {
    WalkBackStops(p, v, |p| - 1, k);
  }

  /** The successors `vs` of the end of the path, in order: one on the path is reported, one not seen
      yet is searched. */
  function VisitEdges(g: Graph, nodes: set<string>, path: seq<string>, vs: seq<string>, seen: set<string>): (r: Trace)
    requires path != [] && EdgesIn(g, nodes) && Elements(vs) <= nodes
    ensures seen <= r.seen
    decreases nodes - seen, 1 + |vs|
  {
    if vs == [] then Trace(seen, [])
    else
      var init, v := vs[..|vs| - 1], vs[|vs| - 1];
      assert Elements(init) <= Elements(vs) && v in Elements(vs);
      var before := VisitEdges(g, nodes, path, init, seen);
      Then(before, VisitEdge(g, nodes, path, v, before.seen))
  }

  function VisitEdge(g: Graph, nodes: set<string>, path: seq<string>, v: string, seen: set<string>): (r: Trace)
    requires path != [] && EdgesIn(g, nodes) && v in nodes
    ensures seen <= r.seen
    decreases nodes - seen, 0
  {
    if v in path then Trace(seen, [CycleOf(path, v)])
    else if v in seen then Trace(seen, [])
    else
      SuccessorsIn(g, nodes, v);
      VisitEdges(g, nodes, path + [v], g.Succ(v), seen + {v})
  }

  lemma SuccessorsIn(g: Graph, nodes: set<string>, u: string)
    requires EdgesIn(g, nodes)
    ensures Elements(g.Succ(u)) <= nodes
  {
    forall v | v in Elements(g.Succ(u)) ensures v in nodes {
      assert g.Edge(u, v);
    }
  }

  /** The first `n` keys in order: one not seen yet is searched. */
  function VisitKeys(g: Graph, nodes: set<string>, n: nat): Trace
    requires EdgesIn(g, nodes) && n <= |g.order|
  {
    if n == 0 then Trace({}, []) else VisitKey(g, nodes, g.order[n - 1], VisitKeys(g, nodes, n - 1))
  }

  function VisitKey(g: Graph, nodes: set<string>, key: string, before: Trace): Trace
    requires EdgesIn(g, nodes)
  {
    if key in before.seen then before
    else
      SuccessorsIn(g, nodes, key);
      Then(before, VisitEdges(g, nodes, [key], g.Succ(key), before.seen + {key}))
  }

  lemma NodesHoldEdges(g: Graph)
    ensures EdgesIn(g, g.Nodes())
  {
    forall u, v | g.Edge(u, v) ensures v in g.Nodes() {
      EdgeNodes(g, u, v);
    }
  }

  function ReportsOf(g: Graph): seq<seq<string>> {
    NodesHoldEdges(g);
    VisitKeys(g, g.Nodes(), |g.order|).reports
  }

  /** The reference search of these successors yields the trace. */
  ghost predicate IsVisit(g: Graph, nodes: set<string>, path: seq<string>, vs: seq<string>, seen: set<string>,
                          trace: Trace)
  {
    && path != [] && EdgesIn(g, nodes) && Elements(vs) <= nodes
    && trace == VisitEdges(g, nodes, path, vs, seen)
  }

  lemma VisitStep(g: Graph, nodes: set<string>, path: seq<string>, vs: seq<string>, i: nat, seen: set<string>,
                  before: Trace, last: Trace)
    requires i < |vs| && vs[i] in nodes && IsVisit(g, nodes, path, vs[..i], seen, before)
    requires last == VisitEdge(g, nodes, path, vs[i], before.seen)
    ensures IsVisit(g, nodes, path, vs[..i + 1], seen, Then(before, last))
  {
    assert vs[..i + 1][..i] == vs[..i];
    FollowedElements(vs, i, nodes, {}, {});
  }

  lemma Associative<T>(a: seq<T>, b: seq<T>, c: seq<T>)
    ensures a + b + c == a + (b + c)
  {
  }

  lemma ReportRecorded(g: Graph, cycles: seq<seq<string>>, finished: seq<string>, cycle: seq<string>,
                       here: seq<string>, v: string, root: nat)
    requires ReportsOk(g, cycles, finished) && SearchPath(g, here, root)
    requires exists k :: ReportOf(g, cycle, here, v, k)
    ensures ReportsOk(g, cycles + [cycle], finished) && cycle == CycleOf(here, v)
    ensures EdgeReported(cycles + [cycle], here[|here| - 1], v)
  {
    var k :| ReportOf(g, cycle, here, v, k);
    ReportIsCycleOf(g, cycle, here, v, k);
    ReportsGrow(g, cycles, finished, cycle);
    assert EdgeEnds((cycles + [cycle])[|cycles|], here[|here| - 1], v);
  }

  class CycleDetector {
    const graph: Graph
    ghost const nodes: set<string>
    var color: map<string, Color>
    var parent: map<string, Option<string>>
    var cycles: seq<seq<string>>
    ghost var finished: seq<string>  // the black nodes, in the order they turned black
    ghost var root: nat              // the key whose search is running
    ghost var settled: set<string>   // the nodes finished before that search

    ghost predicate Inv(path: seq<string>, entering: set<string>)
      reads this
    {
      && ColorsOk(graph, nodes, color, finished, path)
      && ParentsOk(parent, Unvisited(nodes, color), path, entering)
      && ReportsOk(graph, cycles, finished)
      && Rooted(graph, root, settled, finished, path)
      && SuccessorsEntered(graph, finished, Unvisited(nodes, color))
    }

    /** The nodes the search has entered. */
    ghost function Seen(): set<string>
      reads this
    {
      nodes - Unvisited(nodes, color)
    }

    /** A call has entered nodes and recorded reports as the reference search does. */
    twostate predicate Did(r: Trace)
      reads this
    {
      Seen() == r.seen && cycles == old(cycles) + r.reports
    }

    /** Nothing a call has recorded before is lost, and it belongs to the same search. */
    twostate predicate Grows()
      reads this
    {
      && Unvisited(nodes, color) <= old(Unvisited(nodes, color))
      && (forall x :: x in old(finished) ==> x in finished)
      && old(cycles) <= cycles
      && root == old(root) && settled == old(settled)
    }

    constructor (g: Graph)
      requires g.Valid()
      ensures graph == g && nodes == g.Nodes() && Inv([], {}) && cycles == [] && Seen() == {}
    {
      graph := g;
      nodes := g.Nodes();
      color := map u | u in g.adj :: White;
      parent := map u | u in g.adj :: None;
      cycles := [];
      finished := [];
      root := 0;
      settled := {};
    }

    method Reconstruct(u: string, v: string, ghost path: seq<string>) returns (cycle: seq<string>)
      requires NoDup(path) && Walk(graph, path) && ParentChain(parent, path)
      requires path != [] && path[|path| - 1] == u
      requires v in path && graph.Edge(u, v)
      ensures exists k :: ReportOf(graph, cycle, path, v, k)
    {
      var chain := [v, u];
      var node := ParentOf(parent, u);
      ghost var k: nat := |path| - 1;
      while node.Some? && node.value != "" && node.value != v
        invariant k < |path|
        invariant Reverse(chain) == path[k..] + [v]
        invariant node == if k == 0 then None else Some(path[k - 1])
        invariant forall i :: k <= i < |path| - 1 ==> path[i] != "" && path[i] != v
        decreases k
      {
        assert (chain + [node.value])[..|chain|] == chain;
        chain := chain + [node.value];
        node := ParentOf(parent, node.value);
        k := k - 1;
      }
      cycle := Reverse(chain);
      assert ReportOf(graph, cycle, path, v, k);
    }

    method Dfs(u: string, ghost path: seq<string>)
      requires Inv(path, {u})
      requires u in color && color[u] == White
      requires if path == [] then root < |graph.order| && u == graph.order[root] else graph.Edge(path[|path| - 1], u)
      requires ParentOf(parent, u) == if path == [] then None else Some(path[|path| - 1])
      modifies this
      ensures Inv(path, {}) && Grows()
      ensures u in finished
      ensures Elements(graph.Succ(u)) <= nodes
      ensures Did(VisitEdges(graph, nodes, path + [u], graph.Succ(u), old(Seen()) + {u}))
      decreases Unvisited(nodes, color), 0
    {
      Enter(u, path);
      FollowAll(u, path + [u]);
      FollowedAll(u);
      Leave(u, path);
    }

    lemma FollowedAll(u: string)
      requires Followed(u, graph.Succ(u))
      ensures forall v :: graph.Edge(u, v) ==> v in finished || EdgeReported(cycles, u, v)
      ensures forall v :: graph.Edge(u, v) ==> v !in Unvisited(nodes, color)
    {
      forall v | graph.Edge(u, v) ensures v !in Unvisited(nodes, color) {
        assert v in Elements(graph.Succ(u));
      }
    }

    /** The loop of `dfs` over the successors of the grey node `u`. */
    method FollowAll(u: string, ghost here: seq<string>)
      requires Inv(here, {})
      requires here != [] && here[|here| - 1] == u
      modifies this
      ensures Inv(here, {}) && Grows()
      ensures Followed(u, graph.Succ(u))
      ensures Did(VisitEdges(graph, nodes, here, graph.Succ(u), old(Seen())))
      decreases Unvisited(nodes, color), 3
    {
      var succ := graph.Succ(u);
      SuccessorsIn(graph, nodes, u);
      ghost var trace := Trace(Seen(), []);
      for i := 0 to |succ|
        invariant Inv(here, {}) && Grows()
        invariant Followed(u, succ[..i])
        invariant IsVisit(graph, nodes, here, succ[..i], old(Seen()), trace)
        invariant Did(trace)
      {
        ghost var last := FollowNext(u, succ, i, here);
        VisitStep(graph, nodes, here, succ, i, old(Seen()), trace, last);
        Associative(old(cycles), trace.reports, last.reports);
        trace := Then(trace, last);
      }
      assert succ[..|succ|] == succ;
    }

    /** These successors of `u` have been entered, and each has finished or closes a report. */
    ghost predicate Followed(u: string, vs: seq<string>)
      reads this
    {
      Elements(vs) <= nodes && AllHandled(cycles, finished, u, vs) && Elements(vs) !! Unvisited(nodes, color)
    }

    /** One more successor. */
    method FollowNext(u: string, succ: seq<string>, i: nat, ghost here: seq<string>) returns (ghost last: Trace)
      requires Inv(here, {})
      requires here != [] && here[|here| - 1] == u && succ == graph.Succ(u) && i < |succ|
      requires Followed(u, succ[..i])
      modifies this
      ensures Inv(here, {}) && Grows()
      ensures Followed(u, succ[..i + 1])
      ensures succ[i] in nodes && last == VisitEdge(graph, nodes, here, succ[i], old(Seen())) && Did(last)
      decreases Unvisited(nodes, color), 2
    {
      assert graph.Edge(u, succ[i]);
      last := VisitEdge(graph, nodes, here, succ[i], Seen());
      Follow(u, succ[i], here);
      HandledGrows(old(cycles), cycles, old(finished), finished, u, succ, i);
      FollowedElements(succ, i, nodes, old(Unvisited(nodes, color)), Unvisited(nodes, color));
    }

    /** `color[u] = GRAY`. */
    method Enter(u: string, ghost path: seq<string>)
      requires Inv(path, {u})
      requires u in color && color[u] == White
      requires if path == [] then root < |graph.order| && u == graph.order[root] else graph.Edge(path[|path| - 1], u)
      requires ParentOf(parent, u) == if path == [] then None else Some(path[|path| - 1])
      modifies this`color
      ensures Inv(path + [u], {})
      ensures Unvisited(nodes, color) == old(Unvisited(nodes, color)) - {u}
      ensures u in old(Unvisited(nodes, color)) && Seen() == old(Seen()) + {u}
    {
      ColorsEntered(graph, nodes, color, finished, path, u);
      ParentsEntered(parent, Unvisited(nodes, color), path, u);
      color := color[u := Gray];
    }

    /** The loop body of `dfs`: the edge from the grey node `u` to `v`. */
    method Follow(u: string, v: string, ghost here: seq<string>)
      requires Inv(here, {})
      requires here != [] && here[|here| - 1] == u && graph.Edge(u, v)
      modifies this
      ensures Inv(here, {}) && Grows()
      ensures v in finished || EdgeReported(cycles, u, v)
      ensures v !in Unvisited(nodes, color)
      ensures v in nodes && Did(VisitEdge(graph, nodes, here, v, old(Seen())))
      decreases Unvisited(nodes, color), 1
    {
      Discover(v, here);
      if color[v] == Gray {
        Report(u, v, here);
      } else if color[v] == White {
        ParentsFollowed(parent, Unvisited(nodes, color), here, v, u);
        parent := parent[v := Some(u)];
        Dfs(v, here);
      }
    }

    /** `if v not in color: color[v] = WHITE`. */
    method Discover(v: string, ghost path: seq<string>)
      requires Inv(path, {}) && v in nodes
      modifies this`color
      ensures Inv(path, {}) && Unvisited(nodes, color) == old(Unvisited(nodes, color))
      ensures v in color
    {
      if v !in color {
        ghost var before := color;
        color := color[v := White];
        assert Unvisited(nodes, color) == Unvisited(nodes, before);
        assert forall x :: x in before ==> color[x] == before[x];
      }
    }

    /** A grey target: rebuild the cycle and record it. */
    method Report(u: string, v: string, ghost here: seq<string>)
      requires Inv(here, {})
      requires here != [] && here[|here| - 1] == u && graph.Edge(u, v) && v in here
      modifies this`cycles
      ensures Inv(here, {}) && cycles == old(cycles) + [CycleOf(here, v)]
      ensures EdgeReported(cycles, u, v)
    {
      var cycle := Reconstruct(u, v, here);
      PathOfSearch(graph, root, settled, color, finished, here);
      ReportRecorded(graph, cycles, finished, cycle, here, v, root);
      cycles := cycles + [cycle];
    }

    /** `color[u] = BLACK`. */
    method Leave(u: string, ghost path: seq<string>)
      requires Inv(path + [u], {})
      requires forall v :: graph.Edge(u, v) ==> v in finished || EdgeReported(cycles, u, v)
      requires forall v :: graph.Edge(u, v) ==> v !in Unvisited(nodes, color)
      modifies this`color, this`finished
      ensures Inv(path, {}) && finished == old(finished) + [u]
      ensures Unvisited(nodes, color) == old(Unvisited(nodes, color))
    {
      ColorsLeft(graph, nodes, color, finished, path, u);
      ParentsLeft(parent, Unvisited(nodes, color), path, u);
      ReportsLeft(graph, cycles, finished, u);
      SearchLeft(graph, root, settled, finished, Unvisited(nodes, color), path, u);
      color := color[u := Black];
      finished := finished + [u];
    }

    /** The first `i` keys are done, as the reference search does them. */
    ghost predicate KeysDone(i: nat)
      reads this
    {
      && Inv([], {}) && i <= |graph.order| && (forall j :: 0 <= j < i ==> graph.order[j] in finished)
      && Trace(Seen(), cycles) == VisitKeys(graph, nodes, i)
    }

    /** The outer loop of `detect_cycles`. */
    method Run()
      requires graph.Valid() && KeysDone(0)
      modifies this
      ensures KeysDone(|graph.order|)
    {
      for i := 0 to |graph.order|
        invariant KeysDone(i)
      {
        RunKey(i);
      }
    }

    /** The loop body: a key that is still white is searched. */
    method RunKey(i: nat)
      requires graph.Valid() && i < |graph.order| && KeysDone(i)
      modifies this
      ensures KeysDone(i + 1)
    {
      var node := graph.order[i];
      assert node in Elements(graph.order);
      if color[node] == White {
        Search(i);
      }
    }

    /** The search of one key. */
    method Search(i: nat)
      requires Inv([], {}) && i < |graph.order|
      requires forall j :: 0 <= j < i ==> graph.order[j] in finished
      requires graph.order[i] in color && color[graph.order[i]] == White
      modifies this
      ensures Inv([], {}) && graph.order[i] in finished
      ensures forall x :: x in old(finished) ==> x in finished
      ensures Elements(graph.Succ(graph.order[i])) <= nodes
      ensures Did(VisitEdges(graph, nodes, [graph.order[i]], graph.Succ(graph.order[i]),
                             old(Seen()) + {graph.order[i]}))
    {
      FinishedClosed(graph, nodes, color, finished);
      root, settled := i, Elements(finished);
      assert [] + [graph.order[i]] == [graph.order[i]];
      Dfs(graph.order[i], []);
    }
  }

  lemma KeysFinished(g: Graph, finished: seq<string>)
    requires g.Valid() && forall j :: 0 <= j < |g.order| ==> g.order[j] in finished
    ensures g.adj.Keys <= Elements(finished)
  {
    forall x | x in g.adj.Keys ensures x in finished {
      assert x in Elements(g.order);
    }
  }

  // ---- Every cycle is caught ----

  ghost predicate AllHandled(cycles: seq<seq<string>>, finished: seq<string>, u: string, vs: seq<string>) {
    forall v :: v in vs ==> v in finished || EdgeReported(cycles, u, v)
  }

  lemma FollowedElements(vs: seq<string>, i: nat, nodes: set<string>, before: set<string>, unvisited: set<string>)
    requires i < |vs| && Elements(vs[..i]) <= nodes && Elements(vs[..i]) !! before && unvisited <= before
    requires vs[i] in nodes && vs[i] !in unvisited
    ensures Elements(vs[..i + 1]) <= nodes && Elements(vs[..i + 1]) !! unvisited
  {
    assert vs[..i + 1] == vs[..i] + [vs[i]];
    ElementsConcat(vs[..i], [vs[i]]);
    assert Elements([vs[i]]) == {vs[i]};
  }

  lemma HandledGrows(cycles: seq<seq<string>>, longer: seq<seq<string>>, done: seq<string>, finished: seq<string>,
                     u: string, vs: seq<string>, i: nat)
    requires i < |vs| && AllHandled(cycles, done, u, vs[..i]) && cycles <= longer
    requires forall x :: x in done ==> x in finished
    requires vs[i] in finished || EdgeReported(longer, u, vs[i])
    ensures AllHandled(longer, finished, u, vs[..i + 1])
  {
    assert vs[..i + 1] == vs[..i] + [vs[i]];
    forall v | v in vs[..i] ensures v in finished || EdgeReported(longer, u, v) {
      if v !in done {
        EdgeStaysReported(cycles, longer, u, v);
      }
    }
  }

  /** An edge of the closed walk. */
  ghost predicate OnWalk(p: seq<string>, u: string, v: string) {
    exists i :: 0 <= i < |p| && p[i] == u && p[if i == |p| - 1 then 0 else i + 1] == v
  }

  /** Some report closes with an edge of the walk. */
  ghost predicate WalkReported(cycles: seq<seq<string>>, p: seq<string>) {
    exists u, v :: OnWalk(p, u, v) && EdgeReported(cycles, u, v)
  }

  lemma {:induction false} FirstFinished(finished: seq<string>, p: seq<string>) returns (m: nat)
    requires exists x :: x in p && x in finished
    ensures m < |finished| && finished[m] in p && forall x :: x in p ==> x !in finished[..m]
  {
    var init := finished[..|finished| - 1];
    if exists x :: x in p && x in init {
      m := FirstFinished(init, p);
      assert finished[..m] == init[..m];
    } else {
      m := |finished| - 1;
      var x :| x in p && x in finished;
      assert finished == init + [finished[m]];
    }
  }

  /** The node of a closed walk that finished first closes a report with its edge on the walk. */
  lemma WalkIsReported(g: Graph, cycles: seq<seq<string>>, finished: seq<string>, p: seq<string>)
    requires Caught(g, cycles, finished) && g.adj.Keys <= Elements(finished) && ClosedWalk(g, p)
    ensures WalkReported(cycles, p)
  {
    var y := CycleSuccessor(g, p, p[0]);
    assert p[0] in p && p[0] in Elements(finished);
    var m := FirstFinished(finished, p);
    var i :| 0 <= i < |p| && p[i] == finished[m];
    var v := p[if i == |p| - 1 then 0 else i + 1];
    assert g.Edge(finished[m], v) && EdgeCaught(cycles, finished, m, v);
    assert OnWalk(p, finished[m], v);
  }

  // ---- No edge is reported more often than it is listed ----

  lemma {:induction false} EndCountConcat(x: seq<seq<string>>, y: seq<seq<string>>, a: string, b: string)
    ensures EndCount(x + y, a, b) == EndCount(x, a, b) + EndCount(y, a, b)
  {
    if y == [] {
      assert x + y == x;
    } else {
      EndCountConcat(x, y[..|y| - 1], a, b);
      assert (x + y)[..|x + y| - 1] == x + y[..|y| - 1];
    }
  }

  /** The edge from `a` to `b` closes `n` reports: none, or one for each time it is listed. */
  ghost predicate NoneOrAll(g: Graph, a: string, b: string, n: nat) {
    n == 0 || n == multiset(g.Succ(a))[b]
  }

  /** What a search reports of the edge: for the end of the path, one report for each listing of a node
      on the path; for a node entered by the search, none or all; for others nothing. */
  ghost predicate Counts(g: Graph, path: seq<string>, vs: seq<string>, seen: set<string>, r: Trace, a: string,
                         b: string)
    requires path != []
  {
    var n := EndCount(r.reports, a, b);
    if a == path[|path| - 1] then n == (if b in path then multiset(vs)[b] else 0)
    else if a in r.seen - seen then NoneOrAll(g, a, b, n)
    else n == 0
  }

  lemma {:induction false} VisitEdgesCounts(g: Graph, nodes: set<string>, path: seq<string>, vs: seq<string>,
                                            seen: set<string>, a: string, b: string)
    requires path != [] && EdgesIn(g, nodes) && Elements(vs) <= nodes && path[|path| - 1] in seen
    ensures Counts(g, path, vs, seen, VisitEdges(g, nodes, path, vs, seen), a, b)
    decreases nodes - seen, 1 + |vs|
  {
    if vs != [] {
      var i := |vs| - 1;
      assert vs[..i + 1] == vs;
      assert Elements(vs[..i]) <= Elements(vs) && vs[i] in Elements(vs);
      var before := VisitEdges(g, nodes, path, vs[..i], seen);
      var last := VisitEdge(g, nodes, path, vs[i], before.seen);
      VisitStep(g, nodes, path, vs, i, seen, before, last);
      VisitEdgesCounts(g, nodes, path, vs[..i], seen, a, b);
      VisitEdgeCounts(g, nodes, path, vs[i], before.seen, a, b);
      CountsThen(g, path, vs, i, seen, before, last, a, b);
    }
  }

  lemma CountsThen(g: Graph, path: seq<string>, vs: seq<string>, i: nat, seen: set<string>, before: Trace, last: Trace,
                   a: string, b: string)
    requires path != [] && path[|path| - 1] in seen && |vs| == i + 1
    requires seen <= before.seen <= last.seen
    requires Counts(g, path, vs[..i], seen, before, a, b) && Counts(g, path, [vs[i]], before.seen, last, a, b)
    ensures Counts(g, path, vs, seen, Then(before, last), a, b)
  {
    EndCountConcat(before.reports, last.reports, a, b);
    assert vs == vs[..i] + [vs[i]];
  }

  lemma {:induction false} VisitEdgeCounts(g: Graph, nodes: set<string>, path: seq<string>, v: string,
                                           seen: set<string>, a: string, b: string)
    requires path != [] && EdgesIn(g, nodes) && v in nodes && path[|path| - 1] in seen
    ensures Counts(g, path, [v], seen, VisitEdge(g, nodes, path, v, seen), a, b)
    decreases nodes - seen, 0
  {
    if v in path {
      var c := CycleOf(path, v);
      assert EdgeEnds(c, a, b) <==> a == path[|path| - 1] && b == v;
      assert [c][..0] == [];
    } else if v !in seen {
      SuccessorsIn(g, nodes, v);
      VisitEdgesCounts(g, nodes, path + [v], g.Succ(v), seen + {v}, a, b);
    }
  }

  /** What the searches of the first keys report of the edge: none or all, and nothing if `a` was not seen. */
  ghost predicate KeyCounts(g: Graph, r: Trace, a: string, b: string) {
    var n := EndCount(r.reports, a, b);
    NoneOrAll(g, a, b, n) && (a !in r.seen ==> n == 0)
  }

  lemma {:induction false} VisitKeysCounts(g: Graph, nodes: set<string>, n: nat, a: string, b: string)
    requires EdgesIn(g, nodes) && n <= |g.order|
    ensures KeyCounts(g, VisitKeys(g, nodes, n), a, b)
  {
    if n == 0 {
      NothingCounted(g, a, b);
    } else {
      VisitKeysCounts(g, nodes, n - 1, a, b);
      KeyAdds(g, nodes, g.order[n - 1], VisitKeys(g, nodes, n - 1), a, b);
    }
  }

  lemma NothingCounted(g: Graph, a: string, b: string)
    ensures KeyCounts(g, Trace({}, []), a, b)
  {
  }

  lemma KeyAdds(g: Graph, nodes: set<string>, key: string, before: Trace, a: string, b: string)
    requires EdgesIn(g, nodes) && KeyCounts(g, before, a, b)
    ensures KeyCounts(g, VisitKey(g, nodes, key, before), a, b)
  {
    if key !in before.seen {
      SuccessorsIn(g, nodes, key);
      var last := VisitEdges(g, nodes, [key], g.Succ(key), before.seen + {key});
      VisitEdgesCounts(g, nodes, [key], g.Succ(key), before.seen + {key}, a, b);
      OneKeyCounts(g, before, last, key, a, b);
    }
  }

  lemma OneKeyCounts(g: Graph, before: Trace, last: Trace, key: string, a: string, b: string)
    requires KeyCounts(g, before, a, b)
    requires key !in before.seen && before.seen + {key} <= last.seen
    requires Counts(g, [key], g.Succ(key), before.seen + {key}, last, a, b)
    ensures KeyCounts(g, Then(before, last), a, b)
  {
    EndCountConcat(before.reports, last.reports, a, b);
  }

  /** Each edge closes no report, or exactly one for each time it is listed. */
  lemma ReportedOncePerListing(g: Graph, a: string, b: string)
    ensures NoneOrAll(g, a, b, EndCount(ReportsOf(g), a, b))
  {
    NodesHoldEdges(g);
    VisitKeysCounts(g, g.Nodes(), |g.order|, a, b);
  }

  /** What `detect_cycles` promises of its result. */
  ghost predicate Detected(g: Graph, cycles: seq<seq<string>>) {
    && (cycles == [] <==> !HasCycle(g))
    && (forall c :: c in cycles ==> SearchReport(g, c))
    && (forall p :: ClosedWalk(g, p) ==> WalkReported(cycles, p))
    && (forall u :: g.Edge(u, u) ==> EdgeReported(cycles, u, u))
    && (forall u, v :: NoneOrAll(g, u, v, EndCount(cycles, u, v)))
  }

  /** `detect_cycles`: the reports of the reference search, in its order. */
  method DetectCycles(g: Graph) returns (cycles: seq<seq<string>>)
    requires g.Valid()
    ensures cycles == ReportsOf(g)
    ensures Detected(g, cycles)
    ensures cycles == [] <==> !HasCycle(g)
    ensures forall c :: c in cycles ==> IsReport(g, c)
    ensures forall p :: ClosedWalk(g, p) ==> WalkReported(cycles, p)
    ensures forall u, v :: NoneOrAll(g, u, v, EndCount(cycles, u, v))
    ensures !OnCycle(g, "") ==>
              ((forall c :: c in cycles ==> SimpleCycle(g, c)) <==> forall u :: !g.Edge(u, u))
  {
    var detector := new CycleDetector(g);
    detector.Run();
    cycles := detector.cycles;
    KeysFinished(g, detector.finished);
    SearchDetects(g, cycles, detector.finished);
  }

  lemma SearchDetects(g: Graph, cycles: seq<seq<string>>, finished: seq<string>)
    requires cycles == ReportsOf(g) && ReportsOk(g, cycles, finished) && g.adj.Keys <= Elements(finished)
    ensures Detected(g, cycles) && forall c :: c in cycles ==> IsReport(g, c)
    ensures !OnCycle(g, "") ==>
              ((forall c :: c in cycles ==> SimpleCycle(g, c)) <==> forall u :: !g.Edge(u, u))
  {
    forall c | c in cycles ensures IsReport(g, c) {
      SearchReportIsReport(g, c);
    }
    forall p | ClosedWalk(g, p) ensures WalkReported(cycles, p) {
      WalkIsReported(g, cycles, finished, p);
    }
    forall u | g.Edge(u, u) ensures EdgeReported(cycles, u, u) {
      assert ClosedWalk(g, [u]);
    }
    forall u, v ensures NoneOrAll(g, u, v, EndCount(cycles, u, v)) {
      ReportedOncePerListing(g, u, v);
    }
    if cycles != [] {
      ReportHasCycle(g, cycles[0]);
    }
    assert forall p :: WalkReported(cycles, p) ==> cycles != [];
    if !OnCycle(g, "") {
      ReportsSimpleIffNoSelfLoop(g, cycles);
    }
  }

  // ---- Reports that are no cycles ----

  lemma PathFromFirst(g: Graph, p: seq<string>, n: nat, first: string, x: string)
    requires SearchPath(g, p, n) && g.order != [] && g.order[0] == first && x in p && Reaches(g, first, x)
    ensures n == 0 && p[0] == first
  {
  }

  /** The cycle a, "", b entered from a. */
  function EmptyNameGraph(): Graph {
    Graph(["a", "", "b"], map["a" := [""], "" := ["b"], "b" := ["a"]])
  }

  lemma EmptyNameEdges(u: string, v: string)
    ensures EmptyNameGraph().Edge(u, v) <==> (u == "a" && v == "") || (u == "" && v == "b") || (u == "b" && v == "a")
  {
  }

  lemma EmptyNameReaches(x: string)
    requires x in EmptyNameGraph().order
    ensures Reaches(EmptyNameGraph(), "a", x)
  {
    var g := EmptyNameGraph();
    EmptyNameEdges("a", "");
    EmptyNameEdges("", "b");
    assert WalkBetween(g, ["a"], "a", "a") && WalkBetween(g, ["a", ""], "a", "");
    assert WalkBetween(g, ["a", "", "b"], "a", "b");
  }

  /** The only path of that search with a back edge at its end. */
  lemma EmptyNamePath(p: seq<string>, v: string, n: nat)
    requires SearchPath(EmptyNameGraph(), p, n) && Walk(EmptyNameGraph(), p) && NoDup(p)
    requires v in p && EmptyNameGraph().Edge(p[|p| - 1], v)
    ensures p == ["a", "", "b"] && v == "a"
  {
    var g := EmptyNameGraph();
    var fourth := if |p| > 3 then p[3] else "a";
    EmptyNameReaches(g.order[n]);
    PathFromFirst(g, p, n, "a", g.order[n]);
    EmptyNameEdges(p[|p| - 1], v);
    if |p| > 1 {
      EmptyNameEdges(p[0], p[1]);
    }
    if |p| > 2 {
      EmptyNameEdges(p[1], p[2]);
      EmptyNameEdges("b", fourth);
    }
  }

  lemma EmptyNameReport(c: seq<string>)
    requires SearchReport(EmptyNameGraph(), c)
    ensures c == ["b", "a"]
  {
    var p, v, k: nat, n: nat :| ReportOf(EmptyNameGraph(), c, p, v, k) && SearchPath(EmptyNameGraph(), p, n);
    EmptyNamePath(p, v, n);
    assert p[1] == "" && k == 2;
    assert p[2..] + ["a"] == ["b", "a"];
  }

  /** Why the empty name is excluded: a name that is falsy stops the walk back early. For the
      cycle a, "", b the search reports [b, a] and nothing else, and there is no edge from a to b. */
  lemma EmptyNameCutsReport(cycles: seq<seq<string>>)
    requires Detected(EmptyNameGraph(), cycles)
    ensures EmptyNameGraph().Valid() && forall u :: !EmptyNameGraph().Edge(u, u)
    ensures cycles != [] && forall c :: c in cycles ==> c == ["b", "a"]
    ensures !ClosedWalk(EmptyNameGraph(), ["b", "a"])
  {
    var g := EmptyNameGraph();
    forall u ensures !g.Edge(u, u) {
      EmptyNameEdges(u, u);
    }
    assert !ClosedWalk(g, ["b", "a"]) by {
      EmptyNameEdges("a", "b");
    }
    EmptyNameCycle();
    forall c | c in cycles ensures c == ["b", "a"] {
      EmptyNameReport(c);
    }
  }

  lemma EmptyNameCycle()
    ensures EmptyNameGraph().Valid() && HasCycle(EmptyNameGraph())
  {
    assert Elements(EmptyNameGraph().order) == EmptyNameGraph().adj.Keys;
    EmptyNameEdges("a", "");
    EmptyNameEdges("", "b");
    EmptyNameEdges("b", "a");
    assert ClosedWalk(EmptyNameGraph(), ["a", "", "b"]);
  }

  /** A self-loop on b, entered from a. */
  function SelfLoopGraph(): Graph {
    Graph(["a", "b"], map["a" := ["b"], "b" := ["b"]])
  }

  lemma SelfLoopEdges(u: string, v: string)
    ensures SelfLoopGraph().Edge(u, v) <==> (u == "a" || u == "b") && v == "b"
  {
  }

  lemma SelfLoopReaches(x: string)
    requires x in SelfLoopGraph().order
    ensures Reaches(SelfLoopGraph(), "a", x)
  {
    SelfLoopEdges("a", "b");
    assert WalkBetween(SelfLoopGraph(), ["a"], "a", "a") && WalkBetween(SelfLoopGraph(), ["a", "b"], "a", "b");
  }

  lemma SelfLoopOnlyReport(c: seq<string>)
    requires SearchReport(SelfLoopGraph(), c)
    ensures c == ["a", "b", "b"]
  {
    var g := SelfLoopGraph();
    var p, v, k: nat, n: nat :| ReportOf(g, c, p, v, k) && SearchPath(g, p, n);
    SelfLoopPath(p, v, n);
    assert p[0] == "a" && k == 0;
    assert p[0..] + ["b"] == ["a", "b", "b"];
  }

  lemma SelfLoopPath(p: seq<string>, v: string, n: nat)
    requires SearchPath(SelfLoopGraph(), p, n) && Walk(SelfLoopGraph(), p) && NoDup(p)
    requires v in p && SelfLoopGraph().Edge(p[|p| - 1], v)
    ensures p == ["a", "b"] && v == "b"
  {
    var g := SelfLoopGraph();
    var third := if |p| > 2 then p[2] else "b";
    SelfLoopReaches(g.order[n]);
    PathFromFirst(g, p, n, "a", g.order[n]);
    SelfLoopEdges(p[|p| - 1], v);
    if |p| > 1 {
      SelfLoopEdges(p[0], p[1]);
      SelfLoopEdges("b", third);
    }
  }

  /** A self-loop away from the root of the search drags in the path above it: for the loop on b,
      entered from a, the search reports [a, b, b] and nothing else, and b has no edge to a. */
  lemma SelfLoopReport(cycles: seq<seq<string>>)
    requires Detected(SelfLoopGraph(), cycles)
    ensures SelfLoopGraph().Valid() && !OnCycle(SelfLoopGraph(), "")
    ensures cycles != [] && forall c :: c in cycles ==> c == ["a", "b", "b"]
    ensures !ClosedWalk(SelfLoopGraph(), ["a", "b", "b"])
  {
    var g := SelfLoopGraph();
    assert Elements(g.order) == g.adj.Keys;
    forall q ensures !(ClosedWalk(g, q) && "" in q) {
      if ClosedWalk(g, q) && "" in q {
        var y := CycleSuccessor(g, q, "");
      }
    }
    SelfLoopEdges("b", "b");
    SelfLoopEdges("b", "a");
    assert ClosedWalk(g, ["b"]);
    forall c | c in cycles ensures c == ["a", "b", "b"] {
      SelfLoopOnlyReport(c);
    }
  }
}
