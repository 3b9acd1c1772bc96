/** `topological_sort`: Kahn's algorithm with in-degree counts, a FIFO queue and sorted neighbours. */
module TopologicalSort {
  import opened Ordering
  import opened Digraph

  /** After the first `k` outputs of `r`, every predecessor of `x` has been output. */
  ghost predicate Ready(g: Graph, r: seq<string>, k: nat, x: string) {
    k <= |r| && forall p :: g.Edge(p, x) ==> p in r[..k]
  }

  ghost predicate ReadyEarlier(g: Graph, r: seq<string>, x: string, y: string) {
    exists k :: 0 <= k <= |r| && Ready(g, r, k, x) && !Ready(g, r, k, y)
  }

  ghost predicate ReadyTogether(g: Graph, r: seq<string>, x: string, y: string) {
    forall k :: 0 <= k <= |r| ==> (Ready(g, r, k, x) <==> Ready(g, r, k, y))
  }

  /** `x` leaves the queue before `y`: it became ready earlier, or at the same output and by name. */
  ghost predicate Before(g: Graph, r: seq<string>, x: string, y: string) {
    ReadyEarlier(g, r, x, y) || (ReadyTogether(g, r, x, y) && Less(x, y))
  }

  ghost predicate PredecessorsFirst(g: Graph, r: seq<string>) {
    forall i :: 0 <= i < |r| ==> Ready(g, r, i, r[i])
  }

  ghost predicate Exhausted(g: Graph, nodes: set<string>, r: seq<string>) {
    forall x :: x in nodes && Ready(g, r, |r|, x) ==> x in r
  }

  ghost predicate LeavingOrder(g: Graph, r: seq<string>, s: seq<string>) {
    forall i, j :: 0 <= i < j < |s| ==> Before(g, r, s[i], s[j])
  }

  /** What `topological_sort` returns, stated without its counters or its queue. */
  ghost predicate KahnOrder(g: Graph, r: seq<string>) {
    && NoDup(r) && Elements(r) <= g.Nodes()
    && PredecessorsFirst(g, r)
    && Exhausted(g, g.Nodes(), r)
    && LeavingOrder(g, r, r)
  }

  lemma ReadyMonotone(g: Graph, r: seq<string>, j: nat, k: nat, x: string)
    requires Ready(g, r, j, x) && j <= k <= |r|
    ensures Ready(g, r, k, x)
  {
    assert r[..j] == r[..k][..j];
  }

  lemma ReadyPrefix(g: Graph, r: seq<string>, s: seq<string>, n: nat, k: nat, x: string)
    requires k <= n <= |r| && n <= |s| && r[..n] == s[..n]
    ensures Ready(g, r, k, x) <==> Ready(g, s, k, x)
  {
    assert r[..k] == r[..n][..k] == s[..n][..k] == s[..k];
  }

  // ---- Nodes left out ----

  lemma {:induction false} CycleNotOutput(g: Graph, r: seq<string>, p: seq<string>, n: nat)
    requires PredecessorsFirst(g, r) && ClosedWalk(g, p) && n <= |r|
    ensures forall u :: u in p ==> u !in r[..n]
  {
    if n > 0 {
      CycleNotOutput(g, r, p, n - 1);
      assert r[..n] == r[..n - 1] + [r[n - 1]];
      assert Ready(g, r, n - 1, r[n - 1]);
      if r[n - 1] in p {
        var y := CyclePredecessor(g, p, r[n - 1]);
      }
    }
  }

  lemma OutputPredecessors(g: Graph, r: seq<string>, u: string, v: string)
    requires PredecessorsFirst(g, r) && g.Edge(u, v) && v in r
    ensures u in r
  {
    var i :| 0 <= i < |r| && r[i] == v;
    assert Ready(g, r, i, r[i]);
  }

  lemma {:induction false} WalkFromOutside(g: Graph, r: seq<string>, p: seq<string>)
    requires PredecessorsFirst(g, r) && Walk(g, p) && p != [] && p[0] !in r
    ensures p[|p| - 1] !in r
  {
    if |p| > 1 {
      var init := p[..|p| - 1];
      assert g.Edge(p[|p| - 2], p[|p| - 1]);
      WalkFromOutside(g, r, init);
      if p[|p| - 1] in r {
        OutputPredecessors(g, r, p[|p| - 2], p[|p| - 1]);
      }
    }
  }

  lemma BackEdgeCycle(g: Graph, p: seq<string>, k: nat)
    requires Walk(g, p) && k < |p| && g.Edge(p[k], p[0])
    ensures BehindCycle(g, p[|p| - 1])
  {
    var loop := p[..k + 1];
    assert ClosedWalk(g, loop) && p[0] in loop;
    assert WalkBetween(g, p, p[0], p[|p| - 1]);
    assert OnCycle(g, p[0]) && Reaches(g, p[0], p[|p| - 1]);
  }

  lemma MissingPredecessor(g: Graph, nodes: set<string>, r: seq<string>, x: string) returns (y: string)
    requires Exhausted(g, nodes, r) && x in nodes && x !in r
    ensures g.Edge(y, x) && y !in r
  {
    assert !Ready(g, r, |r|, x);
    assert r[..|r|] == r;
    y :| g.Edge(y, x) && y !in r;
  }

  /** A walk over distinct nodes, all of them in `nodes`. */
  ghost predicate BackWalk(g: Graph, nodes: set<string>, p: seq<string>) {
    Walk(g, p) && p != [] && NoDup(p) && Elements(p) <= nodes
  }

  lemma BackWalkGrows(g: Graph, nodes: set<string>, p: seq<string>, y: string)
    requires BackWalk(g, nodes, p) && g.Edge(y, p[0]) && y !in p && y in nodes
    ensures BackWalk(g, nodes, [y] + p) && |p| < |nodes|
  {
    var q := [y] + p;
    WalkCons(g, y, p);
    ElementsConcat([y], p);
    NoDupCard(q);
    SubsetCard(Elements(q), nodes);
  }

  /** Walking back through predecessors that were not output must revisit a node. */
  lemma {:induction false} WalkBack(g: Graph, nodes: set<string>, r: seq<string>, p: seq<string>)
    requires Exhausted(g, nodes, r) && nodes == g.Nodes()
    requires BackWalk(g, nodes, p) && p[0] !in r
    ensures BehindCycle(g, p[|p| - 1])
    decreases |nodes| - |p|
  {
    assert p[0] in Elements(p);
    var y := MissingPredecessor(g, nodes, r, p[0]);
    if y in p {
      var k :| 0 <= k < |p| && p[k] == y;
      BackEdgeCycle(g, p, k);
    } else {
      EdgeNodes(g, y, p[0]);
      BackWalkGrows(g, nodes, p, y);
      WalkBack(g, nodes, r, [y] + p);
    }
  }

  lemma WalkCons(g: Graph, y: string, p: seq<string>)
    requires Walk(g, p) && p != [] && g.Edge(y, p[0])
    ensures Walk(g, [y] + p)
  {
    var q := [y] + p;
    forall i | 0 < i < |q| ensures g.Edge(q[i - 1], q[i]) {
      if i > 1 { assert g.Edge(p[i - 2], p[i - 1]); }
    }
  }

  /** A Kahn order leaves out exactly the nodes that some cycle leads to. */
  lemma KahnOmits(g: Graph, r: seq<string>, x: string)
    requires PredecessorsFirst(g, r) && Exhausted(g, g.Nodes(), r) && x in g.Nodes()
    ensures x !in r <==> BehindCycle(g, x)
  {
    if BehindCycle(g, x) {
      var c :| OnCycle(g, c) && Reaches(g, c, x);
      var loop :| ClosedWalk(g, loop) && c in loop;
      CycleNotOutput(g, r, loop, |r|);
      assert r[..|r|] == r;
      var p :| WalkBetween(g, p, c, x);
      WalkFromOutside(g, r, p);
    } else if x !in r {
      assert Elements([x]) == {x};
      WalkBack(g, g.Nodes(), r, [x]);
    }
  }

  /** Every node is output exactly when the graph has no cycle. */
  lemma KahnCompleteIffAcyclic(g: Graph, r: seq<string>)
    requires KahnOrder(g, r)
    ensures Elements(r) == g.Nodes() <==> !HasCycle(g)
    ensures |r| == |g.Nodes()| <==> !HasCycle(g)
  {
    NoDupCard(r);
    SubsetCard(Elements(r), g.Nodes());
    if HasCycle(g) {
      var p :| ClosedWalk(g, p);
      CycleNotOutput(g, r, p, |r|);
      assert r[..|r|] == r;
      var y := CycleSuccessor(g, p, p[0]);
      EdgeNodes(g, p[0], y);
      assert p[0] in p && p[0] !in Elements(r);
    } else {
      forall x | x in g.Nodes() ensures x in Elements(r) {
        KahnOmits(g, r, x);
      }
    }
  }

  // ---- The order is determined by the edge relation ----

  lemma EarlierAsymmetric(g: Graph, r: seq<string>, x: string, y: string)
    requires ReadyEarlier(g, r, x, y)
    ensures !ReadyEarlier(g, r, y, x) && !ReadyTogether(g, r, x, y) && !ReadyTogether(g, r, y, x)
  {
    var k: nat :| k <= |r| && Ready(g, r, k, x) && !Ready(g, r, k, y);
    forall l: nat | l <= |r| && Ready(g, r, l, y) ensures Ready(g, r, l, x) {
      if k <= l { ReadyMonotone(g, r, k, l, x); } else { ReadyMonotone(g, r, l, k, y); }
    }
  }

  lemma BeforeAsymmetric(g: Graph, r: seq<string>, x: string, y: string)
    ensures !(Before(g, r, x, y) && Before(g, r, y, x))
  {
    LessAsymmetric(x, y);
    if ReadyEarlier(g, r, x, y) { EarlierAsymmetric(g, r, x, y); }
    if ReadyEarlier(g, r, y, x) { EarlierAsymmetric(g, r, y, x); }
  }

  /** Among nodes ready within a common prefix, the leaving order depends on that prefix only. */
  lemma BeforeTransfer(g: Graph, r: seq<string>, s: seq<string>, n: nat, x: string, y: string)
    requires n <= |r| && n <= |s| && r[..n] == s[..n]
    requires Ready(g, r, n, x) && Ready(g, r, n, y)
    requires Before(g, r, x, y)
    ensures Before(g, s, x, y)
  {
    forall k: nat, z | k <= n && (z == x || z == y) ensures Ready(g, r, k, z) <==> Ready(g, s, k, z) {
      ReadyPrefix(g, r, s, n, k, z);
    }
    if ReadyEarlier(g, r, x, y) {
      var k: nat :| k <= |r| && Ready(g, r, k, x) && !Ready(g, r, k, y);
      if n <= k { ReadyMonotone(g, r, n, k, y); }
      assert Ready(g, s, k, x) && !Ready(g, s, k, y);
    } else {
      forall k | 0 <= k <= |s| ensures Ready(g, s, k, x) <==> Ready(g, s, k, y) {
        if k <= n {
          assert Ready(g, r, k, x) <==> Ready(g, r, k, y);
        } else {
          ReadyMonotone(g, s, n, k, x);
          ReadyMonotone(g, s, n, k, y);
        }
      }
    }
  }

  lemma KahnNext(g: Graph, nodes: set<string>, r: seq<string>, s: seq<string>, n: nat) returns (i: nat)
    requires NoDup(r) && Elements(r) <= nodes && PredecessorsFirst(g, r) && Exhausted(g, nodes, s)
    requires n < |r| && n <= |s| && r[..n] == s[..n]
    ensures n <= i < |s| && s[i] == r[n]
    ensures Ready(g, r, n, r[n])
  {
    var x := r[n];
    assert Ready(g, r, n, x);
    ReadyPrefix(g, r, s, n, n, x);
    ReadyMonotone(g, s, n, |s|, x);
    assert x in Elements(r);
    i :| 0 <= i < |s| && s[i] == x;
  }

  lemma {:induction false} KahnPrefix(g: Graph, nodes: set<string>, r: seq<string>, s: seq<string>, n: nat)
    requires NoDup(r) && Elements(r) <= nodes && PredecessorsFirst(g, r) && Exhausted(g, nodes, r)
    requires NoDup(s) && Elements(s) <= nodes && PredecessorsFirst(g, s) && Exhausted(g, nodes, s)
    requires LeavingOrder(g, r, r) && LeavingOrder(g, s, s)
    requires n <= |r|
    ensures n <= |s| && r[..n] == s[..n]
  {
    if n > 0 {
      var m := n - 1;
      KahnPrefix(g, nodes, r, s, m);
      var i := KahnNext(g, nodes, r, s, m);
      var j := KahnNext(g, nodes, s, r, m);
      if r[m] != s[m] {
        assert Before(g, s, s[m], s[i]) && Before(g, r, r[m], r[j]);
        ReadyPrefix(g, r, s, m, m, s[m]);
        BeforeTransfer(g, r, s, m, r[m], s[m]);
        BeforeAsymmetric(g, s, r[m], s[m]);
      }
      assert r[..n] == r[..m] + [r[m]] && s[..n] == s[..m] + [s[m]];
    }
  }

  ghost predicate SameEdges(g: Graph, h: Graph) {
    g.Nodes() == h.Nodes() && forall u, v :: g.Edge(u, v) <==> h.Edge(u, v)
  }

  lemma ReadySameEdges(g: Graph, h: Graph, r: seq<string>, x: string, y: string)
    requires SameEdges(g, h)
    ensures forall k: nat :: Ready(g, r, k, x) <==> Ready(h, r, k, x)
    ensures Before(g, r, x, y) <==> Before(h, r, x, y)
  {
    forall k: nat, z ensures Ready(g, r, k, z) <==> Ready(h, r, k, z) {
    }
  }

  lemma KahnOrderTransfer(g: Graph, h: Graph, r: seq<string>)
    requires SameEdges(g, h) && KahnOrder(g, r)
    ensures KahnOrder(h, r)
  {
    forall i | 0 <= i < |r| ensures Ready(h, r, i, r[i]) {
      assert Ready(g, r, i, r[i]);
    }
    forall x | x in h.Nodes() && Ready(h, r, |r|, x) ensures x in r {
      ReadySameEdges(g, h, r, x, x);
    }
    forall i, j | 0 <= i < j < |r| ensures Before(h, r, r[i], r[j]) {
      assert Before(g, r, r[i], r[j]);
      ReadySameEdges(g, h, r, r[i], r[j]);
    }
  }

  /** Two graphs with the same edge relation have the same Kahn order, whatever the insertion
      order of their dictionaries and the order and multiplicity of their successor lists. */
  lemma KahnOrderUnique(g: Graph, h: Graph, r: seq<string>, s: seq<string>)
    requires SameEdges(g, h) && KahnOrder(g, r) && KahnOrder(h, s)
    ensures r == s
  {
    KahnOrderTransfer(h, g, s);
    KahnPrefix(g, g.Nodes(), r, s, |r|);
    KahnPrefix(g, g.Nodes(), s, r, |s|);
    assert r[..|r|] == r && s[..|s|] == s;
  }

  // ---- In-degrees, counting repeated edges ----

  ghost function Occurrences(s: seq<string>, x: string): nat {
    if s == [] then 0 else Occurrences(s[..|s| - 1], x) + if s[|s| - 1] == x then 1 else 0
  }

  lemma {:induction false} OccurrencesMultiset(s: seq<string>, x: string)
    ensures Occurrences(s, x) == multiset(s)[x]
  {
    if s != [] {
      OccurrencesMultiset(s[..|s| - 1], x);
      assert s == s[..|s| - 1] + [s[|s| - 1]];
    }
  }

  lemma OccurrencesStep(s: seq<string>, j: nat, x: string)
    requires j < |s|
    ensures Occurrences(s[..j + 1], x) == Occurrences(s[..j], x) + if s[j] == x then 1 else 0
  {
    assert s[..j + 1][..j] == s[..j];
  }

  /** All occurrences lie before `j` exactly when none lies at `j` or after. */
  lemma {:induction false} OccurrencesSplit(s: seq<string>, j: nat, x: string)
    requires j <= |s|
    ensures Occurrences(s[..j], x) <= Occurrences(s, x)
    ensures Occurrences(s[..j], x) == Occurrences(s, x) <==> forall k :: j <= k < |s| ==> s[k] != x
    decreases |s| - j
  {
    if j == |s| {
      assert s[..j] == s;
    } else {
      OccurrencesStep(s, j, x);
      OccurrencesSplit(s, j + 1, x);
    }
  }

  /** The number of edges into `x`, with multiplicity, from the keys not yet output. */
  ghost function Pending(g: Graph, keys: seq<string>, done: set<string>, x: string): nat {
    if keys == [] then 0 else
      var last := keys[|keys| - 1];
      Pending(g, keys[..|keys| - 1], done, x) + if last in done then 0 else Occurrences(g.Succ(last), x)
  }

  lemma {:induction false} PendingOutput(g: Graph, keys: seq<string>, done: set<string>, n: string, x: string)
    requires NoDup(keys) && n !in done
    ensures Pending(g, keys, done, x) ==
              Pending(g, keys, done + {n}, x) + if n in keys then Occurrences(g.Succ(n), x) else 0
  {
    if keys != [] {
      var init, last := keys[..|keys| - 1], keys[|keys| - 1];
      PendingOutput(g, init, done, n, x);
      assert keys == init + [last];
    }
  }

  lemma {:induction false} PendingZero(g: Graph, keys: seq<string>, done: set<string>, x: string)
    ensures Pending(g, keys, done, x) == 0 <==> forall k :: k in keys && g.Edge(k, x) ==> k in done
  {
    if keys != [] {
      var init, last := keys[..|keys| - 1], keys[|keys| - 1];
      PendingZero(g, init, done, x);
      assert keys == init + [last];
      OccurrencesSplit(g.Succ(last), 0, x);
      assert Occurrences(g.Succ(last), x) > 0 <==> g.Edge(last, x);
    }
  }

  lemma ReadyIffNonePending(g: Graph, r: seq<string>, x: string)
    requires g.Valid()
    ensures Ready(g, r, |r|, x) <==> Pending(g, g.order, Elements(r), x) == 0
  {
    PendingZero(g, g.order, Elements(r), x);
    assert r[..|r|] == r;
    assert forall k :: k in g.order <==> k in Elements(g.order);
  }

  /** A read of the `defaultdict(int)`. */
  function Count(inDegree: map<string, int>, x: string): int {
    if x in inDegree then inDegree[x] else 0
  }

  ghost predicate CountsPending(g: Graph, keys: seq<string>, done: set<string>, inDegree: map<string, int>) {
    forall x :: Count(inDegree, x) == Pending(g, keys, done, x)
  }

  /** The first pass: in-degrees with multiplicity, and the set of all nodes. */
  method CountInDegrees(g: Graph) returns (inDegree: map<string, int>, allNodes: set<string>)
    requires g.Valid()
    ensures CountsPending(g, g.order, {}, inDegree)
    ensures allNodes == g.Nodes()
  {
    inDegree := map[];
    allNodes := g.adj.Keys;
    for i := 0 to |g.order|
      invariant CountsPending(g, g.order[..i], {}, inDegree)
      invariant allNodes == g.adj.Keys + Targets(g, g.order[..i])
    {
      var node := g.order[i];
      assert node in Elements(g.order);
      assert g.order[..i + 1] == g.order[..i] + [node];
      inDegree := CountSuccessors(g, g.order[..i], node, inDegree);
      allNodes := allNodes + Elements(g.adj[node]);
    }
    assert g.order[..|g.order|] == g.order;
    NodesFromOrder(g);
  }

  ghost function Targets(g: Graph, keys: seq<string>): set<string> {
    if keys == [] then {} else Targets(g, keys[..|keys| - 1]) + Elements(g.Succ(keys[|keys| - 1]))
  }

  lemma {:induction false} TargetsEdges(g: Graph, keys: seq<string>)
    ensures forall v :: v in Targets(g, keys) <==> exists u :: u in keys && g.Edge(u, v)
  {
    if keys != [] {
      var init, last := keys[..|keys| - 1], keys[|keys| - 1];
      TargetsEdges(g, init);
      forall v ensures v in Targets(g, keys) <==> exists u :: u in keys && g.Edge(u, v) {
        assert keys == init + [last];
        assert v in Elements(g.Succ(last)) <==> g.Edge(last, v);
        if u :| u in keys && g.Edge(u, v) { assert u in init || u == last; }
        if u :| u in init && g.Edge(u, v) { assert u in keys; }
        assert last in keys;
      }
    }
  }

  lemma NodesFromOrder(g: Graph)
    requires g.Valid()
    ensures g.Nodes() == g.adj.Keys + Targets(g, g.order)
  {
    TargetsEdges(g, g.order);
    assert forall u :: u in g.adj <==> u in g.order by {
      assert forall u :: u in g.order <==> u in Elements(g.order);
    }
    forall v ensures v in g.Nodes() <==> v in g.adj.Keys + Targets(g, g.order) {
      assert (exists u :: u in g.adj && v in g.adj[u]) <==> exists u :: u in g.order && g.Edge(u, v);
    }
  }

  /** `for dep in deps: in_degree[dep] += 1`. */
  method CountSuccessors(g: Graph, ghost keys: seq<string>, node: string, inDegree: map<string, int>)
    returns (inDegree': map<string, int>)
    requires node in g.adj && CountsPending(g, keys, {}, inDegree)
    ensures CountsPending(g, keys + [node], {}, inDegree')
  {
    var deps := g.adj[node];
    inDegree' := inDegree;
    for j := 0 to |deps|
      invariant forall x :: Count(inDegree', x) == Pending(g, keys, {}, x) + Occurrences(deps[..j], x)
    {
      forall x ensures Occurrences(deps[..j + 1], x) == Occurrences(deps[..j], x) + if deps[j] == x then 1 else 0 {
        OccurrencesStep(deps, j, x);
      }
      inDegree' := inDegree'[deps[j] := Count(inDegree', deps[j]) + 1];
    }
    assert deps[..|deps|] == deps;
    assert (keys + [node])[..|keys|] == keys;
  }

  // ---- The main loop ----

  ghost predicate AreReady(g: Graph, nodes: set<string>, r: seq<string>, s: seq<string>) {
    forall x :: x in s <==> x in nodes && Ready(g, r, |r|, x)
  }

  /** `result` has been output, `queue` waits: together they are the ready nodes, in leaving order. */
  ghost predicate KahnInv(g: Graph, nodes: set<string>, result: seq<string>, queue: seq<string>) {
    && NoDup(result + queue)
    && AreReady(g, nodes, result, result + queue)
    && PredecessorsFirst(g, result)
    && LeavingOrder(g, result, result + queue)
  }

  ghost predicate NewlyReady(g: Graph, nodes: set<string>, result: seq<string>, node: string, x: string) {
    && x in nodes
    && Ready(g, result + [node], |result| + 1, x)
    && !Ready(g, result, |result|, x)
  }

  lemma BeforeAtStart(g: Graph, x: string, y: string)
    requires Ready(g, [], 0, x) && Ready(g, [], 0, y) && Less(x, y)
    ensures Before(g, [], x, y)
  {
    assert ReadyTogether(g, [], x, y);
  }

  lemma KahnStart(g: Graph, nodes: set<string>, queue: seq<string>)
    requires StrictlySorted(queue) && AreReady(g, nodes, [], queue)
    ensures KahnInv(g, nodes, [], queue)
  {
    StrictlySortedNoDup(queue);
    StartOrder(g, nodes, queue);
    assert [] + queue == queue;
  }

  lemma StartOrder(g: Graph, nodes: set<string>, queue: seq<string>)
    requires StrictlySorted(queue) && AreReady(g, nodes, [], queue)
    ensures LeavingOrder(g, [], queue)
  {
    forall i, j | 0 <= i < j < |queue| ensures Before(g, [], queue[i], queue[j]) {
      assert queue[i] in queue && queue[j] in queue;
      BeforeAtStart(g, queue[i], queue[j]);
    }
  }

  /** Nodes made ready by this output come after everything that was ready before. */
  lemma BeforeNew(g: Graph, r: seq<string>, node: string, x: string, y: string)
    requires Ready(g, r, |r|, x) && !Ready(g, r, |r|, y)
    ensures Before(g, r + [node], x, y)
  {
    var t := r + [node];
    ReadyPrefix(g, r, t, |r|, |r|, x);
    ReadyPrefix(g, r, t, |r|, |r|, y);
    assert Ready(g, t, |r|, x) && !Ready(g, t, |r|, y);
  }

  lemma NotReadyBefore(g: Graph, r: seq<string>, node: string, k: nat, x: string)
    requires k <= |r| && !Ready(g, r, |r|, x)
    ensures !Ready(g, r + [node], k, x)
  {
    ReadyPrefix(g, r, r + [node], |r|, k, x);
    if Ready(g, r, k, x) { ReadyMonotone(g, r, k, |r|, x); }
  }

  lemma BeforeAmongNew(g: Graph, nodes: set<string>, r: seq<string>, node: string, x: string, y: string)
    requires NewlyReady(g, nodes, r, node, x) && NewlyReady(g, nodes, r, node, y) && Less(x, y)
    ensures Before(g, r + [node], x, y)
  {
    var t := r + [node];
    forall k | 0 <= k <= |t| ensures Ready(g, t, k, x) <==> Ready(g, t, k, y) {
      if k <= |r| {
        NotReadyBefore(g, r, node, k, x);
        NotReadyBefore(g, r, node, k, y);
      }
    }
  }

  lemma KahnStepMembers(g: Graph, nodes: set<string>, result: seq<string>, node: string, s: seq<string>,
                        newcomers: seq<string>)
    requires NoDup(s) && AreReady(g, nodes, result, s)
    requires StrictlySorted(newcomers)
    requires forall x :: x in newcomers <==> NewlyReady(g, nodes, result, node, x)
    ensures NoDup(s + newcomers) && AreReady(g, nodes, result + [node], s + newcomers)
  {
    StrictlySortedNoDup(newcomers);
    var t := result + [node];
    forall x ensures x in s + newcomers <==> x in nodes && Ready(g, t, |t|, x) {
      if Ready(g, result, |result|, x) {
        ReadyPrefix(g, result, t, |result|, |result|, x);
        ReadyMonotone(g, t, |result|, |t|, x);
      }
      assert x in s + newcomers <==> x in s || x in newcomers;
    }
    forall i, j | 0 <= i < |s| && 0 <= j < |newcomers| ensures s[i] != newcomers[j] {
      assert s[i] in s && newcomers[j] in newcomers;
    }
  }

  lemma KahnStepOrder(g: Graph, nodes: set<string>, result: seq<string>, node: string, s: seq<string>,
                      newcomers: seq<string>)
    requires AreReady(g, nodes, result, s) && LeavingOrder(g, result, s)
    requires StrictlySorted(newcomers)
    requires forall x :: x in newcomers <==> NewlyReady(g, nodes, result, node, x)
    ensures LeavingOrder(g, result + [node], s + newcomers)
  {
    var t := result + [node];
    forall i, j | 0 <= i < j < |s + newcomers| ensures Before(g, t, (s + newcomers)[i], (s + newcomers)[j]) {
      if j < |s| {
        assert s[i] in s && s[j] in s;
        BeforeTransfer(g, result, t, |result|, s[i], s[j]);
      } else if i < |s| {
        assert s[i] in s && newcomers[j - |s|] in newcomers;
        BeforeNew(g, result, node, s[i], newcomers[j - |s|]);
      } else {
        assert newcomers[i - |s|] in newcomers && newcomers[j - |s|] in newcomers;
        BeforeAmongNew(g, nodes, result, node, newcomers[i - |s|], newcomers[j - |s|]);
      }
    }
  }

  /** One round of the loop: output `node`, append the nodes it made ready in sorted order. */
  lemma KahnStep(g: Graph, nodes: set<string>, result: seq<string>, node: string, tail: seq<string>,
                 newcomers: seq<string>)
    requires KahnInv(g, nodes, result, [node] + tail)
    requires StrictlySorted(newcomers)
    requires forall x :: x in newcomers <==> NewlyReady(g, nodes, result, node, x)
    ensures KahnInv(g, nodes, result + [node], tail + newcomers)
  {
    var s, t := result + ([node] + tail), result + [node];
    assert t + (tail + newcomers) == s + newcomers;
    KahnStepMembers(g, nodes, result, node, s, newcomers);
    KahnStepOrder(g, nodes, result, node, s, newcomers);
    forall i | 0 <= i < |t| ensures Ready(g, t, i, t[i]) {
      assert s[i] == t[i] && s[i] in s;
      if i < |result| { assert Ready(g, result, i, result[i]); }
      ReadyPrefix(g, result, t, |result|, i, t[i]);
    }
  }

  lemma QueueBounded(g: Graph, nodes: set<string>, result: seq<string>, queue: seq<string>)
    requires NoDup(result + queue) && AreReady(g, nodes, result, result + queue)
    ensures |result| + |queue| <= |nodes|
  {
    NoDupCard(result + queue);
    SubsetCard(Elements(result + queue), nodes);
  }

  lemma HeadNotOutput(result: seq<string>, queue: seq<string>)
    requires NoDup(result + queue) && queue != []
    ensures queue[0] !in Elements(result)
  {
    assert (result + queue)[|result|] == queue[0];
    assert forall i :: 0 <= i < |result| ==> (result + queue)[i] == result[i];
  }

  lemma AppendLast(s: seq<string>, x: string)
    requires StrictlySorted(s) && forall y :: y in s ==> Less(y, x)
    ensures StrictlySorted(s + [x])
  {
    assert forall i :: 0 <= i < |s| ==> s[i] in s;
  }

  /** What the counters stand for once the first `j` neighbours were decremented. */
  ghost predicate Counted(g: Graph, neighbors: seq<string>, left: set<string>, j: nat, inDegree: map<string, int>)
    requires j <= |neighbors|
  {
    forall x :: Count(inDegree, x) ==
                Pending(g, g.order, left, x) + Occurrences(neighbors, x) - Occurrences(neighbors[..j], x)
  }

  /** `x` was met for the last time among the first `j` neighbours and waits for no other node. */
  ghost predicate Released(g: Graph, neighbors: seq<string>, left: set<string>, j: nat, x: string)
    requires j <= |neighbors|
  {
    && x in neighbors[..j] && Pending(g, g.order, left, x) == 0
    && Occurrences(neighbors[..j], x) == Occurrences(neighbors, x)
  }

  lemma CountedStep(g: Graph, neighbors: seq<string>, left: set<string>, j: nat, inDegree: map<string, int>)
    requires j < |neighbors| && Counted(g, neighbors, left, j, inDegree)
    ensures Counted(g, neighbors, left, j + 1, inDegree[neighbors[j] := Count(inDegree, neighbors[j]) - 1])
  {
    var n := neighbors[j];
    var next := inDegree[n := Count(inDegree, n) - 1];
    forall x ensures Count(next, x) == Pending(g, g.order, left, x) + Occurrences(neighbors, x)
                                       - Occurrences(neighbors[..j + 1], x) {
      OccurrencesStep(neighbors, j, x);
      assert Count(next, x) == if x == n then Count(inDegree, n) - 1 else Count(inDegree, x);
    }
  }

  /** Only the neighbour just decremented can be newly released, and it is when its count is zero. */
  lemma ReleasedStep(g: Graph, neighbors: seq<string>, left: set<string>, j: nat, inDegree: map<string, int>, x: string)
    requires j < |neighbors| && Counted(g, neighbors, left, j + 1, inDegree)
    ensures Released(g, neighbors, left, j + 1, x)
            <==> Released(g, neighbors, left, j, x) || (x == neighbors[j] && Count(inDegree, x) == 0)
  {
    assert neighbors[..j + 1] == neighbors[..j] + [neighbors[j]];
    OccurrencesStep(neighbors, j, x);
    OccurrencesSplit(neighbors, j + 1, x);
  }

  /** `newcomers` are the neighbours released so far, in sorted order. */
  ghost predicate ReleasedInOrder(g: Graph, neighbors: seq<string>, left: set<string>, j: nat, newcomers: seq<string>)
    requires j <= |neighbors|
  {
    StrictlySorted(newcomers) && forall x :: x in newcomers <==> Released(g, neighbors, left, j, x)
  }

  lemma NewcomersStep(g: Graph, neighbors: seq<string>, left: set<string>, j: nat, inDegree: map<string, int>,
                      newcomers: seq<string>)
    requires j < |neighbors| && Sorted(neighbors) && Counted(g, neighbors, left, j + 1, inDegree)
    requires ReleasedInOrder(g, neighbors, left, j, newcomers)
    ensures ReleasedInOrder(g, neighbors, left, j + 1,
                            newcomers + if Count(inDegree, neighbors[j]) == 0 then [neighbors[j]] else [])
  {
    var n := neighbors[j];
    forall x ensures Released(g, neighbors, left, j + 1, x)
      <==> Released(g, neighbors, left, j, x) || (x == n && Count(inDegree, x) == 0)
    {
      ReleasedStep(g, neighbors, left, j, inDegree, x);
    }
    NotReleasedYet(g, neighbors, left, j);
    if Count(inDegree, n) == 0 {
      forall y | y in newcomers ensures Less(y, n) {
        assert Released(g, neighbors, left, j, y);
        var k :| 0 <= k < j && neighbors[k] == y;
        LessTotal(y, n);
      }
      AppendLast(newcomers, n);
    }
  }

  lemma NotReleasedYet(g: Graph, neighbors: seq<string>, left: set<string>, j: nat)
    requires j < |neighbors|
    ensures !Released(g, neighbors, left, j, neighbors[j])
  {
    OccurrencesSplit(neighbors, j, neighbors[j]);
  }

  /** The inner loop: one decrement per occurrence of a neighbour, in sorted order; the neighbours
      whose count reaches zero, in the order they reach it. */
  method Release(g: Graph, node: string, inDegree: map<string, int>, ghost done: set<string>)
    returns (inDegree': map<string, int>, newcomers: seq<string>)
    requires g.Valid() && node !in done && CountsPending(g, g.order, done, inDegree)
    ensures CountsPending(g, g.order, done + {node}, inDegree')
    ensures StrictlySorted(newcomers)
    ensures forall x :: x in newcomers <==> g.Edge(node, x) && Pending(g, g.order, done + {node}, x) == 0
  {
    var neighbors := Sort(g.Succ(node));
    SortSorted(g.Succ(node));
    SortElements(g.Succ(node));
    inDegree' := inDegree;
    newcomers := [];
    ReleaseStart(g, node, neighbors, done, inDegree);
    ghost var left := done + {node};
    for j := 0 to |neighbors|
      invariant Counted(g, neighbors, left, j, inDegree')
      invariant ReleasedInOrder(g, neighbors, left, j, newcomers)
    {
      inDegree', newcomers := ReleaseOne(g, neighbors, left, j, inDegree', newcomers);
    }
    ReleaseEnd(g, node, neighbors, left, inDegree', newcomers);
  }

  /** The body of that loop. */
  method ReleaseOne(ghost g: Graph, neighbors: seq<string>, ghost left: set<string>, j: nat,
                    inDegree: map<string, int>, newcomers: seq<string>)
    returns (inDegree': map<string, int>, newcomers': seq<string>)
    requires j < |neighbors| && Sorted(neighbors) && Counted(g, neighbors, left, j, inDegree)
    requires ReleasedInOrder(g, neighbors, left, j, newcomers)
    ensures Counted(g, neighbors, left, j + 1, inDegree') && ReleasedInOrder(g, neighbors, left, j + 1, newcomers')
  {
    var n := neighbors[j];
    CountedStep(g, neighbors, left, j, inDegree);
    inDegree' := inDegree[n := Count(inDegree, n) - 1];
    NewcomersStep(g, neighbors, left, j, inDegree', newcomers);
    newcomers' := newcomers + if inDegree'[n] == 0 then [n] else [];
  }

  lemma ReleaseStart(g: Graph, node: string, neighbors: seq<string>, done: set<string>, inDegree: map<string, int>)
    requires g.Valid() && node !in done && multiset(neighbors) == multiset(g.Succ(node))
    requires CountsPending(g, g.order, done, inDegree)
    ensures Counted(g, neighbors, done + {node}, 0, inDegree)
    ensures ReleasedInOrder(g, neighbors, done + {node}, 0, [])
  {
    assert node in g.order <==> node in Elements(g.order);
    forall x ensures Pending(g, g.order, done, x) ==
                     Pending(g, g.order, done + {node}, x) + Occurrences(neighbors, x)
    {
      PendingOutput(g, g.order, done, node, x);
      OccurrencesMultiset(neighbors, x);
      OccurrencesMultiset(g.Succ(node), x);
    }
  }

  lemma ReleaseEnd(g: Graph, node: string, neighbors: seq<string>, left: set<string>, inDegree: map<string, int>,
                   newcomers: seq<string>)
    requires forall x :: x in neighbors <==> g.Edge(node, x)
    requires Counted(g, neighbors, left, |neighbors|, inDegree)
    requires ReleasedInOrder(g, neighbors, left, |neighbors|, newcomers)
    ensures CountsPending(g, g.order, left, inDegree) && StrictlySorted(newcomers)
    ensures forall x :: x in newcomers <==> g.Edge(node, x) && Pending(g, g.order, left, x) == 0
  {
    assert neighbors[..|neighbors|] == neighbors;
    forall x ensures x in newcomers <==> g.Edge(node, x) && Pending(g, g.order, left, x) == 0 {
      assert x in newcomers <==> Released(g, neighbors, left, |neighbors|, x);
    }
  }

  lemma NewcomersAreNew(g: Graph, nodes: set<string>, result: seq<string>, node: string, x: string)
    requires g.Valid() && nodes == g.Nodes() && node !in Elements(result)
    ensures NewlyReady(g, nodes, result, node, x) <==>
            g.Edge(node, x) && Pending(g, g.order, Elements(result) + {node}, x) == 0
  {
    ReadyIffNonePending(g, result, x);
    ReadyIffNonePending(g, result + [node], x);
    ElementsConcat(result, [node]);
    assert Elements(result + [node]) == Elements(result) + {node};
    PendingZero(g, g.order, Elements(result), x);
    PendingZero(g, g.order, Elements(result) + {node}, x);
    if g.Edge(node, x) {
      EdgeNodes(g, node, x);
      assert node in Elements(g.order);
    }
  }

  /** `queue` holds the first `i` nodes that have no incoming edge. */
  ghost predicate RootsUpTo(sorted: seq<string>, inDegree: map<string, int>, i: nat, queue: seq<string>)
    requires i <= |sorted|
  {
    StrictlySorted(queue) && forall x :: x in queue <==> x in sorted[..i] && Count(inDegree, x) == 0
  }

  lemma RootsStep(sorted: seq<string>, inDegree: map<string, int>, i: nat, queue: seq<string>)
    requires i < |sorted| && StrictlySorted(sorted) && RootsUpTo(sorted, inDegree, i, queue)
    ensures RootsUpTo(sorted, inDegree, i + 1, queue + if Count(inDegree, sorted[i]) == 0 then [sorted[i]] else [])
  {
    assert sorted[..i + 1] == sorted[..i] + [sorted[i]];
    if Count(inDegree, sorted[i]) == 0 {
      forall y | y in queue ensures Less(y, sorted[i]) {
        assert y in sorted[..i];
        var k :| 0 <= k < i && sorted[k] == y;
      }
      AppendLast(queue, sorted[i]);
    }
  }

  lemma RootsReady(g: Graph, nodes: set<string>, inDegree: map<string, int>, sorted: seq<string>, queue: seq<string>)
    requires g.Valid() && CountsPending(g, g.order, {}, inDegree) && Elements(sorted) == nodes
    requires RootsUpTo(sorted, inDegree, |sorted|, queue)
    ensures forall x :: x in queue <==> x in nodes && Ready(g, [], 0, x)
  {
    assert sorted[..|sorted|] == sorted;
    forall x ensures x in queue <==> x in nodes && Ready(g, [], 0, x) {
      assert x in sorted <==> x in Elements(sorted);
      ReadyIffNonePending(g, [], x);
      assert Elements<string>([]) == {};
    }
  }

  /** The queue before the main loop: the nodes of in-degree zero, sorted. */
  method Roots(g: Graph, nodes: set<string>, inDegree: map<string, int>) returns (queue: seq<string>)
    requires g.Valid() && CountsPending(g, g.order, {}, inDegree)
    ensures KahnInv(g, nodes, [], queue)
  {
    var sorted := SortedSet(nodes);
    queue := [];
    for i := 0 to |sorted|
      invariant RootsUpTo(sorted, inDegree, i, queue)
    {
      RootsStep(sorted, inDegree, i, queue);
      if Count(inDegree, sorted[i]) == 0 {
        queue := queue + [sorted[i]];
      }
    }
    RootsReady(g, nodes, inDegree, sorted, queue);
    KahnStart(g, nodes, queue);
  }

  /** What one round of the main loop leaves behind. */
  lemma KahnRound(g: Graph, nodes: set<string>, result: seq<string>, queue: seq<string>, newcomers: seq<string>)
    requires g.Valid() && nodes == g.Nodes()
    requires queue != [] && KahnInv(g, nodes, result, queue) && queue[0] !in Elements(result)
    requires StrictlySorted(newcomers)
    requires forall x :: x in newcomers <==>
                         g.Edge(queue[0], x) && Pending(g, g.order, Elements(result) + {queue[0]}, x) == 0
    ensures KahnInv(g, nodes, result + [queue[0]], queue[1..] + newcomers)
    ensures Elements(result + [queue[0]]) == Elements(result) + {queue[0]}
  {
    var node := queue[0];
    assert queue == [node] + queue[1..];
    forall x ensures x in newcomers <==> NewlyReady(g, nodes, result, node, x) {
      NewcomersAreNew(g, nodes, result, node, x);
    }
    KahnStep(g, nodes, result, node, queue[1..], newcomers);
    ElementsConcat(result, [node]);
    assert Elements([node]) == {node};
  }

  /** Nodes that become ready together leave in ascending code-point order. */
  ghost predicate TiesAscend(g: Graph, r: seq<string>) {
    forall i, j :: 0 <= i < j < |r| && ReadyTogether(g, r, r[i], r[j]) ==> Ascends(r[i], r[j])
  }

  lemma KahnTiesAscend(g: Graph, r: seq<string>)
    requires KahnOrder(g, r)
    ensures TiesAscend(g, r)
  {
    forall i, j | 0 <= i < j < |r| && ReadyTogether(g, r, r[i], r[j]) ensures Ascends(r[i], r[j]) {
      assert Before(g, r, r[i], r[j]);
      LessIff(r[i], r[j]);
    }
  }

  lemma KahnEnd(g: Graph, result: seq<string>)
    requires KahnInv(g, g.Nodes(), result, [])
    ensures KahnOrder(g, result) && TiesAscend(g, result)
    ensures forall x :: x in g.Nodes() ==> (x !in result <==> BehindCycle(g, x))
    ensures |result| == |g.Nodes()| <==> !HasCycle(g)
  {
    assert result + [] == result;
    KahnTiesAscend(g, result);
    forall x | x in g.Nodes() ensures x !in result <==> BehindCycle(g, x) {
      KahnOmits(g, result, x);
    }
    KahnCompleteIffAcyclic(g, result);
  }

  /** `topological_sort`. */
  method TopologicalOrder(g: Graph) returns (result: seq<string>)
    requires g.Valid()
    ensures KahnOrder(g, result) && TiesAscend(g, result)
    ensures forall x :: x in g.Nodes() ==> (x !in result <==> BehindCycle(g, x))
    ensures |result| == |g.Nodes()| <==> !HasCycle(g)
  {
    var inDegree, nodes := CountInDegrees(g);
    var queue := Roots(g, nodes, inDegree);
    result := [];
    assert Elements(result) == {};
    while queue != []
      invariant KahnInv(g, nodes, result, queue)
      invariant CountsPending(g, g.order, Elements(result), inDegree)
      decreases |nodes| - |result|
    {
      var node := queue[0];
      HeadNotOutput(result, queue);
      QueueBounded(g, nodes, result, queue);
      var newcomers;
      inDegree, newcomers := Release(g, node, inDegree, Elements(result));
      KahnRound(g, nodes, result, queue, newcomers);
      result := result + [node];
      queue := queue[1..] + newcomers;
    }
    KahnEnd(g, result);
  }
}
