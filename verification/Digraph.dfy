/** Directed graphs as the adjacency dictionaries of `mixin_dependency_graph.py`, their walks and cycles. */
module Digraph {
  import opened Ordering

  /** A dictionary from node to successor list: its insertion order and its contents.
      Successors need not be keys, and lists may repeat a successor. */
  datatype Graph = Graph(order: seq<string>, adj: map<string, seq<string>>) {
    ghost predicate Valid() {
      NoDup(order) && Elements(order) == adj.Keys
    }

    /** `graph.get(u, [])`. */
    function Succ(u: string): seq<string> {
      if u in adj then adj[u] else []
    }

    predicate Edge(u: string, v: string) {
      v in Succ(u)
    }

    function Nodes(): set<string> {
      adj.Keys + set u, v | u in adj && v in adj[u] :: v
    }
  }

  ghost predicate Walk(g: Graph, p: seq<string>) {
    forall i :: 0 < i < |p| ==> g.Edge(p[i - 1], p[i])
  }

  ghost predicate ClosedWalk(g: Graph, p: seq<string>) {
    |p| > 0 && Walk(g, p) && g.Edge(p[|p| - 1], p[0])
  }

  ghost predicate SimpleCycle(g: Graph, p: seq<string>) {
    ClosedWalk(g, p) && NoDup(p)
  }

  ghost predicate HasCycle(g: Graph) {
    exists p :: ClosedWalk(g, p)
  }

  ghost predicate OnCycle(g: Graph, u: string) {
    exists p :: ClosedWalk(g, p) && u in p
  }

  ghost predicate WalkBetween(g: Graph, p: seq<string>, u: string, v: string) {
    |p| > 0 && p[0] == u && p[|p| - 1] == v && Walk(g, p)
  }

  ghost predicate Reaches(g: Graph, u: string, v: string) {
    exists p :: WalkBetween(g, p, u, v)
  }

  /** `x` can be reached from some node that lies on a cycle. */
  ghost predicate BehindCycle(g: Graph, x: string) {
    exists c :: OnCycle(g, c) && Reaches(g, c, x)
  }

  lemma EdgeNodes(g: Graph, u: string, v: string)
    requires g.Edge(u, v)
    ensures u in g.Nodes() && v in g.Nodes()
  {
  }

  lemma NodesAreKeys(g: Graph)
    requires forall u, v :: g.Edge(u, v) ==> v in g.adj
    ensures g.Nodes() == g.adj.Keys
  {
    assert forall u, v :: u in g.adj && v in g.adj[u] ==> g.Edge(u, v);
  }

  lemma CycleSuccessor(g: Graph, p: seq<string>, x: string) returns (y: string)
    requires ClosedWalk(g, p) && x in p
    ensures y in p && g.Edge(x, y)
  {
    var i :| 0 <= i < |p| && p[i] == x;
    y := p[if i == |p| - 1 then 0 else i + 1];
  }

  lemma CyclePredecessor(g: Graph, p: seq<string>, y: string) returns (x: string)
    requires ClosedWalk(g, p) && y in p
    ensures x in p && g.Edge(x, y)
  {
    var i :| 0 <= i < |p| && p[i] == y;
    x := p[if i == 0 then |p| - 1 else i - 1];
  }
}
