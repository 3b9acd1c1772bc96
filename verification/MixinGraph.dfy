/** `build_adjacency_list` and `main`: from declared ordering constraints to a migration order. */
module MixinGraph {
  import opened Ordering
  import opened Digraph
  import CycleDetection
  import TopologicalSort

  /** The value under `ordering_constraints`; anything but a list is ignored. */
  datatype Constraints = NotAList | Listed(deps: seq<string>)

  datatype Mixin = Mixin(name: string, constraints: Constraints) {
    function Deps(): seq<string> {
      if constraints.Listed? then constraints.deps else []
    }
  }

  /** The graph, or the `ValueError` naming a mixin and its undeclared constraint. */
  datatype Built = Graph(graph: Digraph.Graph) | Undeclared(mixin: string, dep: string)

  function Declared(mixins: seq<Mixin>): set<string> {
    set i | 0 <= i < |mixins| :: mixins[i].name
  }

  predicate Lists(m: Mixin, u: string) {
    m.constraints.Listed? && u in m.constraints.deps
  }

  /** Some mixin named `v` lists `u` among its ordering constraints. */
  ghost predicate MustPrecede(mixins: seq<Mixin>, u: string, v: string) {
    exists i :: 0 <= i < |mixins| && mixins[i].name == v && Lists(mixins[i], u)
  }

  function Repeated(name: string, deps: seq<string>, d: string): seq<string> {
    if deps == [] then []
    else Repeated(name, deps[..|deps| - 1], d) + if deps[|deps| - 1] == d then [name] else []
  }

  /** The successors of `d`: one entry per listed constraint on `d`, in declaration order. */
  function DependentsOf(mixins: seq<Mixin>, d: string): seq<string> {
    if mixins == [] then []
    else
      var last := mixins[|mixins| - 1];
      DependentsOf(mixins[..|mixins| - 1], d) + Repeated(last.name, last.Deps(), d)
  }

  /** Position `(i, j)` holds the first constraint, in reading order, on an undeclared name. */
  ghost predicate FirstUndeclared(mixins: seq<Mixin>, i: int, j: int) {
    && 0 <= i < |mixins| && mixins[i].constraints.Listed?
    && var deps := mixins[i].constraints.deps;
       && 0 <= j < |deps| && deps[j] !in Declared(mixins)
       && (forall k :: 0 <= k < j ==> deps[k] in Declared(mixins))
       && DeclaredBefore(mixins, i)
  }

  ghost predicate DeclaredBefore(mixins: seq<Mixin>, n: int)
    requires n <= |mixins|
  {
    forall i, u :: 0 <= i < n && Lists(mixins[i], u) ==> u in Declared(mixins)
  }

  ghost predicate AllDeclared(mixins: seq<Mixin>) {
    DeclaredBefore(mixins, |mixins|)
  }

  /** The error names the first undeclared constraint and a mixin that has it. */
  ghost predicate NamesFirstUndeclared(mixins: seq<Mixin>, mixin: string, dep: string) {
    exists i, j :: FirstUndeclared(mixins, i, j) && mixins[i].name == mixin && mixins[i].constraints.deps[j] == dep
  }

  lemma {:induction false} RepeatedElements(name: string, deps: seq<string>, d: string)
    ensures forall v :: v in Repeated(name, deps, d) <==> v == name && d in deps
  {
    if deps != [] {
      RepeatedElements(name, deps[..|deps| - 1], d);
      assert deps == deps[..|deps| - 1] + [deps[|deps| - 1]];
    }
  }

  lemma MustPrecedeSnoc(init: seq<Mixin>, last: Mixin, u: string, v: string)
    ensures MustPrecede(init + [last], u, v) <==> MustPrecede(init, u, v) || (v == last.name && Lists(last, u))
  {
    var all := init + [last];
    if MustPrecede(init, u, v) {
      var i :| 0 <= i < |init| && init[i].name == v && Lists(init[i], u);
      assert all[i] == init[i];
    } else if v == last.name && Lists(last, u) {
      assert all[|init|] == last;
    }
  }

  lemma {:induction false} DependentsElements(mixins: seq<Mixin>, u: string, v: string)
    ensures v in DependentsOf(mixins, u) <==> MustPrecede(mixins, u, v)
  {
    if mixins != [] {
      var init, last := mixins[..|mixins| - 1], mixins[|mixins| - 1];
      DependentsElements(init, u, v);
      RepeatedElements(last.name, last.Deps(), u);
      MustPrecedeSnoc(init, last, u, v);
      assert mixins == init + [last];
    }
  }

  function Noted(known: seq<string>, d: string): seq<string> {
    if d in known then known else known + [d]
  }

  function NotedAll(known: seq<string>, deps: seq<string>): seq<string> {
    if deps == [] then known else Noted(NotedAll(known, deps[..|deps| - 1]), deps[|deps| - 1])
  }

  /** The listed names, each where it is first listed in reading order. */
  function Mentioned(mixins: seq<Mixin>): seq<string> {
    if mixins == [] then []
    else
      var last := mixins[|mixins| - 1];
      NotedAll(Mentioned(mixins[..|mixins| - 1]), if last.constraints.Listed? then last.constraints.deps else [])
  }

  /** The adjacency dictionary holds exactly the constraint edges, duplicates included; its keys are the
      listed names in reading order, and then the other declared ones. */
  ghost predicate Encodes(g: Digraph.Graph, mixins: seq<Mixin>) {
    && g.Valid() && g.adj.Keys == Declared(mixins) && Mentioned(mixins) <= g.order
    && forall d :: d in g.adj ==> g.adj[d] == DependentsOf(mixins, d)
  }

  lemma EncodedEdges(g: Digraph.Graph, mixins: seq<Mixin>)
    requires Encodes(g, mixins) && AllDeclared(mixins)
    ensures forall u, v :: g.Edge(u, v) <==> MustPrecede(mixins, u, v)
    ensures g.Nodes() == Declared(mixins)
  {
    forall u, v ensures g.Edge(u, v) <==> MustPrecede(mixins, u, v) {
      DependentsElements(mixins, u, v);
    }
    forall u, v | g.Edge(u, v) ensures v in g.adj {
      var i :| 0 <= i < |mixins| && mixins[i].name == v && Lists(mixins[i], u);
      assert mixins[i].name in Declared(mixins);
    }
    NodesAreKeys(g);
  }

  /** `graph[dep].append(name)` on a `defaultdict(list)`. */
  function Append(g: Digraph.Graph, dep: string, name: string): Digraph.Graph {
    if dep in g.adj then g.(adj := g.adj[dep := g.adj[dep] + [name]])
    else Digraph.Graph(g.order + [dep], g.adj[dep := [name]])
  }

  lemma AppendValid(g: Digraph.Graph, dep: string, name: string)
    requires g.Valid()
    ensures Append(g, dep, name).Valid()
    ensures Append(g, dep, name).adj.Keys == g.adj.Keys + {dep}
  {
    if dep !in g.adj {
      ElementsConcat(g.order, [dep]);
      assert forall i :: 0 <= i < |g.order| ==> g.order[i] in Elements(g.order);
    }
  }

  /** `h` is `g` with `name` appended to the successors of each of `deps`, new keys in their order. */
  ghost predicate Grown(g: Digraph.Graph, h: Digraph.Graph, name: string, deps: seq<string>) {
    h.order == NotedAll(g.order, deps) && forall d :: h.Succ(d) == g.Succ(d) + Repeated(name, deps, d)
  }

  lemma GrownStep(g: Digraph.Graph, h: Digraph.Graph, name: string, deps: seq<string>, j: nat)
    requires j < |deps| && h.Valid() && Grown(g, h, name, deps[..j])
    ensures Grown(g, Append(h, deps[j], name), name, deps[..j + 1])
  {
    assert deps[..j + 1][..j] == deps[..j];
    assert deps[j] in h.adj <==> deps[j] in Elements(h.order);
    forall d ensures Append(h, deps[j], name).Succ(d) == g.Succ(d) + Repeated(name, deps[..j + 1], d) {
      assert h.Succ(d) == g.Succ(d) + Repeated(name, deps[..j], d);
    }
  }

  /** The successor lists hold the constraints of `mixins`, and the keys are the listed names. */
  ghost predicate HoldsConstraints(g: Digraph.Graph, mixins: seq<Mixin>) {
    g.order == Mentioned(mixins) && forall d :: g.Succ(d) == DependentsOf(mixins, d)
  }

  lemma HoldsStep(g: Digraph.Graph, h: Digraph.Graph, mixins: seq<Mixin>, i: nat)
    requires i < |mixins| && HoldsConstraints(g, mixins[..i]) && Grown(g, h, mixins[i].name, mixins[i].Deps())
    ensures HoldsConstraints(h, mixins[..i + 1])
  {
    assert mixins[..i + 1][..i] == mixins[..i];
    forall d ensures h.Succ(d) == DependentsOf(mixins[..i + 1], d) {
      assert g.Succ(d) == DependentsOf(mixins[..i], d);
    }
  }

  /** `dep` is the first constraint of the list on an undeclared name. */
  ghost predicate FirstBad(deps: seq<string>, declared: set<string>, dep: string) {
    exists j :: 0 <= j < |deps| && deps[j] == dep && dep !in declared && AllIn(deps[..j], declared)
  }

  ghost predicate AllIn(deps: seq<string>, declared: set<string>) {
    forall k :: 0 <= k < |deps| ==> deps[k] in declared
  }

  /** The loop over one mixin's constraints. */
  method AddConstraints(g: Digraph.Graph, name: string, deps: seq<string>, declared: set<string>)
    returns (g': Digraph.Graph, bad: Option<string>)
    requires g.Valid() && g.adj.Keys <= declared
    ensures bad.Some? ==> FirstBad(deps, declared, bad.value)
    ensures bad.None? ==> g'.Valid() && g'.adj.Keys <= declared && Elements(deps) <= declared
    ensures bad.None? ==> Grown(g, g', name, deps)
  {
    g' := g;
    for j := 0 to |deps|
      invariant g'.Valid() && g'.adj.Keys <= declared
      invariant AllIn(deps[..j], declared)
      invariant Grown(g, g', name, deps[..j])
    {
      if deps[j] !in declared {
        return g', Some(deps[j]);
      }
      AppendValid(g', deps[j], name);
      GrownStep(g, g', name, deps, j);
      g' := Append(g', deps[j], name);
    }
    assert deps[..|deps|] == deps;
    bad := None;
  }

  lemma FirstUndeclaredAt(mixins: seq<Mixin>, i: nat, dep: string)
    requires i < |mixins|
    requires DeclaredBefore(mixins, i)
    requires FirstBad(mixins[i].Deps(), Declared(mixins), dep)
    ensures NamesFirstUndeclared(mixins, mixins[i].name, dep)
    ensures !AllDeclared(mixins)
  {
    var deps := mixins[i].constraints.deps;
    var j :| 0 <= j < |deps| && deps[j] == dep && dep !in Declared(mixins) && AllIn(deps[..j], Declared(mixins));
    assert forall k :: 0 <= k < j ==> deps[..j][k] == deps[k];
    assert FirstUndeclared(mixins, i, j);
    assert Lists(mixins[i], deps[j]);
  }

  lemma DeclaredStep(mixins: seq<Mixin>, i: nat)
    requires i < |mixins| && DeclaredBefore(mixins, i) && Elements(mixins[i].Deps()) <= Declared(mixins)
    ensures DeclaredBefore(mixins, i + 1)
  {
    forall j, u | 0 <= j < i + 1 && Lists(mixins[j], u) ensures u in Declared(mixins) {
      if j == i {
        assert u in Elements(mixins[i].Deps());
      }
    }
  }

  /** `build_adjacency_list`. */
  method BuildAdjacencyList(mixins: seq<Mixin>) returns (r: Built)
    ensures r.Undeclared? ==> NamesFirstUndeclared(mixins, r.mixin, r.dep)
    ensures r.Graph? <==> AllDeclared(mixins)
    ensures r.Graph? ==> Encodes(r.graph, mixins)
  {
    var declared := Declared(mixins);
    var g := Digraph.Graph([], map[]);
    for i := 0 to |mixins|
      invariant g.Valid() && g.adj.Keys <= declared
      invariant DeclaredBefore(mixins, i)
      invariant HoldsConstraints(g, mixins[..i])
    {
      var longer, bad := AddConstraints(g, mixins[i].name, mixins[i].Deps(), declared);
      if bad.Some? {
        FirstUndeclaredAt(mixins, i, bad.value);
        return Undeclared(mixins[i].name, bad.value);
      }
      HoldsStep(g, longer, mixins, i);
      DeclaredStep(mixins, i);
      g := longer;
    }
    assert mixins[..|mixins|] == mixins;
    g := AddIsolated(g, declared);
    r := Built.Graph(g);
  }

  /** `for name in all_names: if name not in graph: graph[name] = []`, in an arbitrary set order. */
  method AddIsolated(g: Digraph.Graph, names: set<string>) returns (g': Digraph.Graph)
    requires g.Valid() && g.adj.Keys <= names
    ensures g'.Valid() && g'.adj.Keys == names && g.order <= g'.order
    ensures forall d :: g'.Succ(d) == g.Succ(d)
  {
    g' := g;
    var todo := names;
    while todo != {}
      invariant todo <= names
      invariant g'.Valid() && names - todo <= g'.adj.Keys <= names && g.order <= g'.order
      invariant forall d :: g'.Succ(d) == g.Succ(d)
      decreases |todo|
    {
      var name :| name in todo;
      if name !in g'.adj {
        ElementsConcat(g'.order, [name]);
        assert forall i :: 0 <= i < |g'.order| ==> g'.order[i] in Elements(g'.order);
        g' := Digraph.Graph(g'.order + [name], g'.adj[name := []]);
      }
      todo := todo - {name};
    }
  }

  /** What `main` ends with, given a parsed mapping. */
  datatype Outcome =
    | ConstraintError(mixin: string, dep: string)
    | CyclesFound(cycles: seq<seq<string>>)
    | Validated
    | MigrationOrder(order: seq<string>)

  /** Every declared mixin once, each after all of its ordering constraints. */
  ghost predicate RespectsConstraints(order: seq<string>, mixins: seq<Mixin>) {
    && NoDup(order) && Elements(order) == Declared(mixins)
    && forall j, u :: 0 <= j < |order| && MustPrecede(mixins, u, order[j]) ==> u in order[..j]
  }

  /** Mixins that must each precede the next, and the last the first. */
  ghost predicate ConstraintCycle(mixins: seq<Mixin>, p: seq<string>) {
    && p != [] && MustPrecede(mixins, p[|p| - 1], p[0])
    && forall i :: 0 < i < |p| ==> MustPrecede(mixins, p[i - 1], p[i])
  }

  ghost predicate Contradictory(mixins: seq<Mixin>) {
    exists p :: ConstraintCycle(mixins, p)
  }

  lemma CyclesAreContradictions(g: Digraph.Graph, mixins: seq<Mixin>)
    requires Encodes(g, mixins) && AllDeclared(mixins)
    ensures forall p :: ClosedWalk(g, p) <==> ConstraintCycle(mixins, p)
    ensures HasCycle(g) <==> Contradictory(mixins)
  {
    EncodedEdges(g, mixins);
    forall p ensures ClosedWalk(g, p) <==> ConstraintCycle(mixins, p) {
    }
    if p :| ConstraintCycle(mixins, p) {
      assert ClosedWalk(g, p);
    }
  }

  /** What `main` must end with: the first undeclared constraint, the reports of the cycle search, or an
      order. */
  ghost predicate Reported(mixins: seq<Mixin>, validateOnly: bool, r: Outcome) {
    match r
    case ConstraintError(mixin, dep) => NamesFirstUndeclared(mixins, mixin, dep) && !AllDeclared(mixins)
    case CyclesFound(cycles) => AllDeclared(mixins) && Contradictory(mixins) && SearchResult(mixins, cycles)
    case Validated => AllDeclared(mixins) && !Contradictory(mixins) && validateOnly
    case MigrationOrder(order) =>
      && AllDeclared(mixins) && !Contradictory(mixins) && !validateOnly
      && RespectsConstraints(order, mixins) && SortResult(mixins, order)
  }

  /** What the reference search reports of a graph that encodes the constraints; every contradiction has
      one of its pairs closing a report. */
  ghost predicate SearchResult(mixins: seq<Mixin>, cycles: seq<seq<string>>) {
    && cycles != [] && (exists g :: Encodes(g, mixins) && cycles == CycleDetection.ReportsOf(g))
    && forall p :: ConstraintCycle(mixins, p) ==> CycleDetection.WalkReported(cycles, p)
  }

  ghost predicate SortResult(mixins: seq<Mixin>, order: seq<string>) {
    exists g :: Encodes(g, mixins) && TopologicalSort.KahnOrder(g, order) && TopologicalSort.TiesAscend(g, order)
  }

  /** `main` after argument parsing: the order is printed only when the cycle search found
      nothing, and the independent sort then has every mixin in it. */
  method MigrationReport(mixins: seq<Mixin>, validateOnly: bool) returns (r: Outcome)
    ensures Reported(mixins, validateOnly, r)
  {
    var built := BuildAdjacencyList(mixins);
    match built
    case Undeclared(mixin, dep) => r := ConstraintError(mixin, dep);
    case Graph(g) =>
      var cycles := CycleDetection.DetectCycles(g);
      CyclesAreContradictions(g, mixins);
      if cycles != [] {
        return CyclesFound(cycles);
      }
      if validateOnly {
        return Validated;
      }
      var order := TopologicalSort.TopologicalOrder(g);
      CompleteOrderRespects(g, mixins, order);
      assert SortResult(mixins, order);
      r := MigrationOrder(order);
  }

  lemma CompleteOrderRespects(g: Digraph.Graph, mixins: seq<Mixin>, order: seq<string>)
    requires Encodes(g, mixins) && AllDeclared(mixins)
    requires TopologicalSort.KahnOrder(g, order) && !HasCycle(g)
    ensures RespectsConstraints(order, mixins)
  {
    EncodedEdges(g, mixins);
    TopologicalSort.KahnCompleteIffAcyclic(g, order);
    forall j, u | 0 <= j < |order| && MustPrecede(mixins, u, order[j]) ensures u in order[..j] {
      assert g.Edge(u, order[j]);
      assert TopologicalSort.Ready(g, order, j, order[j]);
    }
  }
}
