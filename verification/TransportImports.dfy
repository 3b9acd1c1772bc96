/** `TransportImportChecker`: banned transport imports outside `TYPE_CHECKING` blocks. */
module TransportImports {
  import opened Ordering
  import opened Text

  datatype Alias = Alias(name: string, asname: Option<string>)

  /** The test of an `if`: a name, an attribute of a name (None: of anything else), or another expression. */
  datatype Test = Name(id: string) | Attribute(value: Option<string>, attr: string) | OtherTest

  /** A statement as the visitor sees it; `Other` holds its nested statements in visiting order. */
  datatype Stmt =
    | Import(line: nat, names: seq<Alias>)
    | ImportFrom(line: nat, modname: Option<string>, names: seq<Alias>)
    | If(test: Test, body: seq<Stmt>, orelse: seq<Stmt>)
    | Other(children: seq<Stmt>)

  datatype Violation = Violation(line: nat, modname: string)

  const BANNED_MODULES: set<string> := {
    "aiohttp", "httpx", "requests", "urllib3", "kafka", "aiokafka", "confluent_kafka", "redis", "aioredis",
    "asyncpg", "psycopg2", "psycopg", "aiomysql", "pika", "aio_pika", "kombu", "celery", "grpc", "websockets",
    "wsproto"
  }

  /** The part of a dotted name before its first dot. */
  function RootModule(name: string): string {
    UpTo(name, '.')
  }

  predicate Banned(name: string) {
    RootModule(name) in BANNED_MODULES
  }

  predicate HasName(asname: Option<string>) {
    asname.Some? && asname.value != ""
  }

  // ---- The lexical definition ----

  /** An enclosing `if` body: its test, and how many imports the visitor meets before that `if`. */
  datatype Region = Region(test: Test, before: nat)

  /** An import statement together with the `if` bodies it stands in. */
  datatype Occurrence = Occurrence(stmt: Stmt, enclosing: seq<Region>)

  /** The imports of a statement in visiting order, `base` imports having come before it. Its own
      `if` encloses the body of an `if` but not the else branch. */
  ghost function Imports(node: Stmt, base: nat, enclosing: seq<Region>): seq<Occurrence>
    decreases node
  {
    match node
    case Import(_, _) => [Occurrence(node, enclosing)]
    case ImportFrom(_, _, _) => [Occurrence(node, enclosing)]
    case If(test, body, orelse) =>
      var inBody := ImportsOf(body, base, enclosing + [Region(test, base)]);
      inBody + ImportsOf(orelse, base + |inBody|, enclosing)
    case Other(children) => ImportsOf(children, base, enclosing)
  }

  ghost function ImportsOf(nodes: seq<Stmt>, base: nat, enclosing: seq<Region>): seq<Occurrence>
    decreases nodes
  {
    if nodes == [] then []
    else
      var earlier := ImportsOf(nodes[..|nodes| - 1], base, enclosing);
      earlier + Imports(nodes[|nodes| - 1], base + |earlier|, enclosing)
  }

  /** Names under which `import typing as t` makes the module known. */
  function ModuleNames(names: seq<Alias>): set<string> {
    set a | a in names && a.name == "typing" && a.asname.Some? && a.asname.value != "" :: a.asname.value
  }

  /** Names under which `from m import TYPE_CHECKING as T` makes the constant known. */
  function ConstantNames(names: seq<Alias>): set<string> {
    set a | a in names && a.name == "TYPE_CHECKING" && a.asname.Some? && a.asname.value != "" :: a.asname.value
  }

  function ModuleAliases(stmt: Stmt): set<string> {
    if stmt.Import? then ModuleNames(stmt.names) else {}
  }

  function ConstantAliases(stmt: Stmt): set<string> {
    if stmt.ImportFrom? && stmt.modname.Some? then ConstantNames(stmt.names) else {}
  }

  ghost function ModulesKnown(seen: seq<Occurrence>): set<string> {
    if seen == [] then {} else ModulesKnown(seen[..|seen| - 1]) + ModuleAliases(seen[|seen| - 1].stmt)
  }

  ghost function ConstantsKnown(seen: seq<Occurrence>): set<string> {
    if seen == [] then {} else ConstantsKnown(seen[..|seen| - 1]) + ConstantAliases(seen[|seen| - 1].stmt)
  }

  /** `if TYPE_CHECKING`, a known alias of it, or the attribute of `typing` or a known alias of that. */
  predicate IsGuard(test: Test, modules: set<string>, constants: set<string>) {
    match test
    case Name(id) => id == "TYPE_CHECKING" || id in constants
    case Attribute(value, attr) =>
      attr == "TYPE_CHECKING" && value.Some? && (value.value == "typing" || value.value in modules)
    case OtherTest => false
  }

  /** The region is a guard under the aliases imported before its `if`. */
  ghost predicate RegionGuards(r: Region, seen: seq<Occurrence>) {
    r.before <= |seen| && IsGuard(r.test, ModulesKnown(seen[..r.before]), ConstantsKnown(seen[..r.before]))
  }

  ghost predicate Guarded(enclosing: seq<Region>, seen: seq<Occurrence>) {
    exists k :: 0 <= k < |enclosing| && RegionGuards(enclosing[k], seen)
  }

  function BannedNames(line: nat, names: seq<Alias>): seq<Violation> {
    if names == [] then []
    else
      BannedNames(line, names[..|names| - 1]) +
      if Banned(names[|names| - 1].name) then [Violation(line, RootModule(names[|names| - 1].name))] else []
  }

  /** The banned modules an import statement names. */
  function BannedIn(stmt: Stmt): seq<Violation> {
    match stmt
    case Import(line, names) => BannedNames(line, names)
    case ImportFrom(line, modname, _) =>
      if modname.Some? && Banned(modname.value) then [Violation(line, RootModule(modname.value))] else []
    case _ => []
  }

  /** The violations of a list of imports: the banned modules of those no enclosing body guards. */
  ghost function Report(seen: seq<Occurrence>): seq<Violation> {
    if seen == [] then []
    else
      var earlier, last := seen[..|seen| - 1], seen[|seen| - 1];
      Report(earlier) + Contribution(last, earlier)
  }

  /** The violations of one import, given those met before it. */
  ghost function Contribution(o: Occurrence, seen: seq<Occurrence>): seq<Violation> {
    if Guarded(o.enclosing, seen) then [] else BannedIn(o.stmt)
  }

  // ---- The visitor ----

  class TransportImportChecker {
    var violations: seq<Violation>
    var inTypeCheckingBlock: bool
    var moduleAliases: set<string>
    var constantAliases: set<string>
    /** The imports visited so far. */
    ghost var seen: seq<Occurrence>

    /** Inside the bodies `enclosing`, the state is what the lexical definition says of `seen`. */
    ghost predicate Valid(enclosing: seq<Region>)
      reads this
    {
      && violations == Report(seen)
      && (inTypeCheckingBlock <==> Guarded(enclosing, seen))
      && moduleAliases == ModulesKnown(seen)
      && constantAliases == ConstantsKnown(seen)
      && Earlier(enclosing, seen)
    }

    constructor ()
      ensures Valid([]) && seen == []
    {
      violations, inTypeCheckingBlock, moduleAliases, constantAliases := [], false, {}, {};
      seen := [];
    }

    /** `_is_type_checking_guard`. */
    predicate IsTypeCheckingGuard(test: Test)
      reads this
    {
      match test
      case Name(id) => id == "TYPE_CHECKING" || id in constantAliases
      case Attribute(value, attr) =>
        attr == "TYPE_CHECKING" && value.Some? && (value.value == "typing" || value.value in moduleAliases)
      case OtherTest => false
    }

    /** The first loop of `visit_Import`: aliases of the typing module. */
    method TrackTypingAliases(names: seq<Alias>)
      modifies `moduleAliases
      ensures moduleAliases == old(moduleAliases) + ModuleNames(names)
    {
      for i := 0 to |names|
        invariant moduleAliases == old(moduleAliases) + ModuleNames(names[..i])
      {
        ModuleNamesStep(names, i);
        if names[i].name == "typing" && HasName(names[i].asname) {
          moduleAliases := moduleAliases + {names[i].asname.value};
        }
      }
      assert names[..|names|] == names;
    }

    /** The second loop of `visit_Import`: a violation for each banned module. */
    method AddBanned(line: nat, names: seq<Alias>)
      modifies `violations
      ensures violations == old(violations) + BannedNames(line, names)
    {
      for i := 0 to |names|
        invariant violations == old(violations) + BannedNames(line, names[..i])
      {
        assert names[..i + 1][..i] == names[..i];
        var root := RootModule(names[i].name);
        if root in BANNED_MODULES {
          violations := violations + [Violation(line, root)];
        }
      }
      assert names[..|names|] == names;
    }

    /** The loop of `visit_ImportFrom`: aliases of the constant. */
    method TrackConstantAliases(names: seq<Alias>)
      modifies `constantAliases
      ensures constantAliases == old(constantAliases) + ConstantNames(names)
    {
      for i := 0 to |names|
        invariant constantAliases == old(constantAliases) + ConstantNames(names[..i])
      {
        ConstantNamesStep(names, i);
        if names[i].name == "TYPE_CHECKING" && HasName(names[i].asname) {
          constantAliases := constantAliases + {names[i].asname.value};
        }
      }
      assert names[..|names|] == names;
    }

    /** `visit_Import`. */
    method VisitImport(line: nat, names: seq<Alias>, ghost enclosing: seq<Region>)
      requires Valid(enclosing)
      modifies this
      ensures seen == old(seen) + [Occurrence(Import(line, names), enclosing)] && Valid(enclosing)
    {
      TrackTypingAliases(names);
      if !inTypeCheckingBlock {
        AddBanned(line, names);
      }
      SeenGrows(enclosing, seen, Occurrence(Import(line, names), enclosing));
      seen := seen + [Occurrence(Import(line, names), enclosing)];
    }

    /** `visit_ImportFrom`. */
    method VisitImportFrom(line: nat, modname: Option<string>, names: seq<Alias>, ghost enclosing: seq<Region>)
      requires Valid(enclosing)
      modifies this
      ensures seen == old(seen) + [Occurrence(ImportFrom(line, modname, names), enclosing)] && Valid(enclosing)
    {
      SeenGrows(enclosing, seen, Occurrence(ImportFrom(line, modname, names), enclosing));
      if modname.None? {
        seen := seen + [Occurrence(ImportFrom(line, modname, names), enclosing)];
        return;
      }
      TrackConstantAliases(names);
      if !inTypeCheckingBlock {
        var root := RootModule(modname.value);
        if root in BANNED_MODULES {
          violations := violations + [Violation(line, root)];
        }
      }
      seen := seen + [Occurrence(ImportFrom(line, modname, names), enclosing)];
    }

    /** `visit_If`: the flag is raised for the body of a guard and put back afterwards. */
    method VisitIf(test: Test, body: seq<Stmt>, orelse: seq<Stmt>, ghost enclosing: seq<Region>)
      requires Valid(enclosing)
      modifies this
      ensures seen == old(seen) + Imports(If(test, body, orelse), |old(seen)|, enclosing) && Valid(enclosing)
      decreases If(test, body, orelse), 0
    {
      ghost var start := seen;
      ghost var inside := enclosing + [Region(test, |start|)];
      RegionFlag(enclosing, start, test, body);
      ImportsOfIf(test, body, orelse, start, enclosing);
      if IsTypeCheckingGuard(test) {
        var oldState := inTypeCheckingBlock;
        inTypeCheckingBlock := true;
        VisitAll(body, inside);
        inTypeCheckingBlock := oldState;
        VisitAll(orelse, enclosing);
      } else {
        VisitAll(body, inside);
        VisitAll(orelse, enclosing);
      }
    }

    /** `visit` on each statement of a list. */
    method VisitAll(nodes: seq<Stmt>, ghost enclosing: seq<Region>)
      requires Valid(enclosing)
      modifies this
      ensures seen == old(seen) + ImportsOf(nodes, |old(seen)|, enclosing) && Valid(enclosing)
      decreases nodes
    {
      for i := 0 to |nodes|
        invariant Valid(enclosing) && seen == old(seen) + ImportsOf(nodes[..i], |old(seen)|, enclosing)
      {
        ImportsOfStep(nodes, i, old(seen), enclosing);
        Visit(nodes[i], enclosing);
      }
      assert nodes[..|nodes|] == nodes;
    }

    /** `visit`: dispatch on the kind of statement; anything else has its children visited in order. */
    method Visit(node: Stmt, ghost enclosing: seq<Region>)
      requires Valid(enclosing)
      modifies this
      ensures seen == old(seen) + Imports(node, |old(seen)|, enclosing) && Valid(enclosing)
      ensures inTypeCheckingBlock == old(inTypeCheckingBlock)
      decreases node, 1
    {
      GuardedStable(enclosing, seen, Imports(node, |seen|, enclosing));
      match node
      case Import(line, names) => VisitImport(line, names, enclosing);
      case ImportFrom(line, modname, names) => VisitImportFrom(line, modname, names, enclosing);
      case If(test, body, orelse) => VisitIf(test, body, orelse, enclosing);
      case Other(children) => VisitAll(children, enclosing);
    }
  }

  /** Every region was entered after imports that have been seen. */
  ghost predicate Earlier(enclosing: seq<Region>, seen: seq<Occurrence>) {
    forall k :: 0 <= k < |enclosing| ==> enclosing[k].before <= |seen|
  }

  lemma Associative<T>(a: seq<T>, b: seq<T>, c: seq<T>)
    ensures a + b + c == a + (b + c)
  {
  }

  /** Visiting one more statement of a list appends its imports. */
  lemma ImportsOfStep(nodes: seq<Stmt>, i: nat, start: seq<Occurrence>, enclosing: seq<Region>)
    requires i < |nodes|
    ensures var seen := start + ImportsOf(nodes[..i], |start|, enclosing);
      seen + Imports(nodes[i], |seen|, enclosing) == start + ImportsOf(nodes[..i + 1], |start|, enclosing)
  {
    assert nodes[..i + 1][..i] == nodes[..i];
    Associative(start, ImportsOf(nodes[..i], |start|, enclosing),
                Imports(nodes[i], |start| + |ImportsOf(nodes[..i], |start|, enclosing)|, enclosing));
  }

  lemma ModuleNamesStep(names: seq<Alias>, i: nat)
    requires i < |names|
    ensures ModuleNames(names[..i + 1]) == ModuleNames(names[..i]) +
      (if names[i].name == "typing" && HasName(names[i].asname) then {names[i].asname.value} else {})
  {
    assert names[..i + 1] == names[..i] + [names[i]];
  }

  lemma ConstantNamesStep(names: seq<Alias>, i: nat)
    requires i < |names|
    ensures ConstantNames(names[..i + 1]) == ConstantNames(names[..i]) +
      (if names[i].name == "TYPE_CHECKING" && HasName(names[i].asname) then {names[i].asname.value} else {})
  {
    assert names[..i + 1] == names[..i] + [names[i]];
  }

  /** Imports seen later do not change whether a region guards. */
  lemma GuardedStable(enclosing: seq<Region>, seen: seq<Occurrence>, more: seq<Occurrence>)
    requires Earlier(enclosing, seen)
    ensures Guarded(enclosing, seen + more) <==> Guarded(enclosing, seen)
    ensures Earlier(enclosing, seen + more)
  {
    forall k | 0 <= k < |enclosing|
      ensures RegionGuards(enclosing[k], seen + more) <==> RegionGuards(enclosing[k], seen)
    {
      assert (seen + more)[..enclosing[k].before] == seen[..enclosing[k].before];
    }
  }

  lemma SeenGrows(enclosing: seq<Region>, seen: seq<Occurrence>, o: Occurrence)
    requires Earlier(enclosing, seen)
    ensures Guarded(enclosing, seen + [o]) <==> Guarded(enclosing, seen)
    ensures Earlier(enclosing, seen + [o])
    ensures Report(seen + [o]) == Report(seen) + Contribution(o, seen)
    ensures ModulesKnown(seen + [o]) == ModulesKnown(seen) + ModuleAliases(o.stmt)
    ensures ConstantsKnown(seen + [o]) == ConstantsKnown(seen) + ConstantAliases(o.stmt)
  {
    GuardedStable(enclosing, seen, [o]);
    assert (seen + [o])[..|seen|] == seen;
  }

  /** Entering an `if` body adds its test, read under the aliases known at the `if`. */
  lemma EnterRegion(enclosing: seq<Region>, seen: seq<Occurrence>, test: Test)
    requires Earlier(enclosing, seen)
    ensures var inside := enclosing + [Region(test, |seen|)];
      && Earlier(inside, seen)
      && (Guarded(inside, seen) <==>
            Guarded(enclosing, seen) || IsGuard(test, ModulesKnown(seen), ConstantsKnown(seen)))
  {
    assert seen[..|seen|] == seen;
    GuardedOneMore(enclosing, Region(test, |seen|), seen);
  }

  lemma GuardedOneMore(enclosing: seq<Region>, r: Region, seen: seq<Occurrence>)
    ensures Guarded(enclosing + [r], seen) <==> Guarded(enclosing, seen) || RegionGuards(r, seen)
  {
    var inside := enclosing + [r];
    assert inside[|enclosing|] == r;
    forall k | 0 <= k < |enclosing| ensures inside[k] == enclosing[k] {
    }
    if k :| 0 <= k < |enclosing| && RegionGuards(enclosing[k], seen) {
      assert RegionGuards(inside[k], seen);
    }
  }

  /** What the flag must be inside an `if` body, at its end, and after it. */
  lemma RegionFlag(enclosing: seq<Region>, seen: seq<Occurrence>, test: Test, body: seq<Stmt>)
    requires Earlier(enclosing, seen)
    ensures
      var inside := enclosing + [Region(test, |seen|)];
      var after := seen + ImportsOf(body, |seen|, inside);
      var guard := IsGuard(test, ModulesKnown(seen), ConstantsKnown(seen));
      && Earlier(inside, seen) && Earlier(enclosing, after)
      && (Guarded(inside, seen) <==> Guarded(enclosing, seen) || guard)
      && (Guarded(enclosing, after) <==> Guarded(enclosing, seen))
      && (!guard ==> (Guarded(inside, after) <==> Guarded(enclosing, after)))
  {
    var inside := enclosing + [Region(test, |seen|)];
    EnterRegion(enclosing, seen, test);
    GuardedStable(enclosing, seen, ImportsOf(body, |seen|, inside));
    GuardedStable(inside, seen, ImportsOf(body, |seen|, inside));
  }

  /** The imports of an `if` are those of its body and then those of its else branch. */
  lemma ImportsOfIf(test: Test, body: seq<Stmt>, orelse: seq<Stmt>, start: seq<Occurrence>, enclosing: seq<Region>)
    ensures
      var after := start + ImportsOf(body, |start|, enclosing + [Region(test, |start|)]);
      after + ImportsOf(orelse, |after|, enclosing) == start + Imports(If(test, body, orelse), |start|, enclosing)
  {
    var within := ImportsOf(body, |start|, enclosing + [Region(test, |start|)]);
    Associative(start, within, ImportsOf(orelse, |start| + |within|, enclosing));
  }

  /** The whole check of a file. */
  method CheckFile(program: seq<Stmt>) returns (violations: seq<Violation>)
    ensures violations == Report(ImportsOf(program, 0, []))
    ensures forall v :: v in violations <==> exists i: nat :: Exposed(ImportsOf(program, 0, []), i, v)
  {
    var checker := new TransportImportChecker();
    checker.VisitAll(program, []);
    assert checker.seen == ImportsOf(program, 0, []);
    violations := checker.violations;
    forall v ensures v in violations <==> exists i: nat :: Exposed(ImportsOf(program, 0, []), i, v) {
      ReportedIff(ImportsOf(program, 0, []), v);
    }
  }

  // ---- Which imports are banned, and which are reported ----

  /** The violation names the first component of a dotted name, and that is a banned module. */
  ghost predicate Bans(name: string, v: Violation) {
    && IsHead(name, '.', v.modname)
    && v.modname in {
         "aiohttp", "httpx", "requests", "urllib3", "kafka", "aiokafka", "confluent_kafka", "redis", "aioredis",
         "asyncpg", "psycopg2", "psycopg", "aiomysql", "pika", "aio_pika", "kombu", "celery", "grpc", "websockets",
         "wsproto"}
  }

  /** The statement imports a banned module, by `import` under one of its names or by `from`. */
  ghost predicate ImportsBanned(stmt: Stmt, v: Violation) {
    match stmt
    case Import(line, names) => v.line == line && exists a :: a in names && Bans(a.name, v)
    case ImportFrom(line, modname, _) => v.line == line && modname.Some? && Bans(modname.value, v)
    case _ => false
  }

  lemma BansIff(name: string, v: Violation)
    ensures Bans(name, v) <==> Banned(name) && v.modname == RootModule(name)
  {
    UpToIff(name, '.', v.modname);
  }

  lemma {:induction false} BannedNamesIff(line: nat, names: seq<Alias>, v: Violation)
    ensures v in BannedNames(line, names) <==> v.line == line && exists a :: a in names && Bans(a.name, v)
  {
    if names != [] {
      var init, last := names[..|names| - 1], names[|names| - 1];
      BannedNamesIff(line, init, v);
      BansIff(last.name, v);
      assert names == init + [last];
    }
  }

  lemma BannedInIff(stmt: Stmt, v: Violation)
    ensures v in BannedIn(stmt) <==> ImportsBanned(stmt, v)
  {
    match stmt
    case Import(line, names) => BannedNamesIff(line, names, v);
    case ImportFrom(_, modname, _) =>
      if modname.Some? {
        BansIff(modname.value, v);
      }
    case _ =>
  }

  ghost predicate Exposed(seen: seq<Occurrence>, i: nat, v: Violation) {
    i < |seen| && ImportsBanned(seen[i].stmt, v) && !Guarded(seen[i].enclosing, seen[..i])
  }

  /** A banned import is reported exactly when no enclosing `if` body is a guard under the aliases
      imported before that `if`. */
  lemma {:induction false} ReportedIff(seen: seq<Occurrence>, v: Violation)
    ensures v in Report(seen) <==> exists i: nat :: Exposed(seen, i, v)
  {
    if seen != [] {
      var earlier := seen[..|seen| - 1];
      ReportedIff(earlier, v);
      ExposedStep(earlier, seen, v);
      BannedInIff(seen[|earlier|].stmt, v);
      assert seen[..|earlier|] == earlier;
      assert v in Report(seen) <==> v in Report(earlier) || Exposed(seen, |earlier|, v);
    }
  }

  lemma ExposedStep(earlier: seq<Occurrence>, seen: seq<Occurrence>, v: Violation)
    requires seen != [] && earlier == seen[..|seen| - 1]
    ensures (exists i: nat :: Exposed(seen, i, v))
            <==> (exists i: nat :: Exposed(earlier, i, v)) || Exposed(seen, |earlier|, v)
  {
    forall i: nat | i < |earlier| ensures Exposed(seen, i, v) <==> Exposed(earlier, i, v) {
      assert seen[..i] == earlier[..i];
    }
  }

  // ---- Guarding a stretch of a file ----

  /** What the imports `more` add to the report once `seen` have been visited. */
  ghost function ReportAfter(seen: seq<Occurrence>, more: seq<Occurrence>): seq<Violation> {
    if more == [] then []
    else
      var earlier, last := more[..|more| - 1], more[|more| - 1];
      ReportAfter(seen, earlier) + Contribution(last, seen + earlier)
  }

  lemma ReportGrows(seen: seq<Occurrence>, more: seq<Occurrence>)
    requires more != []
    ensures var earlier, last := more[..|more| - 1], more[|more| - 1];
      Report(seen + more) == Report(seen + earlier) + Contribution(last, seen + earlier)
  {
    assert (seen + more)[..|seen + more| - 1] == seen + more[..|more| - 1];
  }

  lemma {:induction false} ReportSplits(seen: seq<Occurrence>, more: seq<Occurrence>)
    ensures Report(seen + more) == Report(seen) + ReportAfter(seen, more)
  {
    if more == [] {
      assert seen + more == seen;
    } else {
      var earlier, last := more[..|more| - 1], more[|more| - 1];
      ReportSplits(seen, earlier);
      ReportGrows(seen, more);
      Associative(Report(seen), ReportAfter(seen, earlier), Contribution(last, seen + earlier));
    }
  }

  lemma {:induction false} ImportsConcat(x: seq<Stmt>, y: seq<Stmt>, base: nat, enclosing: seq<Region>)
    ensures ImportsOf(x + y, base, enclosing)
            == ImportsOf(x, base, enclosing) + ImportsOf(y, base + |ImportsOf(x, base, enclosing)|, enclosing)
  {
    if y == [] {
      assert x + y == x;
    } else {
      var init, last := y[..|y| - 1], y[|y| - 1];
      var n := |ImportsOf(x, base, enclosing)|;
      ImportsConcat(x, init, base, enclosing);
      assert (x + y)[..|x + y| - 1] == x + init && (x + y)[|x + y| - 1] == last;
      ImportsLast(x + y, base, enclosing, x + init, last);
      ImportsLast(y, base + n, enclosing, init, last);
    }
  }

  lemma ImportsLast(nodes: seq<Stmt>, base: nat, enclosing: seq<Region>, init: seq<Stmt>, last: Stmt)
    requires nodes != [] && init == nodes[..|nodes| - 1] && last == nodes[|nodes| - 1]
    ensures var earlier := ImportsOf(init, base, enclosing);
      ImportsOf(nodes, base, enclosing) == earlier + Imports(last, base + |earlier|, enclosing)
  {
  }

  ghost predicate SameStmts(a: seq<Occurrence>, b: seq<Occurrence>) {
    |a| == |b| && forall i :: 0 <= i < |a| ==> a[i].stmt == b[i].stmt
  }

  /** The same imports are met whatever encloses them. */
  lemma {:induction false} SameImports(node: Stmt, base: nat, e: seq<Region>, f: seq<Region>)
    ensures SameStmts(Imports(node, base, e), Imports(node, base, f))
    decreases node
  {
    match node
    case Import(_, _) =>
    case ImportFrom(_, _, _) =>
    case If(test, body, orelse) =>
      SameImportsOf(body, base, e + [Region(test, base)], f + [Region(test, base)]);
      SameImportsOf(orelse, base + |ImportsOf(body, base, e + [Region(test, base)])|, e, f);
    case Other(children) => SameImportsOf(children, base, e, f);
  }

  lemma {:induction false} SameImportsOf(nodes: seq<Stmt>, base: nat, e: seq<Region>, f: seq<Region>)
    ensures SameStmts(ImportsOf(nodes, base, e), ImportsOf(nodes, base, f))
    decreases nodes
  {
    if nodes != [] {
      var init := nodes[..|nodes| - 1];
      SameImportsOf(init, base, e, f);
      SameImports(nodes[|nodes| - 1], base + |ImportsOf(init, base, e)|, e, f);
    }
  }

  ghost predicate AllWithin(occurrences: seq<Occurrence>, r: Region) {
    forall i :: 0 <= i < |occurrences| ==> r in occurrences[i].enclosing
  }

  lemma WithinConcat(x: seq<Occurrence>, y: seq<Occurrence>, r: Region)
    requires AllWithin(x, r) && AllWithin(y, r)
    ensures AllWithin(x + y, r)
  {
  }

  lemma {:induction false} StaysWithin(node: Stmt, base: nat, enclosing: seq<Region>, r: Region)
    requires r in enclosing
    ensures AllWithin(Imports(node, base, enclosing), r)
    decreases node
  {
    match node
    case Import(_, _) =>
    case ImportFrom(_, _, _) =>
    case If(test, body, orelse) =>
      var inside := enclosing + [Region(test, base)];
      assert inside[..|enclosing|] == enclosing;
      AllStayWithin(body, base, inside, r);
      var inBody := ImportsOf(body, base, inside);
      AllStayWithin(orelse, base + |inBody|, enclosing, r);
      WithinConcat(inBody, ImportsOf(orelse, base + |inBody|, enclosing), r);
    case Other(children) => AllStayWithin(children, base, enclosing, r);
  }

  lemma {:induction false} AllStayWithin(nodes: seq<Stmt>, base: nat, enclosing: seq<Region>, r: Region)
    requires r in enclosing
    ensures AllWithin(ImportsOf(nodes, base, enclosing), r)
    decreases nodes
  {
    if nodes != [] {
      var init := nodes[..|nodes| - 1];
      AllStayWithin(init, base, enclosing, r);
      var earlier := ImportsOf(init, base, enclosing);
      StaysWithin(nodes[|nodes| - 1], base + |earlier|, enclosing, r);
      WithinConcat(earlier, Imports(nodes[|nodes| - 1], base + |earlier|, enclosing), r);
    }
  }

  lemma {:induction false} SameKnown(a: seq<Occurrence>, b: seq<Occurrence>)
    requires SameStmts(a, b)
    ensures ModulesKnown(a) == ModulesKnown(b) && ConstantsKnown(a) == ConstantsKnown(b)
  {
    if a != [] {
      SameKnown(a[..|a| - 1], b[..|b| - 1]);
    }
  }

  lemma SameGuarded(enclosing: seq<Region>, a: seq<Occurrence>, b: seq<Occurrence>)
    requires SameStmts(a, b)
    ensures Guarded(enclosing, a) <==> Guarded(enclosing, b)
  {
    forall k | 0 <= k < |enclosing| ensures RegionGuards(enclosing[k], a) <==> RegionGuards(enclosing[k], b) {
      if enclosing[k].before <= |a| {
        SameKnown(a[..enclosing[k].before], b[..enclosing[k].before]);
      }
    }
  }

  /** Later reports depend on which imports were seen, not on what enclosed them. */
  lemma {:induction false} SameReportAfter(a: seq<Occurrence>, b: seq<Occurrence>, more: seq<Occurrence>)
    requires SameStmts(a, b)
    ensures ReportAfter(a, more) == ReportAfter(b, more)
  {
    if more != [] {
      var earlier, last := more[..|more| - 1], more[|more| - 1];
      SameReportAfter(a, b, earlier);
      SameBefore(a, b, earlier);
      SameGuarded(last.enclosing, a + earlier, b + earlier);
      assert Contribution(last, a + earlier) == Contribution(last, b + earlier);
    }
  }

  lemma SameBefore(a: seq<Occurrence>, b: seq<Occurrence>, earlier: seq<Occurrence>)
    requires SameStmts(a, b)
    ensures SameStmts(a + earlier, b + earlier)
  {
  }

  lemma {:induction false} GuardedReportsNothing(seen: seq<Occurrence>, more: seq<Occurrence>, r: Region)
    requires AllWithin(more, r) && r.before <= |seen| && r.test == Name("TYPE_CHECKING")
    ensures ReportAfter(seen, more) == []
  {
    if more != [] {
      var earlier, last := more[..|more| - 1], more[|more| - 1];
      GuardedReportsNothing(seen, earlier, r);
      var k :| 0 <= k < |last.enclosing| && last.enclosing[k] == r;
      assert RegionGuards(last.enclosing[k], seen + earlier);
    }
  }

  lemma GuardImports(body: seq<Stmt>, base: nat)
    ensures ImportsOf([If(Name("TYPE_CHECKING"), body, [])], base, [])
            == ImportsOf(body, base, [Region(Name("TYPE_CHECKING"), base)])
  {
    var guard := If(Name("TYPE_CHECKING"), body, []);
    var r := Region(Name("TYPE_CHECKING"), base);
    assert [guard][..0] == [] && ImportsOf([], base, []) == [];
    assert [] + [r] == [r];
    assert Imports(guard, base, []) == ImportsOf(body, base, [r]) + [];
  }

  lemma ImportsOfThree(x: seq<Stmt>, y: seq<Stmt>, z: seq<Stmt>)
    ensures
      var a := ImportsOf(x, 0, []);
      var b := ImportsOf(y, |a|, []);
      ImportsOf(x + y + z, 0, []) == a + b + ImportsOf(z, |a| + |b|, [])
  {
    ImportsConcat(x, y, 0, []);
    ImportsConcat(x + y, z, 0, []);
  }

  /** The imports of the middle stretch inside the guard. */
  lemma GuardedStretch(body: seq<Stmt>, base: nat) returns (g: seq<Occurrence>)
    ensures g == ImportsOf([If(Name("TYPE_CHECKING"), body, [])], base, [])
    ensures SameStmts(ImportsOf(body, base, []), g) && AllWithin(g, Region(Name("TYPE_CHECKING"), base))
  {
    var r := Region(Name("TYPE_CHECKING"), base);
    GuardImports(body, base);
    g := ImportsOf(body, base, [r]);
    SameImportsOf(body, base, [], [r]);
    AllStayWithin(body, base, [r], r);
  }

  /** The reports of three stretches, the middle one either free or inside the guard `r`. */
  lemma StretchReports(a: seq<Occurrence>, b: seq<Occurrence>, c: seq<Occurrence>, g: seq<Occurrence>, r: Region,
                       free: seq<Occurrence>, guarded: seq<Occurrence>)
    requires SameStmts(b, g) && AllWithin(g, r) && r.before <= |a| && r.test == Name("TYPE_CHECKING")
    requires free == a + b + c && guarded == a + g + c
    ensures Report(free) == Report(a) + ReportAfter(a, b) + ReportAfter(a + b, c)
    ensures Report(guarded) == Report(a) + ReportAfter(a + b, c)
  {
    ReportSplits(a + b, c);
    ReportSplits(a, b);
    ReportSplits(a + g, c);
    ReportSplits(a, g);
    GuardedReportsNothing(a, g, r);
    SameReportAfter(a + g, a + b, c);
    assert Report(a) + [] == Report(a);
  }

  /** The report of a file in three stretches, the middle one replaced by `guarded`. */
  lemma ReplacedStretch(pre: seq<Stmt>, body: seq<Stmt>, guarded: seq<Stmt>, post: seq<Stmt>, r: Region)
    requires var n := |ImportsOf(pre, 0, [])|;
      && SameStmts(ImportsOf(body, n, []), ImportsOf(guarded, n, []))
      && AllWithin(ImportsOf(guarded, n, []), r) && r == Region(Name("TYPE_CHECKING"), n)
    ensures
      var a := ImportsOf(pre, 0, []);
      var b := ImportsOf(body, |a|, []);
      var c := ImportsOf(post, |a| + |b|, []);
      && Report(ImportsOf(pre + body + post, 0, [])) == Report(a) + ReportAfter(a, b) + ReportAfter(a + b, c)
      && Report(ImportsOf(pre + guarded + post, 0, [])) == Report(a) + ReportAfter(a + b, c)
  {
    var a := ImportsOf(pre, 0, []);
    var b := ImportsOf(body, |a|, []);
    var g := ImportsOf(guarded, |a|, []);
    ImportsOfThree(pre, body, post);
    ImportsOfThree(pre, guarded, post);
    StretchReports(a, b, ImportsOf(post, |a| + |b|, []), g, r,
                   ImportsOf(pre + body + post, 0, []), ImportsOf(pre + guarded + post, 0, []));
  }

  /** Moving a stretch of a file under `if TYPE_CHECKING:` removes exactly the reports of that
      stretch: those before and after it stay as they were, aliases it imports included. */
  lemma GuardingSilences(pre: seq<Stmt>, body: seq<Stmt>, post: seq<Stmt>)
    ensures
      var a := ImportsOf(pre, 0, []);
      var b := ImportsOf(body, |a|, []);
      var c := ImportsOf(post, |a| + |b|, []);
      && Report(ImportsOf(pre + body + post, 0, [])) == Report(a) + ReportAfter(a, b) + ReportAfter(a + b, c)
      && Report(ImportsOf(pre + [If(Name("TYPE_CHECKING"), body, [])] + post, 0, []))
         == Report(a) + ReportAfter(a + b, c)
  {
    var n := |ImportsOf(pre, 0, [])|;
    var g := GuardedStretch(body, n);
    ReplacedStretch(pre, body, [If(Name("TYPE_CHECKING"), body, [])], post, Region(Name("TYPE_CHECKING"), n));
  }
}
