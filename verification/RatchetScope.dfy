/** The change-scoped run of the ratchet, and when it gives the verdict of a full scan. */
module RatchetScope {
  import opened Ordering
  import opened Text
  import opened Ratchet
  import opened RepoPaths

  /** The files of one commit. */
  type Tree = map<string, string>

  /** What the classifier finds in one contract. */
  datatype Classification = Classification(
    category: string, isCanonical: bool, handlerModule: Option<string>, detail: Option<string>)

  /** Classification and flip verification as functions of the files. */
  datatype Analysis = Analysis(
    classify: (Tree, string) -> Classification,
    verify: (Tree, string, Option<string>) -> bool)
  {
    /** `classify_node` on the contract of a directory. */
    function FindingAt(tree: Tree, dir: string): Finding {
      var c := classify(tree, dir);
      Finding(Dotted(dir), c.category, c.isCanonical, c.handlerModule, c.detail)
    }

    function VerifierOn(tree: Tree): Verifier {
      (id, handler) => verify(tree, id, handler)
    }
  }

  /** The settings the scope logic reads. */
  datatype Settings = Settings(package: string, sharedModules: set<string>)

  const RESOLUTION_MODULES := ["runtime/runtime_local_adapter", "runtime/runtime_local",
                               "mixins/mixin_envelope_extraction"]
  const SELF_PATHS := ["scripts/ci/canonical_handler_shape.py", "scripts/ci/canonical_handler_shape_baseline.py"]

  /** Why a full scan is forced. */
  datatype Escalation = GateChanged(rel: string) | ResolutionChanged(modulePath: string) | SharedChanged(top: string)

  /** What one changed file forces: the gate's own files first, then the modules the classifier resolves
      handlers through, then shared modules. */
  function EscalationOf(s: Settings, rel: string): Option<Escalation> {
    var prefix := "src/" + s.package + "/";
    if rel in SELF_PATHS || "scripts/ci/adequacy_receipts/" <= rel then Some(GateChanged(rel))
    else if !(prefix <= rel) || !EndsWith(rel, ".py") || |rel| < |prefix| + 3 then None
    else
      var modulePath := rel[|prefix|..|rel| - 3];
      if exists i :: 0 <= i < |RESOLUTION_MODULES| && RESOLUTION_MODULES[i] <= modulePath
      then Some(ResolutionChanged(modulePath))
      else if UpTo(modulePath, '/') in s.sharedModules then Some(SharedChanged(UpTo(modulePath, '/')))
      else None
  }

  predicate Triggers(s: Settings, rel: string) {
    EscalationOf(s, rel).Some?
  }

  // ---- Which files force a full scan, path by path ----

  /** The gate, its baseline, or an adequacy receipt. */
  ghost predicate GateFile(f: string) {
    || f == "scripts/ci/canonical_handler_shape.py" || f == "scripts/ci/canonical_handler_shape_baseline.py"
    || "scripts/ci/adequacy_receipts/" <= f
  }

  /** `f` is the source file of the package's module at path `m`. */
  ghost predicate ModuleFile(s: Settings, f: string, m: string) {
    f == "src/" + s.package + "/" + m + ".py"
  }

  /** Handlers are resolved through modules whose paths start like this. */
  ghost predicate ResolvesHandlers(m: string) {
    || "runtime/runtime_local_adapter" <= m || "runtime/runtime_local" <= m
    || "mixins/mixin_envelope_extraction" <= m
  }

  /** The first component of the module path is a shared module. */
  ghost predicate SharedAt(s: Settings, m: string, top: string) {
    top in s.sharedModules && IsHead(m, '/', top)
  }

  /** The file forces a full scan for that reason. */
  ghost predicate ForcesFor(s: Settings, f: string, reason: Escalation) {
    match reason
    case GateChanged(rel) => rel == f && GateFile(f)
    case ResolutionChanged(m) => !GateFile(f) && ModuleFile(s, f, m) && ResolvesHandlers(m)
    case SharedChanged(top) =>
      !GateFile(f) && exists m :: ModuleFile(s, f, m) && !ResolvesHandlers(m) && SharedAt(s, m, top)
  }

  ghost predicate Forces(s: Settings, f: string) {
    || GateFile(f)
    || exists m :: ModuleFile(s, f, m) && (ResolvesHandlers(m) || exists top :: SharedAt(s, m, top))
  }

  lemma ModuleFileIff(s: Settings, f: string, m: string)
    ensures var prefix := "src/" + s.package + "/";
      ModuleFile(s, f, m) <==>
      prefix <= f && EndsWith(f, ".py") && |f| >= |prefix| + 3 && m == f[|prefix|..|f| - 3]
  {
    var prefix := "src/" + s.package + "/";
    EndsWithIff(f, ".py", prefix + m);
    if prefix <= f && EndsWith(f, ".py") && |f| >= |prefix| + 3 && m == f[|prefix|..|f| - 3] {
      assert f[..|f| - 3] == prefix + m;
    }
    if ModuleFile(s, f, m) {
      assert f[|prefix|..|f| - 3] == m;
    }
  }

  lemma ResolvesIff(m: string)
    ensures ResolvesHandlers(m) <==>
            exists i :: 0 <= i < |RESOLUTION_MODULES| && RESOLUTION_MODULES[i] <= m
  {
    assert RESOLUTION_MODULES[0] == "runtime/runtime_local_adapter";
    assert RESOLUTION_MODULES[1] == "runtime/runtime_local";
    assert RESOLUTION_MODULES[2] == "mixins/mixin_envelope_extraction";
  }

  lemma GateFileIff(f: string)
    ensures GateFile(f) <==> f in SELF_PATHS || "scripts/ci/adequacy_receipts/" <= f
  {
    assert SELF_PATHS[0] == "scripts/ci/canonical_handler_shape.py";
    assert SELF_PATHS[1] == "scripts/ci/canonical_handler_shape_baseline.py";
  }

  /** The code escalates for exactly the reason the paths give. */
  lemma EscalationIff(s: Settings, f: string, reason: Escalation)
    ensures EscalationOf(s, f) == Some(reason) <==> ForcesFor(s, f, reason)
  {
    GateFileIff(f);
    var prefix := "src/" + s.package + "/";
    forall m ensures ModuleFile(s, f, m) <==>
      prefix <= f && EndsWith(f, ".py") && |f| >= |prefix| + 3 && m == f[|prefix|..|f| - 3] {
      ModuleFileIff(s, f, m);
    }
    if prefix <= f && EndsWith(f, ".py") && |f| >= |prefix| + 3 {
      var m := f[|prefix|..|f| - 3];
      assert ModuleFile(s, f, m);
      ResolvesIff(m);
      if reason.SharedChanged? {
        UpToIff(m, '/', reason.top);
      }
    }
  }

  lemma TriggersIff(s: Settings, f: string)
    ensures Triggers(s, f) <==> Forces(s, f)
  {
    if Triggers(s, f) {
      EscalationIff(s, f, EscalationOf(s, f).value);
    }
    if GateFile(f) {
      EscalationIff(s, f, GateChanged(f));
    } else if m :| ModuleFile(s, f, m) && (ResolvesHandlers(m) || exists top :: SharedAt(s, m, top)) {
      if ResolvesHandlers(m) {
        EscalationIff(s, f, ResolutionChanged(m));
      } else {
        var top :| SharedAt(s, m, top);
        EscalationIff(s, f, SharedChanged(top));
      }
    }
  }

  /** Index `i` is the first changed file that forces a full scan. */
  ghost predicate FirstTrigger(s: Settings, changed: seq<string>, i: nat) {
    i < |changed| && Forces(s, changed[i]) && forall j :: 0 <= j < i ==> !Forces(s, changed[j])
  }

  ghost predicate NothingTriggers(s: Settings, changed: seq<string>) {
    forall f :: f in changed ==> !Forces(s, f)
  }

  ghost predicate IsReason(s: Settings, changed: seq<string>, reason: Escalation) {
    exists i: nat :: FirstTrigger(s, changed, i) && ForcesFor(s, changed[i], reason)
  }

  /** `_escalation_reason`: what the first file that forces a full scan forces. */
  method EscalationReason(s: Settings, changed: seq<string>) returns (reason: Option<Escalation>)
    ensures reason.None? <==> NothingTriggers(s, changed)
    ensures reason.Some? ==> IsReason(s, changed, reason.value)
  {
    for i := 0 to |changed|
      invariant forall j :: 0 <= j < i ==> !Forces(s, changed[j])
    {
      var escalation := EscalationOf(s, changed[i]);
      TriggersIff(s, changed[i]);
      if escalation.Some? {
        EscalationIff(s, changed[i], escalation.value);
        assert FirstTrigger(s, changed, i) && changed[i] in changed;
        return escalation;
      }
    }
    reason := None;
  }

  function ContractPath(dir: string): string {
    "src/" + dir + "/contract.yaml"
  }

  predicate HasContract(tree: Tree, dir: string) {
    ContractPath(dir) in tree
  }

  /** The default glob `<package>/**/nodes/**/contract.yaml`, on the contract's directory. */
  predicate InGlob(s: Settings, dir: string) {
    s.package + "/" <= dir + "/" && FindFrom((dir + "/")[|s.package|..], "/nodes/", 0).Some?
  }

  /** The directory of a path of the form `src/<dir>/contract.yaml`. */
  function ContractDir(f: string): Option<string> {
    if "src/" <= f && EndsWith(f, "/contract.yaml") && |f| >= 18 then Some(f[4..|f| - 14]) else None
  }

  function NodeDirs(s: Settings, tree: Tree): set<string> {
    set f | f in tree && ContractDir(f).Some? && InGlob(s, ContractDir(f).value) :: ContractDir(f).value
  }

  /** The contract of the directory is there, and its path is the package, any directories, `nodes`, and
      any directories. */
  ghost predicate IsNodeDir(s: Settings, tree: Tree, dir: string) {
    "src/" + dir + "/contract.yaml" in tree && exists between, below :: InPackage(s, dir, between, below)
  }

  ghost predicate InPackage(s: Settings, dir: string, between: string, below: string) {
    dir + "/" == s.package + (between + "/nodes/" + below) && (between == "" || between[0] == '/')
  }

  lemma InGlobSplits(s: Settings, dir: string) returns (between: string, below: string)
    requires InGlob(s, dir)
    ensures InPackage(s, dir, between, below)
  {
    var rest := (dir + "/")[|s.package|..];
    var i := FindFrom(rest, "/nodes/", 0).value;
    assert rest[0] == '/';
    between, below := rest[..i], rest[i + 7..];
    assert rest == between + "/nodes/" + below;
    assert dir + "/" == s.package + rest;
  }

  lemma InPackageInGlob(s: Settings, dir: string, between: string, below: string)
    requires InPackage(s, dir, between, below)
    ensures InGlob(s, dir)
  {
    var rest := between + "/nodes/" + below;
    FoundBetween(between, below);
    StartsWithSlash(between, below);
    PackageStarts(s.package, rest, dir + "/");
  }

  lemma StartsWithSlash(between: string, below: string)
    requires between == "" || between[0] == '/'
    ensures (between + "/nodes/" + below)[0] == '/'
  {
  }

  lemma PackageStarts(package: string, rest: string, path: string)
    requires path == package + rest && rest != "" && rest[0] == '/'
    ensures path[|package|..] == rest && package + "/" <= path
  {
    assert package + "/" == path[..|package| + 1];
  }

  lemma FoundBetween(between: string, below: string)
    ensures FindFrom(between + "/nodes/" + below, "/nodes/", 0).Some?
  {
    assert OccursAt(between + "/nodes/" + below, "/nodes/", |between|);
  }

  lemma InGlobIff(s: Settings, dir: string)
    ensures InGlob(s, dir) <==> exists between, below :: InPackage(s, dir, between, below)
  {
    if InGlob(s, dir) {
      var between, below := InGlobSplits(s, dir);
    }
    if between, below :| InPackage(s, dir, between, below) {
      InPackageInGlob(s, dir, between, below);
    }
  }

  /** A full scan looks at exactly these directories. */
  lemma NodeDirsIff(s: Settings, tree: Tree, dir: string)
    ensures dir in NodeDirs(s, tree) <==> IsNodeDir(s, tree, dir)
  {
    NodeDirsMember(s, tree, dir);
    InGlobIff(s, dir);
  }

  lemma NodeDirsMember(s: Settings, tree: Tree, dir: string)
    ensures dir in NodeDirs(s, tree) <==> HasContract(tree, dir) && InGlob(s, dir)
  {
    var f := ContractPath(dir);
    assert f[4..|f| - 14] == dir && f[|f| - 14..] == "/contract.yaml";
    assert "src/" <= f;
    if g :| g in tree && ContractDir(g) == Some(dir) && InGlob(s, dir) {
      assert g == "src/" + g[4..|g| - 14] + g[|g| - 14..];
    }
  }

  /** `findings` are the classifications of exactly the directories `dirs`. */
  ghost predicate IsScan(an: Analysis, tree: Tree, dirs: set<string>, findings: seq<Finding>) {
    forall f :: f in findings <==> exists d :: d in dirs && f == an.FindingAt(tree, d)
  }

  /** One more directory classified. */
  lemma ScanAdd(an: Analysis, tree: Tree, dirs: set<string>, findings: seq<Finding>, d: string)
    requires IsScan(an, tree, dirs, findings)
    ensures IsScan(an, tree, dirs + {d}, findings + [an.FindingAt(tree, d)])
  {
    var longer := findings + [an.FindingAt(tree, d)];
    forall f ensures f in longer <==> exists e :: e in dirs + {d} && f == an.FindingAt(tree, e) {
      assert f in longer <==> f in findings || f == an.FindingAt(tree, d);
      assert d in dirs + {d};
    }
  }

  /** The classifications of a list of directories, in its order. */
  ghost function Classified(an: Analysis, tree: Tree, dirs: seq<string>): seq<Finding> {
    if dirs == [] then []
    else Classified(an, tree, dirs[..|dirs| - 1]) + [an.FindingAt(tree, dirs[|dirs| - 1])]
  }

  lemma {:induction false} ClassifiedIsScan(an: Analysis, tree: Tree, dirs: seq<string>)
    ensures IsScan(an, tree, Elements(dirs), Classified(an, tree, dirs))
  {
    if dirs != [] {
      var init, last := dirs[..|dirs| - 1], dirs[|dirs| - 1];
      ClassifiedIsScan(an, tree, init);
      ScanAdd(an, tree, Elements(init), Classified(an, tree, init), last);
      assert dirs == init + [last];
      ElementsConcat(init, [last]);
      assert Elements([last]) == {last};
    }
  }

  ghost predicate SortedById(findings: seq<Finding>) {
    forall i, j :: 0 <= i < j < |findings| ==> !Less(findings[j].nodeId, findings[i].nodeId)
  }

  function InsertById(f: Finding, sorted: seq<Finding>): (r: seq<Finding>)
    ensures multiset(r) == multiset(sorted) + multiset{f}
  {
    if sorted == [] then [f]
    else if Less(sorted[0].nodeId, f.nodeId) then
      assert sorted == [sorted[0]] + sorted[1..];
      [sorted[0]] + InsertById(f, sorted[1..])
    else [f] + sorted
  }

  /** `sorted(findings, key=node_id)`. */
  function SortById(findings: seq<Finding>): (r: seq<Finding>)
    ensures multiset(r) == multiset(findings)
  {
    if findings == [] then []
    else
      assert findings == [findings[0]] + findings[1..];
      InsertById(findings[0], SortById(findings[1..]))
  }

  lemma {:induction false} InsertByIdSorted(f: Finding, sorted: seq<Finding>)
    requires SortedById(sorted)
    ensures SortedById(InsertById(f, sorted))
  {
    if sorted == [] {
    } else if Less(sorted[0].nodeId, f.nodeId) {
      var rest := InsertById(f, sorted[1..]);
      InsertByIdSorted(f, sorted[1..]);
      forall j | 0 <= j < |rest| ensures !Less(rest[j].nodeId, sorted[0].nodeId) {
        assert rest[j] in multiset(rest);
        assert rest[j] == f || rest[j] in sorted[1..];
        LessAsymmetric(sorted[0].nodeId, f.nodeId);
      }
    } else {
      forall j | 0 <= j < |sorted| ensures !Less(sorted[j].nodeId, f.nodeId) {
        if Less(sorted[j].nodeId, f.nodeId) {
          LessTotal(sorted[0].nodeId, f.nodeId);
          if sorted[0].nodeId != f.nodeId {
            LessTransitive(sorted[j].nodeId, f.nodeId, sorted[0].nodeId);
          }
        }
      }
    }
  }

  lemma {:induction false} SortByIdSorted(findings: seq<Finding>)
    ensures SortedById(SortById(findings))
  {
    if findings != [] {
      SortByIdSorted(findings[1..]);
      InsertByIdSorted(findings[0], SortById(findings[1..]));
    }
  }

  lemma SameMembers(an: Analysis, tree: Tree, dirs: set<string>, a: seq<Finding>, b: seq<Finding>)
    requires multiset(a) == multiset(b) && IsScan(an, tree, dirs, a)
    ensures IsScan(an, tree, dirs, b)
  {
    forall f ensures f in a <==> f in b {
      assert f in a <==> f in multiset(a);
      assert f in b <==> f in multiset(b);
    }
  }

  /** `classify_all`: one classification per node directory, sorted by node id. */
  method ClassifyAll(an: Analysis, s: Settings, tree: Tree) returns (findings: seq<Finding>)
    ensures IsScan(an, tree, NodeDirs(s, tree), findings)
    ensures multiset(findings) == multiset(Classified(an, tree, SortSet(NodeDirs(s, tree))))
    ensures SortedById(findings)
  {
    var dirs := SortedSet(NodeDirs(s, tree));
    var unsorted := ClassifyList(an, tree, dirs);
    ClassifiedIsScan(an, tree, dirs);
    findings := SortById(unsorted);
    SortByIdSorted(unsorted);
    SameMembers(an, tree, NodeDirs(s, tree), unsorted, findings);
  }

  /** `[classify_node(c) for c in contracts]`. */
  method ClassifyList(an: Analysis, tree: Tree, dirs: seq<string>) returns (findings: seq<Finding>)
    ensures findings == Classified(an, tree, dirs)
  {
    findings := [];
    for i := 0 to |dirs|
      invariant findings == Classified(an, tree, dirs[..i])
    {
      assert dirs[..i + 1][..i] == dirs[..i];
      findings := findings + [an.FindingAt(tree, dirs[i])];
    }
    assert dirs[..|dirs|] == dirs;
  }

  /** The directories of the ids that have a contract, in the order of the ids. */
  function DirsOf(tree: Tree, ids: seq<string>): seq<string> {
    if ids == [] then []
    else
      var dir := Undotted(ids[|ids| - 1]);
      DirsOf(tree, ids[..|ids| - 1]) + if HasContract(tree, dir) then [dir] else []
  }

  ghost function TouchedDirs(tree: Tree, ids: set<string>): set<string> {
    set id | id in ids && HasContract(tree, Undotted(id)) :: Undotted(id)
  }

  lemma {:induction false} DirsOfTouched(tree: Tree, ids: seq<string>)
    ensures Elements(DirsOf(tree, ids)) == TouchedDirs(tree, Elements(ids))
  {
    if ids != [] {
      var init, last := ids[..|ids| - 1], ids[|ids| - 1];
      DirsOfTouched(tree, init);
      assert ids == init + [last];
      assert Elements(ids) == Elements(init) + {last};
      ElementsConcat(DirsOf(tree, init), if HasContract(tree, Undotted(last)) then [Undotted(last)] else []);
      TouchedDirsAdd(tree, Elements(init), last);
    }
  }

  lemma TouchedDirsAdd(tree: Tree, ids: set<string>, id: string)
    ensures TouchedDirs(tree, ids + {id}) ==
            TouchedDirs(tree, ids) + if HasContract(tree, Undotted(id)) then {Undotted(id)} else {}
  {
  }

  /** `classify_node_ids`: one classification per id with a contract, in sorted order of the ids. */
  method ClassifyNodeIds(an: Analysis, tree: Tree, ids: set<string>) returns (findings: seq<Finding>)
    ensures IsScan(an, tree, TouchedDirs(tree, ids), findings)
    ensures findings == Classified(an, tree, DirsOf(tree, SortSet(ids)))
  {
    var sorted := SortedSet(ids);
    findings := [];
    for i := 0 to |sorted|
      invariant findings == Classified(an, tree, DirsOf(tree, sorted[..i]))
    {
      var dir := Undotted(sorted[i]);
      ClassifiedStep(an, tree, sorted, i);
      if HasContract(tree, dir) {
        findings := findings + [an.FindingAt(tree, dir)];
      }
    }
    assert sorted[..|sorted|] == sorted;
    ClassifiedIsScan(an, tree, DirsOf(tree, sorted));
    DirsOfTouched(tree, sorted);
  }

  lemma ClassifiedStep(an: Analysis, tree: Tree, ids: seq<string>, i: nat)
    requires i < |ids|
    ensures Classified(an, tree, DirsOf(tree, ids[..i + 1])) == Classified(an, tree, DirsOf(tree, ids[..i]))
            + if HasContract(tree, Undotted(ids[i])) then [an.FindingAt(tree, Undotted(ids[i]))] else []
  {
    assert ids[..i + 1][..i] == ids[..i];
    var before, dir := DirsOf(tree, ids[..i]), Undotted(ids[i]);
    assert DirsOf(tree, ids[..i + 1]) == before + if HasContract(tree, dir) then [dir] else [];
    ClassifiedSnoc(an, tree, before, dir);
    assert before + [] == before;
  }

  lemma ClassifiedSnoc(an: Analysis, tree: Tree, dirs: seq<string>, dir: string)
    ensures Classified(an, tree, dirs + [dir]) == Classified(an, tree, dirs) + [an.FindingAt(tree, dir)]
  {
    assert (dirs + [dir])[..|dirs|] == dirs;
  }

  lemma {:induction false} ByIdNone(findings: seq<Finding>, id: string)
    ensures ById(findings, id).None? ==> forall f :: f in findings ==> f.nodeId != id
  {
    if findings != [] {
      ByIdNone(findings[..|findings| - 1], id);
      assert findings == findings[..|findings| - 1] + [findings[|findings| - 1]];
    }
  }

  /** What a scan of dotless directories says about one of them. */
  lemma ScanLookup(an: Analysis, tree: Tree, dirs: set<string>, findings: seq<Finding>, dir: string)
    requires IsScan(an, tree, dirs, findings)
    requires '.' !in dir && forall d :: d in dirs ==> '.' !in d
    ensures ById(findings, Dotted(dir)) == if dir in dirs then Some(an.FindingAt(tree, dir)) else None
    ensures Dotted(dir) in NonCanonical(findings) <==> dir in dirs && !an.FindingAt(tree, dir).isCanonical
  {
    var id := Dotted(dir);
    ByIdMember(findings, id);
    ByIdNone(findings, id);
    DottedInverse(dir);
    forall f | f in findings && f.nodeId == id ensures dir in dirs && f == an.FindingAt(tree, dir) {
      var d :| d in dirs && f == an.FindingAt(tree, d);
      DottedInverse(d);
    }
    if dir in dirs {
      assert an.FindingAt(tree, dir) in findings;
    }
  }

  lemma ScanIdHasDir(an: Analysis, tree: Tree, dirs: set<string>, findings: seq<Finding>, id: string)
    returns (dir: string)
    requires IsScan(an, tree, dirs, findings)
    requires ById(findings, id).Some? || id in NonCanonical(findings)
    ensures dir in dirs && id == Dotted(dir)
  {
    ByIdMember(findings, id);
    var f :| f in findings && f.nodeId == id;
    dir :| dir in dirs && f == an.FindingAt(tree, dir);
  }

  // ---- Hypotheses ----

  ghost predicate SameFile(t: Tree, u: Tree, f: string) {
    (f in t <==> f in u) && (f in t ==> t[f] == u[f])
  }

  /** The change list names every file that differs. */
  ghost predicate CoversDiff(base: Tree, tree: Tree, changed: seq<string>) {
    forall f :: f !in changed ==> SameFile(base, tree, f)
  }

  /** A node's classification and flip proof depend on its own files and on escalating files only. */
  ghost predicate Local(an: Analysis, s: Settings) {
    forall t, u, d ::
      (forall f :: Owned(f, d) || Forces(s, f) ==> SameFile(t, u, f)) ==>
        && an.classify(t, d) == an.classify(u, d)
        && forall m :: an.verify(t, Dotted(d), m) == an.verify(u, Dotted(d), m)
  }

  /** Some scan classifies the contract of this directory: the full one, or the scoped one. */
  ghost predicate Scannable(s: Settings, tree: Tree, changed: seq<string>, d: string) {
    HasContract(tree, d) && (InGlob(s, d) || d in TouchedDirs(tree, Touched(changed)))
  }

  /** Every contract that a scan classifies lies in the glob and directly in a `nodes/node_*` directory. */
  ghost predicate WellPlaced(s: Settings, tree: Tree, changed: seq<string>) {
    forall d :: Scannable(s, tree, changed, d) ==> InGlob(s, d) && Direct(d)
  }

  /** A node none of whose files changed was there before and looks the same. */
  lemma UntouchedSame(an: Analysis, s: Settings, base: Tree, tree: Tree, changed: seq<string>, d: string)
    requires CoversDiff(base, tree, changed) && Local(an, s)
    requires NothingTriggers(s, changed)
    requires Direct(d) && Dotted(d) !in Touched(changed)
    ensures HasContract(base, d) <==> HasContract(tree, d)
    ensures an.FindingAt(base, d) == an.FindingAt(tree, d)
    ensures forall m :: an.verify(base, Dotted(d), m) == an.verify(tree, Dotted(d), m)
  {
    forall f | Owned(f, d) || Forces(s, f) ensures SameFile(base, tree, f) {
      if f in changed {
        OwnedIsTouched(f, d);
        TouchedMember(changed, Dotted(d));
      }
    }
    var c := ContractPath(d);
    assert Owned(c, d) by { assert c == "src/" + d + "/" + "contract.yaml"; }
  }

  /** The directories a scoped run classifies are the touched ones among all node directories. */
  lemma TouchedDirsExact(s: Settings, tree: Tree, changed: seq<string>, d: string)
    requires WellPlaced(s, tree, changed)
    ensures d in TouchedDirs(tree, Touched(changed)) <==> d in NodeDirs(s, tree) && Dotted(d) in Touched(changed)
  {
    NodeDirsMember(s, tree, d);
    if id :| id in Touched(changed) && HasContract(tree, Undotted(id)) && Undotted(id) == d {
      TouchedMember(changed, id);
      var f :| f in changed && TouchedId(f) == Some(id);
      NoSlashInTouchedId(f);
      UndottedInverse(id);
    }
    if d in NodeDirs(s, tree) {
      DottedInverse(d);
    }
  }

  /** One node's share of the failing verdict: outside the baseline, or an unproven claim. */
  ghost predicate Offends(findings: seq<Finding>, baseline: set<string>, base: Option<set<string>>,
                          verify: Verifier, id: string) {
    || (id in NonCanonical(findings) && id !in baseline)
    || (ClaimsFlip(findings, baseline, base, id) && !Proves(findings, verify, id))
  }

  /** The situation of the incremental theorem: the base tree passed a full scan under the same
      baseline, the change list is complete, and nothing in it escalates. */
  ghost predicate Incremental(an: Analysis, s: Settings, base: Tree, tree: Tree, changed: seq<string>,
                              baseline: set<string>, baseFindings: seq<Finding>, earlier: Option<set<string>>) {
    && Local(an, s) && CoversDiff(base, tree, changed)
    && WellPlaced(s, base, changed) && WellPlaced(s, tree, changed)
    && NothingTriggers(s, changed)
    && IsScan(an, base, NodeDirs(s, base), baseFindings)
    && !Verdict(baseFindings, baseline, earlier, an.VerifierOn(base)).Failed()
  }

  lemma DotlessDirs(s: Settings, tree: Tree, changed: seq<string>)
    requires WellPlaced(s, tree, changed)
    ensures forall d :: d in NodeDirs(s, tree) ==> '.' !in d && Direct(d)
  {
    forall d | d in NodeDirs(s, tree) ensures '.' !in d && Direct(d) {
      NodeDirsMember(s, tree, d);
      assert Scannable(s, tree, changed, d);
    }
  }

  /** A node the change does not touch does not offend: it did not at the base. */
  lemma UntouchedInnocent(an: Analysis, s: Settings, base: Tree, tree: Tree, changed: seq<string>,
                          baseline: set<string>, baseFindings: seq<Finding>, earlier: Option<set<string>>,
                          full: seq<Finding>, now: Option<set<string>>, d: string)
    requires Incremental(an, s, base, tree, changed, baseline, baseFindings, earlier)
    requires IsScan(an, tree, NodeDirs(s, tree), full) && (now.Some? ==> now.value == baseline)
    requires d in NodeDirs(s, tree) && Dotted(d) !in Touched(changed)
    ensures !Offends(full, baseline, now, an.VerifierOn(tree), Dotted(d))
  {
    DotlessDirs(s, tree, changed);
    DotlessDirs(s, base, changed);
    UntouchedSame(an, s, base, tree, changed, d);
    NodeDirsMember(s, tree, d);
    NodeDirsMember(s, base, d);
    ScanLookup(an, tree, NodeDirs(s, tree), full, d);
    ScanLookup(an, base, NodeDirs(s, base), baseFindings, d);
    PassesIff(baseFindings, baseline, earlier, an.VerifierOn(base));
    var id := Dotted(d);
    if ClaimsFlip(full, baseline, now, id) {
      assert ClaimsFlip(baseFindings, baseline, earlier, id);
      assert Proves(baseFindings, an.VerifierOn(base), id);
    }
  }

  /** A touched node offends in the scoped scan exactly when it does in the full one. */
  lemma TouchedSameOffence(an: Analysis, s: Settings, tree: Tree, changed: seq<string>, baseline: set<string>,
                           full: seq<Finding>, part: seq<Finding>, now: Option<set<string>>, d: string)
    requires WellPlaced(s, tree, changed) && (now.Some? ==> now.value == baseline)
    requires IsScan(an, tree, NodeDirs(s, tree), full)
    requires IsScan(an, tree, TouchedDirs(tree, Touched(changed)), part)
    requires d in TouchedDirs(tree, Touched(changed))
    ensures ById(full, Dotted(d)) == ById(part, Dotted(d))
    ensures Dotted(d) in NonCanonical(full) <==> Dotted(d) in NonCanonical(part)
  {
    DotlessDirs(s, tree, changed);
    forall e | e in TouchedDirs(tree, Touched(changed)) ensures e in NodeDirs(s, tree) {
      TouchedDirsExact(s, tree, changed, e);
    }
    ScanLookup(an, tree, NodeDirs(s, tree), full, d);
    ScanLookup(an, tree, TouchedDirs(tree, Touched(changed)), part, d);
  }

  /** Node by node, the scoped scan finds the offenders of the full scan. */
  lemma SameOffenders(an: Analysis, s: Settings, base: Tree, tree: Tree, changed: seq<string>,
                      baseline: set<string>, baseFindings: seq<Finding>, earlier: Option<set<string>>,
                      full: seq<Finding>, part: seq<Finding>, now: Option<set<string>>, id: string)
    requires Incremental(an, s, base, tree, changed, baseline, baseFindings, earlier)
    requires IsScan(an, tree, NodeDirs(s, tree), full)
    requires IsScan(an, tree, TouchedDirs(tree, Touched(changed)), part)
    requires now.Some? ==> now.value == baseline
    ensures id in NonCanonical(full) - baseline <==> id in NonCanonical(part) - baseline
    ensures ClaimsFlip(full, baseline, now, id) && !Proves(full, an.VerifierOn(tree), id) <==>
            ClaimsFlip(part, baseline, now, id) && !Proves(part, an.VerifierOn(tree), id)
  {
    if Offends(full, baseline, now, an.VerifierOn(tree), id) {
      var d := ScanIdHasDir(an, tree, NodeDirs(s, tree), full, id);
      if Dotted(d) !in Touched(changed) {
        UntouchedInnocent(an, s, base, tree, changed, baseline, baseFindings, earlier, full, now, d);
      }
      TouchedDirsExact(s, tree, changed, d);
      TouchedSameOffence(an, s, tree, changed, baseline, full, part, now, d);
    }
    if Offends(part, baseline, now, an.VerifierOn(tree), id) {
      var d := ScanIdHasDir(an, tree, TouchedDirs(tree, Touched(changed)), part, id);
      TouchedSameOffence(an, s, tree, changed, baseline, full, part, now, d);
    }
  }

  /** Incremental equals full: the same offending sets, hence the same verdict. */
  lemma IncrementalEqualsFull(an: Analysis, s: Settings, base: Tree, tree: Tree, changed: seq<string>,
                              baseline: set<string>, baseFindings: seq<Finding>, earlier: Option<set<string>>,
                              full: seq<Finding>, part: seq<Finding>, now: Option<set<string>>)
    requires Incremental(an, s, base, tree, changed, baseline, baseFindings, earlier)
    requires IsScan(an, tree, NodeDirs(s, tree), full)
    requires IsScan(an, tree, TouchedDirs(tree, Touched(changed)), part)
    requires now.Some? ==> now.value == baseline
    ensures var v := an.VerifierOn(tree);
            var f, p := Verdict(full, baseline, now, v), Verdict(part, baseline, now, v);
            && f.newNonCanonical == p.newNonCanonical
            && f.unprovenFlips == p.unprovenFlips
            && (f.Failed() <==> p.Failed())
  {
    var v := an.VerifierOn(tree);
    forall id ensures id in NonCanonical(full) - baseline <==> id in NonCanonical(part) - baseline
              ensures id in Settled(full, Claimants(full, baseline, now), v, false) <==>
                      id in Settled(part, Claimants(part, baseline, now), v, false)
    {
      SameOffenders(an, s, base, tree, changed, baseline, baseFindings, earlier, full, part, now, id);
    }
    assert NonCanonical(full) - baseline == NonCanonical(part) - baseline;
    assert Settled(full, Claimants(full, baseline, now), v, false) ==
           Settled(part, Claimants(part, baseline, now), v, false);
  }

  // ---- The scope logic of main ----

  /** The node is non-canonical outside the baseline. */
  ghost predicate NewDebt(an: Analysis, tree: Tree, baseline: set<string>, dir: string) {
    !an.classify(tree, dir).isCanonical && Dotted(dir) !in baseline
  }

  /** The node is canonical, was not in this baseline or the base's, and its flip does not verify. */
  ghost predicate UnprovenFlip(an: Analysis, tree: Tree, baseline: set<string>, base: Option<set<string>>,
                               dir: string) {
    && an.classify(tree, dir).isCanonical
    && (Dotted(dir) in baseline || (base.Some? && Dotted(dir) in base.value))
    && !an.verify(tree, Dotted(dir), an.classify(tree, dir).handlerModule)
  }

  /** What makes the gate fail on these directories. */
  ghost predicate Broken(an: Analysis, tree: Tree, dirs: set<string>, baseline: set<string>,
                         base: Option<set<string>>) {
    || (exists d :: d in dirs && (NewDebt(an, tree, baseline, d) || UnprovenFlip(an, tree, baseline, base, d)))
    || (base.Some? && !(baseline <= base.value))
  }

  /** The verdict on a scan, read off the classifications of its directories. */
  lemma BrokenIff(an: Analysis, tree: Tree, dirs: set<string>, findings: seq<Finding>, baseline: set<string>,
                  base: Option<set<string>>)
    requires IsScan(an, tree, dirs, findings) && forall d :: d in dirs ==> '.' !in d
    ensures Verdict(findings, baseline, base, an.VerifierOn(tree)).Failed() <==> Broken(an, tree, dirs, baseline, base)
  {
    var v := an.VerifierOn(tree);
    PassesIff(findings, baseline, base, v);
    forall d | d in dirs
      ensures Dotted(d) in NonCanonical(findings) && Dotted(d) !in baseline <==> NewDebt(an, tree, baseline, d)
      ensures ClaimsFlip(findings, baseline, base, Dotted(d)) && !Proves(findings, v, Dotted(d)) <==>
              UnprovenFlip(an, tree, baseline, base, d)
    {
      ScanLookup(an, tree, dirs, findings, d);
    }
    forall id | Offends(findings, baseline, base, v, id) ensures exists d :: d in dirs && id == Dotted(d) {
      var d := ScanIdHasDir(an, tree, dirs, findings, id);
    }
    if !(NonCanonical(findings) <= baseline) {
      var id :| id in NonCanonical(findings) && id !in baseline;
      assert Offends(findings, baseline, base, v, id);
    }
    if id :| ClaimsFlip(findings, baseline, base, id) && !Proves(findings, v, id) {
      assert Offends(findings, baseline, base, v, id);
    }
  }

  ghost predicate MustScanAll(s: Settings, baseline: seq<string>, base: Option<seq<string>>, full: bool,
                        changed: Option<seq<string>>) {
    || full
    || (base.Some? && Elements(base.value) != Elements(baseline))
    || changed.None?
    || !NothingTriggers(s, changed.value)
  }

  /** The node directories a run classifies. */
  ghost function Scanned(s: Settings, tree: Tree, baseline: seq<string>, base: Option<seq<string>>, full: bool,
                         changed: Option<seq<string>>): set<string> {
    if MustScanAll(s, baseline, base, full, changed) then NodeDirs(s, tree)
    else TouchedDirs(tree, Touched(changed.value))
  }

  /** A changed file lies in a node package whose id spells the directory. */
  ghost predicate HoldsChange(changed: seq<string>, dir: string) {
    exists f, before, leaf, id ::
      f in changed && LiesIn(f, before, leaf) && NamesIt(id, before, leaf) && dir == Undotted(id)
  }

  lemma HoldsChangeIff(tree: Tree, changed: seq<string>, dir: string)
    ensures dir in TouchedDirs(tree, Touched(changed)) <==> HasContract(tree, dir) && HoldsChange(changed, dir)
  {
    if dir in TouchedDirs(tree, Touched(changed)) {
      var id :| id in Touched(changed) && HasContract(tree, Undotted(id)) && Undotted(id) == dir;
      TouchedMember(changed, id);
      var f :| f in changed && TouchedId(f) == Some(id);
      var before, leaf := TouchedLies(f, id);
    }
    if f, before, leaf, id :| f in changed && LiesIn(f, before, leaf) && NamesIt(id, before, leaf)
                              && dir == Undotted(id) {
      LiesTouched(f, id, before, leaf);
      TouchedMember(changed, id);
    }
  }

  /** A run looks at every node directory of the package when it is asked to, when the baseline was
      edited, when there is no diff, or when a changed file forces it, and else at the directories that
      have a contract and hold a change. */
  lemma ScannedIff(s: Settings, tree: Tree, baseline: seq<string>, base: Option<seq<string>>, full: bool,
                   changed: Option<seq<string>>, dir: string)
    ensures dir in Scanned(s, tree, baseline, base, full, changed) <==>
            if full || (base.Some? && Elements(base.value) != Elements(baseline)) || changed == None
               || exists f :: f in changed.value && Forces(s, f)
            then IsNodeDir(s, tree, dir)
            else "src/" + dir + "/contract.yaml" in tree && HoldsChange(changed.value, dir)
  {
    NodeDirsIff(s, tree, dir);
    if changed.Some? {
      HoldsChangeIff(tree, changed.value, dir);
    }
  }

  /** `main` without `--json` and `--update`: `changed` is `None` when the diff is unavailable.
      Any baseline edit, any escalating file and a missing diff force the full scan. */
  method RunGate(an: Analysis, s: Settings, tree: Tree, baseline: seq<string>, base: Option<seq<string>>,
              full: bool, changed: Option<seq<string>>) returns (exitCode: nat)
    ensures exists findings ::
              && IsScan(an, tree, Scanned(s, tree, baseline, base, full, changed), findings)
              && exitCode == ExitOf(Verdict(findings, Elements(baseline), BaseSet(base), an.VerifierOn(tree)))
    ensures var dirs := Scanned(s, tree, baseline, base, full, changed);
      (forall d :: d in dirs ==> '.' !in d) ==>
        exitCode == if Broken(an, tree, dirs, Elements(baseline), BaseSet(base)) then 1 else 0
  {
    exitCode := GateExit(an, s, tree, baseline, base, full, changed);
    var dirs := Scanned(s, tree, baseline, base, full, changed);
    ghost var findings :|
      && IsScan(an, tree, dirs, findings)
      && exitCode == ExitOf(Verdict(findings, Elements(baseline), BaseSet(base), an.VerifierOn(tree)));
    if forall d :: d in dirs ==> '.' !in d {
      BrokenIff(an, tree, dirs, findings, Elements(baseline), BaseSet(base));
    }
  }

  method GateExit(an: Analysis, s: Settings, tree: Tree, baseline: seq<string>, base: Option<seq<string>>,
                  full: bool, changed: Option<seq<string>>) returns (exitCode: nat)
    ensures exists findings ::
              && IsScan(an, tree, Scanned(s, tree, baseline, base, full, changed), findings)
              && exitCode == ExitOf(Verdict(findings, Elements(baseline), BaseSet(base), an.VerifierOn(tree)))
  {
    var mustScanAll := full || (base.Some? && Elements(base.value) != Elements(baseline));
    if !mustScanAll && changed.Some? {
      var reason := EscalationReason(s, changed.value);
      if reason.None? {
        var ids := TouchedNodeIds(changed.value);
        if ids == {} {
          NothingToJudge(an, tree, Elements(baseline), BaseSet(base));
          return 0;
        }
        var part := ClassifyNodeIds(an, tree, ids);
        var r := Evaluate(part, baseline, base, an.VerifierOn(tree));
        return if r.Failed() then 1 else 0;
      }
    }
    var findings := ClassifyAll(an, s, tree);
    var r := Evaluate(findings, baseline, base, an.VerifierOn(tree));
    exitCode := if r.Failed() then 1 else 0;
  }

  function ExitOf(r: RatchetResult): nat {
    if r.Failed() then 1 else 0
  }

  lemma NothingToJudge(an: Analysis, tree: Tree, baseline: set<string>, base: Option<set<string>>)
    requires base.Some? ==> base.value == baseline
    ensures IsScan(an, tree, {}, [])
    ensures !Verdict([], baseline, base, an.VerifierOn(tree)).Failed()
  {
    PassesIff([], baseline, base, an.VerifierOn(tree));
  }
}
