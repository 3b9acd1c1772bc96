/** `detect_test_paths.py`: when the whole test suite runs, and in how many splits. */
module TestSelection {
  import opened Ordering
  import opened Text
  import opened RepoPaths

  datatype Reason =
    | FeatureFlagOff | MainBranch | MergeGroup | Scheduled
    | TestInfrastructure | SharedModule | ThresholdModules

  datatype Selection = Selection(
    selectedPaths: seq<string>, splitCount: int, isFullSuite: bool, reason: Option<Reason>, matrix: seq<int>)

  datatype Config = Config(infrastructure: seq<string>, shared: set<string>, threshold: int)

  /** The arguments that stay fixed while the change list varies; `pyproject` is None when unclassified. */
  datatype Context = Context(config: Config, refName: string, eventName: string, flag: bool, pyproject: Option<bool>)

  const SRC_PREFIX := "src/omnibase_core/"
  const TARGET_FILES_PER_SPLIT := 40
  const THRESHOLD_FILES := 80
  const MAX_SPLITS := 40

  function StripSlashes(s: string): string {
    if s != "" && s[|s| - 1] == '/' then StripSlashes(s[..|s| - 1]) else s
  }

  predicate IsInfrastructure(c: Config, path: string) {
    exists infra :: infra in c.infrastructure && (path == infra || StripSlashes(infra) + "/" <= path)
  }

  /** `base` is the path without the slashes at its end. */
  ghost predicate IsBare(path: string, base: string) {
    && base <= path && (forall i :: |base| <= i < |path| ==> path[i] == '/')
    && (base == "" || base[|base| - 1] != '/')
  }

  lemma {:induction false} BareIff(path: string, base: string)
    ensures StripSlashes(path) == base <==> IsBare(path, base)
  {
    if path != "" && path[|path| - 1] == '/' {
      var init := path[..|path| - 1];
      BareIff(init, base);
      assert path == init + ['/'];
      assert base <= path <==> base == path || base <= init;
    }
  }

  /** The path is the infrastructure path, or lies below it. */
  ghost predicate Below(path: string, infra: string) {
    path == infra || exists base :: IsBare(infra, base) && base + "/" <= path
  }

  /** One file that alone forces the whole suite in step 2. */
  predicate Triggers(c: Context, path: string) {
    if path == "pyproject.toml" then c.pyproject.None? || c.pyproject.value
    else IsInfrastructure(c.config, path)
  }

  /** One file that makes the whole suite run: the project file unless it is known to be harmless,
      and test infrastructure. */
  ghost predicate Forces(c: Context, path: string) {
    if path == "pyproject.toml" then c.pyproject != Some(false)
    else exists infra :: infra in c.config.infrastructure && Below(path, infra)
  }

  lemma BelowIff(path: string, infra: string)
    ensures Below(path, infra) <==> path == infra || StripSlashes(infra) + "/" <= path
  {
    BareIff(infra, StripSlashes(infra));
    if base :| IsBare(infra, base) && base + "/" <= path {
      BareIff(infra, base);
    }
  }

  lemma ForcesIff(c: Context, path: string)
    ensures Triggers(c, path) <==> Forces(c, path)
  {
    forall infra | infra in c.config.infrastructure
      ensures Below(path, infra) <==> path == infra || StripSlashes(infra) + "/" <= path
    {
      BelowIff(path, infra);
    }
  }

  /** The top-level source module of a path, if it is a source path. */
  function ModuleOf(path: string): Option<string> {
    if SRC_PREFIX <= path then Some(UpTo(path[|SRC_PREFIX|..], '/')) else None
  }

  function ChangedModules(changed: seq<string>): set<string> {
    set p | p in changed && ModuleOf(p).Some? :: ModuleOf(p).value
  }

  /** `m` is the name below `src/omnibase_core/` that the path starts with. */
  ghost predicate IsSource(path: string, m: string) {
    var top := "src/omnibase_core/" + m;
    '/' !in m && top <= path && (|top| < |path| ==> path[|top|] == '/')
  }

  lemma SourceIff(path: string, m: string)
    ensures ModuleOf(path) == Some(m) <==> IsSource(path, m)
  {
    if SRC_PREFIX <= path {
      var rest := path[|SRC_PREFIX|..];
      UpToIff(rest, '/', m);
      assert path == SRC_PREFIX + rest;
      assert m <= rest <==> SRC_PREFIX + m <= path;
    }
  }

  /** The source modules a change touches. */
  ghost predicate AreModules(changed: seq<string>, modules: set<string>) {
    forall m :: m in modules <==> exists p :: p in changed && IsSource(p, m)
  }

  lemma ModulesIff(changed: seq<string>, modules: set<string>)
    ensures ChangedModules(changed) == modules <==> AreModules(changed, modules)
  {
    forall m ensures m in ChangedModules(changed) <==> exists p :: p in changed && IsSource(p, m) {
      if p :| p in changed && ModuleOf(p) == Some(m) {
        SourceIff(p, m);
      }
      if p :| p in changed && IsSource(p, m) {
        SourceIff(p, m);
      }
    }
    SameModules(changed, modules, ChangedModules(changed));
  }

  lemma SameModules(changed: seq<string>, a: set<string>, b: set<string>)
    requires AreModules(changed, b)
    ensures AreModules(changed, a) <==> a == b
  {
    if AreModules(changed, a) {
      assert forall m :: m in a <==> m in b;
    }
  }

  predicate IsDocsOnly(path: string) {
    EndsWith(path, ".md") || "docs/" <= path
  }

  /** A document: a path that ends in `.md`, or stands below `docs/`. */
  ghost predicate IsDoc(path: string) {
    (exists stem :: path == stem + ".md") || (exists rest :: path == "docs/" + rest)
  }

  lemma DocIff(path: string)
    ensures IsDocsOnly(path) <==> IsDoc(path)
  {
    if EndsWith(path, ".md") {
      assert path == path[..|path| - 3] + ".md";
    }
    if "docs/" <= path {
      assert path == "docs/" + path[5..];
    }
    if stem :| path == stem + ".md" {
      assert path[|stem|..] == ".md";
    }
  }

  lemma DocsIff(changed: seq<string>)
    ensures (forall p :: p in changed ==> IsDocsOnly(p)) <==> (forall p :: p in changed ==> IsDoc(p))
  {
    forall p | p in changed ensures IsDocsOnly(p) <==> IsDoc(p) {
      DocIff(p);
    }
  }

  function Range(n: nat): seq<int> {
    seq(n, i => i + 1)
  }

  function FullSuite(reason: Reason): Selection {
    Selection(["tests/"], 40, true, Some(reason), Range(40))
  }

  function PathCountFloor(n: nat): nat {
    if n <= 2 then 1 else if n <= 5 then 2 else if n <= 10 then 3 else if n <= 16 then 4 else 5
  }

  /** `total` is the number of test files under the selected paths, None when there is no tree. */
  function VolumeSplitCount(total: Option<nat>): nat {
    if total.None? || total.value < THRESHOLD_FILES then 0
    else (total.value + TARGET_FILES_PER_SPLIT - 1) / TARGET_FILES_PER_SPLIT
  }

  function SplitCount(paths: nat, total: Option<nat>): nat {
    var floor, volume := PathCountFloor(paths), VolumeSplitCount(total);
    var larger := if floor >= volume then floor else volume;
    if larger <= MAX_SPLITS then larger else MAX_SPLITS
  }

  /** Splits enough for the paths, and for the files: one for every 40 once there are 80 of them. */
  ghost predicate Enough(paths: nat, total: Option<nat>, splits: int) {
    && splits >= 1 && (paths > 2 ==> splits >= 2) && (paths > 5 ==> splits >= 3)
    && (paths > 10 ==> splits >= 4) && (paths > 16 ==> splits >= 5)
    && (total.Some? && total.value >= 80 ==> 40 * splits >= total.value)
  }

  /** As few splits as are enough, and never more than 40. */
  ghost predicate IsSplitCount(paths: nat, total: Option<nat>, splits: int) {
    && splits <= 40 && (Enough(paths, total, splits) || splits == 40)
    && forall fewer :: fewer < splits ==> !Enough(paths, total, fewer)
  }

  lemma EnoughIff(paths: nat, total: Option<nat>, splits: int)
    ensures Enough(paths, total, splits) <==> splits >= PathCountFloor(paths) && splits >= VolumeSplitCount(total)
  {
  }

  lemma SplitCountIff(paths: nat, total: Option<nat>, splits: int)
    ensures SplitCount(paths, total) == splits <==> IsSplitCount(paths, total, splits)
  {
    forall k ensures Enough(paths, total, k) <==> k >= PathCountFloor(paths) && k >= VolumeSplitCount(total) {
      EnoughIff(paths, total, k);
    }
    var n := SplitCount(paths, total);
    assert Enough(paths, total, n) || n == 40;
  }

  /** Between 1 and 40 splits. */
  lemma SplitBounds(paths: nat, total: Option<nat>)
    ensures 1 <= SplitCount(paths, total) <= 40
  {
  }

  /** More paths or more test files never mean fewer splits. */
  lemma SplitMonotone(p: nat, q: nat, m: nat, n: nat)
    requires p <= q && m <= n
    ensures SplitCount(p, Some(m)) <= SplitCount(q, Some(n))
    ensures SplitCount(p, None) <= SplitCount(p, Some(m))
  {
  }

  /** How full a split gets on average: at most 40 files once there are 80, at most 79 below that,
      for up to 1600 files; and 1600 is where the bound ends. */
  lemma SplitDensity(paths: nat, total: nat)
    ensures 80 <= total ==> (total <= 40 * SplitCount(paths, Some(total)) <==> total <= 1600)
    ensures total <= 1600 ==> total <= 79 * SplitCount(paths, Some(total))
  {
    SplitBounds(paths, Some(total));
  }

  /** What makes a change run the whole suite. */
  ghost predicate Escalates(c: Context, changed: seq<string>) {
    || !c.flag || c.refName == "main" || c.eventName == "merge_group" || c.eventName == "schedule"
    || (exists p :: p in changed && Forces(c, p)) || HitsShared(c, changed) || HitsMany(c, changed)
  }

  /** A changed file lies in a shared module. */
  ghost predicate HitsShared(c: Context, changed: seq<string>) {
    exists p, m :: p in changed && IsSource(p, m) && m in c.config.shared
  }

  /** The change touches as many modules as the threshold says. */
  ghost predicate HitsMany(c: Context, changed: seq<string>) {
    exists modules :: AreModules(changed, modules) && |modules| >= c.config.threshold
  }

  lemma SharedIff(c: Context, changed: seq<string>)
    ensures ChangedModules(changed) * c.config.shared != {} <==> HitsShared(c, changed)
  {
    ModulesIff(changed, ChangedModules(changed));
    if m :| m in ChangedModules(changed) * c.config.shared {
      assert exists p :: p in changed && IsSource(p, m);
    }
    if p, m :| p in changed && IsSource(p, m) && m in c.config.shared {
      assert m in ChangedModules(changed) * c.config.shared;
    }
  }

  lemma ManyIff(c: Context, changed: seq<string>)
    ensures |ChangedModules(changed)| >= c.config.threshold <==> HitsMany(c, changed)
  {
    ModulesIff(changed, ChangedModules(changed));
    if modules :| AreModules(changed, modules) && |modules| >= c.config.threshold {
      ModulesIff(changed, modules);
    }
  }

  /** The flag, branch and event stages do not escalate. */
  predicate ScopePassed(c: Context) {
    c.flag && c.refName != "main" && c.eventName != "merge_group" && c.eventName != "schedule"
  }

  /** The first stage that escalates names the reason. */
  ghost predicate IsReason(c: Context, changed: seq<string>, r: Reason) {
    match r
    case FeatureFlagOff => !c.flag
    case MainBranch => c.flag && c.refName == "main"
    case MergeGroup => c.flag && c.refName != "main" && c.eventName == "merge_group"
    case Scheduled => c.flag && c.refName != "main" && c.eventName == "schedule"
    case TestInfrastructure => ScopePassed(c) && exists p :: p in changed && Forces(c, p)
    case SharedModule =>
      ScopePassed(c) && (forall p :: p in changed ==> !Forces(c, p)) && HitsShared(c, changed)
    case ThresholdModules =>
      && ScopePassed(c) && (forall p :: p in changed ==> !Forces(c, p)) && !HitsShared(c, changed)
      && HitsMany(c, changed)
  }

  ghost predicate AllDocs(changed: seq<string>) {
    changed != [] && forall p :: p in changed ==> IsDoc(p)
  }

  /** The matrix numbers the splits. */
  ghost predicate Numbers(s: Selection) {
    |s.matrix| == s.splitCount && forall i :: 0 <= i < |s.matrix| ==> s.matrix[i] == i + 1
  }

  /** `compute_selection`; `closure` is the import-graph selection and `count` the number of test
      files under a selection. */
  method ComputeSelection(c: Context, changed: seq<string>, closure: seq<string> -> seq<string>,
                          count: seq<string> -> Option<nat>) returns (s: Selection)
    ensures s.isFullSuite <==> Escalates(c, changed)
    ensures s.isFullSuite ==> s.selectedPaths == ["tests/"] && s.splitCount == 40 &&
                              s.reason.Some? && IsReason(c, changed, s.reason.value)
    ensures !s.isFullSuite ==>
              s.reason == None && s.selectedPaths == if AllDocs(changed) then [] else closure(changed)
    ensures !s.isFullSuite && AllDocs(changed) ==> s.splitCount == 1
    ensures !s.isFullSuite && !AllDocs(changed) ==>
              IsSplitCount(|s.selectedPaths|, count(s.selectedPaths), s.splitCount)
    ensures Numbers(s)
  {
    forall p | p in changed ensures Triggers(c, p) <==> Forces(c, p) {
      ForcesIff(c, p);
    }
    SharedIff(c, changed);
    ManyIff(c, changed);
    DocsIff(changed);
    if !c.flag {
      return FullSuite(FeatureFlagOff);
    }
    if c.refName == "main" {
      return FullSuite(MainBranch);
    }
    if c.eventName == "merge_group" {
      return FullSuite(MergeGroup);
    }
    if c.eventName == "schedule" {
      return FullSuite(Scheduled);
    }
    for i := 0 to |changed|
      invariant forall j :: 0 <= j < i ==> !Triggers(c, changed[j])
    {
      if changed[i] == "pyproject.toml" {
        if c.pyproject.None? || c.pyproject.value {
          assert Triggers(c, changed[i]);
          return FullSuite(TestInfrastructure);
        }
        continue;
      }
      if IsInfrastructure(c.config, changed[i]) {
        assert Triggers(c, changed[i]);
        return FullSuite(TestInfrastructure);
      }
    }
    assert forall p :: p in changed ==> !Triggers(c, p);
    var modules := ChangedModules(changed);
    if modules * c.config.shared != {} {
      return FullSuite(SharedModule);
    }
    if |modules| >= c.config.threshold {
      return FullSuite(ThresholdModules);
    }
    if changed != [] && forall p :: p in changed ==> IsDocsOnly(p) {
      return Selection([], 1, false, None, [1]);
    }
    var selected := closure(changed);
    var splitCount := SplitCount(|selected|, count(selected));
    SplitCountIff(|selected|, count(selected), splitCount);
    return Selection(selected, splitCount, false, None, Range(splitCount));
  }

  /** Adding, reordering or repeating changed files never turns a full suite into a narrowed one. */
  lemma EscalationMonotone(c: Context, changed: seq<string>, more: seq<string>)
    requires forall p :: p in changed ==> p in more
    requires Escalates(c, changed)
    ensures Escalates(c, more)
  {
    if p, m :| p in changed && IsSource(p, m) && m in c.config.shared {
      assert p in more;
    }
    ManyIff(c, changed);
    ManyIff(c, more);
    assert ChangedModules(changed) <= ChangedModules(more);
    SubsetCard(ChangedModules(changed), ChangedModules(more));
  }

  /** Adding a file can only take a documentation-only change out of the exemption. */
  lemma DocsExemptionShrinks(changed: seq<string>, more: seq<string>)
    requires changed != [] && (forall p :: p in changed ==> p in more) && AllDocs(more)
    ensures AllDocs(changed)
  {
  }
}
