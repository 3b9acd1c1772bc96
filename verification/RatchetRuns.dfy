/** Whole histories of the gate as it runs: every commit passed a full or a change-scoped run. */
module RatchetRuns {
  import opened Ordering
  import opened Ratchet
  import opened RatchetHistory
  import opened RatchetScope
  import opened RepoPaths

  /** One commit, its baseline module, and how the gate was called on it. */
  datatype Commit = Commit(tree: Tree, baseline: seq<string>, full: bool, changed: Option<seq<string>>)

  /** The gate exits with 0 on `next` when `prev` is its git base: the result of `RunGate`. */
  ghost predicate GatePasses(an: Analysis, s: Settings, prev: Commit, next: Commit) {
    var dirs := Scanned(s, next.tree, next.baseline, Some(prev.baseline), next.full, next.changed);
    exists findings ::
      && IsScan(an, next.tree, dirs, findings)
      && ExitOf(Verdict(findings, Elements(next.baseline), BaseSet(Some(prev.baseline)), an.VerifierOn(next.tree))) == 0
  }

  method RunOn(an: Analysis, s: Settings, prev: Commit, next: Commit) returns (exitCode: nat)
    ensures exitCode == 0 ==> GatePasses(an, s, prev, next)
  {
    exitCode := RunGate(an, s, next.tree, next.baseline, Some(prev.baseline), next.full, next.changed);
  }

  ghost predicate ScopedRun(s: Settings, prev: Commit, next: Commit) {
    !MustScanAll(s, next.baseline, Some(prev.baseline), next.full, next.changed)
  }

  /** What a scoped run relies on: a complete change list, and contracts where it looks for them. */
  ghost predicate SoundScope(s: Settings, prev: Commit, next: Commit) {
    next.changed.Some? &&
    var changed := next.changed.value;
    CoversDiff(prev.tree, next.tree, changed) && WellPlaced(s, prev.tree, changed) && WellPlaced(s, next.tree, changed)
  }

  ghost function FullScan(an: Analysis, s: Settings, tree: Tree): seq<Finding> {
    Classified(an, tree, SortSet(NodeDirs(s, tree)))
  }

  /** A full scan of the commit passes against the given git base. */
  ghost predicate FullPasses(an: Analysis, s: Settings, base: Option<set<string>>, c: Commit) {
    !Verdict(FullScan(an, s, c.tree), Elements(c.baseline), base, an.VerifierOn(c.tree)).Failed()
  }

  /** A step the gate let through. */
  ghost predicate Gated(an: Analysis, s: Settings, prev: Commit, next: Commit) {
    GatePasses(an, s, prev, next) && (ScopedRun(s, prev, next) ==> SoundScope(s, prev, next))
  }

  /** No directory of a node has a dot in its name. */
  ghost predicate Dotless(s: Settings, tree: Tree) {
    forall d :: d in NodeDirs(s, tree) ==> '.' !in d
  }

  /** A run of commits: the first passes a full scan, every later one the gate. */
  ghost predicate Run(an: Analysis, s: Settings, run: seq<Commit>) {
    run != [] && Local(an, s) && forall i :: 0 <= i < |run| ==> PassedAt(an, s, run, i)
  }

  ghost predicate PassedAt(an: Analysis, s: Settings, run: seq<Commit>, i: nat)
    requires i < |run|
  {
    && Dotless(s, run[i].tree)
    && if i == 0 then FullPasses(an, s, None, run[0]) else Gated(an, s, run[i - 1], run[i])
  }

  lemma FullScanIsScan(an: Analysis, s: Settings, tree: Tree)
    ensures IsScan(an, tree, NodeDirs(s, tree), FullScan(an, s, tree))
  {
    ClassifiedIsScan(an, tree, SortSet(NodeDirs(s, tree)));
  }

  // ---- Two scans of the same directories agree ----

  lemma SameLookup(an: Analysis, tree: Tree, dirs: set<string>, a: seq<Finding>, b: seq<Finding>, id: string)
    requires IsScan(an, tree, dirs, a) && IsScan(an, tree, dirs, b) && forall d :: d in dirs ==> '.' !in d
    ensures ById(a, id) == ById(b, id)
    ensures id in NonCanonical(a) <==> id in NonCanonical(b)
  {
    if ById(a, id).Some? || id in NonCanonical(a) {
      var d := ScanIdHasDir(an, tree, dirs, a, id);
      ScanLookup(an, tree, dirs, a, d);
      ScanLookup(an, tree, dirs, b, d);
    } else if ById(b, id).Some? || id in NonCanonical(b) {
      var d := ScanIdHasDir(an, tree, dirs, b, id);
      ScanLookup(an, tree, dirs, a, d);
      ScanLookup(an, tree, dirs, b, d);
    }
  }

  lemma SameVerdict(a: seq<Finding>, b: seq<Finding>, baseline: set<string>, base: Option<set<string>>, v: Verifier)
    requires forall id :: ById(a, id) == ById(b, id) && (id in NonCanonical(a) <==> id in NonCanonical(b))
    ensures Verdict(a, baseline, base, v).Failed() <==> Verdict(b, baseline, base, v).Failed()
  {
    PassesIff(a, baseline, base, v);
    PassesIff(b, baseline, base, v);
    assert NonCanonical(a) == NonCanonical(b);
    assert forall id :: ClaimsFlip(a, baseline, base, id) <==> ClaimsFlip(b, baseline, base, id);
    assert forall id :: Proves(a, v, id) <==> Proves(b, v, id);
  }

  // ---- Every commit passes a full scan ----

  /** A full run is a full scan. */
  lemma FullRunPasses(an: Analysis, s: Settings, prev: Commit, next: Commit)
    requires Gated(an, s, prev, next) && !ScopedRun(s, prev, next) && Dotless(s, next.tree)
    ensures FullPasses(an, s, BaseSet(Some(prev.baseline)), next)
  {
    var dirs, full := NodeDirs(s, next.tree), FullScan(an, s, next.tree);
    var baseline, base, v := Elements(next.baseline), BaseSet(Some(prev.baseline)), an.VerifierOn(next.tree);
    var findings :| IsScan(an, next.tree, dirs, findings) && ExitOf(Verdict(findings, baseline, base, v)) == 0;
    FullScanIsScan(an, s, next.tree);
    forall id ensures ById(full, id) == ById(findings, id)
              ensures id in NonCanonical(full) <==> id in NonCanonical(findings)
    {
      SameLookup(an, next.tree, dirs, full, findings, id);
    }
    SameVerdict(full, findings, baseline, base, v);
  }

  /** A scoped run after a commit that passes a full scan gives the result of a full scan. */
  lemma ScopedRunPasses(an: Analysis, s: Settings, prev: Commit, next: Commit, earlier: Option<set<string>>)
    requires Local(an, s) && FullPasses(an, s, earlier, prev)
    requires Gated(an, s, prev, next) && ScopedRun(s, prev, next)
    ensures FullPasses(an, s, BaseSet(Some(prev.baseline)), next)
  {
    var changed, baseline := next.changed.value, Elements(next.baseline);
    var base, v := BaseSet(Some(prev.baseline)), an.VerifierOn(next.tree);
    var part :| IsScan(an, next.tree, TouchedDirs(next.tree, Touched(changed)), part)
                && ExitOf(Verdict(part, baseline, base, v)) == 0;
    FullScanIsScan(an, s, prev.tree);
    FullScanIsScan(an, s, next.tree);
    IncrementalEqualsFull(an, s, prev.tree, next.tree, changed, baseline, FullScan(an, s, prev.tree), earlier,
                          FullScan(an, s, next.tree), part, base);
  }

  /** The git base of a commit. */
  ghost function BaseOf(run: seq<Commit>, i: nat): Option<set<string>>
    requires i < |run|
  {
    if i == 0 then None else BaseSet(Some(run[i - 1].baseline))
  }

  /** However the runs were scoped, every commit passes a full scan against the previous baseline. */
  lemma {:induction false} EveryCommitPassesFull(an: Analysis, s: Settings, run: seq<Commit>, i: nat)
    requires Run(an, s, run) && i < |run|
    ensures FullPasses(an, s, BaseOf(run, i), run[i])
  {
    assert PassedAt(an, s, run, i);
    if i > 0 {
      if ScopedRun(s, run[i - 1], run[i]) {
        EveryCommitPassesFull(an, s, run, i - 1);
        ScopedRunPasses(an, s, run[i - 1], run[i], BaseOf(run, i - 1));
      } else {
        FullRunPasses(an, s, run[i - 1], run[i]);
      }
    }
  }

  // ---- The run as a history of full scans ----

  ghost function SnapshotOf(an: Analysis, s: Settings, c: Commit): Snapshot {
    Snapshot(FullScan(an, s, c.tree), Elements(c.baseline), an.VerifierOn(c.tree))
  }

  ghost function Snapshots(an: Analysis, s: Settings, run: seq<Commit>): (r: seq<Snapshot>)
    ensures |r| == |run| && forall i :: 0 <= i < |run| ==> r[i] == SnapshotOf(an, s, run[i])
  {
    seq(|run|, i requires 0 <= i < |run| => SnapshotOf(an, s, run[i]))
  }

  lemma {:induction false} ClassifiedAt(an: Analysis, tree: Tree, dirs: seq<string>, i: nat)
    requires i < |dirs|
    ensures |Classified(an, tree, dirs)| == |dirs|
    ensures Classified(an, tree, dirs)[i] == an.FindingAt(tree, dirs[i])
  {
    var init := dirs[..|dirs| - 1];
    if init != [] {
      ClassifiedAt(an, tree, init, if i < |init| then i else 0);
    }
  }

  lemma FullScanUnique(an: Analysis, s: Settings, tree: Tree)
    requires Dotless(s, tree)
    ensures UniqueIds(FullScan(an, s, tree))
  {
    var dirs, findings := SortSet(NodeDirs(s, tree)), FullScan(an, s, tree);
    StrictlySortedNoDup(dirs);
    if dirs != [] {
      ClassifiedAt(an, tree, dirs, 0);
    }
    forall i, j | 0 <= i < j < |findings| ensures findings[i].nodeId != findings[j].nodeId {
      ClassifiedAt(an, tree, dirs, i);
      ClassifiedAt(an, tree, dirs, j);
      assert dirs[i] in Elements(dirs) && dirs[j] in Elements(dirs);
      DottedInverse(dirs[i]);
      DottedInverse(dirs[j]);
    }
  }

  lemma RunIsHistory(an: Analysis, s: Settings, run: seq<Commit>)
    requires Run(an, s, run)
    ensures History(Snapshots(an, s, run))
  {
    var h := Snapshots(an, s, run);
    EveryCommitPassesFull(an, s, run, 0);
    PassesIff(h[0].findings, h[0].baseline, None, h[0].verify);
    forall i | 0 <= i < |h| ensures UniqueIds(h[i].findings) {
      assert PassedAt(an, s, run, i);
      FullScanUnique(an, s, run[i].tree);
    }
    forall i | 0 < i < |h| ensures AcceptedAt(h, i) {
      EveryCommitPassesFull(an, s, run, i);
    }
  }

  // ---- What the gate as it runs guarantees ----

  ghost predicate HasNode(s: Settings, c: Commit, dir: string) {
    dir in NodeDirs(s, c.tree)
  }

  ghost predicate IsCanonicalAt(an: Analysis, c: Commit, dir: string) {
    an.FindingAt(c.tree, dir).isCanonical
  }

  /** The flip receipt of the node verifies on the commit. */
  ghost predicate ReceiptVerifies(an: Analysis, c: Commit, dir: string) {
    an.verify(c.tree, Dotted(dir), an.FindingAt(c.tree, dir).handlerModule)
  }

  /** The snapshot tells of the node what the commit holds. */
  ghost predicate Mirrors(an: Analysis, c: Commit, snapshot: Snapshot, dir: string) {
    var id := Dotted(dir);
    && snapshot.Present(id)
    && (snapshot.Canonical(id) <==> IsCanonicalAt(an, c, dir))
    && (snapshot.Debt(id) <==> !IsCanonicalAt(an, c, dir))
    && (snapshot.FlipVerified(id) <==> ReceiptVerifies(an, c, dir))
  }

  lemma SnapshotMirrors(an: Analysis, s: Settings, c: Commit, dir: string)
    requires Dotless(s, c.tree) && HasNode(s, c, dir)
    ensures Mirrors(an, c, SnapshotOf(an, s, c), dir)
  {
    FullScanIsScan(an, s, c.tree);
    ScanLookup(an, c.tree, NodeDirs(s, c.tree), FullScan(an, s, c.tree), dir);
  }

  /** The baseline never grows, and a node outside it is canonical from then on, whatever the gate
      scanned at each commit. */
  lemma GateHoldsTheLine(an: Analysis, s: Settings, run: seq<Commit>, i: nat, j: nat, dir: string)
    requires Run(an, s, run) && i <= j < |run|
    ensures Elements(run[j].baseline) <= Elements(run[i].baseline)
    ensures HasNode(s, run[j], dir) && Dotted(dir) !in run[i].baseline ==> IsCanonicalAt(an, run[j], dir)
  {
    var h := Snapshots(an, s, run);
    RunIsHistory(an, s, run);
    BaselineShrinks(h, i, j);
    if HasNode(s, run[j], dir) && Dotted(dir) !in run[i].baseline {
      assert Dotted(dir) !in h[i].baseline;
      NoRegression(h, i, j, Dotted(dir));
      assert PassedAt(an, s, run, j);
      SnapshotMirrors(an, s, run[j], dir);
    }
  }

  /** The node turns canonical at commit `k`, and its flip receipt verifies there. */
  ghost predicate TurnsProven(an: Analysis, run: seq<Commit>, k: nat, dir: string) {
    && 0 < k < |run| && !IsCanonicalAt(an, run[k - 1], dir)
    && IsCanonicalAt(an, run[k], dir) && ReceiptVerifies(an, run[k], dir)
  }

  ghost predicate StaysIn(s: Settings, run: seq<Commit>, i: nat, j: nat, dir: string)
    requires j < |run|
  {
    forall k :: i <= k <= j ==> HasNode(s, run[k], dir)
  }

  ghost predicate Mirrored(an: Analysis, run: seq<Commit>, h: seq<Snapshot>, k: nat, dir: string)
    requires k < |run| == |h|
  {
    Mirrors(an, run[k], h[k], dir)
  }

  lemma MirroredProof(an: Analysis, run: seq<Commit>, h: seq<Snapshot>, i: nat, j: nat, dir: string)
    requires History(h) && i <= j < |run| == |h|
    requires forall k :: i <= k <= j ==> Mirrored(an, run, h, k, dir)
    requires !IsCanonicalAt(an, run[i], dir) && IsCanonicalAt(an, run[j], dir)
    ensures exists k: nat :: i < k <= j && TurnsProven(an, run, k, dir)
  {
    forall k | i <= k <= j ensures h[k].Present(Dotted(dir)) {
      assert Mirrored(an, run, h, k, dir);
    }
    assert Mirrored(an, run, h, i, dir) && Mirrored(an, run, h, j, dir);
    TurnsCanonicalByProof(h, i, j, Dotted(dir));
    var k: nat :| i < k <= j && TurnsAt(h, k, Dotted(dir));
    assert Mirrored(an, run, h, k - 1, dir) && Mirrored(an, run, h, k, dir);
    assert TurnsProven(an, run, k, dir);
  }

  /** A node that stays in the repository becomes canonical only at a commit on which its flip receipt
      verifies, whatever the gate scanned at each commit. */
  lemma GateDemandsProof(an: Analysis, s: Settings, run: seq<Commit>, i: nat, j: nat, dir: string)
    requires Run(an, s, run) && i <= j < |run| && StaysIn(s, run, i, j, dir)
    requires !IsCanonicalAt(an, run[i], dir) && IsCanonicalAt(an, run[j], dir)
    ensures exists k: nat :: i < k <= j && TurnsProven(an, run, k, dir)
  {
    var h := Snapshots(an, s, run);
    RunIsHistory(an, s, run);
    forall k | i <= k <= j ensures Mirrored(an, run, h, k, dir) {
      assert PassedAt(an, s, run, k);
      SnapshotMirrors(an, s, run[k], dir);
    }
    MirroredProof(an, run, h, i, j, dir);
  }
}
