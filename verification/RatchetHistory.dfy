/** Histories of a repository whose every step passed a full scan against the previous baseline. */
module RatchetHistory {
  import opened Ordering
  import opened Ratchet

  /** What a full scan sees of one commit. */
  datatype Snapshot = Snapshot(findings: seq<Finding>, baseline: set<string>, verify: Verifier) {
    ghost predicate Present(id: string) {
      ById(findings, id).Some?
    }

    ghost predicate Canonical(id: string) {
      ById(findings, id).Some? && ById(findings, id).value.isCanonical
    }

    ghost predicate Debt(id: string) {
      id in NonCanonical(findings)
    }

    ghost predicate FlipVerified(id: string) {
      Proves(findings, verify, id)
    }
  }

  /** The gate passes on `next` with the baseline of `prev` as its git base. */
  ghost predicate Accepted(prev: Snapshot, next: Snapshot) {
    !Verdict(next.findings, next.baseline, Some(prev.baseline), next.verify).Failed()
  }

  /** A history that starts with every non-canonical node in the baseline. */
  ghost predicate History(run: seq<Snapshot>) {
    && run != []
    && NonCanonical(run[0].findings) <= run[0].baseline
    && (forall i :: 0 <= i < |run| ==> UniqueIds(run[i].findings))
    && forall i :: 0 < i < |run| ==> AcceptedAt(run, i)
  }

  ghost predicate AcceptedAt(run: seq<Snapshot>, i: nat)
    requires 0 < i < |run|
  {
    Accepted(run[i - 1], run[i])
  }

  lemma StepFacts(run: seq<Snapshot>, i: nat)
    requires History(run) && 0 < i < |run|
    ensures run[i].baseline <= run[i - 1].baseline
    ensures NonCanonical(run[i].findings) <= run[i].baseline
    ensures forall id :: ClaimsFlip(run[i].findings, run[i].baseline, Some(run[i - 1].baseline), id) ==>
                         run[i].FlipVerified(id)
  {
    assert AcceptedAt(run, i);
    PassesIff(run[i].findings, run[i].baseline, Some(run[i - 1].baseline), run[i].verify);
  }

  /** The baseline never grows. */
  lemma {:induction false} BaselineShrinks(run: seq<Snapshot>, i: nat, j: nat)
    requires History(run) && i <= j < |run|
    ensures run[j].baseline <= run[i].baseline
    decreases j
  {
    if i < j {
      BaselineShrinks(run, i, j - 1);
      StepFacts(run, j);
    }
  }

  /** At every commit, the non-canonical nodes lie inside the baseline of every earlier one. */
  lemma DebtInsideEarlierBaselines(run: seq<Snapshot>, i: nat, j: nat)
    requires History(run) && i <= j < |run|
    ensures NonCanonical(run[j].findings) <= run[i].baseline
  {
    BaselineShrinks(run, i, j);
    if j > 0 { StepFacts(run, j); }
  }

  /** A node that has left the baseline is never non-canonical again. */
  lemma NoRegression(run: seq<Snapshot>, i: nat, j: nat, id: string)
    requires History(run) && i <= j < |run| && id !in run[i].baseline
    ensures !run[j].Debt(id)
  {
    DebtInsideEarlierBaselines(run, i, j);
  }

  /** Membership in the baseline survives until a verified flip, for a node that stays present. */
  lemma FlipNeedsProof(run: seq<Snapshot>, i: nat, id: string)
    requires History(run) && 0 < i < |run|
    requires id in run[i - 1].baseline && run[i].Canonical(id)
    ensures run[i].FlipVerified(id)
  {
    StepFacts(run, i);
    ByIdMember(run[i].findings, id);
    FoundNonCanonical(run[i].findings, ById(run[i].findings, id).value);
    assert ClaimsFlip(run[i].findings, run[i].baseline, Some(run[i - 1].baseline), id);
  }

  /** Commit `k` takes the node's entry out of the baseline. */
  ghost predicate DropsAt(run: seq<Snapshot>, k: nat, id: string) {
    0 < k < |run| && id in run[k - 1].baseline && id !in run[k].baseline
  }

  /** The commit that drops a baseline entry verified the flip exactly when the node is present there. */
  lemma DropVerifiedIffPresent(run: seq<Snapshot>, k: nat, id: string)
    requires History(run) && DropsAt(run, k, id)
    ensures run[k].FlipVerified(id) <==> run[k].Present(id)
    ensures run[k].Present(id) ==> run[k].Canonical(id)
  {
    if run[k].Present(id) {
      ByIdMember(run[k].findings, id);
      FoundNonCanonical(run[k].findings, ById(run[k].findings, id).value);
      StepFacts(run, k);
      FlipNeedsProof(run, k, id);
    }
  }

  /** Commit `k` finds a baselined node canonical and verified its flip. */
  ghost predicate FlipsAt(run: seq<Snapshot>, k: nat, id: string) {
    0 < k < |run| && id in run[k - 1].baseline && run[k].Canonical(id) && run[k].FlipVerified(id)
  }

  /** A baselined node that is canonical later was flipped with proof on the way, or its entry was
      dropped at a commit where the node was absent. */
  lemma {:induction false} FlippedOrDroppedAbsent(run: seq<Snapshot>, i: nat, j: nat, id: string)
    requires History(run) && i < j < |run|
    requires id in run[i].baseline && run[j].Canonical(id)
    ensures (exists k: nat :: i < k <= j && FlipsAt(run, k, id))
            || exists k: nat :: i < k <= j && DropsAt(run, k, id) && !run[k].Present(id)
    decreases j - i
  {
    if id !in run[i + 1].baseline {
      assert DropsAt(run, i + 1, id);
      DropVerifiedIffPresent(run, i + 1, id);
      assert run[i + 1].Present(id) ==> FlipsAt(run, i + 1, id);
    } else if i + 1 == j {
      FlipNeedsProof(run, j, id);
      assert FlipsAt(run, j, id);
    } else {
      FlippedOrDroppedAbsent(run, i + 1, j, id);
    }
  }

  /** A baselined node that is canonical later, and present at the commit that dropped its entry if one
      did, became canonical at a commit whose gate verified its flip. */
  lemma CanonicalOnlyByProof(run: seq<Snapshot>, i: nat, j: nat, id: string)
    requires History(run) && i < j < |run|
    requires id in run[i].baseline && run[j].Canonical(id)
    requires forall k: nat :: i < k <= j && DropsAt(run, k, id) ==> run[k].Present(id)
    ensures exists k: nat :: i < k <= j && FlipsAt(run, k, id)
  {
    FlippedOrDroppedAbsent(run, i, j, id);
  }

  /** The node turns canonical at commit `k`, which verified the flip. */
  ghost predicate TurnsAt(run: seq<Snapshot>, k: nat, id: string) {
    0 < k < |run| && run[k - 1].Debt(id) && run[k].Canonical(id) && run[k].FlipVerified(id)
  }

  /** For a node present throughout, the flip is the step from non-canonical to canonical itself. */
  lemma {:induction false} TurnsCanonicalByProof(run: seq<Snapshot>, i: nat, j: nat, id: string)
    requires History(run) && i <= j < |run|
    requires run[i].Debt(id) && run[j].Canonical(id)
    requires forall k :: i <= k <= j ==> run[k].Present(id)
    ensures exists k: nat :: i < k <= j && TurnsAt(run, k, id)
    decreases j
  {
    ByIdMember(run[j].findings, id);
    FoundNonCanonical(run[j].findings, ById(run[j].findings, id).value);
    assert i < j;
    var f := ById(run[j - 1].findings, id).value;
    ByIdMember(run[j - 1].findings, id);
    FoundNonCanonical(run[j - 1].findings, f);
    if f.isCanonical {
      TurnsCanonicalByProof(run, i, j - 1, id);
    } else {
      DebtInsideEarlierBaselines(run, j - 1, j - 1);
      FlipNeedsProof(run, j, id);
      assert TurnsAt(run, j, id);
    }
  }

  /** Commit `k` drops the node's entry while the node is absent, and no commit since `i` found it
      canonical. */
  ghost predicate LeavesAbsent(run: seq<Snapshot>, i: nat, k: nat, id: string) {
    DropsAt(run, k, id) && !run[k].Present(id) && forall l :: i < l < k ==> !run[l].Canonical(id)
  }

  /** A commit up to the drop that finds the node canonical is a proven flip. */
  lemma CanonicalBeforeDrop(run: seq<Snapshot>, l: nat, k: nat, id: string)
    requires History(run) && 0 < l <= k && DropsAt(run, k, id)
    ensures run[l].Canonical(id) ==> FlipsAt(run, l, id)
  {
    BaselineShrinks(run, l - 1, k - 1);
    if run[l].Canonical(id) {
      FlipNeedsProof(run, l, id);
    }
  }

  lemma NoFlipAfterDrop(run: seq<Snapshot>, k: nat, l: nat, id: string)
    requires History(run) && DropsAt(run, k, id) && k < l < |run|
    ensures !FlipsAt(run, l, id)
  {
    BaselineShrinks(run, k, l - 1);
  }

  ghost predicate NoFlipIn(run: seq<Snapshot>, i: nat, j: nat, id: string) {
    forall k: nat :: i < k <= j ==> !FlipsAt(run, k, id)
  }

  lemma UnflippedLeaves(run: seq<Snapshot>, i: nat, k: nat, id: string)
    requires History(run) && i < k && NoFlipIn(run, i, k, id)
    requires DropsAt(run, k, id) && !run[k].Present(id)
    ensures LeavesAbsent(run, i, k, id)
  {
    forall l | i < l < k ensures !run[l].Canonical(id) {
      CanonicalBeforeDrop(run, l, k, id);
    }
  }

  lemma LeavingIsUnflipped(run: seq<Snapshot>, i: nat, k: nat, j: nat, id: string)
    requires History(run) && i < k <= j < |run| && LeavesAbsent(run, i, k, id)
    ensures NoFlipIn(run, i, j, id)
  {
    forall l: nat | i < l <= j ensures !FlipsAt(run, l, id) {
      if k < l {
        NoFlipAfterDrop(run, k, l, id);
      }
    }
  }

  /** Exactly when a baselined node is canonical later without a proven flip: when its entry was
      dropped, on the way, at a commit where the node was absent, and no commit before that one found
      it canonical. */
  lemma ReturnedUnprovenIff(run: seq<Snapshot>, i: nat, j: nat, id: string)
    requires History(run) && i < j < |run| && id in run[i].baseline && run[j].Canonical(id)
    ensures NoFlipIn(run, i, j, id) <==> exists k: nat :: i < k <= j && LeavesAbsent(run, i, k, id)
  {
    if NoFlipIn(run, i, j, id) {
      FlippedOrDroppedAbsent(run, i, j, id);
      var k: nat :| i < k <= j && DropsAt(run, k, id) && !run[k].Present(id);
      UnflippedLeaves(run, i, k, id);
    }
    if k: nat :| i < k <= j && LeavesAbsent(run, i, k, id) {
      LeavingIsUnflipped(run, i, k, j, id);
    }
  }

  lemma TwoCommits(before: Snapshot, after: Snapshot) returns (run: seq<Snapshot>)
    requires NonCanonical(before.findings) <= before.baseline
    requires UniqueIds(before.findings) && UniqueIds(after.findings) && Accepted(before, after)
    ensures History(run) && run == [before, after]
  {
    run := [before, after];
  }

  lemma OneMore(run: seq<Snapshot>, next: Snapshot)
    requires History(run) && UniqueIds(next.findings) && Accepted(run[|run| - 1], next)
    ensures History(run + [next])
  {
    var longer := run + [next];
    forall i | 0 < i < |longer| ensures AcceptedAt(longer, i) {
      assert i < |run| ==> AcceptedAt(run, i);
    }
  }

  /** An honest flip: the node becomes canonical, its entry goes, and the proof verifies. */
  lemma ProvenFlip()
    ensures exists run: seq<Snapshot>, id ::
              && History(run) && |run| == 2
              && run[0].Debt(id) && DropsAt(run, 1, id) && run[1].Present(id) && FlipsAt(run, 1, id)
  {
    var always: Verifier := (id, handler) => true;
    var id := "pkg.nodes.node_a";
    var before, after := Finding(id, "op_method", false, None, None), Finding(id, "canonical", true, None, None);
    PassesIff([after], {}, Some({id}), always);
    var run := TwoCommits(Snapshot([before], {id}, always), Snapshot([after], {}, always));
    assert before in run[0].findings;
    assert run[0].Debt(id) && DropsAt(run, 1, id) && FlipsAt(run, 1, id);
  }

  /** It happens: a node deleted together with its baseline entry comes back canonical without any
      proof. */
  lemma ReturnsWithoutProof()
    ensures exists run: seq<Snapshot>, id ::
              && History(run) && |run| == 3
              && run[0].Debt(id) && run[2].Canonical(id) && !run[1].Present(id)
              && forall k :: 0 <= k < |run| ==> !run[k].FlipVerified(id)
  {
    var never: Verifier := (id, handler) => false;
    var id := "pkg.nodes.node_a";
    var before, after := Finding(id, "op_method", false, None, None), Finding(id, "canonical", true, None, None);
    PassesIff([], {}, Some({id}), never);
    PassesIff([after], {}, Some({}), never);
    var two := TwoCommits(Snapshot([before], {id}, never), Snapshot([], {}, never));
    var run := two + [Snapshot([after], {}, never)];
    OneMore(two, run[2]);
    assert before in run[0].findings;
    assert run[0].Debt(id) && run[2].Canonical(id) && !run[1].Present(id);
  }

  /** What the git base adds: without it the gate also passes a commit that drops an unproven flip
      from the baseline, or grows the baseline. */
  lemma BaseClosesTheHole(findings: seq<Finding>, baseline: set<string>, base: set<string>, verify: Verifier)
    ensures Verdict(findings, baseline, Some(base), verify).Failed() <==>
            || Verdict(findings, baseline, None, verify).Failed()
            || !(baseline <= base)
            || exists id :: id in base - baseline && ById(findings, id).Some? &&
                            ById(findings, id).value.isCanonical && !Proves(findings, verify, id)
  {
    PassesIff(findings, baseline, Some(base), verify);
    PassesIff(findings, baseline, None, verify);
    if id :| id in base - baseline && ById(findings, id).Some? &&
             ById(findings, id).value.isCanonical && !Proves(findings, verify, id) {
      assert ClaimsFlip(findings, baseline, Some(base), id);
    }
    forall id | ClaimsFlip(findings, baseline, None, id)
      ensures ClaimsFlip(findings, baseline, Some(base), id)
    {
    }
  }
}
