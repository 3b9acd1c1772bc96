/** `ModelAdequacyReceipt` and `build_receipt`: the receipt a coverage-guided selection yields. */
module AdequacyReceipt {
  import opened Ordering
  import opened Covering

  datatype Waiver = Waiver(reason: string, uncoveredBranchCount: int)

  datatype Receipt = Receipt(
    nodeId: string,
    handlerModule: string,
    handlerModuleSha: string,
    recordedAt: string,
    candidateCount: int,
    selectedCount: int,
    selectedInputHashes: seq<string>,
    branchCoveragePct: real,
    coverageTarget: real,
    meetsTarget: bool,
    uncoveredWaiver: Option<Waiver>,
    volatileMask: seq<string>)

  datatype Violation =
    | FieldOutOfRange
    | SelectedExceedsCandidates
    | SelectedNotHashCount
    | MeetsTargetNotDerived
    | WaiverForbidden
    | WaiverMissing
    | ZeroInputs

  datatype Validated = Valid(receipt: Receipt) | Invalid(why: Violation)

  /** The declared field bounds, checked before the cross-field invariants. */
  predicate FieldsInRange(r: Receipt) {
    && r.candidateCount >= 0 && r.selectedCount >= 0
    && 0.0 <= r.branchCoveragePct <= 100.0
    && 0.0 <= r.coverageTarget <= 100.0
    && (r.uncoveredWaiver.Some? ==>
          r.uncoveredWaiver.value.reason != "" && r.uncoveredWaiver.value.uncoveredBranchCount >= 0)
  }

  /** Construction of a receipt: field bounds, then `_check`. */
  function Construct(r: Receipt): Validated {
    if !FieldsInRange(r) then Invalid(FieldOutOfRange)
    else if r.selectedCount > r.candidateCount then Invalid(SelectedExceedsCandidates)
    else if r.selectedCount != |r.selectedInputHashes| then Invalid(SelectedNotHashCount)
    else if r.meetsTarget != (r.branchCoveragePct >= r.coverageTarget) then Invalid(MeetsTargetNotDerived)
    else if r.meetsTarget && r.uncoveredWaiver.Some? then Invalid(WaiverForbidden)
    else if !r.meetsTarget && r.uncoveredWaiver.None? then Invalid(WaiverMissing)
    else if r.meetsTarget && r.selectedCount == 0 then Invalid(ZeroInputs)
    else Valid(r)
  }

  /** The invariants of a receipt: counts that fit the hashes, a derived verdict on the target, and a
      waiver exactly when the target is missed. */
  predicate Sound(r: Receipt) {
    && 0 <= r.selectedCount <= r.candidateCount && r.selectedCount == |r.selectedInputHashes|
    && 0.0 <= r.branchCoveragePct <= 100.0 && 0.0 <= r.coverageTarget <= 100.0
    && if r.branchCoveragePct >= r.coverageTarget
       then r.meetsTarget && r.uncoveredWaiver == None && r.selectedInputHashes != []
       else !r.meetsTarget && r.uncoveredWaiver.Some? && r.uncoveredWaiver.value.reason != ""
            && r.uncoveredWaiver.value.uncoveredBranchCount >= 0
  }

  /** A receipt is constructed exactly when its invariants hold, and then unchanged. */
  lemma ConstructIff(r: Receipt)
    ensures Construct(r) == Valid(r) <==> Sound(r)
    ensures Construct(r).Valid? ==> Construct(r).receipt == r
  {
  }

  /** What a receipt of the kind has wrong. */
  ghost predicate Breaks(r: Receipt, v: Violation) {
    match v
    case FieldOutOfRange =>
      || r.candidateCount < 0 || r.selectedCount < 0
      || r.branchCoveragePct < 0.0 || r.branchCoveragePct > 100.0 || r.coverageTarget < 0.0 || r.coverageTarget > 100.0
      || exists w :: r.uncoveredWaiver == Some(w) && (w.reason == "" || w.uncoveredBranchCount < 0)
    case SelectedExceedsCandidates => r.selectedCount > r.candidateCount
    case SelectedNotHashCount => r.selectedCount != |r.selectedInputHashes|
    case MeetsTargetNotDerived => r.meetsTarget != (r.branchCoveragePct >= r.coverageTarget)
    case WaiverForbidden => r.meetsTarget && r.uncoveredWaiver != None
    case WaiverMissing => !r.meetsTarget && r.uncoveredWaiver == None
    case ZeroInputs => r.meetsTarget && r.selectedCount == 0
  }

  /** When the violation is looked for: the field bounds first, then in the order of `_check`. */
  ghost function Stage(v: Violation): nat {
    match v
    case FieldOutOfRange => 0
    case SelectedExceedsCandidates => 1
    case SelectedNotHashCount => 2
    case MeetsTargetNotDerived => 3
    case WaiverForbidden => 4
    case WaiverMissing => 5
    case ZeroInputs => 6
  }

  /** A refusal names the first thing wrong. */
  lemma RefusedIff(r: Receipt, v: Violation)
    ensures Construct(r) == Invalid(v) <==> Breaks(r, v) && forall u :: Stage(u) < Stage(v) ==> !Breaks(r, u)
  {
    OutOfRangeIff(r);
    var why := Construct(r);
    if why.Invalid? {
      assert Breaks(r, why.why);
      assert v == why.why || Stage(v) < Stage(why.why) || Stage(why.why) < Stage(v);
    }
  }

  lemma OutOfRangeIff(r: Receipt)
    ensures Breaks(r, FieldOutOfRange) <==> !FieldsInRange(r)
  {
    if r.uncoveredWaiver.Some? {
      assert r.uncoveredWaiver == Some(r.uncoveredWaiver.value);
    }
  }

  /** No pick is made exactly when no candidate exercises an arc. */
  lemma NoPicksIffNoArcs(arcs: seq<set<Arc>>, picks: seq<nat>)
    requires GreedySelection(arcs, picks)
    ensures picks == [] <==> forall i :: 0 <= i < |arcs| ==> arcs[i] == {}
  {
    EverythingUnion(arcs);
    CoversEverything(arcs, picks);
    if picks != [] {
      PickAt(arcs, picks, 0);
      assert arcs[picks[0]] != {};
    }
  }

  function HashesOf(hashes: seq<string>, picks: seq<nat>): (r: seq<string>)
    requires forall i :: 0 <= i < |picks| ==> picks[i] < |hashes|
    ensures |r| == |picks| && forall i :: 0 <= i < |picks| ==> r[i] == hashes[picks[i]]
  {
    seq(|picks|, i requires 0 <= i < |picks| => hashes[picks[i]])
  }

  /** How percentages are printed: with one decimal and with none. */
  datatype Formats = Formats(oneDecimal: real -> string, noDecimal: real -> string)

  function DefaultReason(f: Formats, pct: real, target: real): string {
    "candidate pool reaches only " + f.oneDecimal(pct) + "% branch coverage (< " + f.noDecimal(target)
    + "% target); pool needs coverage-guided synthesis for the uncovered branches"
  }

  /** The reason of a waiver: the given one, unless it is missing or empty. */
  function ReasonOf(f: Formats, given: Option<string>, pct: real, target: real): (r: string)
    ensures r != ""
  {
    if given.Some? && given.value != "" then given.value else DefaultReason(f, pct, target)
  }

  /** The given reason, or, when it is missing or empty, one that names the two percentages. */
  ghost predicate IsReason(f: Formats, given: Option<string>, pct: real, target: real, reason: string) {
    && (forall why :: given == Some(why) && why != "" ==> reason == why)
    && (given == None || given == Some("") ==>
          reason == "candidate pool reaches only " + f.oneDecimal(pct) + "% branch coverage (< " + f.noDecimal(target)
                    + "% target); pool needs coverage-guided synthesis for the uncovered branches")
  }

  lemma ReasonIs(f: Formats, given: Option<string>, pct: real, target: real)
    ensures IsReason(f, given, pct, target, ReasonOf(f, given, pct, target))
  {
  }

  ghost predicate SomeArc(arcs: seq<set<Arc>>) {
    exists i :: 0 <= i < |arcs| && arcs[i] != {}
  }

  /** What comes of the picks: a receipt that records them, unless a number is out of range or the
      target is met although no candidate exercises an arc. */
  ghost predicate BuiltFrom(r: Validated, arcs: seq<set<Arc>>, hashes: seq<string>, picks: seq<nat>, pct: real,
                            target: real, reason: string)
    requires |hashes| == |arcs|
  {
    && GreedySelection(arcs, picks)
    && (r.Valid? <==> 0.0 <= target <= 100.0 && 0.0 <= pct <= 100.0 && (pct < target || SomeArc(arcs)))
    && (r == Invalid(ZeroInputs) <==> 0.0 <= target <= pct <= 100.0 && !SomeArc(arcs))
    && (r.Valid? ==> Records(r.receipt, arcs, hashes, picks, pct, target, reason))
  }

  /** The candidates picked, their measured percentage and the target are what the receipt says, and a
      missed target is waived for the reason, with a zero count. */
  ghost predicate Records(r: Receipt, arcs: seq<set<Arc>>, hashes: seq<string>, picks: seq<nat>, pct: real,
                          target: real, reason: string)
    requires |hashes| == |arcs|
  {
    && (forall i :: 0 <= i < |picks| ==> picks[i] < |arcs|)
    && r.candidateCount == |arcs| && r.selectedCount == |picks|
    && r.selectedInputHashes == HashesOf(hashes, picks)
    && r.branchCoveragePct == pct && r.coverageTarget == target
    && (r.meetsTarget <==> pct >= target)
    && r.uncoveredWaiver == (if pct < target then Some(Waiver(reason, 0)) else None)
  }

  /** The arguments that the receipt takes over. */
  ghost predicate Carries(r: Receipt, nodeId: string, handlerModule: string, sha: string, recordedAt: string,
                    mask: Option<seq<string>>)
  {
    && r.nodeId == nodeId && r.handlerModule == handlerModule && r.handlerModuleSha == sha
    && r.recordedAt == recordedAt && r.volatileMask == (if mask.Some? then mask.value else [])
  }

  /** A receipt that records a greedy selection is refused in no other case. */
  lemma RecordsBuilt(r: Receipt, arcs: seq<set<Arc>>, hashes: seq<string>, picks: seq<nat>, pct: real, target: real,
                     reason: string)
    requires |hashes| == |arcs| && GreedySelection(arcs, picks) && reason != ""
    requires Records(r, arcs, hashes, picks, pct, target, reason)
    ensures BuiltFrom(Construct(r), arcs, hashes, picks, pct, target, reason)
  {
    PicksDistinct(arcs, picks);
    NoPicksIffNoArcs(arcs, picks);
  }

  /** `build_receipt`. `pct` is the measured coverage of running the selected candidates, and
      `hashes` the input hash of each candidate. The receipt is refused only for an out-of-range
      target or percentage, or when the target is met although no candidate exercises any arc. */
  method BuildReceipt(nodeId: string, handlerModule: string, sha: string, recordedAt: string,
                      arcs: seq<set<Arc>>, hashes: seq<string>, pct: seq<nat> -> real,
                      mask: Option<seq<string>>, target: real, waiverReason: Option<string>, f: Formats)
    returns (r: Validated)
    requires |hashes| == |arcs|
    ensures exists picks, reason :: BuiltFrom(r, arcs, hashes, picks, pct(picks), target, reason) &&
                                    IsReason(f, waiverReason, pct(picks), target, reason)
    ensures r.Valid? ==> Construct(r.receipt) == r && Carries(r.receipt, nodeId, handlerModule, sha, recordedAt, mask)
  {
    var selected, covered := SelectCovering(arcs);
    var p := pct(selected);
    var reason := ReasonOf(f, waiverReason, p, target);
    ReasonIs(f, waiverReason, p, target);
    r := ReceiptOf(nodeId, handlerModule, sha, recordedAt, arcs, hashes, selected, p, mask, target, reason);
  }

  /** The receipt for a selection that was made and measured. */
  method ReceiptOf(nodeId: string, handlerModule: string, sha: string, recordedAt: string, arcs: seq<set<Arc>>,
                   hashes: seq<string>, picks: seq<nat>, pct: real, mask: Option<seq<string>>, target: real,
                   reason: string)
    returns (r: Validated)
    requires |hashes| == |arcs| && GreedySelection(arcs, picks) && reason != ""
    ensures BuiltFrom(r, arcs, hashes, picks, pct, target, reason)
    ensures r.Valid? ==> Construct(r.receipt) == r && Carries(r.receipt, nodeId, handlerModule, sha, recordedAt, mask)
  {
    var meets := pct >= target;
    var waiver := None;
    if !meets {
      waiver := Some(Waiver(reason, 0));
    }
    var receipt := Receipt(nodeId, handlerModule, sha, recordedAt, |arcs|, |picks|, HashesOf(hashes, picks), pct,
                           target, meets, waiver, if mask.Some? then mask.value else []);
    r := Construct(receipt);
    RecordsBuilt(receipt, arcs, hashes, picks, pct, target, reason);
  }
}
