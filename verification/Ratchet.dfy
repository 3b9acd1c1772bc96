/** `evaluate` of the canonical handler-shape ratchet. */
module Ratchet {
  import opened Ordering

  /** One node's classification. */
  datatype Finding = Finding(
    nodeId: string,
    category: string,
    isCanonical: bool,
    handlerModule: Option<string>,
    detail: Option<string>)

  datatype RatchetResult = RatchetResult(
    newNonCanonical: seq<string>,
    unprovenFlips: seq<string>,
    warnBaselined: seq<string>,
    provenFlips: seq<string>,
    baselineGrowth: seq<string>)
  {
    predicate Failed() {
      newNonCanonical != [] || unprovenFlips != [] || baselineGrowth != []
    }
  }

  /** `verify_flip_receipt(node_id, handler_module)[0]` on the files of one tree. */
  type Verifier = (string, Option<string>) -> bool

  /** `by_id.get(node_id)`: the last finding with that id. */
  function ById(findings: seq<Finding>, id: string): Option<Finding> {
    if findings == [] then None
    else if findings[|findings| - 1].nodeId == id then Some(findings[|findings| - 1])
    else ById(findings[..|findings| - 1], id)
  }

  function NonCanonical(findings: seq<Finding>): set<string> {
    set f | f in findings && !f.isCanonical :: f.nodeId
  }

  ghost predicate UniqueIds(findings: seq<Finding>) {
    forall i, j :: 0 <= i < j < |findings| ==> findings[i].nodeId != findings[j].nodeId
  }

  /** The node claims to have become canonical: a baselined node that no longer is non-canonical, or
      a canonical node dropped from the base's baseline. Nodes without a finding claim nothing. */
  ghost predicate ClaimsFlip(findings: seq<Finding>, baseline: set<string>, base: Option<set<string>>, id: string) {
    && ById(findings, id).Some?
    && ((id in baseline && id !in NonCanonical(findings))
        || (base.Some? && id in base.value && id !in baseline && ById(findings, id).value.isCanonical))
  }

  ghost predicate Proves(findings: seq<Finding>, verify: Verifier, id: string) {
    ById(findings, id).Some? && verify(id, ById(findings, id).value.handlerModule)
  }

  ghost function Claimants(findings: seq<Finding>, baseline: set<string>, base: Option<set<string>>): set<string> {
    var candidates := baseline + if base.Some? then base.value else {};
    set id | id in candidates && ClaimsFlip(findings, baseline, base, id)
  }

  /** The verdict, field by field, as sets of node ids in sorted order. */
  ghost function Verdict(findings: seq<Finding>, baseline: set<string>, base: Option<set<string>>,
                         verify: Verifier): RatchetResult {
    var nc, claims := NonCanonical(findings), Claimants(findings, baseline, base);
    RatchetResult(
      SortSet(nc - baseline),
      SortSet(Settled(findings, claims, verify, false)),
      SortSet(nc * baseline),
      SortSet(Settled(findings, claims, verify, true)),
      SortSet(if base.Some? then baseline - base.value else {}))
  }

  function BaseSet(base: Option<seq<string>>): Option<set<string>> {
    if base.Some? then Some(Elements(base.value)) else None
  }

  ghost predicate Considered(findings: seq<Finding>, canonicalOnly: bool, id: string) {
    ById(findings, id).Some? && (!canonicalOnly || ById(findings, id).value.isCanonical)
  }

  /** The ids among `ids` that are looked up and whose proof verifies (`ok`) or does not. */
  ghost function Judged(findings: seq<Finding>, ids: set<string>, canonicalOnly: bool, verify: Verifier,
                        ok: bool): set<string> {
    set id | id in ids && Considered(findings, canonicalOnly, id) && Proves(findings, verify, id) == ok
  }

  ghost function Settled(findings: seq<Finding>, claims: set<string>, verify: Verifier, ok: bool): set<string> {
    set id | id in claims && Proves(findings, verify, id) == ok
  }

  /** The two loops of `evaluate` together judge exactly the claimed flips. */
  lemma ClaimsJudged(findings: seq<Finding>, baseline: set<string>, base: Option<set<string>>, verify: Verifier,
                     ok: bool)
    ensures Settled(findings, Claimants(findings, baseline, base), verify, ok) ==
            Judged(findings, baseline - NonCanonical(findings), false, verify, ok) +
            if base.Some? then Judged(findings, base.value - baseline, true, verify, ok) else {}
  {
  }

  /** `evaluate`. */
  method Evaluate(findings: seq<Finding>, baseline: seq<string>, base: Option<seq<string>>, verify: Verifier)
    returns (r: RatchetResult)
    ensures r == Verdict(findings, Elements(baseline), BaseSet(base), verify)
  {
    var baselineSet := Elements(baseline);
    var currentNc := NonCanonical(findings);
    var newNc := SortedSet(currentNc - baselineSet);
    var warn := SortedSet(currentNc * baselineSet);
    var flipped := SortedSet(baselineSet - currentNc);
    var proven, unproven := Adjudicate(findings, flipped, false, verify, [], []);
    ClaimsJudged(findings, baselineSet, BaseSet(base), verify, true);
    ClaimsJudged(findings, baselineSet, BaseSet(base), verify, false);
    ghost var claims := Claimants(findings, baselineSet, BaseSet(base));
    var growth := [];
    if base.Some? {
      var baseSet := Elements(base.value);
      var removed := SortedSet(baseSet - baselineSet);
      proven, unproven := Adjudicate(findings, removed, true, verify, proven, unproven);
      growth := SortedSet(baselineSet - baseSet);
    }
    assert Elements(proven) == Settled(findings, claims, verify, true);
    assert Elements(unproven) == Settled(findings, claims, verify, false);
    var unprovenSorted := SortedSet(Elements(unproven));
    var provenSorted := SortedSet(Elements(proven));
    r := RatchetResult(newNc, unprovenSorted, warn, provenSorted, growth);
  }

  /** One of the two loops of `evaluate`: look the node up, skip it when it has no finding (or, for
      removals, when it is still non-canonical), otherwise record whether its proof verifies. */
  method Adjudicate(findings: seq<Finding>, ids: seq<string>, canonicalOnly: bool, verify: Verifier,
                    proven: seq<string>, unproven: seq<string>)
    returns (proven': seq<string>, unproven': seq<string>)
    ensures Elements(proven') ==
            Elements(proven) + Judged(findings, Elements(ids), canonicalOnly, verify, true)
    ensures Elements(unproven') ==
            Elements(unproven) + Judged(findings, Elements(ids), canonicalOnly, verify, false)
  {
    proven', unproven' := proven, unproven;
    for i := 0 to |ids|
      invariant Elements(proven') ==
                Elements(proven) + Judged(findings, Elements(ids[..i]), canonicalOnly, verify, true)
      invariant Elements(unproven') ==
                Elements(unproven) + Judged(findings, Elements(ids[..i]), canonicalOnly, verify, false)
    {
      assert ids[..i + 1] == ids[..i] + [ids[i]];
      ElementsConcat(ids[..i], [ids[i]]);
      ElementsConcat(proven', [ids[i]]);
      ElementsConcat(unproven', [ids[i]]);
      var finding := ById(findings, ids[i]);
      if finding.Some? && (!canonicalOnly || finding.value.isCanonical) {
        var ok := verify(ids[i], finding.value.handlerModule);
        if ok {
          proven' := proven' + [ids[i]];
        } else {
          unproven' := unproven' + [ids[i]];
        }
      }
    }
    assert ids[..|ids|] == ids;
  }

  lemma SortEmpty(s: set<string>)
    ensures SortSet(s) == [] <==> s == {}
  {
    assert SortSet(s) == [] ==> Elements(SortSet(s)) == {};
  }

  /** The gate passes exactly when no non-canonical node lies outside the baseline, every claimed
      flip is proven, and the baseline has not grown. */
  lemma PassesIff(findings: seq<Finding>, baseline: set<string>, base: Option<set<string>>, verify: Verifier)
    ensures !Verdict(findings, baseline, base, verify).Failed() <==>
            && NonCanonical(findings) <= baseline
            && (forall id :: ClaimsFlip(findings, baseline, base, id) ==> Proves(findings, verify, id))
            && (base.Some? ==> baseline <= base.value)
  {
    var claims := Claimants(findings, baseline, base);
    var bad := Settled(findings, claims, verify, false);
    SortEmpty(NonCanonical(findings) - baseline);
    SortEmpty(bad);
    DifferenceEmpty(NonCanonical(findings), baseline);
    if base.Some? {
      SortEmpty(baseline - base.value);
      DifferenceEmpty(baseline, base.value);
    } else {
      SortEmpty({});
    }
    assert forall id :: id in bad <==> ClaimsFlip(findings, baseline, base, id) && !Proves(findings, verify, id);
  }

  lemma DifferenceEmpty(a: set<string>, b: set<string>)
    ensures a - b == {} <==> a <= b
  {
    assert a <= b + (a - b);
  }

  lemma {:induction false} ByIdUnique(findings: seq<Finding>, f: Finding)
    requires UniqueIds(findings) && f in findings
    ensures ById(findings, f.nodeId) == Some(f)
  {
    var init, last := findings[..|findings| - 1], findings[|findings| - 1];
    if f != last {
      var i :| 0 <= i < |findings| && findings[i] == f;
      assert init[i] == f;
      ByIdUnique(init, f);
    }
  }

  lemma {:induction false} ByIdMember(findings: seq<Finding>, id: string)
    ensures ById(findings, id).Some? ==> ById(findings, id).value in findings && ById(findings, id).value.nodeId == id
  {
    if findings != [] && findings[|findings| - 1].nodeId != id {
      ByIdMember(findings[..|findings| - 1], id);
    }
  }

  /** `id` is looked up as the last finding it has. */
  ghost predicate IsLast(findings: seq<Finding>, f: Finding, i: nat) {
    i < |findings| && findings[i] == f && forall j :: i < j < |findings| ==> findings[j].nodeId != f.nodeId
  }

  lemma {:induction false} ByIdLast(findings: seq<Finding>, id: string) returns (i: nat)
    ensures ById(findings, id).None? ==> forall j :: 0 <= j < |findings| ==> findings[j].nodeId != id
    ensures ById(findings, id).Some? ==>
              IsLast(findings, ById(findings, id).value, i) && ById(findings, id).value.nodeId == id
  {
    i := 0;
    if findings != [] {
      var n := |findings| - 1;
      if findings[n].nodeId == id {
        i := n;
      } else {
        i := ByIdLast(findings[..n], id);
      }
    }
  }

  /** A node is looked up as its last finding, and not found exactly when it has none. */
  lemma ByIdIff(findings: seq<Finding>, f: Finding)
    ensures ById(findings, f.nodeId) == Some(f) <==> exists i :: IsLast(findings, f, i)
    ensures ById(findings, f.nodeId) == None <==> forall g :: g in findings ==> g.nodeId != f.nodeId
  {
    var i := ByIdLast(findings, f.nodeId);
    if j: nat :| IsLast(findings, f, j) {
      assert findings[j].nodeId == f.nodeId;
    }
  }

  /** With one finding per node, a found node is non-canonical exactly when its finding says so. */
  lemma FoundNonCanonical(findings: seq<Finding>, f: Finding)
    requires UniqueIds(findings) && f in findings
    ensures f.nodeId in NonCanonical(findings) <==> !f.isCanonical
  {
    if g :| g in findings && !g.isCanonical && g.nodeId == f.nodeId {
      ByIdUnique(findings, f);
      ByIdUnique(findings, g);
    }
  }
}
