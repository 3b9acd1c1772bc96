/** What the flip-bundle gate demands, assertion by assertion, told by files, git and the classifier
    alone; and the verdict in these terms. */
module FlipEvidence {
  import opened Ordering
  import opened Binary
  import opened JsonTree
  import opened EquivalenceProducer
  import opened FlipBundle
  import AdequacyReceipt

  // ---- Files and fields ----

  ghost predicate FileHolds(e: Env, path: string, t: Json) {
    t.Obj? && exists bytes :: e.w.read(path) == Some(bytes) && e.w.parse(bytes) == Some(t)
  }

  lemma LoadIff(e: Env, path: string, t: Json)
    ensures Load(e, path) == Some(t) <==> FileHolds(e, path, t)
  {
  }

  /** The adequacy receipt of the node. */
  ghost predicate ReceiptFile(e: Env, s: Scope, node: string, t: Json) {
    FileHolds(e, s.receiptsDir + "/" + node + ".json", t)
  }

  /** The equivalence artifact of the node, when it is for this node and says "pass". */
  ghost predicate Replayed(e: Env, s: Scope, node: string, t: Json) {
    && FileHolds(e, s.receiptsDir + "/" + node + ".equivalence.json", t)
    && Field(t, "node_id", Str(node)) && Field(t, "status", Str("pass"))
  }

  ghost predicate Missing(t: Json, key: string) {
    forall v :: !Field(t, key, v)
  }

  lemma GetIff(t: Json, key: string, v: Json)
    ensures Get(t, key) == Some(v) <==> Field(t, key, v)
    ensures Get(t, key).None? <==> Missing(t, key)
  {
    if Get(t, key).Some? {
      assert Field(t, key, Get(t, key).value);
    }
  }

  ghost predicate Lists(w: World, t: Json, h: string) {
    exists items, i :: Field(t, "selected_input_hashes", Arr(items)) && 0 <= i < |items| && h == w.show(items[i])
  }

  lemma HashListIff(e: Env, t: Json, h: string)
    ensures h in Elements(HashList(e, t)) <==> Lists(e.w, t, h)
  {
    var l := HashList(e, t);
    if Lists(e.w, t, h) {
      var items, i :| Field(t, "selected_input_hashes", Arr(items)) && 0 <= i < |items| && h == e.w.show(items[i]);
      assert l[i] == h;
    }
    if h in Elements(l) {
      var items := Get(t, "selected_input_hashes").value.items;
      var i :| 0 <= i < |l| && l[i] == h;
      assert Field(t, "selected_input_hashes", Arr(items)) && h == e.w.show(items[i]);
    }
  }

  // ---- The adequacy receipt ----

  predicate Falsy(t: Json) {
    || t == Null || t == Bool(false) || t == Int(0) || t == Str("") || t == Arr([]) || t == Obj(map[])
    || t == Float(MinusZero) || (t.Float? && t.d.Finite? && t.d.r == 0.0)
  }

  lemma TruthyIff(t: Json)
    ensures Truthy(t) <==> !Falsy(t)
  {
  }

  ghost predicate Number(e: Env, t: Json, key: string, d: Double) {
    exists v :: Field(t, key, v) && e.toFloat(v) == Some(d)
  }

  /** The coverage target; 80 when the receipt has none. */
  ghost predicate Target(e: Env, t: Json, target: Double) {
    if Missing(t, "coverage_target") then target.Finite? && target.r == 80.0
    else Number(e, t, "coverage_target", target)
  }

  ghost predicate Waived(t: Json) {
    exists w, v :: Field(t, "uncovered_waiver", w) && Field(w, "reason", v) && !Falsy(v)
  }

  ghost predicate Covers(e: Env, t: Json) {
    exists pct, target ::
      Number(e, t, "branch_coverage_pct", pct) && Target(e, t, target) && (!Below(pct, target) || Waived(t))
  }

  lemma NumberIff(e: Env, t: Json, key: string, d: Double)
    ensures Number(e, t, key, d) <==> Get(t, key).Some? && e.toFloat(Get(t, key).value) == Some(d)
  {
    if Get(t, key).Some? {
      GetIff(t, key, Get(t, key).value);
    }
  }

  lemma NumbersIff(e: Env, t: Json, pct: Double, target: Double)
    ensures CoverageNumbers(e, t) == Some((pct, target)) <==>
            Number(e, t, "branch_coverage_pct", pct) && Target(e, t, target)
  {
    NumberIff(e, t, "branch_coverage_pct", pct);
    NumberIff(e, t, "coverage_target", target);
    GetIff(t, "coverage_target", Null);
  }

  lemma WaivedIff(t: Json)
    ensures HasWaiver(t) <==> Waived(t)
  {
    if HasWaiver(t) {
      var w := Get(t, "uncovered_waiver").value;
      TruthyIff(Get(w, "reason").value);
      assert Field(t, "uncovered_waiver", w) && Field(w, "reason", Get(w, "reason").value);
    }
    if w, v :| Field(t, "uncovered_waiver", w) && Field(w, "reason", v) && !Falsy(v) {
      TruthyIff(v);
    }
  }

  lemma CoversIff(e: Env, t: Json)
    ensures Covers(e, t) <==>
      CoverageNumbers(e, t).Some?
      && (!Below(CoverageNumbers(e, t).value.0, CoverageNumbers(e, t).value.1) || HasWaiver(t))
  {
    WaivedIff(t);
    if CoverageNumbers(e, t).Some? {
      var n := CoverageNumbers(e, t).value;
      NumbersIff(e, t, n.0, n.1);
    }
    if pct, target :| Number(e, t, "branch_coverage_pct", pct) && Target(e, t, target)
                      && (!Below(pct, target) || Waived(t)) {
      NumbersIff(e, t, pct, target);
    }
  }

  ghost predicate SchemaFits(t: Json) {
    || Missing(t, "receipt_schema") || Field(t, "receipt_schema", Null)
    || Field(t, "receipt_schema", Str("adequacy_receipt.v1"))
  }

  /** The module the receipt names, or else the classified one. */
  ghost predicate NamesModule(t: Json, classified: Option<string>, m: string) {
    && m != ""
    && (|| Field(t, "handler_module", Str(m))
        || ((forall v :: Field(t, "handler_module", v) ==> Falsy(v)) && classified == Some(m)))
  }

  lemma NamesModuleIff(t: Json, classified: Option<string>, m: string)
    ensures NamesModule(t, classified, m) <==> m != "" && ReceiptModule(t, classified) == Some(m)
  {
    GetIff(t, "handler_module", Str(m));
    if Get(t, "handler_module").Some? {
      GetIff(t, "handler_module", Get(t, "handler_module").value);
      TruthyIff(Get(t, "handler_module").value);
    }
  }

  /** The recorded hash is that of the module's live source. */
  ghost predicate Fresh(e: Env, s: Scope, t: Json, m: string) {
    exists src :: e.moduleSource(s, m) == Some(src) && Field(t, "handler_module_sha256", Str(e.w.sha(src)))
  }

  lemma FreshIff(e: Env, s: Scope, t: Json, m: string)
    ensures Fresh(e, s, t, m) <==> FreshModule(e, s, t, m)
  {
  }

  /** The receipt is the node's, of a known schema, covers its target or is waived, and pins the module. */
  ghost predicate Certifies(e: Env, s: Scope, node: string, classified: Option<string>, t: Json) {
    && ReceiptFile(e, s, node, t) && Field(t, "node_id", Str(node)) && SchemaFits(t) && Covers(e, t)
    && exists m :: NamesModule(t, classified, m) && Fresh(e, s, t, m)
  }

  lemma SchemaIff(t: Json)
    ensures SchemaFits(t) <==>
      var schema := Get(t, "receipt_schema");
      !(schema.Some? && schema.value != Null && schema.value != Str(RECEIPT_SCHEMA))
  {
    GetIff(t, "receipt_schema", Null);
    GetIff(t, "receipt_schema", Str("adequacy_receipt.v1"));
  }

  lemma PinsIff(e: Env, s: Scope, t: Json, classified: Option<string>)
    ensures (exists m :: NamesModule(t, classified, m) && Fresh(e, s, t, m)) <==>
      var m := ReceiptModule(t, classified);
      m.Some? && m.value != "" && FreshModule(e, s, t, m.value)
  {
    var named := ReceiptModule(t, classified);
    if named.Some? {
      NamesModuleIff(t, classified, named.value);
      FreshIff(e, s, t, named.value);
    }
    if m :| NamesModule(t, classified, m) && Fresh(e, s, t, m) {
      NamesModuleIff(t, classified, m);
    }
  }

  lemma AdequacyIff(e: Env, s: Scope, node: string, classified: Option<string>, t: Json)
    requires Load(e, ReceiptPath(s, node)) == Some(t)
    ensures Certifies(e, s, node, classified, t) <==> VerifyAdequacy(e, s, node, classified).Some?
    ensures VerifyAdequacy(e, s, node, classified).Some? ==>
            VerifyAdequacy(e, s, node, classified).value == HashList(e, t)
  {
    LoadIff(e, s.receiptsDir + "/" + node + ".json", t);
    GetIff(t, "node_id", Str(node));
    SchemaIff(t);
    CoversIff(e, t);
    PinsIff(e, s, t, classified);
  }

  lemma ReplayedIff(e: Env, s: Scope, node: string, t: Json)
    ensures Replayed(e, s, node, t) <==> Load(e, ReplayPath(s, node)) == Some(t) && OnReplayPath(e, s, node)
    ensures Replayed(e, s, node, t) ==> VerifyReplay(e, s, node).value == HashList(e, t)
  {
    LoadIff(e, s.receiptsDir + "/" + node + ".equivalence.json", t);
    GetIff(t, "node_id", Str(node));
    GetIff(t, "status", Str("pass"));
  }

  // ---- The assertions ----

  /** Assertion 1: the receipt has its type and meets its invariants. */
  ghost predicate TypedReceipt(e: Env, s: Scope, node: string) {
    exists t, r :: ReceiptFile(e, s, node, t) && e.typedReceipt(t) == Some(r) && AdequacyReceipt.Sound(r)
  }

  lemma TypedIff(e: Env, s: Scope, node: string)
    ensures TypedAdequacy(e, s, node) <==> TypedReceipt(e, s, node)
  {
    var path := s.receiptsDir + "/" + node + ".json";
    if Load(e, path).Some? {
      var t := Load(e, path).value;
      LoadIff(e, path, t);
      if e.typedReceipt(t).Some? {
        AdequacyReceipt.ConstructIff(e.typedReceipt(t).value);
      }
    }
    if t, r :| ReceiptFile(e, s, node, t) && e.typedReceipt(t) == Some(r) && AdequacyReceipt.Sound(r) {
      LoadIff(e, path, t);
      AdequacyReceipt.ConstructIff(r);
    }
  }

  /** The hash strings of the artifact that proves the flip: of the replay, or else of the hand flip. */
  ghost predicate ProofLists(e: Env, s: Scope, node: string, h: string) {
    || (exists u :: Replayed(e, s, node, u) && Lists(e.w, u, h))
    || (NoReplay(e, s, node) && e.handFlip(s, node, e.handlerModule(s, node)).Some?
        && h in e.handFlip(s, node, e.handlerModule(s, node)).value)
  }

  ghost predicate NoReplay(e: Env, s: Scope, node: string) {
    forall u :: !Replayed(e, s, node, u)
  }

  /** Assertion 2: a certifying receipt, and a proof over the same inputs. */
  ghost predicate ReceiptAndProof(e: Env, s: Scope, node: string) {
    && (NoReplay(e, s, node) ==> e.handFlip(s, node, e.handlerModule(s, node)).Some?)
    && exists t :: Certifies(e, s, node, e.handlerModule(s, node), t)
                   && forall h :: Lists(e.w, t, h) <==> ProofLists(e, s, node, h)
  }

  lemma OnReplayIff(e: Env, s: Scope, node: string)
    ensures OnReplayPath(e, s, node) <==> !NoReplay(e, s, node)
  {
    if OnReplayPath(e, s, node) {
      ReplayedIff(e, s, node, Load(e, ReplayPath(s, node)).value);
    }
    if u :| Replayed(e, s, node, u) {
      ReplayedIff(e, s, node, u);
    }
  }

  lemma ProofListsIff(e: Env, s: Scope, node: string, h: string)
    requires OnReplayPath(e, s, node) || e.handFlip(s, node, e.handlerModule(s, node)).Some?
    ensures var replay := VerifyReplay(e, s, node);
      ProofLists(e, s, node, h) <==>
      h in Elements(if replay.Some? then replay.value else e.handFlip(s, node, e.handlerModule(s, node)).value)
  {
    OnReplayIff(e, s, node);
    if OnReplayPath(e, s, node) {
      var u := Load(e, ReplayPath(s, node)).value;
      ReplayedIff(e, s, node, u);
      HashListIff(e, u, h);
      forall v | Replayed(e, s, node, v) ensures v == u {
        ReplayedIff(e, s, node, v);
      }
    }
  }

  lemma GateIff(e: Env, s: Scope, node: string)
    ensures VerifyFlipReceipt(e, s, node, e.handlerModule(s, node)) <==> ReceiptAndProof(e, s, node)
  {
    var classified := e.handlerModule(s, node);
    OnReplayIff(e, s, node);
    if OnReplayPath(e, s, node) || e.handFlip(s, node, classified).Some? {
      forall t | Load(e, ReceiptPath(s, node)) == Some(t) && VerifyAdequacy(e, s, node, classified).Some?
        ensures (forall h :: Lists(e.w, t, h) <==> ProofLists(e, s, node, h)) <==>
                VerifyFlipReceipt(e, s, node, classified)
      {
        AdequacyIff(e, s, node, classified, t);
        SameHashesIff(e, s, node, t);
      }
    }
    if VerifyFlipReceipt(e, s, node, classified) {
      var t := Load(e, ReceiptPath(s, node)).value;
      AdequacyIff(e, s, node, classified, t);
      assert Certifies(e, s, node, classified, t);
    }
    forall t | Certifies(e, s, node, classified, t)
      ensures Load(e, ReceiptPath(s, node)) == Some(t) && VerifyAdequacy(e, s, node, classified).Some?
    {
      LoadIff(e, s.receiptsDir + "/" + node + ".json", t);
      AdequacyIff(e, s, node, classified, t);
    }
  }

  lemma SameHashesIff(e: Env, s: Scope, node: string, t: Json)
    requires OnReplayPath(e, s, node) || e.handFlip(s, node, e.handlerModule(s, node)).Some?
    ensures var replay := VerifyReplay(e, s, node);
      var proof := if replay.Some? then replay.value else e.handFlip(s, node, e.handlerModule(s, node)).value;
      (forall h :: Lists(e.w, t, h) <==> ProofLists(e, s, node, h)) <==> Elements(HashList(e, t)) == Elements(proof)
  {
    forall h ensures h in Elements(HashList(e, t)) <==> Lists(e.w, t, h) {
      HashListIff(e, t, h);
    }
    var replay := VerifyReplay(e, s, node);
    var proof := if replay.Some? then replay.value else e.handFlip(s, node, e.handlerModule(s, node)).value;
    forall h ensures h in Elements(proof) <==> ProofLists(e, s, node, h) {
      ProofListsIff(e, s, node, h);
    }
  }

  /** Assertion 3: there is a binding, and all are canonical. */
  ghost predicate AllCanonical(bindings: seq<bool>) {
    bindings != [] && forall b :: b in bindings ==> b
  }

  /** Assertion 4: the node has left the working baseline, which has not grown over the base's, and no
      handler of it is still listed as lacking an entry point. */
  ghost predicate BaselinesShrank(e: Env, s: Scope, node: string, baseRef: string) {
    && (exists working, base ::
          && e.baseline(s) == Some(working) && e.baseBaseline(s, baseRef) == Some(base)
          && node !in working && working <= base)
    && (e.entrypoints(s, node) == NoValidator || e.entrypoints(s, node) == StillListed([]))
  }

  /** Assertion 5: the module the receipt names is the one that was hashed, and it is formatted. */
  ghost predicate MintedAfterFormat(e: Env, s: Scope, node: string) {
    exists t, m ::
      && ReceiptFile(e, s, node, t) && Field(t, "handler_module", Str(m)) && m != ""
      && Fresh(e, s, t, m) && e.formatted(s, m)
  }

  lemma SeamIff(e: Env, s: Scope, node: string)
    ensures OrderingSeam(e, s, node) <==> MintedAfterFormat(e, s, node)
  {
    var path := s.receiptsDir + "/" + node + ".json";
    if OrderingSeam(e, s, node) {
      var t := Load(e, path).value;
      LoadIff(e, path, t);
      var m := Get(t, "handler_module").value.s;
      GetIff(t, "handler_module", Str(m));
      FreshIff(e, s, t, m);
    }
    if t, m :| ReceiptFile(e, s, node, t) && Field(t, "handler_module", Str(m)) && m != ""
               && Fresh(e, s, t, m) && e.formatted(s, m) {
      LoadIff(e, path, t);
      GetIff(t, "handler_module", Str(m));
      FreshIff(e, s, t, m);
    }
  }

  /** The proof was there before, or the node is one of two named ones. */
  ghost predicate Exempt(e: Env, s: Scope, node: string, baseRef: string) {
    || node == "omnibase_infra.nodes.node_coding_agent_invoke_effect"
    || node == "omnibase_infra.nodes.node_coding_agent_workspace_compute"
    || e.proofAtBase(s, node, baseRef)
  }

  /** Assertion 6: a replay proof is exempt, or it is what the rerun yields, byte for byte. */
  ghost predicate Reruns(e: Env, s: Scope, node: string, baseRef: string) {
    NoReplay(e, s, node)
    || (e.hasRepoRoot(s)
        && (Exempt(e, s, node, baseRef)
            || Reproduced(e.w, node, e.w.read(s.receiptsDir + "/" + node + ".equivalence.json"), baseRef)))
  }

  /** Assertion `k`; 0 is the contract. */
  ghost predicate Holds(e: Env, s: Scope, node: string, baseRef: string, k: nat) {
    match k
    case 0 => e.contract(s, node) == Mapping
    case 1 => TypedReceipt(e, s, node)
    case 2 => ReceiptAndProof(e, s, node)
    case 3 => AllCanonical(e.bindingsCanonical(s, node))
    case 4 => BaselinesShrank(e, s, node, baseRef)
    case 5 => MintedAfterFormat(e, s, node)
    case _ => Reruns(e, s, node, baseRef)
  }

  // ---- The verdict ----

  ghost predicate Recorded(outcomes: seq<Outcome>, failed: Option<nat>) {
    match failed
    case None => |outcomes| == 6 && forall i :: 0 <= i < 6 ==> outcomes[i] == Outcome(i + 1, true)
    case Some(k) =>
      && |outcomes| == (if k == 0 then 1 else k) && outcomes[|outcomes| - 1] == Outcome(k, false)
      && forall i :: 0 <= i < |outcomes| - 1 ==> outcomes[i] == Outcome(i + 1, true)
  }

  ghost predicate AllBelow(h: nat -> bool, n: nat) {
    forall k: nat :: k < n ==> h(k)
  }

  /** The verdict on assertions `h`: the first that does not hold, or acceptance when all do. A contract
      that does not parse raises, and so does a missing baseline file when assertion 4 is reached. */
  ghost predicate VerdictOf(h: nat -> bool, unparseable: bool, hasBaseline: bool, exempt: bool, call: Call) {
    match call
    case Raised => unparseable || (AllBelow(h, 4) && !hasBaseline)
    case Returned(r) =>
      && !unparseable && Recorded(r.outcomes, r.failedAssertion)
      && (r.ok <==> r.failedAssertion == None) && (r.grandfathered <==> r.ok && exempt)
      && match r.failedAssertion
         case None => AllBelow(h, 7) && hasBaseline
         case Some(k) => k < 7 && AllBelow(h, k) && !h(k) && (k >= 4 ==> hasBaseline)
  }

  ghost function Assertions(e: Env, s: Scope, node: string, baseRef: string): nat -> bool {
    (k: nat) => Holds(e, s, node, baseRef, k)
  }

  ghost predicate VerdictIs(e: Env, s: Scope, node: string, baseRef: string, call: Call) {
    VerdictOf(Assertions(e, s, node, baseRef), e.contract(s, node) == Unparseable, e.baseline(s) != None,
              !NoReplay(e, s, node) && Exempt(e, s, node, baseRef), call)
  }

  // ---- The gate's outcome is that verdict ----

  lemma PassedRecorded()
    ensures Recorded(OutcomesFor(None), None)
  {
  }

  lemma FailureRecorded(k: nat)
    ensures Recorded(OutcomesFor(Some(k)), Some(k))
  {
    if k > 0 {
      var outcomes := Passed(k - 1) + [Outcome(k, false)];
      assert forall i :: 0 <= i < k - 1 ==> outcomes[i] == Passed(k - 1)[i];
    }
  }

  datatype Checks = Checks(c0: bool, c1: bool, c2: bool, c3: bool, c4: bool, c5: bool, c6: bool)

  function FirstFalse(c: Checks): Option<nat> {
    if !c.c0 then Some(0) else if !c.c1 then Some(1) else if !c.c2 then Some(2) else if !c.c3 then Some(3)
    else if !c.c4 then Some(4) else if !c.c5 then Some(5) else if !c.c6 then Some(6) else None
  }

  function CallWith(unparseable: bool, hasBaseline: bool, failure: Option<nat>, grandfathered: bool): Call {
    if unparseable || (!hasBaseline && (failure.None? || failure.value > 3)) then Raised
    else Returned(BundleResult(failure.None?, failure, failure.None? && grandfathered, OutcomesFor(failure)))
  }

  function ChecksOf(e: Env, s: Scope, node: string, baseRef: string, working: set<string>): Checks {
    Checks(e.contract(s, node).Mapping?, TypedAdequacy(e, s, node),
           VerifyFlipReceipt(e, s, node, e.handlerModule(s, node)), AllBindingsCanonical(e, s, node),
           TwinBaselines(e, s, node, working, baseRef), OrderingSeam(e, s, node),
           ReproducibleReplay(e, s, node, baseRef))
  }

  function Working(e: Env, s: Scope): set<string> {
    if e.baseline(s).Some? then e.baseline(s).value else {}
  }

  lemma FailureIs(e: Env, s: Scope, node: string, baseRef: string, working: set<string>)
    ensures FirstFailure(e, s, node, working, baseRef) == FirstFalse(ChecksOf(e, s, node, baseRef, working))
  {
  }

  lemma CallIs(e: Env, s: Scope, node: string, baseRef: string)
    ensures CallOutcome(e, s, node, baseRef) ==
      CallWith(e.contract(s, node).Unparseable?, e.baseline(s).Some?,
               FirstFalse(ChecksOf(e, s, node, baseRef, Working(e, s))), Grandfathered(e, s, node, baseRef))
  {
    FailureIs(e, s, node, baseRef, Working(e, s));
  }

  ghost predicate TellsFirst(h: nat -> bool, c: Checks) {
    (h(0) <==> c.c0) && (h(1) <==> c.c1) && (h(2) <==> c.c2) && (h(3) <==> c.c3)
  }

  ghost predicate TellsLast(h: nat -> bool, c: Checks, hasBaseline: bool) {
    (hasBaseline ==> (h(4) <==> c.c4)) && (h(5) <==> c.c5) && (h(6) <==> c.c6)
  }

  /** The first failure decides the verdict. */
  lemma VerdictFollows(h: nat -> bool, c: Checks, unparseable: bool, hasBaseline: bool, grandfathered: bool,
                       exempt: bool)
    requires TellsFirst(h, c) && TellsLast(h, c, hasBaseline) && (c.c6 ==> (grandfathered <==> exempt))
    ensures VerdictOf(h, unparseable, hasBaseline, exempt,
                      CallWith(unparseable, hasBaseline, FirstFalse(c), grandfathered))
  {
    PassedRecorded();
    if FirstFalse(c).Some? {
      FailureRecorded(FirstFalse(c).value);
    }
  }

  lemma FirstTold(e: Env, s: Scope, node: string, baseRef: string)
    ensures TellsFirst(Assertions(e, s, node, baseRef), ChecksOf(e, s, node, baseRef, Working(e, s)))
  {
    TypedIff(e, s, node);
    GateIff(e, s, node);
    BindingsIff(e, s, node);
  }

  lemma LastTold(e: Env, s: Scope, node: string, baseRef: string)
    ensures TellsLast(Assertions(e, s, node, baseRef), ChecksOf(e, s, node, baseRef, Working(e, s)),
                      e.baseline(s).Some?)
  {
    if e.baseline(s).Some? {
      TwinsIff(e, s, node, baseRef);
    }
    SeamIff(e, s, node);
    RerunsIff(e, s, node, baseRef);
  }

  lemma BindingsIff(e: Env, s: Scope, node: string)
    ensures AllBindingsCanonical(e, s, node) <==> AllCanonical(e.bindingsCanonical(s, node))
  {
    var bindings := e.bindingsCanonical(s, node);
    if AllBindingsCanonical(e, s, node) {
      forall b | b in bindings ensures b {
        var i :| 0 <= i < |bindings| && bindings[i] == b;
      }
    }
    if AllCanonical(bindings) {
      forall i | 0 <= i < |bindings| ensures bindings[i] {
        assert bindings[i] in bindings;
      }
    }
  }

  lemma RerunsIff(e: Env, s: Scope, node: string, baseRef: string)
    ensures ReproducibleReplay(e, s, node, baseRef) <==> Reruns(e, s, node, baseRef)
  {
    OnReplayIff(e, s, node);
    GrandfatheredIff(e, s, node, baseRef);
    assert ReplayPath(s, node) == s.receiptsDir + "/" + node + ".equivalence.json";
  }

  lemma ExemptIff(e: Env, s: Scope, node: string, baseRef: string)
    ensures Exempt(e, s, node, baseRef) <==> node in GRANDFATHERED || e.proofAtBase(s, node, baseRef)
  {
  }

  lemma GrandfatheredIff(e: Env, s: Scope, node: string, baseRef: string)
    ensures Grandfathered(e, s, node, baseRef) <==>
            !NoReplay(e, s, node) && e.hasRepoRoot(s) && Exempt(e, s, node, baseRef)
  {
    OnReplayIff(e, s, node);
    ExemptIff(e, s, node, baseRef);
  }

  lemma ExemptTold(e: Env, s: Scope, node: string, baseRef: string)
    requires ReproducibleReplay(e, s, node, baseRef)
    ensures Grandfathered(e, s, node, baseRef) <==> !NoReplay(e, s, node) && Exempt(e, s, node, baseRef)
  {
    OnReplayIff(e, s, node);
    GrandfatheredIff(e, s, node, baseRef);
  }

  lemma TwinsIff(e: Env, s: Scope, node: string, baseRef: string)
    requires e.baseline(s).Some?
    ensures TwinBaselines(e, s, node, e.baseline(s).value, baseRef) <==> BaselinesShrank(e, s, node, baseRef)
  {
  }

  lemma VerdictTold(e: Env, s: Scope, node: string, baseRef: string, c: Checks, grandfathered: bool, call: Call)
    requires TellsFirst(Assertions(e, s, node, baseRef), c)
    requires TellsLast(Assertions(e, s, node, baseRef), c, e.baseline(s).Some?)
    requires c.c6 ==> (grandfathered <==> !NoReplay(e, s, node) && Exempt(e, s, node, baseRef))
    requires call == CallWith(e.contract(s, node).Unparseable?, e.baseline(s).Some?, FirstFalse(c), grandfathered)
    ensures VerdictIs(e, s, node, baseRef, call)
  {
    VerdictFollows(Assertions(e, s, node, baseRef), c, e.contract(s, node).Unparseable?, e.baseline(s).Some?,
                   grandfathered, !NoReplay(e, s, node) && Exempt(e, s, node, baseRef));
  }

  /** The gate's outcome is this verdict. */
  lemma OutcomeIsVerdict(e: Env, s: Scope, node: string, baseRef: string)
    ensures VerdictIs(e, s, node, baseRef, CallOutcome(e, s, node, baseRef))
  {
    CallIs(e, s, node, baseRef);
    FirstTold(e, s, node, baseRef);
    LastTold(e, s, node, baseRef);
    if ReproducibleReplay(e, s, node, baseRef) {
      ExemptTold(e, s, node, baseRef);
    }
    VerdictTold(e, s, node, baseRef, ChecksOf(e, s, node, baseRef, Working(e, s)),
                Grandfathered(e, s, node, baseRef), CallOutcome(e, s, node, baseRef));
  }

  // ---- Soundness of acceptance, end to end ----

  /** Some declared input file hashes to `h`. */
  ghost predicate InputHashesTo(w: World, d: Declaration, h: string) {
    exists i :: 0 <= i < |d.replayInputs| && HashesFile(w, d.replayInputs[i], Str(h))
  }

  lemma InputHashIff(w: World, d: Declaration, h: string)
    requires AllReadable(w, d.replayInputs)
    ensures h in InputHashSet(w, d.replayInputs) <==> InputHashesTo(w, d, h)
  {
    forall i | 0 <= i < |d.replayInputs| ensures InputReadable(w, d.replayInputs[i]) {
    }
  }

  /** When the gate accepts a flip that has a replay proof and is not exempt, the proof declares `d`: HEAD
      and the legacy handler, read at a commit before the gate's base, behave the same on every declared
      input, and the adequacy receipt, which covers its target or is waived, certifies exactly the hashes
      of these input files. */
  lemma AcceptedFlipIsSound(e: Env, s: Scope, node: string, baseRef: string)
    returns (raw: Json, d: Declaration, receipt: Json)
    requires RoundTrips(e.w) && ComparesValues(e.w) && ShowsStrings(e.w)
    requires CallOutcome(e, s, node, baseRef).Returned? && CallOutcome(e, s, node, baseRef).result.ok
    requires !NoReplay(e, s, node) && !Exempt(e, s, node, baseRef)
    ensures Replayed(e, s, node, raw) && Replayable(e.w, node, raw, baseRef, d) && AllSameBehaviour(e.w, d)
    ensures Certifies(e, s, node, e.handlerModule(s, node), receipt)
    ensures forall h :: Lists(e.w, receipt, h) <==> InputHashesTo(e.w, d, h)
    ensures TypedReceipt(e, s, node)
  {
    OutcomeIsVerdict(e, s, node, baseRef);
    OnReplayIff(e, s, node);
    raw, d := FlipSound(e, s, node, baseRef);
    ReplayedIff(e, s, node, raw);
    receipt := Load(e, ReceiptPath(s, node)).value;
    AdequacyIff(e, s, node, e.handlerModule(s, node), receipt);
    forall h ensures Lists(e.w, receipt, h) <==> InputHashesTo(e.w, d, h) {
      HashListIff(e, receipt, h);
      InputHashIff(e.w, d, h);
    }
    TypedIff(e, s, node);
  }
}
