/** `verify_flip_receipt` and `verify_flip_bundle`: the joint gate over one node's flip artifacts. */
module FlipBundle {
  import opened Ordering
  import opened Binary
  import opened JsonTree
  import opened EquivalenceProducer
  import AdequacyReceipt

  /** The module globals of the ratchet that say which package is being verified. */
  datatype Scope = Scope(
    package: string,
    srcRoot: string,
    nodesGlob: string,
    baselinePath: string,
    receiptsDir: string)

  datatype Contract = Absent | Unparseable | NotAMapping | Mapping

  datatype Entrypoints = NoValidator | BaselineMissing | StillListed(keys: seq<string>)

  /** What the gate reads besides the producer's world: contracts, baselines, module sources and the
      verdicts of the formatter and of the hand-flip proof. */
  datatype Env = Env(
    w: World,
    contract: (Scope, string) -> Contract,
    handlerModule: (Scope, string) -> Option<string>,
    bindingsCanonical: (Scope, string) -> seq<bool>,
    moduleSource: (Scope, string) -> Option<Bytes>,
    toFloat: Json -> Option<Double>,
    typedReceipt: Json -> Option<AdequacyReceipt.Receipt>,
    handFlip: (Scope, string, Option<string>) -> Option<seq<string>>,
    baseline: Scope -> Option<set<string>>,
    baseBaseline: (Scope, string) -> Option<set<string>>,
    entrypoints: (Scope, string) -> Entrypoints,
    formatted: (Scope, string) -> bool,
    hasRepoRoot: Scope -> bool,
    proofAtBase: (Scope, string, string) -> bool)

  const RECEIPT_SCHEMA := "adequacy_receipt.v1"

  const GRANDFATHERED: set<string> := {
    "omnibase_infra.nodes.node_coding_agent_invoke_effect",
    "omnibase_infra.nodes.node_coding_agent_workspace_compute"}

  function ReceiptPath(s: Scope, node: string): string {
    s.receiptsDir + "/" + node + ".json"
  }

  function ReplayPath(s: Scope, node: string): string {
    s.receiptsDir + "/" + node + ".equivalence.json"
  }

  /** `_load_json`: the parsed object at a path, or nothing. */
  function Load(e: Env, path: string): Option<Json> {
    var bytes := e.w.read(path);
    if bytes.None? || e.w.parse(bytes.value).None? || !e.w.parse(bytes.value).value.Obj? then None
    else e.w.parse(bytes.value)
  }

  predicate Truthy(t: Json) {
    match t
    case Null => false
    case Bool(b) => b
    case Int(n) => n != 0
    case Float(d) => d != MinusZero && (d.Finite? ==> d.r != 0.0)
    case Str(s) => s != ""
    case Arr(items) => items != []
    case Obj(fields) => fields != map[]
  }

  /** `[str(h) for h in hashes] if isinstance(hashes, list) else []`. */
  function HashList(e: Env, raw: Json): seq<string> {
    var h := Get(raw, "selected_input_hashes");
    if h.Some? && h.value.Arr? then MaskEntries(e.w, h.value.items) else []
  }

  /** The receipt's own handler module when it names one, else the classified one. */
  function ReceiptModule(raw: Json, handlerModule: Option<string>): Option<string> {
    var m := Get(raw, "handler_module");
    if m.Some? && Truthy(m.value) then (if m.value.Str? then Some(m.value.s) else None)
    else if handlerModule.Some? && handlerModule.value != "" then handlerModule
    else None
  }

  function DefaultTarget(): Double {
    SmallIntDouble(80);
    Finite(80.0)
  }

  function CoverageNumbers(e: Env, raw: Json): Option<(Double, Double)> {
    var pct, target := Get(raw, "branch_coverage_pct"), Get(raw, "coverage_target");
    var p := if pct.Some? then e.toFloat(pct.value) else None;
    var t := if target.Some? then e.toFloat(target.value) else Some(DefaultTarget());
    if p.None? || t.None? then None else Some((p.value, t.value))
  }

  predicate HasWaiver(raw: Json) {
    var w := Get(raw, "uncovered_waiver");
    w.Some? && w.value.Obj? && Get(w.value, "reason").Some? && Truthy(Get(w.value, "reason").value)
  }

  /** The recorded hash is that of the live module source. */
  predicate FreshModule(e: Env, s: Scope, raw: Json, m: string) {
    && e.moduleSource(s, m).Some?
    && Get(raw, "handler_module_sha256") == Some(Str(e.w.sha(e.moduleSource(s, m).value)))
  }

  /** `verify_adequacy_receipt`: the selected hashes when the re-derived verdict is good. */
  function VerifyAdequacy(e: Env, s: Scope, node: string, handlerModule: Option<string>): Option<seq<string>> {
    var raw := Load(e, ReceiptPath(s, node));
    if raw.None? || Get(raw.value, "node_id") != Some(Str(node)) then None
    else
      var schema := Get(raw.value, "receipt_schema");
      var numbers := CoverageNumbers(e, raw.value);
      var m := ReceiptModule(raw.value, handlerModule);
      if schema.Some? && schema.value != Null && schema.value != Str(RECEIPT_SCHEMA) then None
      else if numbers.None? || (Below(numbers.value.0, numbers.value.1) && !HasWaiver(raw.value)) then None
      else if m.None? || m.value == "" || !FreshModule(e, s, raw.value, m.value) then None
      else Some(HashList(e, raw.value))
  }

  /** `verify_equivalence_replay`: trusts the committed status. */
  function VerifyReplay(e: Env, s: Scope, node: string): Option<seq<string>> {
    var raw := Load(e, ReplayPath(s, node));
    if raw.None? || Get(raw.value, "node_id") != Some(Str(node)) || Get(raw.value, "status") != Some(Str("pass"))
    then None
    else Some(HashList(e, raw.value))
  }

  /** `verify_flip_receipt`: adequacy, one behaviour proof, and both over the same inputs. */
  predicate VerifyFlipReceipt(e: Env, s: Scope, node: string, handlerModule: Option<string>) {
    var receipt := VerifyAdequacy(e, s, node, handlerModule);
    var replay := VerifyReplay(e, s, node);
    var hand := e.handFlip(s, node, handlerModule);
    && receipt.Some?
    && (replay.Some? || hand.Some?)
    && Elements(receipt.value) == Elements(if replay.Some? then replay.value else hand.value)
  }

  // ---- The six assertions ----

  predicate TypedAdequacy(e: Env, s: Scope, node: string) {
    var raw := Load(e, ReceiptPath(s, node));
    && raw.Some? && e.typedReceipt(raw.value).Some?
    && AdequacyReceipt.Construct(e.typedReceipt(raw.value).value).Valid?
  }

  predicate AllBindingsCanonical(e: Env, s: Scope, node: string) {
    var bindings := e.bindingsCanonical(s, node);
    bindings != [] && forall i :: 0 <= i < |bindings| ==> bindings[i]
  }

  predicate TwinBaselines(e: Env, s: Scope, node: string, working: set<string>, baseRef: string) {
    && node !in working
    && e.baseBaseline(s, baseRef).Some? && working <= e.baseBaseline(s, baseRef).value
    && !e.entrypoints(s, node).BaselineMissing?
    && (e.entrypoints(s, node).StillListed? ==> e.entrypoints(s, node).keys == [])
  }

  predicate OrderingSeam(e: Env, s: Scope, node: string) {
    var raw := Load(e, ReceiptPath(s, node));
    && raw.Some? && Get(raw.value, "handler_module").Some?
    && var m := Get(raw.value, "handler_module").value;
       m.Str? && m.s != "" && FreshModule(e, s, raw.value, m.s) && e.formatted(s, m.s)
  }

  predicate OnReplayPath(e: Env, s: Scope, node: string) {
    VerifyReplay(e, s, node).Some?
  }

  predicate Grandfathered(e: Env, s: Scope, node: string, baseRef: string) {
    && OnReplayPath(e, s, node) && e.hasRepoRoot(s)
    && (node in GRANDFATHERED || e.proofAtBase(s, node, baseRef))
  }

  predicate ReproducibleReplay(e: Env, s: Scope, node: string, baseRef: string) {
    !OnReplayPath(e, s, node)
    || (e.hasRepoRoot(s)
        && (Grandfathered(e, s, node, baseRef) || Reproduced(e.w, node, e.w.read(ReplayPath(s, node)), baseRef)))
  }

  /** The first assertion that fails, 0 for the preflight; `None` when the bundle is coherent. */
  function FirstFailure(e: Env, s: Scope, node: string, working: set<string>, baseRef: string): Option<nat> {
    if !e.contract(s, node).Mapping? then Some(0)
    else if !TypedAdequacy(e, s, node) then Some(1)
    else if !VerifyFlipReceipt(e, s, node, e.handlerModule(s, node)) then Some(2)
    else if !AllBindingsCanonical(e, s, node) then Some(3)
    else if !TwinBaselines(e, s, node, working, baseRef) then Some(4)
    else if !OrderingSeam(e, s, node) then Some(5)
    else if !ReproducibleReplay(e, s, node, baseRef) then Some(6)
    else None
  }

  datatype Outcome = Outcome(index: nat, ok: bool)

  datatype BundleResult = BundleResult(
    ok: bool,
    failedAssertion: Option<nat>,
    grandfathered: bool,
    outcomes: seq<Outcome>)

  /** A call either returns a result or lets an exception through. */
  datatype Call = Returned(result: BundleResult) | Raised

  /** Assertions 1 to `n`, all holding. */
  function Passed(n: nat): (r: seq<Outcome>)
    ensures |r| == n && forall i :: 0 <= i < n ==> r[i] == Outcome(i + 1, true)
  {
    if n == 0 then [] else Passed(n - 1) + [Outcome(n, true)]
  }

  /** First failure wins: the outcomes before it are the assertions that held, in order. */
  function OutcomesFor(failure: Option<nat>): seq<Outcome> {
    if failure.None? then Passed(6)
    else if failure.value == 0 then [Outcome(0, false)]
    else Passed(failure.value - 1) + [Outcome(failure.value, false)]
  }

  function ResultFor(e: Env, s: Scope, node: string, working: set<string>, baseRef: string): BundleResult {
    var failure := FirstFailure(e, s, node, working, baseRef);
    BundleResult(failure.None?, failure, failure.None? && Grandfathered(e, s, node, baseRef), OutcomesFor(failure))
  }

  /** A contract that does not parse, or a missing baseline file, raises. */
  function CallOutcome(e: Env, s: Scope, node: string, baseRef: string): Call {
    if e.contract(s, node).Unparseable? then Raised
    else if e.baseline(s).None? then
      (var early := FirstFailure(e, s, node, {}, baseRef);
       if early.Some? && early.value <= 3 then Returned(ResultFor(e, s, node, {}, baseRef)) else Raised)
    else Returned(ResultFor(e, s, node, e.baseline(s).value, baseRef))
  }

  /** `asked` is the scope requested of a module whose globals are `now`: the package and its glob, what
      the caller gives, and otherwise what is in effect, save that another package than `omnibase_core`
      gets a baseline and receipts of its own. */
  ghost predicate Requests(asked: Scope, now: Scope, scriptDir: string, p: string, src: Option<string>,
                           receipts: Option<string>, base: Option<string>) {
    && asked.package == p && asked.nodesGlob == p + "/**/nodes/**/contract.yaml"
    && (forall root :: src == Some(root) ==> asked.srcRoot == root)
    && (forall path :: base == Some(path) ==> asked.baselinePath == path)
    && (forall dir :: receipts == Some(dir) ==> asked.receiptsDir == dir)
    && (src == None ==> asked.srcRoot == now.srcRoot)
    && (base == None && p == "omnibase_core" ==> asked.baselinePath == now.baselinePath)
    && (base == None && p != "omnibase_core" ==>
          asked.baselinePath == scriptDir + "/canonical_handler_shape_baseline_" + p + ".py")
    && (receipts == None && p == "omnibase_core" ==> asked.receiptsDir == now.receiptsDir)
    && (receipts == None && p != "omnibase_core" ==> asked.receiptsDir == scriptDir + "/adequacy_receipts_" + p)
  }

  /** The ratchet module with the globals `_apply_scope` points at a package. */
  class RatchetModule {
    const scriptDir: string
    var package: string
    var srcRoot: string
    var nodesGlob: string
    var baselinePath: string
    var receiptsDir: string

    constructor (scriptDir: string, srcRoot: string)
      ensures Current() == Scope("omnibase_core", srcRoot, "omnibase_core/**/nodes/**/contract.yaml",
                                 scriptDir + "/canonical_handler_shape_baseline.py", scriptDir + "/adequacy_receipts")
    {
      this.scriptDir := scriptDir;
      this.package := "omnibase_core";
      this.srcRoot := srcRoot;
      this.nodesGlob := "omnibase_core/**/nodes/**/contract.yaml";
      this.baselinePath := scriptDir + "/canonical_handler_shape_baseline.py";
      this.receiptsDir := scriptDir + "/adequacy_receipts";
    }

    function Current(): Scope
      reads this
    {
      Scope(package, srcRoot, nodesGlob, baselinePath, receiptsDir)
    }

    /** `_resolve_scope`: explicit arguments win; another package gets files of its own. */
    function Resolve(p: string, src: Option<string>, receipts: Option<string>, base: Option<string>): Scope
      reads this
    {
      Scope(
        p,
        if src.Some? then src.value else srcRoot,
        p + "/**/nodes/**/contract.yaml",
        if base.Some? then base.value
        else if p == "omnibase_core" then baselinePath
        else scriptDir + "/canonical_handler_shape_baseline_" + p + ".py",
        if receipts.Some? then receipts.value
        else if p == "omnibase_core" then receiptsDir
        else scriptDir + "/adequacy_receipts_" + p)
    }

    /** `_apply_scope`. */
    method ApplyScope(p: string, src: Option<string>, receipts: Option<string>, base: Option<string>)
      modifies this
      ensures Requests(Current(), old(Current()), scriptDir, p, src, receipts, base)
      ensures Current() == old(Resolve(p, src, receipts, base))
    {
      var s := Resolve(p, src, receipts, base);
      package := s.package;
      srcRoot := s.srcRoot;
      nodesGlob := s.nodesGlob;
      baselinePath := s.baselinePath;
      receiptsDir := s.receiptsDir;
    }

    /** `_verify_flip_bundle_impl` after the scope is applied: assertion by assertion. */
    method RunAssertions(e: Env, node: string, baseRef: string) returns (r: Call)
      ensures r == CallOutcome(e, Current(), node, baseRef)
    {
      var s := Current();
      var outcomes: seq<Outcome> := [];
      var grandfathered := false;
      var contract := e.contract(s, node);
      if contract.Unparseable? {
        return Raised;
      }
      if !contract.Mapping? {
        return Returned(BundleResult(false, Some(0), grandfathered, outcomes + [Outcome(0, false)]));
      }
      var handler := e.handlerModule(s, node);
      if !TypedAdequacy(e, s, node) {
        return Returned(BundleResult(false, Some(1), grandfathered, outcomes + [Outcome(1, false)]));
      }
      outcomes := outcomes + [Outcome(1, true)];
      if !VerifyFlipReceipt(e, s, node, handler) {
        return Returned(BundleResult(false, Some(2), grandfathered, outcomes + [Outcome(2, false)]));
      }
      outcomes := outcomes + [Outcome(2, true)];
      if !AllBindingsCanonical(e, s, node) {
        return Returned(BundleResult(false, Some(3), grandfathered, outcomes + [Outcome(3, false)]));
      }
      outcomes := outcomes + [Outcome(3, true)];
      assert outcomes == Passed(3);
      var working := e.baseline(s);
      if working.None? {
        return Raised;
      }
      if !TwinBaselines(e, s, node, working.value, baseRef) {
        return Returned(BundleResult(false, Some(4), grandfathered, outcomes + [Outcome(4, false)]));
      }
      outcomes := outcomes + [Outcome(4, true)];
      if !OrderingSeam(e, s, node) {
        return Returned(BundleResult(false, Some(5), grandfathered, outcomes + [Outcome(5, false)]));
      }
      outcomes := outcomes + [Outcome(5, true)];
      assert outcomes == Passed(5);
      if OnReplayPath(e, s, node) {
        if !e.hasRepoRoot(s) {
          return Returned(BundleResult(false, Some(6), grandfathered, outcomes + [Outcome(6, false)]));
        }
        if node in GRANDFATHERED || e.proofAtBase(s, node, baseRef) {
          grandfathered := true;
        } else {
          var ok := ByteCompare(e.w, node, e.w.read(ReplayPath(s, node)), baseRef);
          if !ok {
            return Returned(BundleResult(false, Some(6), grandfathered, outcomes + [Outcome(6, false)]));
          }
        }
      }
      outcomes := outcomes + [Outcome(6, true)];
      assert outcomes == Passed(6);
      r := Returned(BundleResult(true, None, grandfathered, outcomes));
    }

    /** `verify_flip_bundle`: the globals are restored whether the call returns or raises. */
    method VerifyFlipBundle(e: Env, node: string, p: string, src: Option<string>, receipts: Option<string>,
                            base: Option<string>, baseRef: string) returns (r: Call)
      modifies this
      ensures Current() == old(Current())
      ensures exists s :: Requests(s, old(Current()), scriptDir, p, src, receipts, base) &&
                          r == CallOutcome(e, s, node, baseRef)
      ensures r == CallOutcome(e, old(Resolve(p, src, receipts, base)), node, baseRef)
    {
      var saved := Current();
      ApplyScope(p, src, receipts, base);
      r := RunAssertions(e, node, baseRef);
      package, srcRoot, nodesGlob := saved.package, saved.srcRoot, saved.nodesGlob;
      baselinePath, receiptsDir := saved.baselinePath, saved.receiptsDir;
    }
  }

  // ---- What an accepted flip means ----

  /** A result is good exactly when no assertion fails, and then all six are recorded as holding. */
  lemma AcceptedIff(e: Env, s: Scope, node: string, baseRef: string)
    ensures (CallOutcome(e, s, node, baseRef).Returned? && CallOutcome(e, s, node, baseRef).result.ok) <==>
            && e.baseline(s).Some?
            && FirstFailure(e, s, node, e.baseline(s).value, baseRef).None?
  {
  }

  /** `str` of a JSON string is the string itself. */
  ghost predicate ShowsStrings(w: World) {
    forall t :: w.show(Str(t)) == t
  }

  /** The hashes of the declared inputs' real bytes. */
  function InputHashSet(w: World, inputs: seq<Json>): set<string>
    requires AllReadable(w, inputs)
  {
    set i | 0 <= i < |inputs| :: w.sha(w.read(inputs[i].s).value)
  }

  lemma DerivedHashes(e: Env, raw: Json, inputs: seq<Json>)
    requires ShowsStrings(e.w) && AllReadable(e.w, inputs)
    requires Get(raw, "selected_input_hashes") == Some(Arr(InputHashes(e.w, inputs)))
    ensures Elements(HashList(e, raw)) == InputHashSet(e.w, inputs)
  {
    var hashes, shown := InputHashes(e.w, inputs), HashList(e, raw);
    assert |shown| == |inputs|;
    forall i | 0 <= i < |inputs| ensures shown[i] == e.w.sha(e.w.read(inputs[i].s).value) {
      assert hashes[i] == Str(e.w.sha(e.w.read(inputs[i].s).value));
    }
    forall x ensures x in Elements(shown) <==> x in InputHashSet(e.w, inputs) {
      if i :| 0 <= i < |inputs| && x == e.w.sha(e.w.read(inputs[i].s).value) {
        assert shown[i] == x;
      }
    }
  }

  /** End to end: when the gate accepts a flip on the replay path that is not grandfathered, the
      artifact declares `d`, HEAD and the legacy handler behave the same on every declared input, the
      inputs are exactly those the adequacy receipt certifies, the legacy side precedes the gate's base,
      and the receipt meets its target or carries a waiver. */
  lemma FlipSound(e: Env, s: Scope, node: string, baseRef: string) returns (raw: Json, d: Declaration)
    requires RoundTrips(e.w) && ComparesValues(e.w) && ShowsStrings(e.w)
    requires CallOutcome(e, s, node, baseRef).Returned? && CallOutcome(e, s, node, baseRef).result.ok
    requires OnReplayPath(e, s, node) && !CallOutcome(e, s, node, baseRef).result.grandfathered
    ensures Load(e, ReplayPath(s, node)) == Some(raw)
    ensures Replayable(e.w, node, raw, baseRef, d) && AllSameBehaviour(e.w, d)
    ensures AllReadable(e.w, d.replayInputs)
    ensures VerifyAdequacy(e, s, node, e.handlerModule(s, node)).Some?
    ensures Elements(VerifyAdequacy(e, s, node, e.handlerModule(s, node)).value) ==
            InputHashSet(e.w, d.replayInputs) == Elements(HashList(e, raw))
    ensures TypedAdequacy(e, s, node)
  {
    AcceptedIff(e, s, node, baseRef);
    var committed := e.w.read(ReplayPath(s, node)).value;
    assert Reproduced(e.w, node, Some(committed), baseRef);
    raw := e.w.parse(committed).value;
    ReproducedIsDerived(e.w, node, committed, baseRef);
    d := PassIsTrue(e.w, node, committed, baseRef);
    ReplayableIff(e.w, node, raw, baseRef, d);
    DerivedHashes(e, raw, d.replayInputs);
  }
}
