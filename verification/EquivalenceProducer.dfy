/** `produce` and `byte_compare`: re-deriving an equivalence artifact by rerunning its replay. */
module EquivalenceProducer {
  import opened Ordering
  import opened JsonTree
  import opened Text
  import ComputeGolden

  type Bytes = seq<bv8>

  /** What the producer calls out to: files, JSON, hashing, git, imports and the two handlers.
      A `None` is a failure or an exception. */
  datatype World = World(
    read: string -> Option<Bytes>,
    parse: Bytes -> Option<Json>,
    encode: Json -> Bytes,
    sha: Bytes -> string,
    show: Json -> string,
    canonical: Json -> string,
    refExists: string -> bool,
    isAncestor: (string, string) -> bool,
    headSymbol: (string, string) -> bool,
    legacySymbol: (string, string, string) -> bool,
    validate: (string, Json) -> Option<Json>,
    runHead: (string, string, string, Json) -> Option<Json>,
    runLegacy: (string, string, string, string, Json) -> Option<Json>)

  const SCHEMA_V2 := "equivalence_replay.v2"

  /** A declaration whose shape has been checked. */
  datatype Declaration = Declaration(
    baseRef: string,
    legacyModule: string,
    legacySymbol: string,
    legacyEntry: string,
    headModule: string,
    headSymbol: string,
    headEntry: string,
    inputModel: string,
    replayInputs: seq<Json>,
    volatileMask: seq<Json>)

  const REQUIRED_KEYS: set<string> := {
    "base_ref", "legacy_handler_module", "legacy_handler_symbol", "legacy_entrypoint",
    "canonical_handler_module", "canonical_handler_symbol", "canonical_entrypoint", "input_model",
    "replay_inputs", "volatile_mask"}

  /** `raw.get(key)`. */
  function Get(t: Json, key: string): Option<Json> {
    if t.Obj? && key in t.fields then Some(t.fields[key]) else None
  }

  predicate IsText(t: Json) {
    t.Str? && Strip(t.s) != ""
  }

  /** `_read_declaration`: exactly the required keys, a non-empty list of inputs, a list of mask
      entries, and non-blank text everywhere else. */
  function ReadDeclaration(raw: Json): Option<Declaration> {
    var t := Get(raw, "declaration");
    if t.None? || !t.value.Obj? || t.value.fields.Keys != REQUIRED_KEYS then None
    else
      var f := t.value.fields;
      if !f["replay_inputs"].Arr? || f["replay_inputs"].items == [] || !f["volatile_mask"].Arr?
         || !IsText(f["base_ref"]) || !IsText(f["legacy_handler_module"]) || !IsText(f["legacy_handler_symbol"])
         || !IsText(f["legacy_entrypoint"]) || !IsText(f["canonical_handler_module"])
         || !IsText(f["canonical_handler_symbol"]) || !IsText(f["canonical_entrypoint"])
         || !IsText(f["input_model"])
      then None
      else Some(Declaration(
        f["base_ref"].s, f["legacy_handler_module"].s, f["legacy_handler_symbol"].s, f["legacy_entrypoint"].s,
        f["canonical_handler_module"].s, f["canonical_handler_symbol"].s, f["canonical_entrypoint"].s,
        f["input_model"].s, f["replay_inputs"].items, f["volatile_mask"].items))
  }

  function MaskEntries(w: World, entries: seq<Json>): (r: seq<string>)
    ensures |r| == |entries| && forall i :: 0 <= i < |entries| ==> r[i] == w.show(entries[i])
  {
    seq(|entries|, i requires 0 <= i < |entries| => w.show(entries[i]))
  }

  /** The committed artifact names this node and schema, carries a declaration, and its legacy
      side is a commit that precedes the gate's base. */
  predicate Admissible(w: World, nodeId: string, raw: Json, gateBase: string) {
    && raw.Obj?
    && Get(raw, "node_id") == Some(Str(nodeId))
    && Get(raw, "receipt_schema") == Some(Str(SCHEMA_V2))
    && ReadDeclaration(raw).Some?
    && w.refExists(ReadDeclaration(raw).value.baseRef)
    && w.isAncestor(ReadDeclaration(raw).value.baseRef, gateBase)
  }

  /** `model.rpartition(".")` has both a module and a symbol. */
  function LastDot(s: string): (r: Option<nat>)
    ensures r.Some? ==> r.value < |s| && s[r.value] == '.'
  {
    if s == "" then None
    else if s[|s| - 1] == '.' then Some(|s| - 1)
    else LastDot(s[..|s| - 1])
  }

  predicate DottedPath(s: string) {
    LastDot(s).Some? && 0 < LastDot(s).value < |s| - 1
  }

  /** A replay input that is a readable JSON file. */
  predicate InputReadable(w: World, input: Json) {
    IsText(input) && w.read(input.s).Some? && w.parse(w.read(input.s).value).Some?
  }

  predicate AllReadable(w: World, inputs: seq<Json>) {
    forall i :: 0 <= i < |inputs| ==> InputReadable(w, inputs[i])
  }

  function HashOf(w: World, input: Json): Json
    requires InputReadable(w, input)
  {
    Str(w.sha(w.read(input.s).value))
  }

  predicate SymbolsImport(w: World, d: Declaration) {
    && DottedPath(d.inputModel)
    && w.headSymbol(d.inputModel[..LastDot(d.inputModel).value], d.inputModel[LastDot(d.inputModel).value + 1..])
    && w.headSymbol(d.headModule, d.headSymbol)
    && w.legacySymbol(d.baseRef, d.legacyModule, d.legacySymbol)
  }

  /** What the two handlers return on an input, when all goes well. */
  datatype Outputs = Outputs(head: Json, legacy: Json)

  function ReplayInput(w: World, d: Declaration, input: Json): Option<Outputs> {
    if !InputReadable(w, input) then None
    else
      var request := w.validate(d.inputModel, w.parse(w.read(input.s).value).value);
      if request.None? then None
      else
        var head := w.runHead(d.headModule, d.headSymbol, d.headEntry, request.value);
        var legacy := w.runLegacy(d.baseRef, d.legacyModule, d.legacySymbol, d.legacyEntry, request.value);
        if head.None? || legacy.None? then None else Some(Outputs(head.value, legacy.value))
  }

  /** The two outputs print alike once masked. */
  predicate PrintAlike(w: World, d: Declaration, o: Outputs) {
    w.canonical(ComputeGolden.Masked(o.head, MaskEntries(w, d.volatileMask))) ==
    w.canonical(ComputeGolden.Masked(o.legacy, MaskEntries(w, d.volatileMask)))
  }

  /** Whether the outputs on an input print alike; `None` when the replay of the input fails. */
  function InputVerdict(w: World, d: Declaration, input: Json): Option<bool> {
    var o := ReplayInput(w, d, input);
    if o.None? then None else Some(PrintAlike(w, d, o.value))
  }

  predicate Replays(w: World, d: Declaration, input: Json) {
    InputVerdict(w, d, input).Some?
  }

  predicate Matches(w: World, d: Declaration, input: Json) {
    InputVerdict(w, d, input) == Some(true)
  }

  predicate AllReplay(w: World, d: Declaration, inputs: seq<Json>) {
    forall i :: 0 <= i < |inputs| ==> Replays(w, d, inputs[i])
  }

  predicate AllMatch(w: World, d: Declaration, inputs: seq<Json>) {
    forall i :: 0 <= i < |inputs| ==> Matches(w, d, inputs[i])
  }

  predicate Reproducible(w: World, nodeId: string, raw: Json, gateBase: string) {
    && Admissible(w, nodeId, raw, gateBase)
    && var d := ReadDeclaration(raw).value;
       AllReadable(w, d.replayInputs) && SymbolsImport(w, d) && AllReplay(w, d, d.replayInputs)
  }

  function InputHashes(w: World, inputs: seq<Json>): (r: seq<Json>)
    requires AllReadable(w, inputs)
    ensures |r| == |inputs| && forall i :: 0 <= i < |inputs| ==> r[i] == HashOf(w, inputs[i])
  {
    seq(|inputs|, i requires 0 <= i < |inputs| => HashOf(w, inputs[i]))
  }

  function Artifact(nodeId: string, declaration: Json, hashes: seq<Json>, pass: bool): Json {
    Obj(map[
      "node_id" := Str(nodeId),
      "receipt_schema" := Str(SCHEMA_V2),
      "declaration" := declaration,
      "selected_input_hashes" := Arr(hashes),
      "status" := Str(if pass then "pass" else "fail")])
  }

  /** The artifact a rerun yields: the declaration as committed, both verdict fields derived. */
  function Produced(w: World, nodeId: string, committed: Option<Bytes>, gateBase: string): Option<Json> {
    if committed.None? || w.parse(committed.value).None? then None
    else
      var raw := w.parse(committed.value).value;
      if !Reproducible(w, nodeId, raw, gateBase) then None
      else
        var d := ReadDeclaration(raw).value;
        Some(Artifact(nodeId, Get(raw, "declaration").value, InputHashes(w, d.replayInputs),
                      AllMatch(w, d, d.replayInputs)))
  }

  predicate HashedTo(w: World, input: Json, hash: Json) {
    InputReadable(w, input) && hash == HashOf(w, input)
  }

  /** The first loop of `produce`: hash every declared input over its real bytes. */
  method HashInputs(w: World, inputs: seq<Json>) returns (ok: bool, hashes: seq<Json>)
    ensures ok <==> AllReadable(w, inputs)
    ensures ok ==> hashes == InputHashes(w, inputs)
  {
    hashes := [];
    for i := 0 to |inputs|
      invariant |hashes| == i
      invariant forall j :: 0 <= j < i ==> HashedTo(w, inputs[j], hashes[j])
    {
      if !InputReadable(w, inputs[i]) {
        return false, [];
      }
      hashes := hashes + [HashOf(w, inputs[i])];
    }
    ok := true;
  }

  /** The inputs with a negative verdict, in order. */
  function Diverged(verdict: Json -> Option<bool>, inputs: seq<Json>): seq<Json> {
    if inputs == [] then []
    else
      var last := inputs[|inputs| - 1];
      Diverged(verdict, inputs[..|inputs| - 1]) + if verdict(last) == Some(false) then [last] else []
  }

  /** The second loop: run both handlers on every input and collect the divergences. */
  method Replay(verdict: Json -> Option<bool>, inputs: seq<Json>)
    returns (ok: bool, pass: bool, divergences: seq<Json>)
    ensures ok <==> forall i :: 0 <= i < |inputs| ==> verdict(inputs[i]).Some?
    ensures ok ==> (pass <==> forall i :: 0 <= i < |inputs| ==> verdict(inputs[i]) == Some(true))
    ensures ok ==> divergences == Diverged(verdict, inputs)
  {
    pass, divergences := true, [];
    for i := 0 to |inputs|
      invariant forall j :: 0 <= j < i ==> verdict(inputs[j]).Some?
      invariant pass <==> forall j :: 0 <= j < i ==> verdict(inputs[j]) == Some(true)
      invariant divergences == Diverged(verdict, inputs[..i])
    {
      var alike := verdict(inputs[i]);
      if alike.None? {
        return false, false, [];
      }
      assert inputs[..i + 1][..i] == inputs[..i];
      if !alike.value {
        pass := false;
        divergences := divergences + [inputs[i]];
      }
    }
    assert inputs[..|inputs|] == inputs;
    ok := true;
  }

  method ReplayAll(w: World, d: Declaration) returns (ok: bool, pass: bool, ghost divergences: seq<Json>)
    ensures ok <==> AllReplay(w, d, d.replayInputs)
    ensures ok ==> (pass <==> AllMatch(w, d, d.replayInputs))
    ensures ok ==> divergences == Diverged(x => InputVerdict(w, d, x), d.replayInputs)
  {
    ok, pass, divergences := Replay(x => InputVerdict(w, d, x), d.replayInputs);
  }

  lemma ProducedValue(w: World, nodeId: string, committed: Bytes, gateBase: string, raw: Json, pass: bool)
    requires w.parse(committed) == Some(raw) && Reproducible(w, nodeId, raw, gateBase)
    requires pass == AllMatch(w, ReadDeclaration(raw).value, ReadDeclaration(raw).value.replayInputs)
    ensures Produced(w, nodeId, Some(committed), gateBase) ==
            Some(Artifact(nodeId, Get(raw, "declaration").value,
                          InputHashes(w, ReadDeclaration(raw).value.replayInputs), pass))
  {
  }

  /** `produce`, up to the final encoding. */
  method Produce(w: World, nodeId: string, committed: Option<Bytes>, gateBase: string) returns (produced: Option<Json>)
    ensures produced == Produced(w, nodeId, committed, gateBase)
  {
    if committed.None? || w.parse(committed.value).None? {
      return None;
    }
    var raw := w.parse(committed.value).value;
    if !Admissible(w, nodeId, raw, gateBase) {
      return None;
    }
    var d := ReadDeclaration(raw).value;
    var readable, hashes := HashInputs(w, d.replayInputs);
    if !readable || !SymbolsImport(w, d) {
      return None;
    }
    var ok, pass, _ := ReplayAll(w, d);
    if !ok {
      return None;
    }
    ProducedValue(w, nodeId, committed.value, gateBase, raw, pass);
    produced := Some(Artifact(nodeId, Get(raw, "declaration").value, hashes, pass));
  }

  /** `byte_compare`: the committed bytes are exactly what the rerun encodes to. */
  predicate Reproduced(w: World, nodeId: string, committed: Option<Bytes>, gateBase: string) {
    && Produced(w, nodeId, committed, gateBase).Some?
    && committed == Some(w.encode(Produced(w, nodeId, committed, gateBase).value))
  }

  method ByteCompare(w: World, nodeId: string, committed: Option<Bytes>, gateBase: string) returns (ok: bool)
    ensures ok <==> Reproduced(w, nodeId, committed, gateBase)
  {
    var produced := Produce(w, nodeId, committed, gateBase);
    ok := produced.Some? && committed.Some? && w.encode(produced.value) == committed.value;
  }

  /** Reading back the canonical encoding gives the value that was encoded. */
  ghost predicate RoundTrips(w: World) {
    forall t :: w.parse(w.encode(t)) == Some(t)
  }

  /** The canonical printer tells values apart. */
  ghost predicate ComparesValues(w: World) {
    forall t, u :: w.canonical(t) == w.canonical(u) ==> t == u
  }

  // ---- What is declared and what is run, told by the files, git and the handlers alone ----

  ghost predicate Field(t: Json, key: string, value: Json) {
    t.Obj? && key in t.fields && t.fields[key] == value
  }

  ghost predicate NotBlank(s: string) {
    exists i :: 0 <= i < |s| && !IsSpace(s[i])
  }

  ghost predicate TextField(t: Json, key: string, s: string) {
    Field(t, key, Str(s)) && NotBlank(s)
  }

  /** Exactly these ten keys, with a non-empty list of inputs, a list of mask entries, and non-blank
      text everywhere else. */
  ghost predicate DeclaredBy(f: Json, d: Declaration) {
    && f.Obj? && f.fields.Keys == {
         "base_ref", "legacy_handler_module", "legacy_handler_symbol", "legacy_entrypoint",
         "canonical_handler_module", "canonical_handler_symbol", "canonical_entrypoint", "input_model",
         "replay_inputs", "volatile_mask"}
    && TextField(f, "base_ref", d.baseRef) && TextField(f, "legacy_handler_module", d.legacyModule)
    && TextField(f, "legacy_handler_symbol", d.legacySymbol) && TextField(f, "legacy_entrypoint", d.legacyEntry)
    && TextField(f, "canonical_handler_module", d.headModule)
    && TextField(f, "canonical_handler_symbol", d.headSymbol)
    && TextField(f, "canonical_entrypoint", d.headEntry) && TextField(f, "input_model", d.inputModel)
    && Field(f, "replay_inputs", Arr(d.replayInputs)) && d.replayInputs != []
    && Field(f, "volatile_mask", Arr(d.volatileMask))
  }

  ghost predicate Declares(raw: Json, d: Declaration) {
    exists f :: Field(raw, "declaration", f) && DeclaredBy(f, d)
  }

  lemma StripBlank(s: string)
    ensures Strip(s) != "" <==> NotBlank(s)
  {
    var l := LStrip(s);
    assert l == s[|s| - |l|..];
    if Strip(s) != "" {
      assert Strip(s)[0] == l[0] == s[|s| - |l|];
      StripEnds(s);
    }
    if i :| 0 <= i < |s| && !IsSpace(s[i]) {
      assert i >= |s| - |l|;
      assert l[i - (|s| - |l|)] == s[i];
    }
  }

  lemma IsTextIff(t: Json)
    ensures IsText(t) <==> t.Str? && NotBlank(t.s)
  {
    if t.Str? { StripBlank(t.s); }
  }

  /** The fields of a declaration are read from the right keys. */
  lemma ReadDeclarationIff(raw: Json, d: Declaration)
    ensures ReadDeclaration(raw) == Some(d) <==> Declares(raw, d)
  {
    if ReadDeclaration(raw) == Some(d) {
      ReadIsDeclared(raw, d);
    }
    if f :| Field(raw, "declaration", f) && DeclaredBy(f, d) {
      DeclaredIsRead(raw, f, d);
    }
  }

  lemma ReadIsDeclared(raw: Json, d: Declaration)
    requires ReadDeclaration(raw) == Some(d)
    ensures Declares(raw, d)
  {
    forall t | IsText(t) ensures t.Str? && NotBlank(t.s) {
      IsTextIff(t);
    }
    var f := Get(raw, "declaration").value;
    assert DeclaredBy(f, d);
  }

  lemma DeclaredIsRead(raw: Json, f: Json, d: Declaration)
    requires Field(raw, "declaration", f) && DeclaredBy(f, d)
    ensures ReadDeclaration(raw) == Some(d)
  {
    TextFieldReads(f, "base_ref", d.baseRef);
    TextFieldReads(f, "legacy_handler_module", d.legacyModule);
    TextFieldReads(f, "legacy_handler_symbol", d.legacySymbol);
    TextFieldReads(f, "legacy_entrypoint", d.legacyEntry);
    TextFieldReads(f, "canonical_handler_module", d.headModule);
    TextFieldReads(f, "canonical_handler_symbol", d.headSymbol);
    TextFieldReads(f, "canonical_entrypoint", d.headEntry);
    TextFieldReads(f, "input_model", d.inputModel);
  }

  lemma TextFieldReads(f: Json, key: string, s: string)
    requires TextField(f, key, s)
    ensures key in f.fields && f.fields[key] == Str(s) && IsText(f.fields[key])
  {
    IsTextIff(f.fields[key]);
  }

  /** The payload validates, and HEAD and the legacy handler return these outputs on the request. */
  ghost predicate Handled(w: World, d: Declaration, payload: Json, head: Json, legacy: Json) {
    exists q ::
      && w.validate(d.inputModel, payload) == Some(q)
      && w.runHead(d.headModule, d.headSymbol, d.headEntry, q) == Some(head)
      && w.runLegacy(d.baseRef, d.legacyModule, d.legacySymbol, d.legacyEntry, q) == Some(legacy)
  }

  ghost predicate Payload(w: World, input: Json, bytes: Bytes, payload: Json) {
    input.Str? && NotBlank(input.s) && w.read(input.s) == Some(bytes) && w.parse(bytes) == Some(payload)
  }

  /** Replaying the input file yields these two outputs. */
  ghost predicate Ran(w: World, d: Declaration, input: Json, head: Json, legacy: Json) {
    exists bytes, payload :: Payload(w, input, bytes, payload) && Handled(w, d, payload, head, legacy)
  }

  lemma ReplayInputIff(w: World, d: Declaration, input: Json, head: Json, legacy: Json)
    ensures ReplayInput(w, d, input) == Some(Outputs(head, legacy)) <==> Ran(w, d, input, head, legacy)
  {
    IsTextIff(input);
    if ReplayInput(w, d, input) == Some(Outputs(head, legacy)) {
      var bytes := w.read(input.s).value;
      var payload := w.parse(bytes).value;
      assert Payload(w, input, bytes, payload) && Handled(w, d, payload, head, legacy);
    }
  }

  /** The two values show the same at every location that no mask entry hides. */
  ghost predicate SameOutside(w: World, entries: seq<Json>, head: Json, legacy: Json) {
    forall loc :: !Hidden(ComputeGolden.Segments(MaskEntries(w, entries)), loc) ==>
                    ShapeAt(head, loc) == ShapeAt(legacy, loc)
  }

  /** HEAD and the legacy handler both run on the declared input, and what they return differs at most
      where the mask hides it. */
  ghost predicate SameBehaviour(w: World, d: Declaration, input: Json) {
    exists head, legacy :: Ran(w, d, input, head, legacy) && SameOutside(w, d.volatileMask, head, legacy)
  }

  ghost predicate AllSameBehaviour(w: World, d: Declaration) {
    forall i :: 0 <= i < |d.replayInputs| ==> SameBehaviour(w, d, d.replayInputs[i])
  }

  lemma AlikeIff(w: World, d: Declaration, head: Json, legacy: Json)
    requires ComparesValues(w)
    ensures PrintAlike(w, d, Outputs(head, legacy)) <==> SameOutside(w, d.volatileMask, head, legacy)
  {
    ComputeGolden.EquivalentIff(w.canonical, head, legacy, MaskEntries(w, d.volatileMask));
  }

  /** An input matches exactly when the two handlers behave the same on it. */
  lemma MatchesIff(w: World, d: Declaration, input: Json)
    requires ComparesValues(w)
    ensures Matches(w, d, input) <==> SameBehaviour(w, d, input)
  {
    if Matches(w, d, input) {
      var o := ReplayInput(w, d, input).value;
      ReplayInputIff(w, d, input, o.head, o.legacy);
      AlikeIff(w, d, o.head, o.legacy);
    }
    if head, legacy :| Ran(w, d, input, head, legacy) && SameOutside(w, d.volatileMask, head, legacy) {
      ReplayInputIff(w, d, input, head, legacy);
      AlikeIff(w, d, head, legacy);
    }
  }

  /** The three symbols of the declaration resolve; the input model is a dotted path. */
  ghost predicate Resolves(w: World, d: Declaration) {
    && (exists m, name :: IsDotted(d.inputModel, m, name) && w.headSymbol(m, name))
    && w.headSymbol(d.headModule, d.headSymbol)
    && w.legacySymbol(d.baseRef, d.legacyModule, d.legacySymbol)
  }

  ghost predicate IsDotted(path: string, m: string, name: string) {
    path == m + "." + name && m != "" && name != "" && '.' !in name
  }

  lemma {:induction false} LastDotIff(s: string, i: nat)
    ensures LastDot(s) == Some(i) <==> i < |s| && s[i] == '.' && '.' !in s[i + 1..]
  {
    if s != "" {
      var init := s[..|s| - 1];
      LastDotIff(init, i);
      if s[|s| - 1] == '.' {
        if i < |s| - 1 {
          assert s[i + 1..][|s| - 1 - (i + 1)] == '.';
        }
      } else if i < |s| - 1 {
        assert s[i + 1..] == init[i + 1..] + [s[|s| - 1]];
      }
    }
  }

  lemma DottedIff(path: string, m: string, name: string)
    ensures IsDotted(path, m, name) <==>
      DottedPath(path) && m == path[..LastDot(path).value] && name == path[LastDot(path).value + 1..]
  {
    if IsDotted(path, m, name) {
      assert path[|m|] == '.' && path[|m| + 1..] == name && path[..|m|] == m;
      LastDotIff(path, |m|);
    }
    if DottedPath(path) {
      LastDotIff(path, LastDot(path).value);
    }
  }

  lemma ResolvesIff(w: World, d: Declaration)
    ensures SymbolsImport(w, d) <==> Resolves(w, d)
  {
    if DottedPath(d.inputModel) {
      var i := LastDot(d.inputModel).value;
      DottedIff(d.inputModel, d.inputModel[..i], d.inputModel[i + 1..]);
    }
    if m, name :| IsDotted(d.inputModel, m, name) && w.headSymbol(m, name) {
      DottedIff(d.inputModel, m, name);
    }
  }

  ghost predicate RunsOn(w: World, d: Declaration, input: Json) {
    exists head, legacy :: Ran(w, d, input, head, legacy)
  }

  ghost predicate AllRun(w: World, d: Declaration) {
    forall i :: 0 <= i < |d.replayInputs| ==> RunsOn(w, d, d.replayInputs[i])
  }

  lemma RunsIff(w: World, d: Declaration, input: Json)
    ensures Replays(w, d, input) <==> RunsOn(w, d, input)
    ensures Replays(w, d, input) ==> InputReadable(w, input)
  {
    if Replays(w, d, input) {
      var o := ReplayInput(w, d, input).value;
      ReplayInputIff(w, d, input, o.head, o.legacy);
    }
    if head, legacy :| Ran(w, d, input, head, legacy) {
      ReplayInputIff(w, d, input, head, legacy);
    }
  }

  lemma AllRunIff(w: World, d: Declaration)
    ensures AllReadable(w, d.replayInputs) && AllReplay(w, d, d.replayInputs) <==> AllRun(w, d)
  {
    forall i | 0 <= i < |d.replayInputs|
      ensures Replays(w, d, d.replayInputs[i]) <==> RunsOn(w, d, d.replayInputs[i])
      ensures Replays(w, d, d.replayInputs[i]) ==> InputReadable(w, d.replayInputs[i])
    {
      RunsIff(w, d, d.replayInputs[i]);
    }
  }

  /** The artifact is for this node, carries this declaration, and its legacy side is a commit that
      precedes the gate's base. */
  ghost predicate Admits(w: World, nodeId: string, raw: Json, gateBase: string, d: Declaration) {
    && Field(raw, "node_id", Str(nodeId)) && Field(raw, "receipt_schema", Str("equivalence_replay.v2"))
    && Declares(raw, d) && w.refExists(d.baseRef) && w.isAncestor(d.baseRef, gateBase)
  }

  lemma AdmitsIff(w: World, nodeId: string, raw: Json, gateBase: string, d: Declaration)
    ensures Admits(w, nodeId, raw, gateBase, d) <==>
            Admissible(w, nodeId, raw, gateBase) && ReadDeclaration(raw) == Some(d)
  {
    ReadDeclarationIff(raw, d);
  }

  /** Such an artifact whose symbols resolve and whose inputs run. */
  ghost predicate Replayable(w: World, nodeId: string, raw: Json, gateBase: string, d: Declaration) {
    Admits(w, nodeId, raw, gateBase, d) && Resolves(w, d) && AllRun(w, d)
  }

  lemma ReplayableIff(w: World, nodeId: string, raw: Json, gateBase: string, d: Declaration)
    ensures Replayable(w, nodeId, raw, gateBase, d) <==>
            Reproducible(w, nodeId, raw, gateBase) && ReadDeclaration(raw) == Some(d)
  {
    AdmitsIff(w, nodeId, raw, gateBase, d);
    if Admits(w, nodeId, raw, gateBase, d) {
      ResolvesIff(w, d);
      AllRunIff(w, d);
    }
  }

  /** The hash is that of the bytes the input file holds. */
  ghost predicate HashesFile(w: World, input: Json, hash: Json) {
    input.Str? && w.read(input.s).Some? && hash == Str(w.sha(w.read(input.s).value))
  }

  ghost predicate HashesFiles(w: World, inputs: seq<Json>, hashes: seq<Json>) {
    |hashes| == |inputs| && forall i :: 0 <= i < |inputs| ==> HashesFile(w, inputs[i], hashes[i])
  }

  lemma HashesIff(w: World, inputs: seq<Json>, hashes: seq<Json>)
    requires AllReadable(w, inputs)
    ensures hashes == InputHashes(w, inputs) <==> HashesFiles(w, inputs, hashes)
  {
    forall i | 0 <= i < |inputs| ensures InputReadable(w, inputs[i]) {
    }
  }

  lemma StatusTellsPass(pass: bool, nodeId: string, declaration: Json, hashes: seq<Json>)
    ensures Get(Artifact(nodeId, declaration, hashes, pass), "status") == Some(Str("pass")) <==> pass
    ensures Get(Artifact(nodeId, declaration, hashes, pass), "selected_input_hashes") == Some(Arr(hashes))
  {
    assert "pass"[0] != "fail"[0];
  }

  /** What a reproduced artifact says is what the rerun derived. */
  lemma ReproducedIsDerived(w: World, nodeId: string, committed: Bytes, gateBase: string)
    requires RoundTrips(w) && Reproduced(w, nodeId, Some(committed), gateBase)
    ensures var raw := w.parse(committed).value;
            && Reproducible(w, nodeId, raw, gateBase)
            && var d := ReadDeclaration(raw).value;
               && Get(raw, "selected_input_hashes") == Some(Arr(InputHashes(w, d.replayInputs)))
               && (Get(raw, "status") == Some(Str("pass")) <==> AllMatch(w, d, d.replayInputs))
  {
    var raw := w.parse(committed).value;
    var artifact := Produced(w, nodeId, Some(committed), gateBase).value;
    assert w.parse(w.encode(artifact)) == Some(artifact);
    var d := ReadDeclaration(raw).value;
    StatusTellsPass(AllMatch(w, d, d.replayInputs), nodeId, Get(raw, "declaration").value,
                    InputHashes(w, d.replayInputs));
  }

  /** Conversely, an artifact that holds what the rerun derives is reproduced. */
  lemma DerivedIsReproduced(w: World, nodeId: string, raw: Json, gateBase: string)
    requires w.parse(w.encode(raw)) == Some(raw) && Reproducible(w, nodeId, raw, gateBase)
    requires var d := ReadDeclaration(raw).value;
      raw == Artifact(nodeId, Get(raw, "declaration").value, InputHashes(w, d.replayInputs),
                      AllMatch(w, d, d.replayInputs))
    ensures Reproduced(w, nodeId, Some(w.encode(raw)), gateBase)
  {
    var d := ReadDeclaration(raw).value;
    ProducedValue(w, nodeId, w.encode(raw), gateBase, raw, AllMatch(w, d, d.replayInputs));
  }

  /** The five fields of the artifact that the rerun derives. */
  ghost predicate Derives(w: World, nodeId: string, raw: Json, d: Declaration, a: Json) {
    && a.Obj? && a.fields.Keys == {"node_id", "receipt_schema", "declaration", "selected_input_hashes", "status"}
    && Field(a, "node_id", Str(nodeId)) && Field(a, "receipt_schema", Str("equivalence_replay.v2"))
    && Field(raw, "declaration", a.fields["declaration"])
    && a.fields["selected_input_hashes"].Arr? && HashesFiles(w, d.replayInputs, a.fields["selected_input_hashes"].items)
    && Field(a, "status", Str(if AllSameBehaviour(w, d) then "pass" else "fail"))
  }

  lemma ArtifactIff(nodeId: string, declaration: Json, hashes: seq<Json>, pass: bool, a: Json)
    ensures a == Artifact(nodeId, declaration, hashes, pass) <==>
      && a.Obj? && a.fields.Keys == {"node_id", "receipt_schema", "declaration", "selected_input_hashes", "status"}
      && Field(a, "node_id", Str(nodeId)) && Field(a, "receipt_schema", Str("equivalence_replay.v2"))
      && Field(a, "declaration", declaration) && Field(a, "selected_input_hashes", Arr(hashes))
      && Field(a, "status", Str(if pass then "pass" else "fail"))
  {
  }

  lemma AllMatchIff(w: World, d: Declaration)
    requires ComparesValues(w)
    ensures AllMatch(w, d, d.replayInputs) <==> AllSameBehaviour(w, d)
  {
    forall i | 0 <= i < |d.replayInputs|
      ensures Matches(w, d, d.replayInputs[i]) <==> SameBehaviour(w, d, d.replayInputs[i])
    {
      MatchesIff(w, d, d.replayInputs[i]);
    }
  }

  /** Exactly what the rerun yields: the artifact exists when the committed one is replayable, and its
      fields are the hashes of the real files and "pass" or "fail" as the two handlers behave. */
  lemma ProducedIff(w: World, nodeId: string, committed: Bytes, gateBase: string, raw: Json, a: Json)
    requires ComparesValues(w) && w.parse(committed) == Some(raw)
    ensures Produced(w, nodeId, Some(committed), gateBase) == Some(a) <==>
            exists d :: Replayable(w, nodeId, raw, gateBase, d) && Derives(w, nodeId, raw, d, a)
  {
    if Reproducible(w, nodeId, raw, gateBase) {
      ProducedFields(w, nodeId, committed, gateBase, raw, ReadDeclaration(raw).value, a);
    }
    if d :| Replayable(w, nodeId, raw, gateBase, d) && Derives(w, nodeId, raw, d, a) {
      ReplayableIff(w, nodeId, raw, gateBase, d);
    }
  }

  lemma ProducedFields(w: World, nodeId: string, committed: Bytes, gateBase: string, raw: Json, d: Declaration, a: Json)
    requires ComparesValues(w) && w.parse(committed) == Some(raw)
    requires Reproducible(w, nodeId, raw, gateBase) && ReadDeclaration(raw) == Some(d)
    ensures Replayable(w, nodeId, raw, gateBase, d)
    ensures Produced(w, nodeId, Some(committed), gateBase) == Some(a) <==> Derives(w, nodeId, raw, d, a)
  {
    var hashes := InputHashes(w, d.replayInputs);
    ReplayableIff(w, nodeId, raw, gateBase, d);
    AllMatchIff(w, d);
    ProducedValue(w, nodeId, committed, gateBase, raw, AllMatch(w, d, d.replayInputs));
    ArtifactIff(nodeId, Get(raw, "declaration").value, hashes, AllMatch(w, d, d.replayInputs), a);
    if a.Obj? && "selected_input_hashes" in a.fields && a.fields["selected_input_hashes"].Arr? {
      HashesIff(w, d.replayInputs, a.fields["selected_input_hashes"].items);
    }
  }

  /** A committed artifact that reproduces and says "pass" is true: its hashes are those of the real
      input files, and HEAD and the legacy handler behave the same on every declared input. */
  lemma PassIsTrue(w: World, nodeId: string, committed: Bytes, gateBase: string) returns (d: Declaration)
    requires RoundTrips(w) && ComparesValues(w)
    requires Reproduced(w, nodeId, Some(committed), gateBase)
    requires Get(w.parse(committed).value, "status") == Some(Str("pass"))
    ensures var raw := w.parse(committed).value;
            && Replayable(w, nodeId, raw, gateBase, d) && AllSameBehaviour(w, d)
            && raw.Obj? && "selected_input_hashes" in raw.fields && raw.fields["selected_input_hashes"].Arr?
            && HashesFiles(w, d.replayInputs, raw.fields["selected_input_hashes"].items)
  {
    var raw := w.parse(committed).value;
    ReproducedIsDerived(w, nodeId, committed, gateBase);
    d := ReadDeclaration(raw).value;
    ReplayableIff(w, nodeId, raw, gateBase, d);
    AllMatchIff(w, d);
    HashesIff(w, d.replayInputs, InputHashes(w, d.replayInputs));
  }
}
