/** The hypotheses of the comparison and soundness theorems can be met: a printer, and a bundle that
    the gate accepts. */
module Hypotheses {
  import opened Ordering
  import opened Text
  import opened Binary
  import opened JsonTree
  import opened CanonicalJson
  import opened EquivalenceProducer
  import AdequacyReceipt
  import ComputeGolden
  import FlipBundle

  // ---- Some text for every float ----

  datatype Ratio = Ratio(m: int, e: nat, k: nat)

  ghost function RatioOf(r: FiniteReal): (f: Ratio)
    ensures IsRatio(r, f.m, f.e, f.k)
  {
    assert IsDouble(r);
    var m: int, e: nat, k: nat :| IsRatio(r, m, e, k) && Fits(m, e, k);
    Ratio(m, e, k)
  }

  ghost function RatioText(f: Ratio): string {
    IntText(f.m) + ("e" + (IntText(f.e) + ("." + IntText(f.k))))
  }

  lemma RatioTextInjective(f: Ratio, g: Ratio)
    requires RatioText(f) == RatioText(g)
    ensures f == g
  {
    var afterF, afterG := IntText(f.e) + ("." + IntText(f.k)), IntText(g.e) + ("." + IntText(g.k));
    IntTextChars(f.m);
    IntTextChars(g.m);
    RunSplit(IntText(f.m), IntText(g.m), "e" + afterF, "e" + afterG, IsIntChar);
    IntTextInjective(f.m, g.m);
    SamePrefix("e", afterF, afterG);
    IntTextChars(f.e);
    IntTextChars(g.e);
    RunSplit(IntText(f.e), IntText(g.e), "." + IntText(f.k), "." + IntText(g.k), IsIntChar);
    IntTextInjective(f.e, g.e);
    SamePrefix(".", IntText(f.k), IntText(g.k));
    IntTextInjective(f.k, g.k);
  }

  lemma RatioTextIsFloatText(f: Ratio)
    ensures IsFloatText(RatioText(f))
  {
    IntTextChars(f.m);
    IntTextChars(f.e);
    IntTextChars(f.k);
    var s, i := RatioText(f), |IntText(f.m)|;
    assert s[0] == IntText(f.m)[0];
    assert s[i] == 'e';
    assert "-0.0"[0] != 'e' && "-0.0"[1] != 'e' && "-0.0"[2] != 'e' && "-0.0"[3] != 'e';
  }

  ghost const SOME_REPR: FiniteReal -> string := (r: FiniteReal) => RatioText(RatioOf(r))

  lemma SomeReprIsRepr()
    ensures IsRepr(SOME_REPR)
  {
    forall r: FiniteReal, q: FiniteReal | SOME_REPR(r) == SOME_REPR(q) ensures r == q {
      RatioTextInjective(RatioOf(r), RatioOf(q));
      RatioUnique(r, q, RatioOf(r).m, RatioOf(r).e, RatioOf(r).k);
    }
    forall r: FiniteReal ensures PrintsFloat(SOME_REPR, r) {
      RatioTextIsFloatText(RatioOf(r));
    }
  }

  /** `_canonical` is injective. */
  lemma CanonicalInjective(repr: FiniteReal -> string)
    requires IsRepr(repr)
    ensures ComputeGolden.Injective(t => Canonical(repr, t))
  {
    forall t, u | Canonical(repr, t) == Canonical(repr, u) ensures t == u {
      PrintersInjective(repr, t, u);
    }
  }

  // ---- Some encoding of text ----

  function Unary(n: nat, rest: Bytes): Bytes {
    if n == 0 then [0] + rest else [1] + Unary(n - 1, rest)
  }

  function Encode(s: string): Bytes {
    if s == "" then [] else Unary(s[0] as nat, Encode(s[1..]))
  }

  lemma {:induction false} UnaryInjective(m: nat, n: nat, x: Bytes, y: Bytes)
    requires Unary(m, x) == Unary(n, y)
    ensures m == n && x == y
  {
    var a, b := Unary(m, x), Unary(n, y);
    assert a[0] == (if m == 0 then 0 else 1) && b[0] == (if n == 0 then 0 else 1);
    if m == 0 {
      assert x == a[1..] == b[1..] == y;
    } else {
      assert Unary(m - 1, x) == a[1..] == b[1..] == Unary(n - 1, y);
      UnaryInjective(m - 1, n - 1, x, y);
    }
  }

  lemma EncodeEmpty(s: string)
    ensures Encode(s) == [] <==> s == ""
  {
  }

  lemma {:induction false} EncodeInjective(a: string, b: string)
    requires Encode(a) == Encode(b)
    ensures a == b
  {
    EncodeEmpty(a);
    EncodeEmpty(b);
    if a != "" {
      UnaryInjective(a[0] as nat, b[0] as nat, Encode(a[1..]), Encode(b[1..]));
      EncodeInjective(a[1..], b[1..]);
      assert a == [a[0]] + a[1..] && b == [b[0]] + b[1..];
    }
  }

  ghost function Encoded(t: Json): Bytes {
    Encode(Indented(SOME_REPR, t))
  }

  ghost predicate Encodes(t: Json, bytes: Bytes) {
    Encoded(t) == bytes
  }

  /** The value with this encoding, if there is one. */
  ghost function Parsed(bytes: Bytes): Option<Json> {
    if exists t :: Encodes(t, bytes) then
      var t :| Encodes(t, bytes);
      Some(t)
    else None
  }

  lemma EncodedInjective(t: Json, u: Json)
    requires Encoded(t) == Encoded(u)
    ensures t == u
  {
    EncodeInjective(Indented(SOME_REPR, t), Indented(SOME_REPR, u));
    SomeReprIsRepr();
    PrintersInjective(SOME_REPR, t, u);
  }

  /** Reading inverts encoding. */
  lemma ParsedEncoded(t: Json)
    ensures Parsed(Encoded(t)) == Some(t)
  {
    var bytes := Encoded(t);
    assert Encodes(t, bytes);
    var u := Parsed(bytes).value;
    assert Encodes(u, bytes);
    assert Encoded(u) == bytes;
    EncodedInjective(t, u);
  }

  // ---- A bundle that is accepted ----

  /** A world of identical handlers whose replay input is the file `x.y`. */
  ghost function SomeWorld(files: map<string, Bytes>): World {
    World(
      path => if path in files then Some(files[path]) else None,
      bytes => Parsed(bytes),
      t => Encoded(t),
      bytes => "h",
      (t: Json) => if t.Str? then t.s else "",
      t => AsciiCanonical(SOME_REPR, t),
      ref => true,
      (ref, base) => true,
      (m, symbol) => true,
      (ref, m, symbol) => true,
      (model, payload) => Some(payload),
      (m, symbol, entry, request) => Some(request),
      (ref, m, symbol, entry, request) => Some(request))
  }

  lemma WorldPrints(files: map<string, Bytes>)
    ensures RoundTrips(SomeWorld(files)) && ComparesValues(SomeWorld(files))
    ensures FlipBundle.ShowsStrings(SomeWorld(files))
  {
    var w := SomeWorld(files);
    forall t ensures w.parse(w.encode(t)) == Some(t) {
      ParsedEncoded(t);
    }
    SomeReprIsRepr();
    forall t, u | w.canonical(t) == w.canonical(u) ensures t == u {
      PrintersInjective(SOME_REPR, t, u);
    }
  }

  /** Two keys hold lists, all others text. */
  function FieldOf(key: string, word: string): Json {
    if key in {"replay_inputs", "volatile_mask"} then Arr([Str(word)]) else Str(word)
  }

  function DeclarationOf(word: string): Json {
    Obj(map key | key in REQUIRED_KEYS :: FieldOf(key, word))
  }

  function SomeArtifact(node: string, word: string): Json {
    Artifact(node, DeclarationOf(word), [Str("h")], true)
  }

  function SomeReceipt(node: string, word: string): Json {
    Obj(map[
      "node_id" := Str(node), "branch_coverage_pct" := Int(100), "handler_module" := Str(word),
      "handler_module_sha256" := Str("h"), "selected_input_hashes" := Arr([Str("h")])])
  }

  /** A dotted word: no space, one dot, in the middle. */
  ghost predicate IsDottedWord(word: string) {
    && |word| == 3 && word[1] == '.' && word[2] != '.'
    && !IsSpace(word[0]) && !IsSpace(word[2])
  }

  lemma WordIsText(word: string)
    requires IsDottedWord(word)
    ensures IsText(Str(word))
  {
    StripTrimmed(word);
  }

  lemma WordIsPath(word: string)
    requires IsDottedWord(word)
    ensures LastDot(word) == Some(1)
  {
    var short := word[..2];
    assert LastDot(short) == Some(1);
  }

  function SomeFields(word: string): Declaration {
    Declaration(word, word, word, word, word, word, word, word, [Str(word)], [Str(word)])
  }

  ghost predicate Holding(f: map<string, Json>, key: string, value: Json) {
    key in f && f[key] == value
  }

  lemma FieldsRead(raw: Json, f: map<string, Json>, word: string)
    requires Get(raw, "declaration") == Some(Obj(f)) && f.Keys == REQUIRED_KEYS && IsText(Str(word))
    requires Holding(f, "base_ref", Str(word)) && Holding(f, "input_model", Str(word))
    requires Holding(f, "legacy_handler_module", Str(word)) && Holding(f, "legacy_handler_symbol", Str(word))
    requires Holding(f, "canonical_handler_module", Str(word)) && Holding(f, "canonical_handler_symbol", Str(word))
    requires Holding(f, "legacy_entrypoint", Str(word)) && Holding(f, "canonical_entrypoint", Str(word))
    requires Holding(f, "replay_inputs", Arr([Str(word)])) && Holding(f, "volatile_mask", Arr([Str(word)]))
    ensures ReadDeclaration(raw) == Some(SomeFields(word))
  {
  }

  lemma HoldsField(word: string, key: string)
    requires key in REQUIRED_KEYS
    ensures Holding(DeclarationOf(word).fields, key, FieldOf(key, word))
  {
  }

  lemma DeclarationReads(raw: Json, word: string)
    requires Get(raw, "declaration") == Some(DeclarationOf(word)) && IsDottedWord(word)
    ensures ReadDeclaration(raw) == Some(SomeFields(word))
  {
    WordIsText(word);
    HoldsField(word, "base_ref");
    HoldsField(word, "legacy_handler_module");
    HoldsField(word, "legacy_handler_symbol");
    HoldsField(word, "legacy_entrypoint");
    HoldsField(word, "canonical_handler_module");
    HoldsField(word, "canonical_handler_symbol");
    HoldsField(word, "canonical_entrypoint");
    HoldsField(word, "input_model");
    HoldsField(word, "replay_inputs");
    HoldsField(word, "volatile_mask");
    FieldsRead(raw, DeclarationOf(word).fields, word);
  }

  /** One input file, named by the word, and the two proof files of the node. */
  ghost predicate Holds(files: map<string, Bytes>, scope: FlipBundle.Scope, node: string, word: string) {
    && word in files && files[word] == Encoded(Null)
    && FlipBundle.ReceiptPath(scope, node) in files
    && files[FlipBundle.ReceiptPath(scope, node)] == Encoded(SomeReceipt(node, word))
    && FlipBundle.ReplayPath(scope, node) in files
    && files[FlipBundle.ReplayPath(scope, node)] == Encoded(SomeArtifact(node, word))
  }

  lemma InputReplays(files: map<string, Bytes>, d: Declaration, word: string)
    requires word in files && files[word] == Encoded(Null) && IsDottedWord(word)
    ensures var w := SomeWorld(files); InputReadable(w, Str(word)) && Matches(w, d, Str(word))
  {
    ParsedEncoded(Null);
    WordIsText(word);
    assert InputReadable(SomeWorld(files), Str(word));
  }

  lemma ArtifactReads(node: string, word: string)
    requires IsDottedWord(word)
    ensures var raw := SomeArtifact(node, word);
      && raw.Obj? && Get(raw, "node_id") == Some(Str(node))
      && Get(raw, "receipt_schema") == Some(Str(SCHEMA_V2))
      && Get(raw, "declaration") == Some(DeclarationOf(word))
  {
  }

  lemma ArtifactReproducible(files: map<string, Bytes>, node: string, word: string, base: string)
    requires word in files && files[word] == Encoded(Null) && IsDottedWord(word)
    ensures var w, raw := SomeWorld(files), SomeArtifact(node, word);
      && Reproducible(w, node, raw, base)
      && var d := ReadDeclaration(raw).value;
         d.replayInputs == [Str(word)] && AllMatch(w, d, d.replayInputs)
  {
    var w, raw := SomeWorld(files), SomeArtifact(node, word);
    ArtifactReads(node, word);
    DeclarationReads(raw, word);
    WordIsPath(word);
    InputReplays(files, ReadDeclaration(raw).value, word);
  }

  lemma HashesDerived(files: map<string, Bytes>, inputs: seq<Json>, word: string)
    requires inputs == [Str(word)] && AllReadable(SomeWorld(files), inputs)
    ensures InputHashes(SomeWorld(files), inputs) == [Str("h")]
  {
  }

  /** Rerunning the declaration derives the artifact. */
  lemma ArtifactReproduces(files: map<string, Bytes>, node: string, word: string, base: string)
    requires word in files && files[word] == Encoded(Null) && IsDottedWord(word)
    ensures Reproduced(SomeWorld(files), node, Some(Encoded(SomeArtifact(node, word))), base)
  {
    var w, raw := SomeWorld(files), SomeArtifact(node, word);
    ArtifactReproducible(files, node, word, base);
    HashesDerived(files, ReadDeclaration(raw).value.replayInputs, word);
    assert w.parse(w.encode(raw)) == Some(raw) by {
      WorldPrints(files);
    }
    assert Get(raw, "declaration") == Some(DeclarationOf(word)) by {
      ArtifactReads(node, word);
    }
    DerivedIsReproduced(w, node, raw, base);
  }

  function SomeTypedReceipt(): AdequacyReceipt.Receipt {
    AdequacyReceipt.Receipt("", "", "", "", 1, 1, ["h"], 100.0, 80.0, true, None, [])
  }

  function FullCoverage(): Double {
    SmallIntDouble(100);
    Finite(100.0)
  }

  ghost function SomeEnv(files: map<string, Bytes>): FlipBundle.Env {
    FlipBundle.Env(
      SomeWorld(files),
      (s, node) => FlipBundle.Mapping,
      (s, node) => None,
      (s, node) => [true],
      (s, m) => Some([]),
      t => Some(FullCoverage()),
      t => Some(SomeTypedReceipt()),
      (s, node, handler) => None,
      s => Some({}),
      (s, ref) => Some({}),
      (s, node) => FlipBundle.NoValidator,
      (s, m) => true,
      s => true,
      (s, node, ref) => false)
  }

  lemma ProofsLoad(files: map<string, Bytes>, scope: FlipBundle.Scope, node: string, word: string)
    requires Holds(files, scope, node, word)
    ensures var e := SomeEnv(files);
      && FlipBundle.Load(e, FlipBundle.ReceiptPath(scope, node)) == Some(SomeReceipt(node, word))
      && FlipBundle.Load(e, FlipBundle.ReplayPath(scope, node)) == Some(SomeArtifact(node, word))
  {
    ParsedEncoded(SomeReceipt(node, word));
    ParsedEncoded(SomeArtifact(node, word));
  }

  lemma ReceiptReads(node: string, word: string)
    ensures var raw := SomeReceipt(node, word);
      && Get(raw, "node_id") == Some(Str(node)) && Get(raw, "receipt_schema").None?
      && Get(raw, "branch_coverage_pct").Some? && Get(raw, "coverage_target").None?
      && Get(raw, "handler_module") == Some(Str(word)) && Get(raw, "handler_module_sha256") == Some(Str("h"))
      && Get(raw, "selected_input_hashes") == Some(Arr([Str("h")]))
  {
  }

  lemma HashListed(files: map<string, Bytes>, raw: Json)
    requires Get(raw, "selected_input_hashes") == Some(Arr([Str("h")]))
    ensures FlipBundle.HashList(SomeEnv(files), raw) == ["h"]
  {
  }

  lemma ReplayVerifies(e: FlipBundle.Env, scope: FlipBundle.Scope, node: string, raw: Json)
    requires FlipBundle.Load(e, FlipBundle.ReplayPath(scope, node)) == Some(raw)
    requires Get(raw, "node_id") == Some(Str(node)) && Get(raw, "status") == Some(Str("pass"))
    ensures FlipBundle.VerifyReplay(e, scope, node) == Some(FlipBundle.HashList(e, raw))
  {
  }

  lemma AdequacyVerifies(e: FlipBundle.Env, scope: FlipBundle.Scope, node: string, raw: Json, m: string)
    requires FlipBundle.Load(e, FlipBundle.ReceiptPath(scope, node)) == Some(raw) && m != ""
    requires Get(raw, "node_id") == Some(Str(node)) && Get(raw, "receipt_schema").None?
    requires FlipBundle.CoverageNumbers(e, raw) == Some((FullCoverage(), FlipBundle.DefaultTarget()))
    requires Get(raw, "handler_module") == Some(Str(m)) && FlipBundle.FreshModule(e, scope, raw, m)
    ensures FlipBundle.VerifyAdequacy(e, scope, node, None) == Some(FlipBundle.HashList(e, raw))
  {
    assert FlipBundle.ReceiptModule(raw, None) == Some(m);
  }

  lemma FlipVerifies(files: map<string, Bytes>, scope: FlipBundle.Scope, node: string, word: string)
    requires Holds(files, scope, node, word) && IsDottedWord(word)
    ensures FlipBundle.VerifyReplay(SomeEnv(files), scope, node) == Some(["h"])
    ensures FlipBundle.VerifyAdequacy(SomeEnv(files), scope, node, None) == Some(["h"])
  {
    var e := SomeEnv(files);
    ProofsLoad(files, scope, node, word);
    ArtifactReads(node, word);
    ReceiptReads(node, word);
    StatusTellsPass(true, node, DeclarationOf(word), [Str("h")]);
    HashListed(files, SomeReceipt(node, word));
    HashListed(files, SomeArtifact(node, word));
    ReplayVerifies(e, scope, node, SomeArtifact(node, word));
    AdequacyVerifies(e, scope, node, SomeReceipt(node, word), word);
  }

  lemma SeamHolds(files: map<string, Bytes>, scope: FlipBundle.Scope, node: string, word: string)
    requires Holds(files, scope, node, word) && IsDottedWord(word)
    ensures FlipBundle.OrderingSeam(SomeEnv(files), scope, node)
    ensures FlipBundle.TypedAdequacy(SomeEnv(files), scope, node)
  {
    ProofsLoad(files, scope, node, word);
    ReceiptReads(node, word);
  }

  lemma ReplayReproducible(files: map<string, Bytes>, scope: FlipBundle.Scope, node: string, word: string, base: string)
    requires Holds(files, scope, node, word) && IsDottedWord(word)
    ensures FlipBundle.ReproducibleReplay(SomeEnv(files), scope, node, base)
  {
    ArtifactReproduces(files, node, word, base);
  }

  lemma TwinsHold(files: map<string, Bytes>, scope: FlipBundle.Scope, node: string, base: string)
    ensures FlipBundle.TwinBaselines(SomeEnv(files), scope, node, {}, base)
    ensures FlipBundle.AllBindingsCanonical(SomeEnv(files), scope, node)
  {
  }

  /** No assertion fails when all six hold. */
  lemma AllSixHold(e: FlipBundle.Env, scope: FlipBundle.Scope, node: string, base: string)
    requires e.contract(scope, node).Mapping? && FlipBundle.TypedAdequacy(e, scope, node)
    requires FlipBundle.VerifyFlipReceipt(e, scope, node, e.handlerModule(scope, node))
    requires FlipBundle.AllBindingsCanonical(e, scope, node) && FlipBundle.TwinBaselines(e, scope, node, {}, base)
    requires FlipBundle.OrderingSeam(e, scope, node) && FlipBundle.ReproducibleReplay(e, scope, node, base)
    ensures FlipBundle.FirstFailure(e, scope, node, {}, base).None?
  {
  }

  lemma FlipAccepted(e: FlipBundle.Env, scope: FlipBundle.Scope, node: string)
    requires FlipBundle.VerifyReplay(e, scope, node) == Some(["h"])
    requires FlipBundle.VerifyAdequacy(e, scope, node, None) == Some(["h"])
    ensures FlipBundle.VerifyFlipReceipt(e, scope, node, None)
  {
  }

  lemma NoAssertionFails(files: map<string, Bytes>, scope: FlipBundle.Scope, node: string, word: string, base: string)
    requires Holds(files, scope, node, word) && IsDottedWord(word)
    ensures FlipBundle.FirstFailure(SomeEnv(files), scope, node, {}, base).None?
  {
    var e := SomeEnv(files);
    FlipVerifies(files, scope, node, word);
    FlipAccepted(e, scope, node);
    SeamHolds(files, scope, node, word);
    ReplayReproducible(files, scope, node, word, base);
    TwinsHold(files, scope, node, base);
    AllSixHold(e, scope, node, base);
  }

  lemma FilesApart(scope: FlipBundle.Scope, node: string, word: string) returns (files: map<string, Bytes>)
    requires |word| == 3
    ensures Holds(files, scope, node, word)
  {
    var receipt, replay := FlipBundle.ReceiptPath(scope, node), FlipBundle.ReplayPath(scope, node);
    assert |word| < |receipt| < |replay|;
    files := map[
      word := Encoded(Null), receipt := Encoded(SomeReceipt(node, word)), replay := Encoded(SomeArtifact(node, word))];
  }

  /** Every hypothesis of `FlipSound` on its arguments. */
  ghost predicate FlipHypotheses(e: FlipBundle.Env, s: FlipBundle.Scope, node: string, base: string) {
    && RoundTrips(e.w) && ComparesValues(e.w) && FlipBundle.ShowsStrings(e.w)
    && FlipBundle.CallOutcome(e, s, node, base).Returned?
    && FlipBundle.CallOutcome(e, s, node, base).result.ok
    && FlipBundle.OnReplayPath(e, s, node)
    && !FlipBundle.CallOutcome(e, s, node, base).result.grandfathered
  }

  /** Some bundle meets all hypotheses of `FlipSound`: it is accepted, on the replay path and not
      grandfathered, in a world that round-trips and compares values. */
  lemma FlipSoundApplies(scope: FlipBundle.Scope, node: string, base: string)
    requires node !in FlipBundle.GRANDFATHERED
    ensures exists e :: FlipHypotheses(e, scope, node, base)
  {
    var word := "x.y";
    var files := FilesApart(scope, node, word);
    var e := SomeEnv(files);
    WorldPrints(files);
    FlipVerifies(files, scope, node, word);
    NoAssertionFails(files, scope, node, word, base);
    FlipBundle.AcceptedIff(e, scope, node, base);
    assert FlipHypotheses(e, scope, node, base);
  }
}
