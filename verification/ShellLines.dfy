/** `_tokenize_shell` and `check_shell_block`: logical shell lines and the dispatch rules over them. */
module ShellLines {
  import opened Ordering
  import opened Text

  /** One logical line: the document line it starts on, its joined text, and its words. */
  datatype ShellLine = ShellLine(absLine: nat, raw: string, tokens: seq<string>)

  /** `shlex.split`; None is its `ValueError`. */
  type Splitter = string -> Option<seq<string>>

  /** Blank and comment lines are dropped. */
  predicate Kept(logical: string) {
    logical != "" && logical[0] != '#'
  }

  /** The string operations of the tokenizer: is a physical line continued, what text does it then
      contribute, how is a lone line cleaned, how are the parts of a run joined, and split in words. */
  datatype Rules = Rules(continued: string -> bool, cut: string -> string, clean: string -> string,
                         join: seq<string> -> string, words: string -> seq<string>)

  /** The text a physical line contributes to its logical line. */
  function Segment(rules: Rules, raw: string): string {
    if rules.continued(raw) then rules.cut(raw) else raw
  }

  /** The contributions of lines `[a, b)`. */
  function Segments(rules: Rules, lines: seq<string>, a: nat, b: nat): seq<string>
    requires b <= |lines|
  {
    if b <= a then [] else Segments(rules, lines, a, b - 1) + [Segment(rules, lines[b - 1])]
  }

  /** Joining a lone line is cleaning it. */
  ghost predicate JoinsLone(rules: Rules) {
    forall raw :: rules.join([raw]) == rules.clean(raw)
  }

  // ---- Runs of continued lines ----

  /** A block as its continuation marks, the text of each range of lines, and the words of a text. */
  datatype Block = Block(startLine: nat, cont: seq<bool>, text: (nat, nat) -> string, words: string -> seq<string>)

  /** The text of lines `[a, b)` is what their segments join to. */
  ghost predicate TextAt(v: Block, rules: Rules, lines: seq<string>, a: nat, b: nat) {
    a <= b <= |lines| ==> v.text(a, b) == rules.join(Segments(rules, lines, a, b))
  }

  /** `v` is the block of these lines. */
  ghost predicate Views(v: Block, rules: Rules, startLine: nat, lines: seq<string>) {
    && v.startLine == startLine && v.words == rules.words && |v.cont| == |lines|
    && (forall i :: 0 <= i < |lines| ==> v.cont[i] == rules.continued(lines[i]))
    && forall a: nat, b: nat :: TextAt(v, rules, lines, a, b)
  }

  ghost predicate AllContinued(cont: seq<bool>, a: nat, b: nat) {
    forall i :: a <= i < b && i < |cont| ==> cont[i]
  }

  /** No continued line leads into line `a`. */
  ghost predicate StartsRun(cont: seq<bool>, a: nat) {
    a < |cont| && (a == 0 || !cont[a - 1])
  }

  /** `[a, b)` is a maximal run: every line but the last is continued, and nothing leads in or out. */
  ghost predicate IsRun(cont: seq<bool>, a: nat, b: nat) {
    && StartsRun(cont, a) && a < b <= |cont|
    && AllContinued(cont, a, b - 1)
    && (b < |cont| ==> !cont[b - 1])
  }

  /** Runs that share a physical line are the same run. */
  lemma RunsDisjoint(cont: seq<bool>, a: nat, b: nat, c: nat, d: nat, i: nat)
    requires IsRun(cont, a, b) && IsRun(cont, c, d) && a <= i < b && c <= i < d
    ensures a == c && b == d
  {
  }

  /** Every physical line lies in a run, so the runs partition the block. */
  lemma RunOf(cont: seq<bool>, i: nat) returns (a: nat, b: nat)
    requires i < |cont|
    ensures IsRun(cont, a, b) && a <= i < b
  {
    a := i;
    while a > 0 && cont[a - 1]
      invariant a <= i && AllContinued(cont, a, i)
    {
      a := a - 1;
    }
    b := i + 1;
    while b < |cont| && cont[b - 1]
      invariant i < b <= |cont| && AllContinued(cont, a, b - 1)
    {
      b := b + 1;
    }
  }

  // ---- What tokenizing produces ----

  function LineOf(v: Block, a: nat, b: nat): ShellLine {
    ShellLine(v.startLine + a + 1, v.text(a, b), v.words(v.text(a, b)))
  }

  /** `[a, b)` is a run that is neither blank nor a comment. */
  ghost predicate KeptRun(v: Block, a: nat, b: nat) {
    IsRun(v.cont, a, b) && Kept(v.text(a, b))
  }

  /** `line` is the logical line of a kept run that starts before physical line `n`. */
  ghost predicate FromRun(v: Block, n: nat, line: ShellLine) {
    exists a: nat, b: nat :: KeptRun(v, a, b) && a < n && line == LineOf(v, a, b)
  }

  ghost predicate Reported(v: Block, result: seq<ShellLine>, a: nat) {
    exists k :: 0 <= k < |result| && result[k].absLine == v.startLine + a + 1
  }

  ghost predicate Increasing(result: seq<ShellLine>) {
    forall j, k :: 0 <= j < k < |result| ==> result[j].absLine < result[k].absLine
  }

  ghost predicate FromRunAt(v: Block, n: nat, result: seq<ShellLine>, k: nat) {
    k < |result| ==> FromRun(v, n, result[k])
  }

  ghost predicate AllFromRuns(v: Block, n: nat, result: seq<ShellLine>) {
    forall k: nat :: FromRunAt(v, n, result, k)
  }

  ghost predicate RunsReported(v: Block, n: nat, result: seq<ShellLine>) {
    forall a: nat, b: nat :: KeptRun(v, a, b) && a < n ==> Reported(v, result, a)
  }

  /** The logical lines of the kept runs starting before physical line `n`, in order, and no others. */
  ghost predicate Tokenized(v: Block, n: nat, result: seq<ShellLine>) {
    Increasing(result) && AllFromRuns(v, n, result) && RunsReported(v, n, result)
  }

  /** The result after the run `[a, b)`: its line is added when it is kept. */
  function Extended(v: Block, a: nat, b: nat, result: seq<ShellLine>): seq<ShellLine> {
    if Kept(v.text(a, b)) then result + [LineOf(v, a, b)] else result
  }

  /** The next run's line, when kept, extends what was produced so far. */
  lemma RunExtends(v: Block, a: nat, b: nat, result: seq<ShellLine>)
    requires Tokenized(v, a, result) && IsRun(v.cont, a, b)
    ensures Tokenized(v, b, Extended(v, a, b, result))
  {
    var line := LineOf(v, a, b);
    var longer := Extended(v, a, b, result);
    assert Kept(v.text(a, b)) ==> KeptRun(v, a, b);
    forall k: nat ensures FromRunAt(v, b, longer, k) {
      assert FromRunAt(v, a, result, k);
      assert k == |result| < |longer| ==> longer[k] == line && FromRun(v, b, line);
    }
    forall k: nat | k < |result| ensures result[k].absLine < line.absLine {
      assert FromRunAt(v, a, result, k);
    }
    forall c: nat, d: nat | KeptRun(v, c, d) && c < b ensures Reported(v, longer, c) {
      if c < a {
        assert Reported(v, result, c);
        var k :| 0 <= k < |result| && result[k].absLine == v.startLine + c + 1;
        assert longer[k] == result[k];
      } else {
        RunsDisjoint(v.cont, a, b, c, d, c);
        assert longer[|result|] == line;
      }
    }
  }

  /** Ranges of lines in the order they were found. */
  datatype Runs = Start | Then(init: Runs, from: nat, to: nat)

  /** `runs` are the consecutive maximal runs that make up lines `[0, s)`. */
  ghost predicate Partition(cont: seq<bool>, runs: Runs, s: nat) {
    match runs
    case Start => s == 0
    case Then(init, from, to) => to == s && IsRun(cont, from, s) && Partition(cont, init, from)
  }

  ghost function LinesOf(v: Block, runs: Runs): seq<ShellLine> {
    match runs
    case Start => []
    case Then(init, from, to) => Extended(v, from, to, LinesOf(v, init))
  }

  lemma {:induction false} PartitionTokenized(v: Block, runs: Runs, s: nat)
    requires Partition(v.cont, runs, s)
    ensures Tokenized(v, s, LinesOf(v, runs))
  {
    match runs
    case Start =>
    case Then(init, from, to) =>
      PartitionTokenized(v, init, from);
      RunExtends(v, from, s, LinesOf(v, init));
  }

  /** The lines up to the next one that is not continued make up the next run. */
  lemma PartitionGrows(cont: seq<bool>, runs: Runs, a: nat, b: nat)
    requires Partition(cont, runs, a) && a < b <= |cont| && AllContinued(cont, a, b - 1)
    requires b < |cont| ==> !cont[b - 1]
    ensures Partition(cont, Then(runs, a, b), b)
  {
  }

  function Added(rules: Rules, absLine: nat, logical: string, lines: seq<ShellLine>): seq<ShellLine> {
    if Kept(logical) then lines + [ShellLine(absLine, logical, rules.words(logical))] else lines
  }

  /** The text gathered for a run is the text of the run. */
  lemma GatheredText(v: Block, rules: Rules, startLine: nat, lines: seq<string>, a: nat, b: nat, logical: string,
                     result: seq<ShellLine>)
    requires Views(v, rules, startLine, lines) && a <= b <= |lines|
    requires logical == rules.join(Segments(rules, lines, a, b))
    ensures Extended(v, a, b, result) == Added(rules, startLine + a + 1, logical, result)
  {
    assert TextAt(v, rules, lines, a, b);
  }

  /** The text of a run that ends in a line that is not continued, and its first line's number. */
  lemma LastSegment(rules: Rules, lines: seq<string>, s: nat, i: nat, buffer: seq<string>, logical: string)
    requires JoinsLone(rules) && s <= i < |lines| && !rules.continued(lines[i])
    requires buffer == Segments(rules, lines, s, i)
    requires logical == if buffer == [] then rules.clean(lines[i]) else rules.join(buffer + [lines[i]])
    ensures logical == rules.join(Segments(rules, lines, s, i + 1))
  {
    if buffer == [] {
      assert Segments(rules, lines, s, i + 1) == [lines[i]];
    }
  }

  /** Adds a logical line, unless it is blank or a comment. */
  method AddLine(rules: Rules, absLine: nat, logical: string, lines: seq<ShellLine>) returns (longer: seq<ShellLine>)
    ensures longer == Added(rules, absLine, logical, lines)
  {
    if logical == "" || logical[0] == '#' {
      return lines;
    }
    longer := lines + [ShellLine(absLine, logical, rules.words(logical))];
  }

  /** Before physical line `i`: the runs of lines `[0, s)` are reported, and the rest is buffered. */
  ghost predicate Gathering(v: Block, rules: Rules, lines: seq<string>, s: nat, i: nat, buffer: seq<string>,
                            start: Option<nat>, result: seq<ShellLine>, runs: Runs)
    requires i <= |lines|
  {
    && Partition(v.cont, runs, s) && result == LinesOf(v, runs)
    && s <= i && AllContinued(v.cont, s, i)
    && buffer == Segments(rules, lines, s, i)
    && start == (if s < i then Some(s + 1) else None)
  }

  lemma SegmentsLength(rules: Rules, lines: seq<string>, s: nat, i: nat)
    requires s <= i <= |lines|
    ensures |Segments(rules, lines, s, i)| == i - s
  {
  }

  /** A continued line is buffered. */
  lemma Continues(v: Block, rules: Rules, startLine: nat, lines: seq<string>, s: nat, i: nat, buffer: seq<string>,
                  start: Option<nat>, result: seq<ShellLine>, runs: Runs)
    requires Views(v, rules, startLine, lines) && i < |lines| && rules.continued(lines[i])
    requires Gathering(v, rules, lines, s, i, buffer, start, result, runs)
    ensures Gathering(v, rules, lines, s, i + 1, buffer + [rules.cut(lines[i])],
                      if start.None? then Some(i + 1) else start, result, runs)
  {
  }

  /** The run that ends before line `i` is reported under the number of its first line. */
  lemma Flushes(v: Block, rules: Rules, startLine: nat, lines: seq<string>, s: nat, i: nat, logical: string, runs: Runs)
    requires Views(v, rules, startLine, lines) && s < i <= |lines|
    requires Partition(v.cont, runs, s) && AllContinued(v.cont, s, i - 1)
    requires i < |lines| ==> !rules.continued(lines[i - 1])
    requires logical == rules.join(Segments(rules, lines, s, i))
    ensures Gathering(v, rules, lines, i, i, [], None, Added(rules, startLine + s + 1, logical, LinesOf(v, runs)),
                      Then(runs, s, i))
  {
    PartitionGrows(v.cont, runs, s, i);
    GatheredText(v, rules, startLine, lines, s, i, logical, LinesOf(v, runs));
  }

  /** The loop of `_tokenize_shell`. */
  method GatherLines(rules: Rules, startLine: nat, lines: seq<string>, ghost v: Block)
    returns (result: seq<ShellLine>, buffer: seq<string>, bufferStart: Option<nat>, ghost runs: Runs, ghost s: nat)
    requires JoinsLone(rules) && Views(v, rules, startLine, lines)
    ensures Gathering(v, rules, lines, s, |lines|, buffer, bufferStart, result, runs)
  {
    result, buffer, bufferStart, runs, s := [], [], None, Start, 0;
    for i := 0 to |lines|
      invariant Gathering(v, rules, lines, s, i, buffer, bufferStart, result, runs)
    {
      var raw := lines[i];
      var relLine := i + 1;
      if rules.continued(raw) {
        Continues(v, rules, startLine, lines, s, i, buffer, bufferStart, result, runs);
        if bufferStart.None? {
          bufferStart := Some(relLine);
        }
        buffer := buffer + [rules.cut(raw)];
        continue;
      }
      var logical, startRel := LogicalOf(rules, buffer, bufferStart, raw, relLine);
      LineEnds(v, rules, startLine, lines, s, i, buffer, bufferStart, result, runs, logical, startRel);
      buffer, bufferStart := [], None;
      result := AddLine(rules, startLine + startRel, logical, result);
      runs := Then(runs, s, i + 1);
      s := i + 1;
    }
  }

  /** The text and first line of a run that ends in `raw`, buffered lines included. */
  method LogicalOf(rules: Rules, buffer: seq<string>, bufferStart: Option<nat>, raw: string, relLine: nat)
    returns (logical: string, startRel: nat)
    ensures logical == if buffer == [] then rules.clean(raw) else rules.join(buffer + [raw])
    ensures startRel == if buffer == [] || bufferStart.None? then relLine else bufferStart.value
  {
    if buffer != [] {
      logical := rules.join(buffer + [raw]);
      startRel := if bufferStart.Some? then bufferStart.value else relLine;
    } else {
      logical := rules.clean(raw);
      startRel := relLine;
    }
  }

  /** A line that is not continued ends its run. */
  lemma LineEnds(v: Block, rules: Rules, startLine: nat, lines: seq<string>, s: nat, i: nat, buffer: seq<string>,
                 start: Option<nat>, result: seq<ShellLine>, runs: Runs, logical: string, startRel: nat)
    requires JoinsLone(rules) && Views(v, rules, startLine, lines) && i < |lines| && !rules.continued(lines[i])
    requires Gathering(v, rules, lines, s, i, buffer, start, result, runs)
    requires logical == if buffer == [] then rules.clean(lines[i]) else rules.join(buffer + [lines[i]])
    requires startRel == if buffer == [] || start.None? then i + 1 else start.value
    ensures Gathering(v, rules, lines, i + 1, i + 1, [], None, Added(rules, startLine + startRel, logical, result),
                      Then(runs, s, i + 1))
  {
    SegmentsLength(rules, lines, s, i);
    LastSegment(rules, lines, s, i, buffer, logical);
    Flushes(v, rules, startLine, lines, s, i + 1, logical, runs);
  }

  /** `_tokenize_shell`, whose block may end in a continued line. */
  method Gather(rules: Rules, startLine: nat, lines: seq<string>, ghost v: Block)
    returns (result: seq<ShellLine>, ghost runs: Runs)
    requires JoinsLone(rules) && Views(v, rules, startLine, lines)
    ensures Partition(v.cont, runs, |lines|) && result == LinesOf(v, runs)
  {
    var buffer, bufferStart;
    ghost var s;
    result, buffer, bufferStart, runs, s := GatherLines(rules, startLine, lines, v);
    SegmentsLength(rules, lines, s, |lines|);
    if buffer != [] {
      var logical := rules.join(buffer);
      Flushes(v, rules, startLine, lines, s, |lines|, logical, runs);
      result := AddLine(rules, startLine + bufferStart.value, logical, result);
      runs := Then(runs, s, |lines|);
    }
  }

  lemma SameAt(v: Block, n: nat, x: ShellLine, y: ShellLine)
    requires FromRun(v, n, x) && FromRun(v, n, y) && x.absLine == y.absLine
    ensures x == y
  {
    var a: nat, b: nat :| KeptRun(v, a, b) && a < n && x == LineOf(v, a, b);
    var c: nat, d: nat :| KeptRun(v, c, d) && c < n && y == LineOf(v, c, d);
    RunsDisjoint(v.cont, a, b, c, d, a);
  }

  /** A line of one tokenization occurs in the other. */
  lemma Matched(v: Block, n: nat, p: seq<ShellLine>, q: seq<ShellLine>, k: nat) returns (m: nat)
    requires AllFromRuns(v, n, p) && AllFromRuns(v, n, q) && RunsReported(v, n, q) && k < |p|
    ensures m < |q| && q[m] == p[k]
  {
    assert FromRunAt(v, n, p, k);
    var a: nat, b: nat :| KeptRun(v, a, b) && a < n && p[k] == LineOf(v, a, b);
    assert Reported(v, q, a);
    m :| 0 <= m < |q| && q[m].absLine == v.startLine + a + 1;
    assert FromRunAt(v, n, q, m);
    SameAt(v, n, p[k], q[m]);
  }

  /** Two increasing lists with the same lines so far agree on the next line. */
  lemma NextAgrees(p: seq<ShellLine>, q: seq<ShellLine>, k: nat, m: nat, m': nat)
    requires Increasing(p) && Increasing(q) && k < |p| && m < |q| && q[m] == p[k]
    requires forall i :: 0 <= i < k && i < |q| ==> p[i] == q[i]
    requires k < |q| ==> m' < |p| && p[m'] == q[k]
    ensures k < |q| && p[k] == q[k]
  {
  }

  lemma {:induction false} PrefixesAgree(v: Block, n: nat, p: seq<ShellLine>, q: seq<ShellLine>, k: nat)
    requires Tokenized(v, n, p) && Tokenized(v, n, q) && k <= |p|
    ensures k <= |q| && forall i :: 0 <= i < k ==> p[i] == q[i]
  {
    if k > 0 {
      PrefixesAgree(v, n, p, q, k - 1);
      var m := Matched(v, n, p, q, k - 1);
      var m' := 0;
      if k - 1 < |q| {
        m' := Matched(v, n, q, p, k - 1);
      }
      NextAgrees(p, q, k - 1, m, m');
    }
  }

  /** A block has one tokenization: its kept runs determine the result. */
  lemma TokenizationUnique(v: Block, n: nat, p: seq<ShellLine>, q: seq<ShellLine>)
    requires Tokenized(v, n, p) && Tokenized(v, n, q)
    ensures p == q
  {
    PrefixesAgree(v, n, p, q, |p|);
    PrefixesAgree(v, n, q, p, |q|);
  }

  // ---- The rules of the shell ----

  /** A physical line is continued when its last non-space character is a backslash. */
  predicate Continued(raw: string) {
    RStrip(raw) != "" && RStrip(raw)[|RStrip(raw)| - 1] == '\\'
  }

  /** What is left of a continued line without its backslash. */
  function Cut(raw: string): string {
    if Continued(raw) then RStrip(raw)[..|RStrip(raw)| - 1] else raw
  }

  /** The stripped parts, separated by single spaces. */
  function JoinStripped(parts: seq<string>): string {
    if parts == [] then ""
    else if |parts| == 1 then Strip(parts[0])
    else Strip(parts[0]) + " " + JoinStripped(parts[1..])
  }

  function Joined(parts: seq<string>): string {
    Strip(JoinStripped(parts))
  }

  /** The words of a line; a line that does not split is one word. */
  function Words(split: Splitter, logical: string): seq<string> {
    match split(logical)
    case Some(tokens) => tokens
    case None => [logical]
  }

  function ShellRules(split: Splitter): Rules {
    Rules(Continued, Cut, Strip, Joined, logical => Words(split, logical))
  }

  lemma ShellJoinsLone(split: Splitter)
    ensures JoinsLone(ShellRules(split))
  {
    forall raw ensures Joined([raw]) == Strip(raw) {
      StripIdempotent(raw);
    }
  }

  /** A block of shell lines, seen through the rules of the shell. */
  function ViewOf(rules: Rules, startLine: nat, lines: seq<string>): (v: Block)
    ensures Views(v, rules, startLine, lines)
  {
    Block(startLine, seq(|lines|, i requires 0 <= i < |lines| => rules.continued(lines[i])),
          (a: nat, b: nat) => if a <= b <= |lines| then rules.join(Segments(rules, lines, a, b)) else "", rules.words)
  }

  // ---- Logical lines, read off the physical ones ----

  /** The line is `body`, a backslash and spaces. */
  ghost predicate BackslashAt(raw: string, body: string, gap: string) {
    raw == body + "\\" + gap && AllOf(gap, IsSpace)
  }

  ghost predicate IsContinued(raw: string) {
    exists body, gap :: BackslashAt(raw, body, gap)
  }

  /** What a physical line adds to its logical line: all of it, or what stands before the backslash. */
  ghost predicate PartOf(raw: string, part: string) {
    if IsContinued(raw) then exists gap :: BackslashAt(raw, part, gap) else part == raw
  }

  lemma BackslashCut(raw: string, body: string, gap: string)
    requires BackslashAt(raw, body, gap)
    ensures Continued(raw) && Cut(raw) == body
  {
    var n := |body| + 1;
    assert raw[n - 1] == '\\' && forall i :: n <= i < |raw| ==> raw[i] == gap[i - n];
    assert |RStrip(raw)| == n;
    assert RStrip(raw) == raw[..n] && raw[..n][..n - 1] == body;
  }

  lemma CutBackslash(raw: string) returns (gap: string)
    requires Continued(raw)
    ensures BackslashAt(raw, Cut(raw), gap)
  {
    var r := RStrip(raw);
    gap := raw[|r|..];
    SpacesAfter(raw);
    assert r == Cut(raw) + "\\";
    assert raw == r + gap;
  }

  lemma ContinuedIff(raw: string)
    ensures Continued(raw) <==> IsContinued(raw)
    ensures forall part :: PartOf(raw, part) <==> part == Cut(raw)
  {
    if Continued(raw) {
      var gap := CutBackslash(raw);
    }
    forall body, gap | BackslashAt(raw, body, gap) ensures Continued(raw) && Cut(raw) == body {
      BackslashCut(raw, body, gap);
    }
  }

  ghost predicate Stripped(s: string, r: string) {
    exists a, b :: Strips(s, a, r, b)
  }

  lemma StrippedIff(s: string, r: string)
    ensures Stripped(s, r) <==> r == Strip(s)
  {
    var a, b := StripParts(s);
    forall x, y | Strips(s, x, r, y) ensures r == Strip(s) {
      StripIs(s, x, r, y);
    }
  }

  /** The parts of the physical lines, each stripped. */
  ghost predicate Cleaned(lines: seq<string>, cleaned: seq<string>) {
    |cleaned| == |lines| && forall i :: 0 <= i < |lines| ==> CleanedAt(lines[i], cleaned[i])
  }

  ghost predicate CleanedAt(raw: string, c: string) {
    exists part :: PartOf(raw, part) && Stripped(part, c)
  }

  /** The text of a logical line: its stripped parts with single spaces between them, stripped again. */
  ghost predicate TextOf(lines: seq<string>, text: string) {
    lines != [] && exists cleaned :: Cleaned(lines, cleaned) && Stripped(Join(cleaned, ' '), text)
  }

  function CleanedLines(lines: seq<string>): (r: seq<string>)
    ensures |r| == |lines| && forall i :: 0 <= i < |lines| ==> r[i] == Strip(Cut(lines[i]))
  {
    seq(|lines|, i requires 0 <= i < |lines| => Strip(Cut(lines[i])))
  }

  lemma CleanedIff(lines: seq<string>, cleaned: seq<string>)
    ensures Cleaned(lines, cleaned) <==> cleaned == CleanedLines(lines)
  {
    forall raw, c ensures CleanedAt(raw, c) <==> c == Strip(Cut(raw)) {
      ContinuedIff(raw);
      StrippedIff(Cut(raw), c);
    }
  }

  lemma TextIff(lines: seq<string>, text: string)
    requires lines != []
    ensures TextOf(lines, text) <==> text == Strip(Join(CleanedLines(lines), ' '))
  {
    CleanedIff(lines, CleanedLines(lines));
    StrippedIff(Join(CleanedLines(lines), ' '), text);
    forall cleaned | Cleaned(lines, cleaned) ensures cleaned == CleanedLines(lines) {
      CleanedIff(lines, cleaned);
    }
  }

  ghost predicate StripsAll(parts: seq<string>, cleaned: seq<string>) {
    |cleaned| == |parts| && forall i :: 0 <= i < |parts| ==> cleaned[i] == Strip(parts[i])
  }

  lemma {:induction false} JoinStrippedIs(parts: seq<string>, cleaned: seq<string>)
    requires parts != [] && StripsAll(parts, cleaned)
    ensures JoinStripped(parts) == Join(cleaned, ' ')
  {
    if |parts| > 1 {
      JoinStrippedIs(parts[1..], cleaned[1..]);
    }
  }

  lemma {:induction false} SegmentsAt(rules: Rules, lines: seq<string>, a: nat, b: nat)
    requires a <= b <= |lines|
    ensures |Segments(rules, lines, a, b)| == b - a
    ensures forall i :: 0 <= i < b - a ==> Segments(rules, lines, a, b)[i] == Segment(rules, lines[a + i])
  {
    if a < b {
      SegmentsAt(rules, lines, a, b - 1);
    }
  }

  lemma JoinedText(split: Splitter, lines: seq<string>, a: nat, b: nat)
    requires a < b <= |lines|
    ensures ShellRules(split).join(Segments(ShellRules(split), lines, a, b)) ==
            Strip(Join(CleanedLines(lines[a..b]), ' '))
  {
    var parts := Segments(ShellRules(split), lines, a, b);
    SegmentsAt(ShellRules(split), lines, a, b);
    JoinStrippedIs(parts, CleanedLines(lines[a..b]));
  }

  /** A maximal run of physical lines, all but the last continued; the last line of the block may be. */
  ghost predicate LogicalAt(lines: seq<string>, a: nat, b: nat) {
    && a < b <= |lines| && (a == 0 || !IsContinued(lines[a - 1]))
    && (forall i :: a <= i < b - 1 ==> IsContinued(lines[i])) && (b < |lines| ==> !IsContinued(lines[b - 1]))
  }

  /** The logical line at `a`, when it is neither empty nor a comment; one that does not split into words
      is one word. */
  ghost predicate ShellLineAt(split: Splitter, startLine: nat, lines: seq<string>, a: nat, b: nat, line: ShellLine) {
    && LogicalAt(lines, a, b) && line.absLine == startLine + a + 1
    && TextOf(lines[a..b], line.raw) && line.raw != "" && line.raw[0] != '#'
    && line.tokens == match split(line.raw) { case Some(tokens) => tokens case None => [line.raw] }
  }

  lemma RunIff(v: Block, rules: Rules, startLine: nat, lines: seq<string>, a: nat, b: nat)
    requires Views(v, rules, startLine, lines) && forall raw :: rules.continued(raw) <==> Continued(raw)
    ensures IsRun(v.cont, a, b) <==> LogicalAt(lines, a, b)
  {
    forall i | 0 <= i < |lines| ensures v.cont[i] <==> IsContinued(lines[i]) {
      ContinuedIff(lines[i]);
    }
  }

  lemma LineIff(split: Splitter, startLine: nat, lines: seq<string>, v: Block, a: nat, b: nat, line: ShellLine)
    requires Views(v, ShellRules(split), startLine, lines)
    ensures ShellLineAt(split, startLine, lines, a, b, line) <==> KeptRun(v, a, b) && line == LineOf(v, a, b)
  {
    RunIff(v, ShellRules(split), startLine, lines, a, b);
    if a < b <= |lines| {
      RunText(split, startLine, lines, v, a, b, line.raw);
    }
    assert v.words(line.raw) == Words(split, line.raw);
  }

  lemma RunText(split: Splitter, startLine: nat, lines: seq<string>, v: Block, a: nat, b: nat, text: string)
    requires Views(v, ShellRules(split), startLine, lines) && a < b <= |lines|
    ensures TextOf(lines[a..b], text) <==> text == v.text(a, b)
  {
    assert TextAt(v, ShellRules(split), lines, a, b);
    JoinedText(split, lines, a, b);
    TextIff(lines[a..b], text);
  }

  lemma TokenizedMember(v: Block, n: nat, result: seq<ShellLine>, line: ShellLine)
    requires Tokenized(v, n, result) && n == |v.cont|
    ensures line in result <==> exists a: nat, b: nat :: KeptRun(v, a, b) && line == LineOf(v, a, b)
  {
    if line in result {
      var k: nat :| k < |result| && result[k] == line;
      assert FromRunAt(v, n, result, k);
    }
    if a: nat, b: nat :| KeptRun(v, a, b) && line == LineOf(v, a, b) {
      assert Reported(v, result, a);
      var k: nat :| k < |result| && result[k].absLine == v.startLine + a + 1;
      assert FromRunAt(v, n, result, k) && FromRun(v, n, line);
      SameAt(v, n, result[k], line);
    }
  }

  /** `_tokenize_shell`: the logical lines that are neither empty nor comments, in order. */
  method TokenizeShell(split: Splitter, startLine: nat, lines: seq<string>) returns (result: seq<ShellLine>)
    ensures Tokenized(ViewOf(ShellRules(split), startLine, lines), |lines|, result)
    ensures Increasing(result)
    ensures forall x :: x in result <==> IsShellLine(split, startLine, lines, x)
  {
    ShellJoinsLone(split);
    ghost var v, runs := ViewOf(ShellRules(split), startLine, lines), Start;
    result, runs := Gather(ShellRules(split), startLine, lines, v);
    PartitionTokenized(v, runs, |lines|);
    ResultIs(split, startLine, lines, v, result);
  }

  ghost predicate IsShellLine(split: Splitter, startLine: nat, lines: seq<string>, x: ShellLine) {
    exists a: nat, b: nat :: ShellLineAt(split, startLine, lines, a, b, x)
  }

  lemma ResultIs(split: Splitter, startLine: nat, lines: seq<string>, v: Block, result: seq<ShellLine>)
    requires Views(v, ShellRules(split), startLine, lines) && Tokenized(v, |lines|, result)
    ensures forall x :: x in result <==> IsShellLine(split, startLine, lines, x)
  {
    forall x ensures x in result <==> IsShellLine(split, startLine, lines, x) {
      TokenizedMember(v, |lines|, result, x);
      forall a: nat, b: nat
        ensures ShellLineAt(split, startLine, lines, a, b, x) <==> KeptRun(v, a, b) && x == LineOf(v, a, b)
      {
        LineIff(split, startLine, lines, v, a, b, x);
      }
    }
  }
}
