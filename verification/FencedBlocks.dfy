/** `extract_code_blocks`: fenced code blocks of a markdown document, line by line. */
module FencedBlocks {
  import opened Ordering
  import opened Text

  /** An opening or closing fence line: its run of backticks and tildes, and its info word. */
  datatype Fence = Fence(run: string, info: string)

  datatype CodeBlock = CodeBlock(language: string, startLine: nat, source: string)

  predicate IsFenceChar(c: char) {
    c == '`' || c == '~'
  }

  predicate IsWordChar(c: char) {
    'A' <= c <= 'Z' || 'a' <= c <= 'z' || '0' <= c <= '9' || c == '_' || c == '+' || c == '-'
  }

  /** The classes of characters in the fence pattern. */
  datatype Alphabet = Alphabet(fence: char -> bool, word: char -> bool, space: char -> bool)

  const MARKDOWN := Alphabet(IsFenceChar, IsWordChar, IsSpace)

  /** The fence pattern: three or more fence characters, optional space, an optional word, optional
      space, and nothing else. */
  function MatchFence(line: string): Option<Fence> {
    MatchLine(MARKDOWN, line)
  }

  function MatchLine(a: Alphabet, line: string): Option<Fence> {
    var run := RunEnd(line, a.fence, 0);
    var start := RunEnd(line, a.space, run);
    var end := RunEnd(line, a.word, start);
    if run >= 3 && RunEnd(line, a.space, end) == |line| then Some(Fence(line[..run], line[start..end])) else None
  }

  function LowerChar(c: char): char {
    if 'A' <= c <= 'Z' then c - 'A' + 'a' else c
  }

  function Lower(s: string): (r: string)
    ensures |r| == |s| && forall i :: 0 <= i < |s| ==> r[i] == LowerChar(s[i])
  {
    seq(|s|, i requires 0 <= i < |s| => LowerChar(s[i]))
  }

  /** `"\n".join(body)`. */
  function JoinLines(body: seq<string>): string {
    if body == [] then ""
    else if |body| == 1 then body[0]
    else body[0] + "\n" + JoinLines(body[1..])
  }

  /** What a compiled fence pattern says of a line. */
  type Pattern = string -> Option<Fence>

  /** What the pattern says of each line. */
  function Fences(pattern: Pattern, lines: seq<string>): (r: seq<Option<Fence>>)
    ensures |r| == |lines| && forall i :: 0 <= i < |lines| ==> r[i] == pattern(lines[i])
  {
    seq(|lines|, i requires 0 <= i < |lines| => pattern(lines[i]))
  }

  /** A closing line for `run` carries the identical run; an info word on it is tolerated. */
  predicate Closes(fence: Option<Fence>, run: string) {
    fence.Some? && fence.value.run == run
  }

  /** A block opens at line index `open` and is closed at `close`, or runs to the end of the file. */
  datatype Extent = Extent(open: nat, close: nat)

  /** Where the scan stands after the first `n` blocks. */
  ghost function ScanStart(extents: seq<Extent>, n: nat): nat
    requires n <= |extents|
  {
    if n == 0 then 0 else extents[n - 1].close + 1
  }

  ghost predicate NoFence(fences: seq<Option<Fence>>, from: nat, to: nat) {
    forall i :: from <= i < to && i < |fences| ==> fences[i].None?
  }

  ghost predicate NoneCloses(fences: seq<Option<Fence>>, from: nat, to: nat, run: string) {
    forall i :: from <= i < to && i < |fences| ==> !Closes(fences[i], run)
  }

  /** `x` is the first block found when scanning from line `from`. */
  ghost predicate FirstBlock(fences: seq<Option<Fence>>, from: nat, x: Extent) {
    && from <= x.open < x.close <= |fences|
    && NoFence(fences, from, x.open)
    && fences[x.open].Some?
    && NoneCloses(fences, x.open + 1, x.close, fences[x.open].value.run)
    && (x.close < |fences| ==> Closes(fences[x.close], fences[x.open].value.run))
  }

  /** Block `k` is the first one after its predecessor. */
  ghost predicate FoundAt(fences: seq<Option<Fence>>, extents: seq<Extent>, k: nat)
    requires k < |extents|
  {
    FirstBlock(fences, ScanStart(extents, k), extents[k])
  }

  ghost predicate Found(fences: seq<Option<Fence>>, extents: seq<Extent>) {
    forall k: nat :: k < |extents| ==> FoundAt(fences, extents, k)
  }

  /** The blocks of a document: each the first one after its predecessor, none left over. */
  ghost predicate IsSegmentation(fences: seq<Option<Fence>>, extents: seq<Extent>) {
    Found(fences, extents) && NoFence(fences, ScanStart(extents, |extents|), |fences|)
  }

  /** `b` is the block at `x`: lower-case info word, 1-based line of its fence, body lines joined. */
  predicate IsBlock(lines: seq<string>, fences: seq<Option<Fence>>, x: Extent, b: CodeBlock) {
    && x.open < x.close <= |lines| == |fences| && fences[x.open].Some?
    && b == CodeBlock(Lower(fences[x.open].value.info), x.open + 1, JoinLines(lines[x.open + 1..x.close]))
  }

  ghost predicate AreBlocks(lines: seq<string>, fences: seq<Option<Fence>>, extents: seq<Extent>,
                            blocks: seq<CodeBlock>)
  {
    |blocks| == |extents| && forall k :: 0 <= k < |extents| ==> IsBlock(lines, fences, extents[k], blocks[k])
  }

  lemma FoundExtend(fences: seq<Option<Fence>>, extents: seq<Extent>, x: Extent)
    requires Found(fences, extents) && FirstBlock(fences, ScanStart(extents, |extents|), x)
    ensures Found(fences, extents + [x]) && ScanStart(extents + [x], |extents| + 1) == x.close + 1
  {
    var longer := extents + [x];
    forall k: nat | k < |longer| ensures FoundAt(fences, longer, k) {
      if k < |extents| { assert FoundAt(fences, extents, k); }
    }
  }

  lemma BlocksExtend(lines: seq<string>, fences: seq<Option<Fence>>, extents: seq<Extent>, blocks: seq<CodeBlock>,
                     x: Extent, b: CodeBlock)
    requires AreBlocks(lines, fences, extents, blocks) && IsBlock(lines, fences, x, b)
    ensures AreBlocks(lines, fences, extents + [x], blocks + [b])
  {
  }

  /** The inner loop: the body lines after an opening fence at `i`, up to the closing line at `j`. */
  method ScanBody(pattern: Pattern, lines: seq<string>, i: nat, run: string) returns (j: nat, body: seq<string>)
    requires i < |lines|
    ensures i < j <= |lines| && body == lines[i + 1..j]
    ensures NoneCloses(Fences(pattern, lines), i + 1, j, run)
    ensures j < |lines| ==> Closes(Fences(pattern, lines)[j], run)
  {
    body := [];
    j := i + 1;
    while j < |lines|
      invariant i < j <= |lines| && body == lines[i + 1..j]
      invariant NoneCloses(Fences(pattern, lines), i + 1, j, run)
    {
      var closing := pattern(lines[j]);
      if closing.Some? && closing.value.run == run {
        break;
      }
      body := body + [lines[j]];
      j := j + 1;
    }
  }

  /** The scan of `extract_code_blocks`, for any fence pattern. */
  method Scan(pattern: Pattern, lines: seq<string>) returns (blocks: seq<CodeBlock>, ghost extents: seq<Extent>)
    ensures IsSegmentation(Fences(pattern, lines), extents)
    ensures AreBlocks(lines, Fences(pattern, lines), extents, blocks)
  {
    blocks, extents := [], [];
    ghost var fences := Fences(pattern, lines);
    var i := 0;
    while i < |lines|
      invariant Found(fences, extents) && AreBlocks(lines, fences, extents, blocks)
      invariant ScanStart(extents, |extents|) <= i
      invariant NoFence(fences, ScanStart(extents, |extents|), i)
      decreases |lines| - i
    {
      var fence := pattern(lines[i]);
      if fence.None? {
        i := i + 1;
        continue;
      }
      var j, body := ScanBody(pattern, lines, i, fence.value.run);
      FoundExtend(fences, extents, Extent(i, j));
      BlocksExtend(lines, fences, extents, blocks, Extent(i, j),
                   CodeBlock(Lower(fence.value.info), i + 1, JoinLines(body)));
      extents := extents + [Extent(i, j)];
      blocks := blocks + [CodeBlock(Lower(fence.value.info), i + 1, JoinLines(body))];
      i := j + 1;
    }
  }

  lemma {:induction false} FoundPrefix(fences: seq<Option<Fence>>, p: seq<Extent>, q: seq<Extent>, n: nat)
    requires Found(fences, p) && Found(fences, q) && n <= |p| && n <= |q|
    ensures forall k :: 0 <= k < n ==> p[k] == q[k]
  {
    if n > 0 {
      FoundPrefix(fences, p, q, n - 1);
      assert FoundAt(fences, p, n - 1) && FoundAt(fences, q, n - 1);
    }
  }

  lemma NoBlockAfter(fences: seq<Option<Fence>>, p: seq<Extent>, q: seq<Extent>)
    requires IsSegmentation(fences, p) && Found(fences, q)
    ensures |q| <= |p|
  {
    assert |p| < |q| ==> FoundAt(fences, q, |p|);
    FoundPrefix(fences, p, q, if |p| < |q| then |p| else |q|);
  }

  /** A document has one segmentation. */
  lemma SegmentationUnique(fences: seq<Option<Fence>>, p: seq<Extent>, q: seq<Extent>)
    requires IsSegmentation(fences, p) && IsSegmentation(fences, q)
    ensures p == q
  {
    NoBlockAfter(fences, p, q);
    NoBlockAfter(fences, q, p);
    FoundPrefix(fences, p, q, |p|);
  }

  /** Blocks occupy disjoint line ranges in document order. */
  lemma {:induction false} ExtentsDisjoint(fences: seq<Option<Fence>>, extents: seq<Extent>, i: nat, j: nat)
    requires Found(fences, extents) && i < j < |extents|
    ensures extents[i].open < extents[i].close < extents[j].open < extents[j].close <= |fences|
    decreases j
  {
    assert FoundAt(fences, extents, j);
    assert FoundAt(fences, extents, i);
    if i < j - 1 {
      ExtentsDisjoint(fences, extents, i, j - 1);
    }
  }

  /** Every fence line is the opening line of a block or lies inside one, up to its closing line. */
  lemma {:induction false} EveryFenceInABlock(fences: seq<Option<Fence>>, extents: seq<Extent>, i: nat, n: nat)
    requires Found(fences, extents) && n <= |extents|
    requires i < |fences| && fences[i].Some? && i < ScanStart(extents, n)
    ensures exists k :: 0 <= k < n && extents[k].open <= i <= extents[k].close
  {
    assert n > 0;
    assert FoundAt(fences, extents, n - 1);
    if i < ScanStart(extents, n - 1) {
      EveryFenceInABlock(fences, extents, i, n - 1);
    } else {
      assert extents[n - 1].open <= i <= extents[n - 1].close;
    }
  }

  // ---- Printing and parsing back ----

  /** A document as its author sees it. */
  datatype Piece = Prose(lines: seq<string>) | Fenced(run: string, info: string, body: seq<string>)

  ghost predicate IsRun(run: string) {
    |run| >= 3 && AllOf(run, IsFenceChar)
  }

  ghost predicate IsWord(info: string) {
    AllOf(info, IsWordChar)
  }

  /** Prose without fences; a fence of three or more, a plain info word, a body that does not close. */
  ghost predicate WellFormed(pattern: Pattern, p: Piece) {
    match p
    case Prose(lines) => NoFence(Fences(pattern, lines), 0, |lines|)
    case Fenced(run, info, body) => IsRun(run) && IsWord(info) && NoneCloses(Fences(pattern, body), 0, |body|, run)
  }

  ghost predicate AllWellFormed(pattern: Pattern, doc: seq<Piece>) {
    doc != [] ==> AllWellFormed(pattern, doc[..|doc| - 1]) && WellFormed(pattern, doc[|doc| - 1])
  }

  /** The pattern reads back a printed fence line. */
  ghost predicate ReadsBack(pattern: Pattern) {
    forall run, info :: IsRun(run) && IsWord(info) ==> pattern(run + info) == Some(Fence(run, info))
  }

  function PrintPiece(p: Piece): seq<string> {
    match p
    case Prose(lines) => lines
    case Fenced(run, info, body) => [run + info] + body + [run]
  }

  /** The block the author wrote as a piece printed after `at` lines. */
  function PieceBlocks(at: nat, p: Piece): seq<CodeBlock> {
    if p.Fenced? then [CodeBlock(Lower(p.info), at + 1, JoinLines(p.body))] else []
  }

  function Print(doc: seq<Piece>): seq<string> {
    if doc == [] then [] else Print(doc[..|doc| - 1]) + PrintPiece(doc[|doc| - 1])
  }

  /** The blocks the author wrote, with the line numbers of their opening fences. */
  function Written(doc: seq<Piece>): seq<CodeBlock> {
    if doc == [] then []
    else Written(doc[..|doc| - 1]) + PieceBlocks(|Print(doc[..|doc| - 1])|, doc[|doc| - 1])
  }

  ghost function PieceExtents(at: nat, p: Piece): seq<Extent> {
    if p.Fenced? then [Extent(at, at + 1 + |p.body|)] else []
  }

  ghost function WrittenExtents(doc: seq<Piece>): seq<Extent> {
    if doc == [] then []
    else WrittenExtents(doc[..|doc| - 1]) + PieceExtents(|Print(doc[..|doc| - 1])|, doc[|doc| - 1])
  }

  /** No two of the classes share a character. */
  ghost predicate Apart(a: Alphabet) {
    forall c :: (a.word(c) ==> !a.fence(c) && !a.space(c)) && (a.fence(c) ==> !a.space(c))
  }

  /** The line is a run, spaces, a word and spaces. */
  ghost predicate Reads(a: Alphabet, line: string, run: string, before: string, info: string, after: string) {
    && line == run + before + info + after
    && AllOf(run, a.fence) && AllOf(before, a.space) && AllOf(info, a.word) && AllOf(after, a.space)
  }

  /** The run of one class that starts at `i` ends where the next part starts. */
  lemma PartEnds(line: string, p: char -> bool, i: nat, n: nat)
    requires i <= n <= |line| && (forall k :: i <= k < n ==> p(line[k])) && (n < |line| ==> !p(line[n]))
    ensures RunEnd(line, p, i) == n
  {
  }

  ghost predicate InClass(line: string, i: nat, n: nat, p: char -> bool) {
    i <= n <= |line| && forall k :: i <= k < n ==> p(line[k])
  }

  lemma PartsInClass(a: Alphabet, line: string, run: string, before: string, info: string, after: string)
    requires Reads(a, line, run, before, info, after)
    ensures var x, y := |run| + |before|, |run| + |before| + |info|;
      && InClass(line, 0, |run|, a.fence) && InClass(line, |run|, x, a.space)
      && InClass(line, x, y, a.word) && InClass(line, y, |line|, a.space)
      && line[..|run|] == run && line[x..y] == info
  {
    assert forall k :: 0 <= k < |run| ==> line[k] == run[k];
    assert forall k :: |run| <= k < |run| + |before| ==> line[k] == before[k - |run|];
    assert forall k :: |run| + |before| <= k < |run| + |before| + |info| ==> line[k] == info[k - |run| - |before|];
    assert forall k :: |run| + |before| + |info| <= k < |line| ==> line[k] == after[k - |run| - |before| - |info|];
  }

  lemma ReadsMatch(a: Alphabet, line: string, run: string, before: string, info: string, after: string)
    requires Apart(a) && |run| >= 3 && Reads(a, line, run, before, info, after)
    ensures MatchLine(a, line) == Some(Fence(run, info))
  {
    var x, y := |run| + |before|, |run| + |before| + |info|;
    PartsInClass(a, line, run, before, info, after);
    PartEnds(line, a.fence, 0, |run|);
    if info == "" {
      PartEnds(line, a.space, |run|, |line|);
      PartEnds(line, a.word, |line|, |line|);
      PartEnds(line, a.space, |line|, |line|);
      assert line[|line|..|line|] == "";
    } else {
      PartEnds(line, a.space, |run|, x);
      PartEnds(line, a.word, x, y);
      PartEnds(line, a.space, y, |line|);
    }
  }

  lemma MatchReads(a: Alphabet, line: string) returns (before: string, after: string)
    requires MatchLine(a, line).Some?
    ensures var f := MatchLine(a, line).value; |f.run| >= 3 && Reads(a, line, f.run, before, f.info, after)
  {
    var run := RunEnd(line, a.fence, 0);
    var start := RunEnd(line, a.space, run);
    var end := RunEnd(line, a.word, start);
    before, after := line[run..start], line[end..];
    CutInFour(line, run, start, end);
  }

  lemma CutInFour(s: string, i: nat, j: nat, k: nat)
    requires i <= j <= k <= |s|
    ensures s == s[..i] + s[i..j] + s[j..k] + s[k..]
  {
  }

  /** Three or more backticks and tildes, spaces, an info word and spaces. */
  ghost predicate FenceLine(line: string, run: string, info: string) {
    exists before, after :: FenceParts(line, run, before, info, after)
  }

  ghost predicate FenceParts(line: string, run: string, before: string, info: string, after: string) {
    && line == run + before + info + after && |run| >= 3
    && (forall c :: c in run ==> c == '`' || c == '~')
    && (forall c :: c in info ==>
          'A' <= c <= 'Z' || 'a' <= c <= 'z' || '0' <= c <= '9' || c == '_' || c == '+' || c == '-')
    && (forall c :: c in before + after ==> IsSpace(c))
  }

  lemma PartsIff(line: string, run: string, before: string, info: string, after: string)
    ensures FenceParts(line, run, before, info, after) <==>
            |run| >= 3 && Reads(MARKDOWN, line, run, before, info, after)
  {
    AllOfIff(run, IsFenceChar);
    AllOfIff(info, IsWordChar);
    AllOfIff(before, IsSpace);
    AllOfIff(after, IsSpace);
    assert forall c :: c in before + after <==> c in before || c in after;
  }

  lemma AllOfIff(s: string, p: char -> bool)
    ensures AllOf(s, p) <==> forall c :: c in s ==> p(c)
  {
  }

  /** The pattern matches exactly the fence lines, and reads off their run and word. */
  lemma MatchFenceIff(line: string, f: Fence)
    ensures MatchFence(line) == Some(f) <==> FenceLine(line, f.run, f.info)
  {
    if MatchFence(line) == Some(f) {
      var before, after := MatchReads(MARKDOWN, line);
      PartsIff(line, f.run, before, f.info, after);
    }
    if before, after :| FenceParts(line, f.run, before, f.info, after) {
      PartsIff(line, f.run, before, f.info, after);
      MarkdownApart();
      ReadsMatch(MARKDOWN, line, f.run, before, f.info, after);
    }
  }

  // ---- The blocks, read off the lines ----

  ghost predicate FencesOf(lines: seq<string>, fences: seq<Option<Fence>>) {
    |fences| == |lines| && forall i :: 0 <= i < |lines| ==> FenceAt(lines[i], fences[i])
  }

  ghost predicate FenceAt(line: string, fence: Option<Fence>) {
    match fence
    case Some(f) => FenceLine(line, f.run, f.info)
    case None => forall run, info :: !FenceLine(line, run, info)
  }

  /** `lower` is `s` with its capitals shifted to small letters. */
  ghost predicate IsLowered(s: string, lower: string) {
    && |lower| == |s|
    && forall i :: 0 <= i < |s| ==>
         if 'A' <= s[i] <= 'Z' then lower[i] as nat == s[i] as nat + 32 else lower[i] == s[i]
  }

  ghost predicate IsBody(lines: seq<string>, source: string) {
    if lines == [] then source == "" else source == Join(lines, '\n')
  }

  /** The block between its fence lines: word in lower case, line number from 1, body lines joined. */
  ghost predicate BlockAt(lines: seq<string>, fences: seq<Option<Fence>>, x: Extent, b: CodeBlock) {
    && x.open < x.close <= |lines| == |fences| && fences[x.open].Some?
    && IsLowered(fences[x.open].value.info, b.language)
    && b.startLine == x.open + 1 && IsBody(lines[x.open + 1..x.close], b.source)
  }

  lemma {:induction false} JoinLinesIs(body: seq<string>)
    ensures IsBody(body, JoinLines(body))
  {
    if |body| > 1 {
      JoinLinesIs(body[1..]);
    }
  }

  lemma FencesRead(lines: seq<string>)
    ensures FencesOf(lines, Fences(MatchFence, lines))
  {
    forall i | 0 <= i < |lines| ensures FenceAt(lines[i], MatchFence(lines[i])) {
      forall run, info ensures MatchFence(lines[i]) == Some(Fence(run, info)) <==> FenceLine(lines[i], run, info) {
        MatchFenceIff(lines[i], Fence(run, info));
      }
    }
  }

  lemma BlockRead(lines: seq<string>, fences: seq<Option<Fence>>, x: Extent, b: CodeBlock)
    requires IsBlock(lines, fences, x, b)
    ensures BlockAt(lines, fences, x, b)
  {
    JoinLinesIs(lines[x.open + 1..x.close]);
  }

  lemma MarkdownApart()
    ensures Apart(MARKDOWN)
  {
  }

  /** Where the parts of a printed fence line end. */
  lemma PartsEnd(a: Alphabet, line: string, n: nat)
    requires n <= |line| && Apart(a)
    requires (forall i :: 0 <= i < n ==> a.fence(line[i])) && forall i :: n <= i < |line| ==> a.word(line[i])
    ensures RunEnd(line, a.fence, 0) == n && RunEnd(line, a.space, n) == n && RunEnd(line, a.word, n) == |line|
  {
  }

  /** A printed fence line parses back to its run and its word. */
  lemma FenceParsesBack(a: Alphabet, run: string, info: string)
    requires |run| >= 3 && AllOf(run, a.fence) && AllOf(info, a.word) && Apart(a)
    ensures MatchLine(a, run + info) == Some(Fence(run, info))
  {
    var line := run + info;
    PartsEnd(a, line, |run|);
    assert line[..|run|] == run && line[|run|..|line|] == info;
  }

  /** The fence lines of a printed block. */
  lemma FencedPieceFences(pattern: Pattern, run: string, info: string, body: seq<string>)
    requires ReadsBack(pattern) && IsRun(run) && IsWord(info)
    ensures Fences(pattern, PrintPiece(Fenced(run, info, body)))
            == [Some(Fence(run, info))] + Fences(pattern, body) + [Some(Fence(run, ""))]
  {
    assert pattern(run + info) == Some(Fence(run, info));
    assert IsWord("") && pattern(run + "") == Some(Fence(run, ""));
    assert run + "" == run;
  }

  lemma FencesAppend(pattern: Pattern, a: seq<string>, b: seq<string>)
    ensures Fences(pattern, a + b) == Fences(pattern, a) + Fences(pattern, b)
  {
  }

  ghost predicate AllClosed(extents: seq<Extent>, n: nat) {
    ScanStart(extents, |extents|) <= n && forall k :: 0 <= k < |extents| ==> extents[k].close < n
  }

  /** A segmentation whose blocks are all closed survives lines being appended. */
  lemma FoundMonotone(fences: seq<Option<Fence>>, more: seq<Option<Fence>>, extents: seq<Extent>)
    requires Found(fences, extents) && AllClosed(extents, |fences|)
    ensures Found(fences + more, extents)
  {
    forall k: nat | k < |extents| ensures FoundAt(fences + more, extents, k) {
      assert FoundAt(fences, extents, k);
    }
  }

  lemma ProseExtends(fences: seq<Option<Fence>>, extents: seq<Extent>, more: seq<Option<Fence>>)
    requires IsSegmentation(fences, extents) && AllClosed(extents, |fences|) && NoFence(more, 0, |more|)
    ensures IsSegmentation(fences + more, extents)
  {
    FoundMonotone(fences, more, extents);
  }

  lemma FencedExtends(fences: seq<Option<Fence>>, extents: seq<Extent>, fence: Fence, closing: Fence,
                      body: seq<Option<Fence>>)
    requires IsSegmentation(fences, extents) && AllClosed(extents, |fences|)
    requires closing.run == fence.run && NoneCloses(body, 0, |body|, fence.run)
    ensures var x := Extent(|fences|, |fences| + 1 + |body|);
      IsSegmentation(fences + ([Some(fence)] + body + [Some(closing)]), extents + [x])
  {
    var x := Extent(|fences|, |fences| + 1 + |body|);
    var more := [Some(fence)] + body + [Some(closing)];
    var all := fences + more;
    FoundMonotone(fences, more, extents);
    assert forall i :: |fences| < i < x.close ==> all[i] == body[i - |fences| - 1];
    assert FirstBlock(all, ScanStart(extents, |extents|), x);
    FoundExtend(all, extents, x);
  }

  lemma BlocksMonotone(pattern: Pattern, lines: seq<string>, more: seq<string>, extents: seq<Extent>,
                       blocks: seq<CodeBlock>)
    requires AreBlocks(lines, Fences(pattern, lines), extents, blocks)
    ensures AreBlocks(lines + more, Fences(pattern, lines + more), extents, blocks)
  {
    FencesAppend(pattern, lines, more);
    forall k | 0 <= k < |extents| ensures IsBlock(lines + more, Fences(pattern, lines + more), extents[k], blocks[k]) {
      var x := extents[k];
      assert IsBlock(lines, Fences(pattern, lines), x, blocks[k]);
      assert (lines + more)[x.open + 1..x.close] == lines[x.open + 1..x.close];
    }
  }

  lemma OpeningFence(pattern: Pattern, lines: seq<string>, p: Piece)
    requires ReadsBack(pattern) && p.Fenced? && IsRun(p.run) && IsWord(p.info)
    ensures Fences(pattern, lines + PrintPiece(p))[|lines|] == Some(Fence(p.run, p.info))
  {
    assert (lines + PrintPiece(p))[|lines|] == p.run + p.info;
  }

  lemma BodyLines(lines: seq<string>, p: Piece)
    requires p.Fenced?
    ensures (lines + PrintPiece(p))[|lines| + 1..|lines| + 1 + |p.body|] == p.body
  {
  }

  lemma FencedPieceIsBlock(pattern: Pattern, lines: seq<string>, p: Piece)
    requires ReadsBack(pattern) && p.Fenced? && WellFormed(pattern, p)
    ensures IsBlock(lines + PrintPiece(p), Fences(pattern, lines + PrintPiece(p)),
                    Extent(|lines|, |lines| + 1 + |p.body|), CodeBlock(Lower(p.info), |lines| + 1, JoinLines(p.body)))
  {
    OpeningFence(pattern, lines, p);
    BodyLines(lines, p);
  }

  /** Printing one more piece extends the segmentation by that piece's block. */
  lemma PieceExtends(pattern: Pattern, lines: seq<string>, extents: seq<Extent>, p: Piece)
    requires ReadsBack(pattern) && WellFormed(pattern, p)
    requires IsSegmentation(Fences(pattern, lines), extents) && AllClosed(extents, |lines|)
    ensures IsSegmentation(Fences(pattern, lines + PrintPiece(p)), extents + PieceExtents(|lines|, p))
    ensures AllClosed(extents + PieceExtents(|lines|, p), |lines + PrintPiece(p)|)
  {
    if p.Prose? {
      ProsePieceExtends(pattern, lines, extents, p.lines);
    } else {
      FencedPieceExtends(pattern, lines, extents, p);
    }
  }

  lemma ProsePieceExtends(pattern: Pattern, lines: seq<string>, extents: seq<Extent>, more: seq<string>)
    requires NoFence(Fences(pattern, more), 0, |more|)
    requires IsSegmentation(Fences(pattern, lines), extents) && AllClosed(extents, |lines|)
    ensures IsSegmentation(Fences(pattern, lines + more), extents + [])
    ensures AllClosed(extents + [], |lines + more|)
  {
    FencesAppend(pattern, lines, more);
    ProseExtends(Fences(pattern, lines), extents, Fences(pattern, more));
    assert extents + [] == extents;
  }

  lemma FencedPieceExtends(pattern: Pattern, lines: seq<string>, extents: seq<Extent>, p: Piece)
    requires ReadsBack(pattern) && WellFormed(pattern, p) && p.Fenced?
    requires IsSegmentation(Fences(pattern, lines), extents) && AllClosed(extents, |lines|)
    ensures IsSegmentation(Fences(pattern, lines + PrintPiece(p)), extents + PieceExtents(|lines|, p))
    ensures AllClosed(extents + PieceExtents(|lines|, p), |lines + PrintPiece(p)|)
  {
    var before, inner := Fences(pattern, lines), Fences(pattern, p.body);
    var x := Extent(|before|, |before| + 1 + |inner|);
    FencesAppend(pattern, lines, PrintPiece(p));
    FencedPieceFences(pattern, p.run, p.info, p.body);
    FencedExtends(before, extents, Fence(p.run, p.info), Fence(p.run, ""), inner);
    ClosedOneMore(extents, |lines|, x, |lines + PrintPiece(p)|);
    assert PieceExtents(|lines|, p) == [x];
  }

  lemma ClosedOneMore(extents: seq<Extent>, n: nat, x: Extent, m: nat)
    requires AllClosed(extents, n) && n <= m && x.close < m
    ensures AllClosed(extents + [x], m)
  {
  }

  lemma PieceAddsBlocks(pattern: Pattern, lines: seq<string>, extents: seq<Extent>, blocks: seq<CodeBlock>, p: Piece)
    requires ReadsBack(pattern) && WellFormed(pattern, p)
    requires AreBlocks(lines, Fences(pattern, lines), extents, blocks)
    ensures AreBlocks(lines + PrintPiece(p), Fences(pattern, lines + PrintPiece(p)),
                      extents + PieceExtents(|lines|, p), blocks + PieceBlocks(|lines|, p))
  {
    BlocksMonotone(pattern, lines, PrintPiece(p), extents, blocks);
    if p.Fenced? {
      FencedPieceIsBlock(pattern, lines, p);
    }
  }

  lemma {:induction false} WrittenIsSegmentation(pattern: Pattern, doc: seq<Piece>)
    requires ReadsBack(pattern) && AllWellFormed(pattern, doc)
    ensures IsSegmentation(Fences(pattern, Print(doc)), WrittenExtents(doc))
    ensures AllClosed(WrittenExtents(doc), |Print(doc)|)
  {
    if doc != [] {
      var init, last := doc[..|doc| - 1], doc[|doc| - 1];
      WrittenIsSegmentation(pattern, init);
      PieceExtends(pattern, Print(init), WrittenExtents(init), last);
    }
  }

  lemma {:induction false} WrittenAreBlocks(pattern: Pattern, doc: seq<Piece>)
    requires ReadsBack(pattern) && AllWellFormed(pattern, doc)
    ensures AreBlocks(Print(doc), Fences(pattern, Print(doc)), WrittenExtents(doc), Written(doc))
  {
    if doc != [] {
      var init, last := doc[..|doc| - 1], doc[|doc| - 1];
      WrittenAreBlocks(pattern, init);
      PieceAddsBlocks(pattern, Print(init), WrittenExtents(init), Written(init), last);
    }
  }

  lemma BlocksUnique(pattern: Pattern, lines: seq<string>, extents: seq<Extent>, b: seq<CodeBlock>, c: seq<CodeBlock>)
    requires AreBlocks(lines, Fences(pattern, lines), extents, b)
    requires AreBlocks(lines, Fences(pattern, lines), extents, c)
    ensures b == c
  {
    forall k | 0 <= k < |extents| ensures b[k] == c[k] {
      var fences := Fences(pattern, lines);
      assert IsBlock(lines, fences, extents[k], b[k]) && IsBlock(lines, fences, extents[k], c[k]);
    }
  }

  /** `blocks` are the blocks at the extents of the document's segmentation. */
  ghost predicate BlocksAt(pattern: Pattern, lines: seq<string>, extents: seq<Extent>, blocks: seq<CodeBlock>) {
    && IsSegmentation(Fences(pattern, lines), extents)
    && AreBlocks(lines, Fences(pattern, lines), extents, blocks)
  }

  /** Parsing inverts printing: any segmentation of a printed document has the blocks that were
      written, at the lines they were written on. */
  lemma ParseInvertsPrint(pattern: Pattern, doc: seq<Piece>, extents: seq<Extent>, blocks: seq<CodeBlock>)
    requires ReadsBack(pattern) && AllWellFormed(pattern, doc)
    requires BlocksAt(pattern, Print(doc), extents, blocks)
    ensures blocks == Written(doc)
  {
    WrittenIsSegmentation(pattern, doc);
    WrittenAreBlocks(pattern, doc);
    SegmentationUnique(Fences(pattern, Print(doc)), extents, WrittenExtents(doc));
    BlocksUnique(pattern, Print(doc), extents, blocks, Written(doc));
  }

  /** `extract_code_blocks`. */
  method ExtractCodeBlocks(lines: seq<string>) returns (blocks: seq<CodeBlock>)
    ensures exists extents :: BlocksAt(MatchFence, lines, extents, blocks) && BlocksRead(lines, extents, blocks)
  {
    ghost var extents;
    blocks, extents := Scan(MatchFence, lines);
    FencesRead(lines);
    forall k | 0 <= k < |extents| ensures BlockAt(lines, Fences(MatchFence, lines), extents[k], blocks[k]) {
      BlockRead(lines, Fences(MatchFence, lines), extents[k], blocks[k]);
    }
    assert BlocksAt(MatchFence, lines, extents, blocks) && BlocksRead(lines, extents, blocks);
  }

  /** The extents are the segmentation of the document by its fence lines, and the blocks are theirs. */
  ghost predicate BlocksRead(lines: seq<string>, extents: seq<Extent>, blocks: seq<CodeBlock>) {
    exists fences :: FencesOf(lines, fences) && IsSegmentation(fences, extents) && |blocks| == |extents|
                     && forall k :: 0 <= k < |extents| ==> BlockAt(lines, fences, extents[k], blocks[k])
  }

  lemma FencePatternReadsBack()
    ensures ReadsBack(MatchFence)
  {
    MarkdownApart();
    forall run, info | IsRun(run) && IsWord(info) ensures MatchFence(run + info) == Some(Fence(run, info)) {
      FenceParsesBack(MARKDOWN, run, info);
    }
  }

  lemma LowerFixed(s: string)
    requires IsLower(s)
    ensures Lower(s) == s
  {
  }

  ghost predicate IsLower(s: string) {
    forall i :: 0 <= i < |s| ==> !('A' <= s[i] <= 'Z')
  }

  ghost predicate LowerLanguages(doc: seq<Piece>) {
    forall i :: 0 <= i < |doc| && doc[i].Fenced? ==> IsLower(doc[i].info)
  }

  /** The blocks as the author wrote them, languages and all. */
  function Authored(doc: seq<Piece>): seq<CodeBlock> {
    if doc == [] then []
    else
      var init, last := doc[..|doc| - 1], doc[|doc| - 1];
      Authored(init) + if last.Fenced? then [CodeBlock(last.info, |Print(init)| + 1, JoinLines(last.body))] else []
  }

  lemma {:induction false} LowerAuthored(doc: seq<Piece>)
    requires LowerLanguages(doc)
    ensures Written(doc) == Authored(doc)
  {
    if doc != [] {
      var last := doc[|doc| - 1];
      LowerAuthored(doc[..|doc| - 1]);
      if last.Fenced? { LowerFixed(last.info); }
    }
  }

  /** Extracting the blocks of a printed document gives back the blocks that were written, languages in
      lower case; with lower-case languages, exactly as the author wrote them. */
  method ExtractPrinted(doc: seq<Piece>) returns (blocks: seq<CodeBlock>)
    requires AllWellFormed(MatchFence, doc)
    ensures blocks == Written(doc)
    ensures LowerLanguages(doc) ==> blocks == Authored(doc)
  {
    blocks := ExtractCodeBlocks(Print(doc));
    ghost var extents :| BlocksAt(MatchFence, Print(doc), extents, blocks) && BlocksRead(Print(doc), extents, blocks);
    FencePatternReadsBack();
    ParseInvertsPrint(MatchFence, doc, extents, blocks);
    if LowerLanguages(doc) {
      LowerAuthored(doc);
    }
  }

  lemma SameFenceCloses(pattern: Pattern, run: string, info: string, word: string)
    requires ReadsBack(pattern) && IsRun(run) && IsWord(info) && IsWord(word)
    ensures IsSegmentation(Fences(pattern, [run + info, run + word]), [Extent(0, 1)])
  {
    var fences := Fences(pattern, [run + info, run + word]);
    assert fences == [Some(Fence(run, info)), Some(Fence(run, word))];
    assert FirstBlock(fences, 0, Extent(0, 1));
    FoundExtend(fences, [], Extent(0, 1));
    assert [] + [Extent(0, 1)] == [Extent(0, 1)];
  }

  /** A line with the fence of the block closes it even when an info word follows, where section 4.5 of
      CommonMark would have the block go on. */
  lemma InfoWordCloses(run: string, info: string, word: string)
    requires IsRun(run) && IsWord(info) && IsWord(word)
    ensures IsSegmentation(Fences(MatchFence, [run + info, run + word]), [Extent(0, 1)])
  {
    FencePatternReadsBack();
    SameFenceCloses(MatchFence, run, info, word);
  }
}
