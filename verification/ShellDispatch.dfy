/** `check_shell_block`: dispatch calls, wrappers around them, and prose fallbacks after a failure test. */
module ShellDispatch {
  import opened ShellLines

  /** The line recognisers: each is a pattern match on one line. */
  datatype Recogniser = Recogniser(
    wrapped: string -> bool,
    dispatch: (seq<string>, string) -> bool,
    testsFailure: string -> bool,
    prose: ShellLine -> bool)

  datatype Check = ShellWrapper | ProseFallback

  datatype Violation = Violation(check: Check, line: nat)

  predicate IsDispatch(rec: Recogniser, line: ShellLine) {
    rec.dispatch(line.tokens, line.raw)
  }

  predicate StartsWith(line: ShellLine, word: string) {
    line.tokens != [] && line.tokens[0] == word
  }

  /** An `if` line, unless it is itself a dispatch. */
  predicate Opens(rec: Recogniser, line: ShellLine) {
    !IsDispatch(rec, line) && StartsWith(line, "if")
  }

  predicate Closes(rec: Recogniser, line: ShellLine) {
    !IsDispatch(rec, line) && StartsWith(line, "fi")
  }

  /** How many `if` regions are open after the first `n` lines; a stray `fi` closes nothing. */
  function Depth(rec: Recogniser, lines: seq<ShellLine>, n: nat): nat
    requires n <= |lines|
  {
    if n == 0 then 0
    else
      var before := Depth(rec, lines, n - 1);
      if Opens(rec, lines[n - 1]) then before + 1
      else if Closes(rec, lines[n - 1]) && before > 0 then before - 1
      else before
  }

  ghost predicate DispatchBefore(rec: Recogniser, lines: seq<ShellLine>, n: nat) {
    exists d :: 0 <= d < n && d < |lines| && IsDispatch(rec, lines[d])
  }

  /** Line `j` opens a region with a failure test, after a dispatch. */
  ghost predicate FailureTest(rec: Recogniser, lines: seq<ShellLine>, j: nat) {
    j < |lines| && Opens(rec, lines[j]) && rec.testsFailure(lines[j].raw) && DispatchBefore(rec, lines, j)
  }

  /** Some region stays open all the way from after line `j` to after the first `n` lines. */
  ghost predicate OpenSince(rec: Recogniser, lines: seq<ShellLine>, j: nat, n: nat)
    requires n <= |lines|
  {
    forall k :: j < k <= n ==> Depth(rec, lines, k) > 0
  }

  /** The outermost region open after `n` lines contains a failure test preceded by a dispatch. */
  ghost predicate InFailure(rec: Recogniser, lines: seq<ShellLine>, n: nat)
    requires n <= |lines|
  {
    exists j: nat :: j < n && FailureTest(rec, lines, j) && OpenSince(rec, lines, j, n)
  }

  ghost predicate WrapperAt(rec: Recogniser, lines: seq<ShellLine>, i: nat)
    requires i < |lines|
  {
    rec.wrapped(lines[i].raw)
  }

  function WrapperIn(rec: Recogniser, line: ShellLine): seq<Violation> {
    if rec.wrapped(line.raw) then [Violation(ShellWrapper, line.absLine)] else []
  }

  function ProseIn(rec: Recogniser, line: ShellLine, inFailure: bool): seq<Violation> {
    if !IsDispatch(rec, line) && !StartsWith(line, "if") && !StartsWith(line, "fi") && inFailure && rec.prose(line)
    then [Violation(ProseFallback, line.absLine)]
    else []
  }

  /** Line `i` writes prose where a routing failure is being handled. */
  ghost predicate ProseAt(rec: Recogniser, lines: seq<ShellLine>, i: nat)
    requires i < |lines|
  {
    && !IsDispatch(rec, lines[i]) && !StartsWith(lines[i], "if") && !StartsWith(lines[i], "fi")
    && InFailure(rec, lines, i) && rec.prose(lines[i])
  }

  /** What line `i` contributes to the report. */
  ghost function ReportedAt(rec: Recogniser, lines: seq<ShellLine>, i: nat): seq<Violation>
    requires i < |lines|
  {
    (if WrapperAt(rec, lines, i) then [Violation(ShellWrapper, lines[i].absLine)] else []) +
    (if ProseAt(rec, lines, i) then [Violation(ProseFallback, lines[i].absLine)] else [])
  }

  ghost function Report(rec: Recogniser, lines: seq<ShellLine>, n: nat): seq<Violation>
    requires n <= |lines|
  {
    if n == 0 then [] else Report(rec, lines, n - 1) + ReportedAt(rec, lines, n - 1)
  }

  ghost function Dispatches(rec: Recogniser, lines: seq<ShellLine>, n: nat): set<nat>
    requires n <= |lines|
  {
    set d: nat | d < n && IsDispatch(rec, lines[d])
  }

  ghost predicate Verdict(rec: Recogniser, lines: seq<ShellLine>, count: nat, violations: seq<Violation>) {
    count == |Dispatches(rec, lines, |lines|)| && violations == Report(rec, lines, |lines|)
  }

  lemma OpenSinceStep(rec: Recogniser, lines: seq<ShellLine>, j: nat, n: nat)
    requires j < n < |lines|
    ensures OpenSince(rec, lines, j, n + 1) <==> OpenSince(rec, lines, j, n) && Depth(rec, lines, n + 1) > 0
  {
  }

  /** How one more line changes the failure region: a failure test enters it, closing the last
      region leaves it, and every other line keeps it. */
  lemma InFailureStep(rec: Recogniser, lines: seq<ShellLine>, n: nat)
    requires n < |lines|
    ensures InFailure(rec, lines, n + 1)
            <==> Depth(rec, lines, n + 1) > 0 && (FailureTest(rec, lines, n) || InFailure(rec, lines, n))
  {
    if InFailure(rec, lines, n + 1) {
      var j: nat :| j < n + 1 && FailureTest(rec, lines, j) && OpenSince(rec, lines, j, n + 1);
      assert Depth(rec, lines, n + 1) > 0;
      if j < n {
        OpenSinceStep(rec, lines, j, n);
      }
    }
    if Depth(rec, lines, n + 1) > 0 && FailureTest(rec, lines, n) {
      assert OpenSince(rec, lines, n, n + 1);
    } else if Depth(rec, lines, n + 1) > 0 && InFailure(rec, lines, n) {
      var j: nat :| j < n && FailureTest(rec, lines, j) && OpenSince(rec, lines, j, n);
      OpenSinceStep(rec, lines, j, n);
    }
  }

  lemma DispatchesStep(rec: Recogniser, lines: seq<ShellLine>, n: nat)
    requires n < |lines|
    ensures Dispatches(rec, lines, n + 1)
            == Dispatches(rec, lines, n) + (if IsDispatch(rec, lines[n]) then {n} else {})
  {
  }

  /** The flags after one line, and what the line reports: the body of the loop. */
  method CheckLine(rec: Recogniser, line: ShellLine, inFailureBranch: bool, branchDepth: nat, sawDispatch: bool)
    returns (inFailure: bool, depth: nat, saw: bool, dispatched: bool, found: seq<Violation>)
    requires inFailureBranch ==> branchDepth > 0
    ensures dispatched <==> IsDispatch(rec, line)
    ensures saw <==> sawDispatch || dispatched
    ensures depth == if Opens(rec, line) then branchDepth + 1
                     else if Closes(rec, line) && branchDepth > 0 then branchDepth - 1
                     else branchDepth
    ensures inFailure <==>
            depth > 0 && ((Opens(rec, line) && rec.testsFailure(line.raw) && sawDispatch) || inFailureBranch)
    ensures found == WrapperIn(rec, line) + ProseIn(rec, line, inFailureBranch)
  {
    inFailure, depth, saw, dispatched, found := inFailureBranch, branchDepth, sawDispatch, false, [];
    if rec.wrapped(line.raw) {
      found := found + [Violation(ShellWrapper, line.absLine)];
    }
    if rec.dispatch(line.tokens, line.raw) {
      dispatched, saw := true, true;
    } else if line.tokens != [] && line.tokens[0] == "if" {
      depth := depth + 1;
      if saw && rec.testsFailure(line.raw) {
        inFailure := true;
      }
    } else if line.tokens != [] && line.tokens[0] == "fi" {
      if depth > 0 {
        depth := depth - 1;
      }
      if depth == 0 {
        inFailure := false;
      }
    } else if inFailure && rec.prose(line) {
      found := found + [Violation(ProseFallback, line.absLine)];
    }
  }

  lemma DispatchBeforeStep(rec: Recogniser, lines: seq<ShellLine>, n: nat)
    requires n < |lines|
    ensures DispatchBefore(rec, lines, n + 1) <==> DispatchBefore(rec, lines, n) || IsDispatch(rec, lines[n])
  {
  }

  lemma ReportStep(rec: Recogniser, lines: seq<ShellLine>, n: nat, inFailure: bool)
    requires n < |lines| && (inFailure <==> InFailure(rec, lines, n))
    ensures Report(rec, lines, n + 1)
            == Report(rec, lines, n) + (WrapperIn(rec, lines[n]) + ProseIn(rec, lines[n], inFailure))
  {
  }

  /** `check_shell_block`, after tokenizing. */
  method CheckLines(rec: Recogniser, lines: seq<ShellLine>)
    returns (dispatchCount: nat, violations: seq<Violation>)
    ensures dispatchCount == |Dispatches(rec, lines, |lines|)|
    ensures violations == Report(rec, lines, |lines|)
  {
    violations, dispatchCount := [], 0;
    var inFailureBranch, branchDepth, sawDispatchBeforeBranch := false, 0, false;
    for i := 0 to |lines|
      invariant violations == Report(rec, lines, i)
      invariant dispatchCount == |Dispatches(rec, lines, i)|
      invariant branchDepth == Depth(rec, lines, i)
      invariant sawDispatchBeforeBranch <==> DispatchBefore(rec, lines, i)
      invariant inFailureBranch <==> InFailure(rec, lines, i)
      invariant inFailureBranch ==> branchDepth > 0
    {
      var dispatched, found;
      ReportStep(rec, lines, i, inFailureBranch);
      InFailureStep(rec, lines, i);
      DispatchesStep(rec, lines, i);
      DispatchBeforeStep(rec, lines, i);
      inFailureBranch, branchDepth, sawDispatchBeforeBranch, dispatched, found :=
        CheckLine(rec, lines[i], inFailureBranch, branchDepth, sawDispatchBeforeBranch);
      violations := violations + found;
      if dispatched {
        dispatchCount := dispatchCount + 1;
      }
    }
  }

  /** The fallback line `i` has the number `at`. */
  ghost predicate ProseNumbered(rec: Recogniser, lines: seq<ShellLine>, i: nat, at: nat)
    requires i < |lines|
  {
    lines[i].absLine == at && ProseAt(rec, lines, i)
  }

  ghost predicate SomeProse(rec: Recogniser, lines: seq<ShellLine>, n: nat, at: nat)
    requires n <= |lines|
  {
    exists i: nat :: i < n && ProseNumbered(rec, lines, i, at)
  }

  /** What starts false and becomes true at every point of a kind holds once there was such a point. */
  lemma {:induction false} SomeBefore(reached: nat -> bool, point: nat -> bool, n: nat)
    requires !reached(0) && forall k: nat :: k < n ==> (reached(k + 1) <==> reached(k) || point(k))
    ensures reached(n) <==> exists i: nat :: i < n && point(i)
  {
    if n > 0 {
      SomeBefore(reached, point, n - 1);
      assert reached(n - 1 + 1) <==> reached(n - 1) || point(n - 1);
    }
  }

  /** A fallback is reported for a line number exactly when one of its lines is one. */
  lemma ProseReportedIff(rec: Recogniser, lines: seq<ShellLine>, n: nat, at: nat)
    requires n <= |lines|
    ensures Violation(ProseFallback, at) in Report(rec, lines, n) <==> SomeProse(rec, lines, n, at)
  {
    var reached, point := ReportedBy(rec, lines, at), NumberedAt(rec, lines, at);
    forall k: nat | k < n ensures reached(k + 1) <==> reached(k) || point(k) {
      ReportedStep(rec, lines, k, at);
    }
    SomeBefore(reached, point, n);
    forall i: nat | i < n ensures point(i) <==> ProseNumbered(rec, lines, i, at) {
    }
  }

  ghost function ReportedBy(rec: Recogniser, lines: seq<ShellLine>, at: nat): nat -> bool {
    (k: nat) => k <= |lines| && Violation(ProseFallback, at) in Report(rec, lines, k)
  }

  ghost function NumberedAt(rec: Recogniser, lines: seq<ShellLine>, at: nat): nat -> bool {
    (k: nat) => k < |lines| && ProseNumbered(rec, lines, k, at)
  }

  lemma ReportedStep(rec: Recogniser, lines: seq<ShellLine>, k: nat, at: nat)
    requires k < |lines|
    ensures var reached, point := ReportedBy(rec, lines, at), NumberedAt(rec, lines, at);
      reached(k + 1) <==> reached(k) || point(k)
  {
    ProseReportedStep(rec, lines, k + 1, at);
  }

  lemma ProseReportedStep(rec: Recogniser, lines: seq<ShellLine>, n: nat, at: nat)
    requires 0 < n <= |lines|
    ensures Violation(ProseFallback, at) in Report(rec, lines, n)
            <==> Violation(ProseFallback, at) in Report(rec, lines, n - 1) || ProseNumbered(rec, lines, n - 1, at)
  {
    var last := ReportedAt(rec, lines, n - 1);
    assert Violation(ProseFallback, at) in last <==> lines[n - 1].absLine == at && ProseAt(rec, lines, n - 1);
    assert Report(rec, lines, n) == Report(rec, lines, n - 1) + last;
  }

  /** The failure flag in terms of the outermost open region, which began after the first `r` lines:
      it is up exactly when that region contains a failure test preceded by a dispatch. */
  lemma RegionForm(rec: Recogniser, lines: seq<ShellLine>, r: nat, n: nat)
    requires r <= n <= |lines| && Depth(rec, lines, r) == 0 && OpenSince(rec, lines, r, n)
    ensures InFailure(rec, lines, n) <==> exists j: nat :: r <= j < n && FailureTest(rec, lines, j)
  {
    if InFailure(rec, lines, n) {
      var j: nat :| j < n && FailureTest(rec, lines, j) && OpenSince(rec, lines, j, n);
      assert r <= j;
    }
    if j: nat :| r <= j < n && FailureTest(rec, lines, j) {
      assert OpenSince(rec, lines, j, n);
    }
  }

  /** There always is such an `r`. */
  lemma {:induction false} RegionStart(rec: Recogniser, lines: seq<ShellLine>, n: nat) returns (r: nat)
    requires n <= |lines|
    ensures r <= n && Depth(rec, lines, r) == 0 && OpenSince(rec, lines, r, n)
  {
    r := n;
    while Depth(rec, lines, r) > 0
      invariant r <= n && OpenSince(rec, lines, r, n)
      decreases r
    {
      r := r - 1;
    }
  }

  /** The logical lines of the block, in order of their first physical lines. */
  ghost predicate IsTokenized(split: Splitter, startLine: nat, lines: seq<string>, logical: seq<ShellLine>) {
    Increasing(logical) && forall x :: x in logical <==> IsShellLine(split, startLine, lines, x)
  }

  /** `check_shell_block`: the report of the tokenized block. */
  method CheckShellBlock(rec: Recogniser, split: Splitter, startLine: nat, lines: seq<string>)
    returns (dispatchCount: nat, violations: seq<Violation>)
    ensures exists logical :: IsTokenized(split, startLine, lines, logical)
                              && Verdict(rec, logical, dispatchCount, violations)
  {
    var tokenized := TokenizeShell(split, startLine, lines);
    dispatchCount, violations := CheckLines(rec, tokenized);
    assert IsTokenized(split, startLine, lines, tokenized) && Verdict(rec, tokenized, dispatchCount, violations);
  }
}
