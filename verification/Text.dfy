/** Strings as Python handles them: whitespace and `strip`, runs of characters, numbers in decimal. */
module Text {

  /** `str.isspace` for one character; the same set as `\s` in a regular expression. */
  predicate IsSpace(c: char) {
    || '\t' <= c <= '\r' || '\U{1c}' <= c <= ' ' || c == '\U{85}' || c == '\U{a0}' || c == '\U{1680}'
    || '\U{2000}' <= c <= '\U{200a}' || c == '\U{2028}' || c == '\U{2029}' || c == '\U{202f}'
    || c == '\U{205f}' || c == '\U{3000}'
  }

  /** These are the code points. */
  lemma IsSpaceIff(c: char)
    ensures IsSpace(c) <==> c as int in {
      9, 10, 11, 12, 13, 28, 29, 30, 31, 32, 133, 160, 5760, 8192, 8193, 8194, 8195, 8196, 8197, 8198, 8199, 8200,
      8201, 8202, 8232, 8233, 8239, 8287, 12288}
  {
  }

  /** Where the run of characters that satisfy `p` and starts at `i` ends. */
  function RunEnd(s: string, p: char -> bool, i: nat): (r: nat)
    requires i <= |s|
    ensures i <= r <= |s| && forall k :: i <= k < r ==> p(s[k])
    ensures r < |s| ==> !p(s[r])
    decreases |s| - i
  {
    if i < |s| && p(s[i]) then RunEnd(s, p, i + 1) else i
  }

  /** Where the spaces that end before `n` start. */
  function SpacesStart(s: string, n: nat): (r: nat)
    requires n <= |s|
    ensures r <= n && forall k :: r <= k < n ==> IsSpace(s[k])
    ensures r > 0 ==> !IsSpace(s[r - 1])
  {
    if n > 0 && IsSpace(s[n - 1]) then SpacesStart(s, n - 1) else n
  }

  function LStrip(s: string): (r: string)
    ensures |r| <= |s| && r == s[|s| - |r|..]
    ensures r != "" ==> !IsSpace(r[0])
    ensures forall i :: 0 <= i < |s| - |r| ==> IsSpace(s[i])
  {
    s[RunEnd(s, IsSpace, 0)..]
  }

  function RStrip(s: string): (r: string)
    ensures |r| <= |s| && r == s[..|r|]
    ensures r != "" ==> !IsSpace(r[|r| - 1])
    ensures forall i :: |r| <= i < |s| ==> IsSpace(s[i])
  {
    s[..SpacesStart(s, |s|)]
  }

  function Strip(s: string): string {
    RStrip(LStrip(s))
  }

  /** What `strip` leaves has no space at either end. */
  lemma StripEnds(s: string)
    ensures Strip(s) != "" ==> !IsSpace(Strip(s)[0]) && !IsSpace(Strip(s)[|Strip(s)| - 1])
  {
  }

  lemma StripTrimmed(s: string)
    requires s != "" ==> !IsSpace(s[0]) && !IsSpace(s[|s| - 1])
    ensures Strip(s) == s
  {
  }

  lemma StripIdempotent(s: string)
    ensures Strip(Strip(s)) == Strip(s)
  {
    StripEnds(s);
    StripTrimmed(Strip(s));
  }

  // ---- Pieces of text ----

  ghost predicate AllOf(s: string, p: char -> bool) {
    forall i :: 0 <= i < |s| ==> p(s[i])
  }

  /** No character of the kind comes next. */
  predicate Stopped(s: string, p: char -> bool) {
    s == "" || !p(s[0])
  }

  lemma RunStarts(b: string, y: string, p: char -> bool)
    requires AllOf(b, p) && b != ""
    ensures !Stopped(b + y, p)
  {
    assert (b + y)[0] == b[0];
  }

  /** A run of characters of one kind ends where another kind begins. */
  lemma {:induction false} RunSplit(a: string, b: string, x: string, y: string, p: char -> bool)
    requires AllOf(a, p) && AllOf(b, p) && Stopped(x, p) && Stopped(y, p)
    requires a + x == b + y
    ensures a == b && x == y
  {
    assert a == "" ==> a + x == x;
    assert b == "" ==> b + y == y;
    if a == "" || b == "" {
      if a != "" {
        RunStarts(a, x, p);
      } else if b != "" {
        RunStarts(b, y, p);
      }
    } else {
      assert a[0] == (a + x)[0] == b[0];
      assert a[1..] + x == (a + x)[1..] == b[1..] + y;
      RunSplit(a[1..], b[1..], x, y, p);
      assert a == [a[0]] + a[1..] && b == [b[0]] + b[1..];
    }
  }

  lemma SamePrefix(prefix: string, x: string, y: string)
    requires prefix + x == prefix + y
    ensures x == y
  {
    assert x == (prefix + x)[|prefix|..] == (prefix + y)[|prefix|..] == y;
  }

  // ---- Numbers ----

  predicate IsDigit(c: char) {
    '0' <= c <= '9'
  }

  function NatText(n: nat): (r: string)
    ensures r != "" && IsDigit(r[0])
  {
    var last := '0' + (n % 10) as char;
    if n < 10 then [last] else NatText(n / 10) + [last]
  }

  function IntText(n: int): (r: string)
    ensures r != ""
  {
    if n < 0 then "-" + NatText(-n) else NatText(n)
  }

  predicate IsIntChar(c: char) {
    IsDigit(c) || c == '-'
  }

  lemma {:induction false} NatTextDigits(n: nat)
    ensures AllOf(NatText(n), IsDigit)
  {
    if n >= 10 {
      NatTextDigits(n / 10);
    }
  }

  lemma IntTextChars(n: int)
    ensures AllOf(IntText(n), IsIntChar)
  {
    NatTextDigits(if n < 0 then -n else n);
  }

  lemma {:induction false} NatTextInjective(m: nat, n: nat)
    requires NatText(m) == NatText(n)
    ensures m == n
  {
    var a, b := NatText(m), NatText(n);
    assert a[|a| - 1] == '0' + (m % 10) as char && b[|b| - 1] == '0' + (n % 10) as char;
    if m >= 10 && n >= 10 {
      assert a[..|a| - 1] == NatText(m / 10) && b[..|b| - 1] == NatText(n / 10);
      NatTextInjective(m / 10, n / 10);
    } else {
      assert m >= 10 ==> |a| >= 2;
      assert n >= 10 ==> |b| >= 2;
    }
  }

  lemma IntTextInjective(m: int, n: int)
    requires IntText(m) == IntText(n)
    ensures m == n
  {
    assert m < 0 <==> IntText(m)[0] == '-';
    assert n < 0 <==> IntText(n)[0] == '-';
    if m < 0 {
      SamePrefix("-", NatText(-m), NatText(-n));
      NatTextInjective(-m, -n);
    } else {
      NatTextInjective(m, n);
    }
  }

  /** The number that digits stand for. */
  ghost function Decimal(s: string): nat
    requires AllOf(s, IsDigit)
  {
    if s == "" then 0
    else
      var last := s[|s| - 1];
      assert IsDigit(last);
      10 * Decimal(s[..|s| - 1]) + (last as int - '0' as int)
  }

  /** A number is printed in decimal: as its digits, with a sign when it is negative, and without
      leading zeros. */
  ghost predicate ShowsNat(s: string, n: nat) {
    s != "" && AllOf(s, IsDigit) && Decimal(s) == n && (s[0] == '0' ==> s == "0")
  }

  lemma {:induction false} NatTextShows(n: nat)
    ensures ShowsNat(NatText(n), n)
  {
    NatTextDigits(n);
    if n >= 10 {
      NatTextShows(n / 10);
      var s := NatText(n);
      assert s[..|s| - 1] == NatText(n / 10) && s[0] == NatText(n / 10)[0];
      assert n / 10 > 0 && Decimal("0") == 0;
    }
  }

  lemma IntTextShows(n: int)
    ensures n >= 0 ==> ShowsNat(IntText(n), n)
    ensures n < 0 ==> exists digits :: IntText(n) == "-" + digits && ShowsNat(digits, -n)
  {
    NatTextShows(if n < 0 then -n else n);
    if n < 0 {
      assert IntText(n) == "-" + NatText(-n);
    }
  }

  // ---- Parts of a string ----

  /** `s.split(c, 1)[0]`. */
  function UpTo(s: string, c: char): string {
    if s == "" || s[0] == c then "" else [s[0]] + UpTo(s[1..], c)
  }

  /** `head` is what stands before the first `c`, or all of `s` if there is none. */
  ghost predicate IsHead(s: string, c: char, head: string) {
    c !in head && head <= s && (|head| < |s| ==> s[|head|] == c)
  }

  lemma {:induction false} UpToIff(s: string, c: char, head: string)
    ensures UpTo(s, c) == head <==> IsHead(s, c, head)
  {
    if s != "" && s[0] != c {
      if head == "" {
        assert UpTo(s, c) != "" && s[|head|] != c;
      } else {
        UpToIff(s[1..], c, head[1..]);
        HeadTail(s, c, head);
      }
    }
  }

  lemma HeadTail(s: string, c: char, head: string)
    requires s != "" && s[0] != c && head != ""
    ensures IsHead(s, c, head) <==> head[0] == s[0] && IsHead(s[1..], c, head[1..])
    ensures UpTo(s, c) == head <==> head[0] == s[0] && UpTo(s[1..], c) == head[1..]
  {
    assert head == [head[0]] + head[1..] && s == [s[0]] + s[1..];
    assert c in head <==> c == head[0] || c in head[1..];
    assert head <= s <==> head[0] == s[0] && head[1..] <= s[1..];
  }

  /** `s.split(c)`: never empty. */
  function Split(s: string, c: char): (r: seq<string>)
    ensures r != []
  {
    if s == "" then [""]
    else
      var rest := Split(s[1..], c);
      if s[0] == c then [""] + rest else [[s[0]] + rest[0]] + rest[1..]
  }

  /** The parts with `c` between them. */
  function Join(parts: seq<string>, c: char): string
    requires parts != []
  {
    if |parts| == 1 then parts[0] else parts[0] + [c] + Join(parts[1..], c)
  }

  /** A string is recovered from its parts. */
  lemma {:induction false} SplitThenJoin(s: string, c: char)
    ensures Join(Split(s, c), c) == s
  {
    if s != "" {
      SplitThenJoin(s[1..], c);
      var rest := Split(s[1..], c);
      if s[0] == c {
        assert ([""] + rest)[1..] == rest;
      } else {
        var r := [[s[0]] + rest[0]] + rest[1..];
        assert r[1..] == rest[1..];
      }
    }
  }

  /** Parts that do not hold `c` are recovered from the joined string. */
  lemma {:induction false} JoinThenSplit(parts: seq<string>, c: char)
    requires parts != [] && forall i :: 0 <= i < |parts| ==> c !in parts[i]
    ensures Split(Join(parts, c), c) == parts
    decreases |parts|, |parts[0]|
  {
    var s := Join(parts, c);
    if parts[0] != "" {
      var shorter := [parts[0][1..]] + parts[1..];
      assert shorter[1..] == parts[1..];
      JoinThenSplit(shorter, c);
      assert s[0] == parts[0][0] && s[0] in parts[0];
      assert s[1..] == Join(shorter, c);
      assert [s[0]] + shorter[0] == parts[0];
      assert parts == [parts[0]] + parts[1..];
    } else if |parts| > 1 {
      JoinThenSplit(parts[1..], c);
      assert s[1..] == Join(parts[1..], c);
      assert parts == [""] + parts[1..];
    }
  }

  /** `strip` takes the spaces off both ends, and nothing else. */
  ghost predicate Strips(s: string, a: string, r: string, b: string) {
    && s == a + r + b && AllOf(a, IsSpace) && AllOf(b, IsSpace)
    && (r == "" || (!IsSpace(r[0]) && !IsSpace(r[|r| - 1])))
  }

  lemma StripParts(s: string) returns (a: string, b: string)
    ensures Strips(s, a, Strip(s), b)
  {
    var l, r := LStrip(s), Strip(s);
    a, b := s[..|s| - |l|], l[|r|..];
    SpacesBefore(s);
    SpacesAfter(l);
    StripEnds(s);
    LStripSuffix(s);
    RStripPrefix(l);
    Regroup(s, a, l, r, b);
  }

  lemma LStripSuffix(s: string)
    ensures s == s[..|s| - |LStrip(s)|] + LStrip(s)
  {
  }

  lemma RStripPrefix(s: string)
    ensures s == RStrip(s) + s[|RStrip(s)|..]
  {
  }

  lemma Regroup(s: string, a: string, l: string, r: string, b: string)
    requires s == a + l && l == r + b
    ensures s == a + r + b
  {
  }

  lemma SpacesBefore(s: string)
    ensures AllOf(s[..|s| - |LStrip(s)|], IsSpace)
  {
  }

  lemma SpacesAfter(s: string)
    ensures AllOf(s[|RStrip(s)|..], IsSpace)
  {
  }

  lemma LStripIs(s: string, a: string, l: string)
    requires s == a + l && AllOf(a, IsSpace) && (l == "" || !IsSpace(l[0]))
    ensures LStrip(s) == l
  {
    assert forall i :: 0 <= i < |a| ==> s[i] == a[i];
    assert l != "" ==> s[|a|] == l[0];
    assert |LStrip(s)| == |l|;
  }

  lemma StripIs(s: string, a: string, r: string, b: string)
    requires Strips(s, a, r, b)
    ensures Strip(s) == r
  {
    if r == "" {
      assert s == (a + b) + "" && forall i :: 0 <= i < |a + b| ==> IsSpace((a + b)[i]);
      LStripIs(s, a + b, "");
    } else {
      assert s == a + (r + b) && (r + b)[0] == r[0];
      LStripIs(s, a, r + b);
      var l := r + b;
      assert l[|r| - 1] == r[|r| - 1] && forall i :: |r| <= i < |l| ==> l[i] == b[i - |r|];
      assert |RStrip(l)| == |r|;
      assert l[..|r|] == r;
    }
  }
}
