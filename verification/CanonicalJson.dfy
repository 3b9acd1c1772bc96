/** The text of `json.dumps` with sorted keys, as `_canonical`, `_mask_and_canonicalize` and
    `canonical_bytes` call it: it determines the value. */
module CanonicalJson {
  import opened Ordering
  import opened Binary
  import opened JsonTree
  import opened Text

  // ---- Numbers and names ----

  ghost predicate IsFloatChar(c: char) {
    IsIntChar(c) || c == '.' || c == 'e' || c == '+'
  }

  ghost predicate IsLetter(c: char) {
    'a' <= c <= 'z' || 'A' <= c <= 'Z'
  }

  ghost predicate IsWordChar(c: char) {
    IsFloatChar(c) || IsLetter(c)
  }

  ghost predicate IsFloatText(s: string) {
    s != "" && IsIntChar(s[0]) && AllOf(s, IsFloatChar) && ('.' in s || 'e' in s) && s != "-0.0"
  }

  ghost predicate PrintsFloat(repr: FiniteReal -> string, r: FiniteReal) {
    IsFloatText(repr(r))
  }

  /** What `repr` promises of the finite floats other than negative zero: each has a text of its own,
      made of digits, signs, a point or an exponent. */
  ghost predicate IsRepr(repr: FiniteReal -> string) {
    && (forall r, q :: repr(r) == repr(q) ==> r == q)
    && forall r :: PrintsFloat(repr, r)
  }

  predicate IsWordLeaf(t: Json) {
    t.Null? || t.Bool? || t.Int? || t.Float?
  }

  /** The text of a leaf that is not a string. */
  function Word(repr: FiniteReal -> string, t: Json): string
    requires IsWordLeaf(t)
  {
    match t
    case Null => "null"
    case Bool(b) => if b then "true" else "false"
    case Int(n) => IntText(n)
    case Float(Finite(r)) => repr(r)
    case Float(MinusZero) => "-0.0"
    case Float(Infinite(negative)) => if negative then "-Infinity" else "Infinity"
    case Float(NaN) => "NaN"
  }

  /** What is written for the leaves that are not finite floats. */
  ghost predicate IsWordFor(s: string, t: Json) {
    match t
    case Null => s == "null"
    case Bool(b) => (b ==> s == "true") && (!b ==> s == "false")
    case Int(n) => if n >= 0 then ShowsNat(s, n) else exists digits :: s == "-" + digits && ShowsNat(digits, -n)
    case Float(MinusZero) => s == "-0.0"
    case Float(Infinite(negative)) => (negative ==> s == "-Infinity") && (!negative ==> s == "Infinity")
    case Float(NaN) => s == "NaN"
    case _ => true
  }

  lemma WordShows(repr: FiniteReal -> string, t: Json)
    requires IsWordLeaf(t)
    ensures IsWordFor(Word(repr, t), t)
    ensures t.Float? && t.d.Finite? ==> Word(repr, t) == repr(t.d.r)
  {
    if t.Int? {
      IntTextShows(t.n);
    }
  }

  datatype Kind = Name(first: char) | MinusInfinity | NegativeZero | FloatKind | IntKind

  /** The kind of leaf, read off its text. */
  ghost function KindOf(s: string): Kind
    requires s != ""
  {
    if IsLetter(s[0]) then Name(s[0])
    else if |s| > 1 && IsLetter(s[1]) && s[1] != 'e' then MinusInfinity
    else if s == "-0.0" then NegativeZero
    else if AllOf(s, IsIntChar) then IntKind
    else FloatKind
  }

  lemma FloatKindOf(s: string)
    requires IsFloatText(s)
    ensures KindOf(s) == FloatKind
  {
    if |s| > 1 {
      assert IsFloatChar(s[1]);
    }
    var c :| c in s && (c == '.' || c == 'e');
    assert !IsIntChar(c);
  }

  lemma IntKindOf(n: int)
    ensures KindOf(IntText(n)) == IntKind
  {
    var s := IntText(n);
    IntTextChars(n);
    assert IsIntChar(s[0]);
    assert |s| > 1 ==> IsIntChar(s[1]);
    assert "-0.0"[2] == '.';
  }

  /** The kind of a leaf; the text of a leaf tells it. */
  function KindOfLeaf(t: Json): Kind
    requires IsWordLeaf(t)
  {
    match t
    case Null => Name('n')
    case Bool(b) => Name(if b then 't' else 'f')
    case Int(_) => IntKind
    case Float(Finite(_)) => FloatKind
    case Float(MinusZero) => NegativeZero
    case Float(Infinite(negative)) => if negative then MinusInfinity else Name('I')
    case Float(NaN) => Name('N')
  }

  lemma WordKind(repr: FiniteReal -> string, t: Json)
    requires IsRepr(repr) && IsWordLeaf(t)
    ensures Word(repr, t) != "" && KindOf(Word(repr, t)) == KindOfLeaf(t)
  {
    match t
    case Int(n) => IntKindOf(n);
    case Float(Finite(r)) =>
      assert PrintsFloat(repr, r);
      FloatKindOf(repr(r));
    case _ =>
  }

  lemma WordChars(repr: FiniteReal -> string, t: Json)
    requires IsRepr(repr) && IsWordLeaf(t)
    ensures AllOf(Word(repr, t), IsWordChar)
  {
    match t
    case Int(n) => IntTextChars(n);
    case Float(Finite(r)) => assert PrintsFloat(repr, r);
    case _ =>
  }

  lemma WordInjective(repr: FiniteReal -> string, t: Json, u: Json)
    requires IsRepr(repr) && IsWordLeaf(t) && IsWordLeaf(u) && Word(repr, t) == Word(repr, u)
    ensures t == u
  {
    WordKind(repr, t);
    WordKind(repr, u);
    if t.Int? {
      IntTextInjective(t.n, u.n);
    }
  }

  // ---- Strings ----

  function HexDigit(n: nat): char
    requires n < 16
  {
    if n < 10 then '0' + n as char else 'a' + (n - 10) as char
  }

  /** The letter that escapes a character after a backslash. */
  function ShortEscape(c: char): Option<char> {
    match c
    case '"' => Some('"')
    case '\\' => Some('\\')
    case '\n' => Some('n')
    case '\r' => Some('r')
    case '\t' => Some('t')
    case _ => if c == 8 as char then Some('b') else if c == 12 as char then Some('f') else None
  }

  /** The last digits of a number. */
  function Hex(n: nat, digits: nat): (r: string)
    ensures |r| == digits
  {
    if digits == 0 then "" else Hex(n / 16, digits - 1) + [HexDigit(n % 16)]
  }

  function Beyond(n: nat, digits: nat): nat {
    if digits == 0 then n else Beyond(n / 16, digits - 1)
  }

  lemma {:induction false} HexInjective(m: nat, n: nat, digits: nat)
    requires Hex(m, digits) == Hex(n, digits) && Beyond(m, digits) == Beyond(n, digits)
    ensures m == n
  {
    if digits > 0 {
      var a, b := Hex(m, digits), Hex(n, digits);
      assert a[..digits - 1] == Hex(m / 16, digits - 1) && b[..digits - 1] == Hex(n / 16, digits - 1);
      assert a[digits - 1] == HexDigit(m % 16) && b[digits - 1] == HexDigit(n % 16);
      HexInjective(m / 16, n / 16, digits - 1);
    }
  }

  lemma BeyondOnce(n: nat, digits: nat)
    ensures Beyond(n, digits + 1) == Beyond(n / 16, digits)
  {
  }

  lemma FourDigits(n: nat)
    requires n < 0x10000
    ensures Beyond(n, 4) == 0
  {
    BeyondOnce(n, 3);
    BeyondOnce(n / 16, 2);
    BeyondOnce(n / 16 / 16, 1);
    BeyondOnce(n / 16 / 16 / 16, 0);
  }

  /** `\uXXXX`. */
  function Unit(n: nat): (r: string)
    ensures |r| == 6
  {
    "\\u" + Hex(n, 4)
  }

  /** Characters that need no escape: all printable ASCII, or everything from the space on. */
  predicate IsPlain(ascii: bool, c: char) {
    ' ' <= c && (ascii ==> c <= '~')
  }

  /** The first half of a surrogate pair, or the character itself. */
  function FirstUnit(c: char): (n: nat)
    ensures n < 0x10000
  {
    if c as nat < 0x10000 then c as nat else 0xD800 + (c as nat - 0x10000) / 1024
  }

  function SecondUnit(c: char): string {
    if c as nat < 0x10000 then "" else Unit(0xDC00 + (c as nat - 0x10000) % 1024)
  }

  function Escape(ascii: bool, c: char): (r: string)
    ensures r != "" && r[0] != '"'
  {
    if ShortEscape(c).Some? then ['\\', ShortEscape(c).value]
    else if IsPlain(ascii, c) then [c]
    else Unit(FirstUnit(c)) + SecondUnit(c)
  }

  lemma UnitInjective(m: nat, n: nat, x: string, y: string)
    requires m < 0x10000 && n < 0x10000 && Unit(m) + x == Unit(n) + y
    ensures m == n && x == y
  {
    assert Unit(m) == (Unit(m) + x)[..6] == (Unit(n) + y)[..6] == Unit(n);
    SamePrefix("\\u", Hex(m, 4), Hex(n, 4));
    FourDigits(m);
    FourDigits(n);
    HexInjective(m, n, 4);
    SamePrefix(Unit(m), x, y);
  }

  /** Only a surrogate is followed by a second one. */
  lemma LongEscapeInjective(c: char, d: char, x: string, y: string)
    requires Unit(FirstUnit(c)) + (SecondUnit(c) + x) == Unit(FirstUnit(d)) + (SecondUnit(d) + y)
    ensures c == d && x == y
  {
    UnitInjective(FirstUnit(c), FirstUnit(d), SecondUnit(c) + x, SecondUnit(d) + y);
    if c as nat >= 0x10000 {
      UnitInjective(
        0xDC00 + (c as nat - 0x10000) % 1024, 0xDC00 + (d as nat - 0x10000) % 1024, x, y);
    } else {
      SamePrefix("", x, y);
    }
  }

  datatype EscapeKind = Plain(c: char) | Short(letter: char) | Long

  /** How a character is escaped, read off its first two characters. */
  function EscapeKindOf(s: string): EscapeKind
    requires |s| > 0
  {
    if s[0] != '\\' then Plain(s[0])
    else if |s| > 1 && s[1] != 'u' then Short(s[1])
    else Long
  }

  lemma EscapeTellsKind(ascii: bool, c: char, x: string)
    ensures EscapeKindOf(Escape(ascii, c) + x) ==
      if ShortEscape(c).Some? then Short(ShortEscape(c).value) else if IsPlain(ascii, c) then Plain(c) else Long
  {
    var s := Escape(ascii, c);
    assert (s + x)[0] == s[0];
    assert |s| > 1 ==> (s + x)[1] == s[1];
  }

  lemma ShortInjective(c: char, d: char)
    requires ShortEscape(c).Some? && ShortEscape(c) == ShortEscape(d)
    ensures c == d
  {
  }

  lemma LongEscape(ascii: bool, c: char, x: string)
    requires ShortEscape(c).None? && !IsPlain(ascii, c)
    ensures Escape(ascii, c) + x == Unit(FirstUnit(c)) + (SecondUnit(c) + x)
  {
  }

  /** No escape is the beginning of another. */
  lemma EscapeInjective(ascii: bool, c: char, d: char, x: string, y: string)
    requires Escape(ascii, c) + x == Escape(ascii, d) + y
    ensures c == d && x == y
  {
    EscapeTellsKind(ascii, c, x);
    EscapeTellsKind(ascii, d, y);
    if ShortEscape(c).None? && !IsPlain(ascii, c) {
      LongEscape(ascii, c, x);
      LongEscape(ascii, d, y);
      LongEscapeInjective(c, d, x, y);
    } else {
      if ShortEscape(c).Some? {
        ShortInjective(c, d);
      }
      SamePrefix(Escape(ascii, c), x, y);
    }
  }

  /** The escaped characters and the closing quote. */
  function Quoted(ascii: bool, s: string, rest: string): string {
    if s == "" then "\"" + rest else Escape(ascii, s[0]) + Quoted(ascii, s[1..], rest)
  }

  lemma {:induction false} QuotedInjective(ascii: bool, a: string, b: string, x: string, y: string)
    requires Quoted(ascii, a, x) == Quoted(ascii, b, y)
    ensures a == b && x == y
  {
    if a == "" && b == "" {
      SamePrefix("\"", x, y);
    } else if a != "" && b != "" {
      EscapeInjective(ascii, a[0], b[0], Quoted(ascii, a[1..], x), Quoted(ascii, b[1..], y));
      QuotedInjective(ascii, a[1..], b[1..], x, y);
      assert a == [a[0]] + a[1..] && b == [b[0]] + b[1..];
    } else {
      QuotedStart(ascii, a, x);
      QuotedStart(ascii, b, y);
    }
  }

  lemma QuotedStart(ascii: bool, s: string, rest: string)
    ensures Quoted(ascii, s, rest) != ""
    ensures Quoted(ascii, s, rest)[0] == '"' <==> s == ""
  {
    if s != "" {
      assert Quoted(ascii, s, rest)[0] == Escape(ascii, s[0])[0];
    }
  }

  // ---- What the escapes stand for ----

  function DigitValue(c: char): nat {
    if '0' <= c <= '9' then (c - '0') as nat else if 'a' <= c <= 'f' then 10 + (c - 'a') as nat else 0
  }

  function HexValue(s: string): nat {
    if s == "" then 0 else 16 * HexValue(s[..|s| - 1]) + DigitValue(s[|s| - 1])
  }

  /** `\uXXXX` for a number of 16 bits. */
  ghost predicate IsUnit(s: string, n: nat) {
    |s| == 6 && s[0] == '\\' && s[1] == 'u' && HexValue(s[2..]) == n
  }

  /** The pair of surrogates that stands for a character beyond 16 bits. */
  ghost predicate IsPair(s: string, c: char) {
    && |s| == 12
    && exists high: nat, low: nat ::
         && IsUnit(s[..6], high) && IsUnit(s[6..], low) && 0xD800 <= high < 0xDC00 <= low < 0xE000
         && c as nat == 0x10000 + 1024 * (high - 0xD800) + (low - 0xDC00)
  }

  /** `s` stands for the character between the quotes of a JSON string, as section 7 of RFC 8259 says. */
  ghost predicate StandsFor(s: string, c: char) {
    || (s == [c] && ' ' <= c && c != '"' && c != '\\')
    || (s == "\\\"" && c == '"') || (s == "\\\\" && c == '\\') || (s == "\\b" && c as int == 8)
    || (s == "\\f" && c as int == 12) || (s == "\\n" && c as int == 10) || (s == "\\r" && c as int == 13)
    || (s == "\\t" && c as int == 9) || IsUnit(s, c as nat) || IsPair(s, c)
  }

  lemma {:induction false} HexShows(n: nat, digits: nat)
    requires Beyond(n, digits) == 0
    ensures HexValue(Hex(n, digits)) == n
  {
    if digits > 0 {
      var s := Hex(n, digits);
      assert s[..digits - 1] == Hex(n / 16, digits - 1) && s[digits - 1] == HexDigit(n % 16);
      HexShows(n / 16, digits - 1);
    }
  }

  lemma UnitShows(n: nat)
    requires n < 0x10000
    ensures IsUnit(Unit(n), n)
  {
    FourDigits(n);
    HexShows(n, 4);
    assert Unit(n)[2..] == Hex(n, 4);
  }

  lemma PairShows(c: char)
    requires c as nat >= 0x10000
    ensures IsPair(Unit(FirstUnit(c)) + SecondUnit(c), c)
  {
    var high, low := (c as nat - 0x10000) / 1024, (c as nat - 0x10000) % 1024;
    UnitShows(0xD800 + high);
    UnitShows(0xDC00 + low);
    var s := Unit(FirstUnit(c)) + SecondUnit(c);
    assert s[..6] == Unit(0xD800 + high) && s[6..] == Unit(0xDC00 + low);
  }

  /** An escape is as short as JSON has one, and plain characters, ASCII only when asked for, have none. */
  lemma EscapeShows(ascii: bool, c: char)
    ensures StandsFor(Escape(ascii, c), c)
    ensures c == '"' || c == '\\' || c as int in {8, 9, 10, 12, 13} ==> |Escape(ascii, c)| == 2
    ensures c != '"' && c != '\\' && c >= ' ' && (c <= '~' || !ascii) ==> Escape(ascii, c) == [c]
    ensures c > '~' && ascii ==> |Escape(ascii, c)| >= 6
  {
    if ShortEscape(c).Some? {
      ShortShows(c);
    } else if !IsPlain(ascii, c) {
      if c as nat < 0x10000 {
        UnitShows(c as nat);
        assert Escape(ascii, c) == Unit(c as nat);
      } else {
        PairShows(c);
      }
    }
  }

  lemma ShortShows(c: char)
    requires ShortEscape(c).Some?
    ensures StandsFor(['\\', ShortEscape(c).value], c)
  {
  }

  /** The text up to the closing quote spells the string, character by character, before `rest`. */
  ghost predicate Spells(text: string, s: string, rest: string)
    decreases |s|
  {
    if s == "" then text == "\"" + rest
    else exists n :: 0 <= n <= |text| && StandsFor(text[..n], s[0]) && Spells(text[n..], s[1..], rest)
  }

  /** A printed string is a JSON string that stands for the original one. */
  lemma {:induction false} QuotedSpells(ascii: bool, s: string, rest: string)
    ensures Spells(Quoted(ascii, s, rest), s, rest)
  {
    if s != "" {
      var head, tail := Escape(ascii, s[0]), Quoted(ascii, s[1..], rest);
      EscapeShows(ascii, s[0]);
      QuotedSpells(ascii, s[1..], rest);
      assert (head + tail)[..|head|] == head && (head + tail)[|head|..] == tail;
    }
  }

  // ---- Values ----

  /** How `json.dumps` is called: with `indent=2` or on one line, with or without `ensure_ascii`; and
      how it shows floats. */
  datatype Style = Style(indented: bool, ascii: bool, repr: FiniteReal -> string)

  /** The line break inside a container: two spaces for each level, or nothing on one line. */
  function Break(style: Style, level: nat): (r: string)
    ensures !style.indented ==> r == ""
    ensures style.indented ==> |r| == 2 * level + 1 && r[0] == '\n' && forall i :: 0 < i < |r| ==> r[i] == ' '
  {
    if style.indented then "\n" + seq(2 * level, i => ' ') else ""
  }

  function Separator(style: Style, level: nat): (r: string)
    ensures !style.indented ==> r == ", "
    ensures style.indented ==> |r| > 1 && r[0] == ',' && r[1..] == Break(style, level)
  {
    if style.indented then "," + Break(style, level) else ", "
  }

  /** What closes a container. */
  function Closing(style: Style, level: nat, bracket: char, rest: string): string {
    Break(style, level) + ([bracket] + rest)
  }

  /** A value at a nesting level, and what follows it. */
  ghost function ValueText(style: Style, t: Json, level: nat, rest: string): string
    decreases t, 2
  {
    match t
    case Str(s) => "\"" + Quoted(style.ascii, s, rest)
    case Arr(items) => "[" + ArrBody(style, items, level, rest)
    case Obj(_) => "{" + ObjBody(style, t, level, rest)
    case _ => Word(style.repr, t) + rest
  }

  ghost function ArrBody(style: Style, items: seq<Json>, level: nat, rest: string): string
    decreases items, 2
  {
    if items == [] then "]" + rest
    else Break(style, level + 1) + ItemsText(style, items, level + 1, Closing(style, level, ']', rest))
  }

  ghost function ObjBody(style: Style, t: Json, level: nat, rest: string): string
    requires t.Obj?
    decreases t, 1
  {
    var keys := SortSet(t.fields.Keys);
    if keys == [] then "}" + rest
    else Break(style, level + 1) + FieldsText(style, t, keys, level + 1, Closing(style, level, '}', rest))
  }

  ghost function ItemsText(style: Style, items: seq<Json>, level: nat, rest: string): string
    requires items != []
    decreases items, 1
  {
    ValueText(style, items[0], level, AfterItem(style, items, level, rest))
  }

  ghost function FieldsText(style: Style, t: Json, keys: seq<string>, level: nat, rest: string): string
    requires t.Obj? && keys != [] && Elements(keys) <= t.fields.Keys
    decreases t, 0, |keys|, 1
  {
    assert keys[0] in Elements(keys);
    FieldText(style, t, keys[0], level, AfterField(style, t, keys, level, rest))
  }

  /** A key, a colon and its value. */
  ghost function FieldText(style: Style, t: Json, key: string, level: nat, rest: string): string
    requires t.Obj? && key in t.fields
    decreases t, 0, 0
  {
    "\"" + Quoted(style.ascii, key, ": " + ValueText(style, t.fields[key], level, rest))
  }

  /** What stands between an item and the end of the list. */
  ghost function AfterItem(style: Style, items: seq<Json>, level: nat, rest: string): string
    requires items != []
    decreases items, 0
  {
    if |items| == 1 then rest else Separator(style, level) + ItemsText(style, items[1..], level, rest)
  }

  /** What stands between the value of the first key and the end of the dict. */
  ghost function AfterField(style: Style, t: Json, keys: seq<string>, level: nat, rest: string): string
    requires t.Obj? && keys != [] && Elements(keys) <= t.fields.Keys
    decreases t, 0, |keys|, 0
  {
    assert Elements(keys[1..]) <= Elements(keys);
    if |keys| == 1 then rest else Separator(style, level) + FieldsText(style, t, keys[1..], level, rest)
  }

  /** What may follow a value: nothing, a comma, a line break or a bracket. */
  ghost predicate Follows(rest: string) {
    Stopped(rest, IsWordChar)
  }

  /** What follows the last value of a container. */
  ghost predicate Closes(rest: string) {
    rest != "" && (rest[0] == '\n' || rest[0] == ']' || rest[0] == '}')
  }

  lemma SeparatorFollows(style: Style, level: nat, rest: string)
    ensures Follows(Separator(style, level) + rest) && !Closes(Separator(style, level) + rest)
  {
    assert (Separator(style, level) + rest)[0] == ',';
  }

  /** The character at which a string or a container starts. */
  function OpeningOf(t: Json): char {
    match t
    case Str(_) => '"'
    case Arr(_) => '['
    case Obj(_) => '{'
    case _ => ' '
  }

  /** The first character tells strings, lists, dicts and other leaves apart. */
  lemma TextStart(style: Style, t: Json, level: nat, rest: string)
    requires IsRepr(style.repr)
    ensures var s := ValueText(style, t, level, rest);
      && s != "" && s[0] != ']'
      && if IsWordLeaf(t) then IsWordChar(s[0]) else s[0] == OpeningOf(t)
  {
    if IsWordLeaf(t) {
      WordKind(style.repr, t);
      WordChars(style.repr, t);
      assert IsWordChar(Word(style.repr, t)[0]);
    }
  }

  lemma ArrBodyStart(style: Style, items: seq<Json>, level: nat, rest: string)
    requires IsRepr(style.repr)
    ensures var s := ArrBody(style, items, level, rest); s != "" && (s[0] == ']' <==> items == [])
  {
    if items != [] {
      var tail := Closing(style, level, ']', rest);
      TextStart(style, items[0], level + 1, AfterItem(style, items, level + 1, tail));
    }
  }

  lemma ObjBodyStart(style: Style, t: Json, level: nat, rest: string)
    requires t.Obj?
    ensures var s := ObjBody(style, t, level, rest); s != "" && (s[0] == '}' <==> SortSet(t.fields.Keys) == [])
  {
    var keys := SortSet(t.fields.Keys);
    if keys != [] {
      FieldsTextStart(style, t, keys, level + 1, Closing(style, level, '}', rest));
    }
  }

  lemma FieldsTextStart(style: Style, t: Json, keys: seq<string>, level: nat, rest: string)
    requires t.Obj? && keys != [] && Elements(keys) <= t.fields.Keys
    ensures FieldsText(style, t, keys, level, rest) != "" && FieldsText(style, t, keys, level, rest)[0] == '"'
  {
    assert keys[0] in Elements(keys);
    FieldTextStart(style, t, keys[0], level, AfterField(style, t, keys, level, rest));
  }

  lemma FieldTextStart(style: Style, t: Json, key: string, level: nat, rest: string)
    requires t.Obj? && key in t.fields
    ensures FieldText(style, t, key, level, rest) != "" && FieldText(style, t, key, level, rest)[0] == '"'
  {
  }

  lemma ClosingInjective(style: Style, level: nat, bracket: char, x: string, y: string)
    requires Closing(style, level, bracket, x) == Closing(style, level, bracket, y)
    ensures x == y
  {
    SamePrefix(Break(style, level), [bracket] + x, [bracket] + y);
    SamePrefix([bracket], x, y);
  }

  /** A text can be read in one way only: as one value and what follows it. */
  lemma {:induction false} TextInjective(style: Style, t: Json, u: Json, level: nat, x: string, y: string)
    requires IsRepr(style.repr) && Follows(x) && Follows(y)
    requires ValueText(style, t, level, x) == ValueText(style, u, level, y)
    ensures t == u && x == y
    decreases t, 2
  {
    TextStart(style, t, level, x);
    TextStart(style, u, level, y);
    if IsWordLeaf(t) {
      WordChars(style.repr, t);
      WordChars(style.repr, u);
      RunSplit(Word(style.repr, t), Word(style.repr, u), x, y, IsWordChar);
      WordInjective(style.repr, t, u);
    } else if t.Str? {
      SamePrefix("\"", Quoted(style.ascii, t.s, x), Quoted(style.ascii, u.s, y));
      QuotedInjective(style.ascii, t.s, u.s, x, y);
    } else if t.Arr? {
      SamePrefix("[", ArrBody(style, t.items, level, x), ArrBody(style, u.items, level, y));
      ArrInjective(style, t.items, u.items, level, x, y);
    } else {
      SamePrefix("{", ObjBody(style, t, level, x), ObjBody(style, u, level, y));
      ObjInjective(style, t, u, level, x, y);
    }
  }

  lemma {:induction false} ArrInjective(
      style: Style, a: seq<Json>, b: seq<Json>, level: nat, x: string, y: string)
    requires IsRepr(style.repr) && ArrBody(style, a, level, x) == ArrBody(style, b, level, y)
    ensures a == b && x == y
    decreases a, 1
  {
    ArrBodyStart(style, a, level, x);
    ArrBodyStart(style, b, level, y);
    if a == [] {
      SamePrefix("]", x, y);
    } else {
      var after, behind := Closing(style, level, ']', x), Closing(style, level, ']', y);
      SamePrefix(Break(style, level + 1),
        ItemsText(style, a, level + 1, after), ItemsText(style, b, level + 1, behind));
      ItemsInjective(style, a, b, level + 1, after, behind);
      ClosingInjective(style, level, ']', x, y);
    }
  }

  lemma AfterItemFollows(style: Style, items: seq<Json>, level: nat, rest: string)
    requires items != [] && Closes(rest)
    ensures Follows(AfterItem(style, items, level, rest))
    ensures Closes(AfterItem(style, items, level, rest)) <==> |items| == 1
  {
    if |items| > 1 {
      SeparatorFollows(style, level, ItemsText(style, items[1..], level, rest));
    }
  }

  lemma {:induction false} ItemsInjective(
      style: Style, a: seq<Json>, b: seq<Json>, level: nat, x: string, y: string)
    requires IsRepr(style.repr) && Closes(x) && Closes(y) && a != [] && b != []
    requires ItemsText(style, a, level, x) == ItemsText(style, b, level, y)
    ensures a == b && x == y
    decreases a, 0
  {
    var restA, restB := AfterItem(style, a, level, x), AfterItem(style, b, level, y);
    AfterItemFollows(style, a, level, x);
    AfterItemFollows(style, b, level, y);
    TextInjective(style, a[0], b[0], level, restA, restB);
    if |a| > 1 {
      var nextA, nextB := ItemsText(style, a[1..], level, x), ItemsText(style, b[1..], level, y);
      SamePrefix(Separator(style, level), nextA, nextB);
      ItemsInjective(style, a[1..], b[1..], level, x, y);
    }
    assert a == [a[0]] + a[1..] && b == [b[0]] + b[1..];
  }

  lemma {:induction false} ObjInjective(style: Style, t: Json, u: Json, level: nat, x: string, y: string)
    requires IsRepr(style.repr) && t.Obj? && u.Obj? && ObjBody(style, t, level, x) == ObjBody(style, u, level, y)
    ensures t == u && x == y
    decreases t, 1
  {
    var keys, others := SortSet(t.fields.Keys), SortSet(u.fields.Keys);
    ObjBodyStart(style, t, level, x);
    ObjBodyStart(style, u, level, y);
    if keys == [] {
      SamePrefix("}", x, y);
    } else {
      var after, behind := Closing(style, level, '}', x), Closing(style, level, '}', y);
      SamePrefix(Break(style, level + 1),
        FieldsText(style, t, keys, level + 1, after), FieldsText(style, u, others, level + 1, behind));
      FieldsInjective(style, t, u, keys, others, level + 1, after, behind);
      ClosingInjective(style, level, '}', x, y);
    }
    SameFields(t, u, keys);
  }

  ghost predicate SameUnder(t: Json, u: Json, key: string)
    requires t.Obj? && u.Obj?
  {
    key in t.fields && key in u.fields && t.fields[key] == u.fields[key]
  }

  lemma SameFields(t: Json, u: Json, keys: seq<string>)
    requires t.Obj? && u.Obj? && t.fields.Keys == Elements(keys) == u.fields.Keys
    requires forall k :: k in keys ==> SameUnder(t, u, k)
    ensures t == u
  {
    forall k | k in t.fields ensures t.fields[k] == u.fields[k] {
      assert k in Elements(keys);
      assert SameUnder(t, u, k);
    }
    assert t.fields == u.fields;
  }

  lemma AfterFieldFollows(style: Style, t: Json, keys: seq<string>, level: nat, rest: string)
    requires t.Obj? && keys != [] && Elements(keys) <= t.fields.Keys && Closes(rest)
    ensures Follows(AfterField(style, t, keys, level, rest))
    ensures Closes(AfterField(style, t, keys, level, rest)) <==> |keys| == 1
  {
    assert Elements(keys[1..]) <= Elements(keys);
    if |keys| > 1 {
      SeparatorFollows(style, level, FieldsText(style, t, keys[1..], level, rest));
    }
  }

  lemma {:induction false} FieldsInjective(
      style: Style, t: Json, u: Json, a: seq<string>, b: seq<string>, level: nat, x: string, y: string)
    requires IsRepr(style.repr) && Closes(x) && Closes(y) && t.Obj? && u.Obj? && a != [] && b != []
    requires Elements(a) <= t.fields.Keys && Elements(b) <= u.fields.Keys
    requires FieldsText(style, t, a, level, x) == FieldsText(style, u, b, level, y)
    ensures a == b && x == y && forall k :: k in a ==> SameUnder(t, u, k)
    decreases t, 0, |a|
  {
    assert a[0] in Elements(a) && b[0] in Elements(b);
    assert Elements(a[1..]) <= Elements(a) && Elements(b[1..]) <= Elements(b);
    var restA, restB := AfterField(style, t, a, level, x), AfterField(style, u, b, level, y);
    AfterFieldFollows(style, t, a, level, x);
    AfterFieldFollows(style, u, b, level, y);
    FirstFieldInjective(style, t, u, a[0], b[0], level, restA, restB);
    if |a| > 1 {
      SamePrefix(Separator(style, level),
        FieldsText(style, t, a[1..], level, x), FieldsText(style, u, b[1..], level, y));
      FieldsInjective(style, t, u, a[1..], b[1..], level, x, y);
    }
    assert a == [a[0]] + a[1..] && b == [b[0]] + b[1..];
  }

  lemma {:induction false} FirstFieldInjective(
      style: Style, t: Json, u: Json, k: string, l: string, level: nat, x: string, y: string)
    requires IsRepr(style.repr) && Follows(x) && Follows(y)
    requires t.Obj? && u.Obj? && k in t.fields && l in u.fields
    requires FieldText(style, t, k, level, x) == FieldText(style, u, l, level, y)
    ensures k == l && SameUnder(t, u, k) && x == y
    decreases t, 0, 0
  {
    var textA, textB := ValueText(style, t.fields[k], level, x), ValueText(style, u.fields[l], level, y);
    SamePrefix("\"", Quoted(style.ascii, k, ": " + textA), Quoted(style.ascii, l, ": " + textB));
    QuotedInjective(style.ascii, k, l, ": " + textA, ": " + textB);
    SamePrefix(": ", textA, textB);
    TextInjective(style, t.fields[k], u.fields[l], level, x, y);
  }

  // ---- The printers ----

  /** `_canonical`. */
  ghost function Canonical(repr: FiniteReal -> string, t: Json): string {
    ValueText(Style(false, false, repr), t, 0, "")
  }

  /** The comparison text of `_mask_and_canonicalize`. */
  ghost function AsciiCanonical(repr: FiniteReal -> string, t: Json): string {
    ValueText(Style(false, true, repr), t, 0, "")
  }

  /** What `canonical_bytes` encodes in UTF-8. */
  ghost function Indented(repr: FiniteReal -> string, t: Json): string {
    ValueText(Style(true, false, repr), t, 0, "\n")
  }

  lemma PrinterInjective(style: Style, t: Json, u: Json, end: string)
    requires IsRepr(style.repr) && Follows(end) && ValueText(style, t, 0, end) == ValueText(style, u, 0, end)
    ensures t == u
  {
    TextInjective(style, t, u, 0, end, end);
  }

  /** All three printers tell all values apart. */
  lemma PrintersInjective(repr: FiniteReal -> string, t: Json, u: Json)
    requires IsRepr(repr)
    ensures Canonical(repr, t) == Canonical(repr, u) <==> t == u
    ensures AsciiCanonical(repr, t) == AsciiCanonical(repr, u) <==> t == u
    ensures Indented(repr, t) == Indented(repr, u) <==> t == u
  {
    if Canonical(repr, t) == Canonical(repr, u) {
      PrinterInjective(Style(false, false, repr), t, u, "");
    }
    if AsciiCanonical(repr, t) == AsciiCanonical(repr, u) {
      PrinterInjective(Style(false, true, repr), t, u, "");
    }
    if Indented(repr, t) == Indented(repr, u) {
      PrinterInjective(Style(true, false, repr), t, u, "\n");
    }
  }
}
