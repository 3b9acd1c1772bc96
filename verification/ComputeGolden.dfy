/** `compute_golden.py`: masked comparison of a recorded output with a fresh one. */
module ComputeGolden {
  import opened Ordering
  import opened Binary
  import opened JsonTree
  import opened Text

  // ---- Python equality of parsed JSON ----

  predicate IsNumber(t: Json) {
    t.Bool? || t.Int? || t.Float?
  }

  datatype Number = Rational(r: real) | Infinity(negative: bool) | Unordered

  /** `True == 1 == 1.0` and `0 == 0.0 == -0.0`; NaN equals nothing, not even itself. */
  function NumberOf(t: Json): Number
    requires IsNumber(t)
  {
    match t
    case Bool(b) => Rational(if b then 1.0 else 0.0)
    case Int(n) => Rational(n as real)
    case Float(Finite(r)) => Rational(r)
    case Float(MinusZero) => Rational(0.0)
    case Float(Infinite(negative)) => Infinity(negative)
    case Float(NaN) => Unordered
  }

  /** `expected == actual` for two values that are not both dicts and not both lists. */
  predicate LeafEqual(e: Json, a: Json) {
    if IsNumber(e) && IsNumber(a) then NumberOf(e) == NumberOf(a) && NumberOf(e) != Unordered
    else (e.Null? && a.Null?) || (e.Str? && a.Str? && e.s == a.s)
  }

  /** Python's `==`, leaf by leaf. */
  predicate PyEqual(e: Json, a: Json) {
    if e.Obj? && a.Obj? then
      && e.fields.Keys == a.fields.Keys
      && forall k :: k in e.fields ==> PyEqual(e.fields[k], a.fields[k])
    else if e.Arr? && a.Arr? then
      && |e.items| == |a.items|
      && forall i :: 0 <= i < |e.items| ==> PyEqual(e.items[i], a.items[i])
    else LeafEqual(e, a)
  }

  predicate NoNaN(t: Json) {
    match t
    case Arr(items) => forall i :: 0 <= i < |items| ==> NoNaN(items[i])
    case Obj(fields) => forall k :: k in fields ==> NoNaN(fields[k])
    case Float(d) => !d.NaN?
    case _ => true
  }

  /** A value equals itself exactly when there is no NaN in it. */
  lemma {:induction false} PyEqualReflexive(t: Json)
    ensures PyEqual(t, t) <==> NoNaN(t)
    decreases t
  {
    match t
    case Arr(items) =>
      forall i | 0 <= i < |items| ensures PyEqual(items[i], items[i]) <==> NoNaN(items[i]) {
        PyEqualReflexive(items[i]);
      }
    case Obj(fields) =>
      forall k | k in fields ensures PyEqual(fields[k], fields[k]) <==> NoNaN(fields[k]) {
        PyEqualReflexive(fields[k]);
      }
    case _ =>
  }

  // ---- Python equality, location by location ----

  /** The real number that a leaf stands for in Python's arithmetic, if it stands for one. */
  ghost predicate Stands(t: Json, r: real) {
    match t
    case Bool(b) => r == if b then 1.0 else 0.0
    case Int(n) => r == n as real
    case Float(Finite(q)) => r == q
    case Float(MinusZero) => r == 0.0
    case _ => false
  }

  ghost predicate IsLeaf(t: Json) {
    !t.Arr? && !t.Obj?
  }

  /** Two leaves are equal when they are the same and not NaN, or stand for the same number. */
  ghost predicate SameLeaf(e: Json, a: Json) {
    IsLeaf(e) && IsLeaf(a) && ((e == a && e != Float(NaN)) || exists r :: Stands(e, r) && Stands(a, r))
  }

  lemma LeafEqualIff(e: Json, a: Json)
    ensures LeafEqual(e, a) <==> SameLeaf(e, a)
  {
    if IsNumber(e) && NumberOf(e).Rational? {
      assert Stands(e, NumberOf(e).r);
    }
  }

  /** What can be seen at a location of both: nothing, two leaves equal to Python, two lists of one
      length, or two dicts. */
  ghost predicate Agree(x: Option<Shape>, y: Option<Shape>) {
    match (x, y)
    case (None, None) => true
    case (Some(Leaf(e)), Some(Leaf(a))) => SameLeaf(e, a)
    case (Some(List(m)), Some(List(n))) => m == n
    case (Some(Dict), Some(Dict)) => true
    case _ => false
  }

  ghost predicate AgreeAt(e: Json, a: Json, loc: Location) {
    Agree(ShapeAt(e, loc), ShapeAt(a, loc))
  }

  lemma {:induction false} EqualAgree(e: Json, a: Json, loc: Location)
    requires PyEqual(e, a)
    ensures AgreeAt(e, a, loc)
    decreases loc
  {
    LeafEqualIff(e, a);
    if loc != [] {
      if e.Arr? && loc[0].Index? && loc[0].i < |e.items| {
        EqualAgree(e.items[loc[0].i], a.items[loc[0].i], loc[1..]);
      } else if e.Obj? && loc[0].Key? && loc[0].key in e.fields {
        EqualAgree(e.fields[loc[0].key], a.fields[loc[0].key], loc[1..]);
      }
    }
  }

  lemma {:induction false} AgreeEqual(e: Json, a: Json)
    requires forall loc :: AgreeAt(e, a, loc)
    ensures PyEqual(e, a)
    decreases e
  {
    assert AgreeAt(e, a, []);
    LeafEqualIff(e, a);
    if e.Arr? {
      forall i | 0 <= i < |e.items| ensures PyEqual(e.items[i], a.items[i]) {
        AgreeBelow(e, a, Index(i));
        AgreeEqual(e.items[i], a.items[i]);
      }
    } else if e.Obj? {
      forall k ensures k in e.fields <==> k in a.fields {
        assert AgreeAt(e, a, [Key(k)]);
        KeyPresent(e, k);
        KeyPresent(a, k);
      }
      forall k | k in e.fields ensures PyEqual(e.fields[k], a.fields[k]) {
        AgreeBelow(e, a, Key(k));
        AgreeEqual(e.fields[k], a.fields[k]);
      }
    }
  }

  lemma AgreeBelow(e: Json, a: Json, step: Step)
    requires forall loc :: AgreeAt(e, a, loc)
    requires Child(e, step).Some? && Child(a, step).Some?
    ensures forall loc :: AgreeAt(Child(e, step).value, Child(a, step).value, loc)
  {
    forall loc ensures AgreeAt(Child(e, step).value, Child(a, step).value, loc) {
      assert AgreeAt(e, a, [step] + loc);
      StepDown(e, step, loc);
      StepDown(a, step, loc);
    }
  }

  /** Python's equality of two trees is agreement at every location. */
  lemma PyEqualIff(e: Json, a: Json)
    ensures PyEqual(e, a) <==> forall loc :: AgreeAt(e, a, loc)
  {
    if PyEqual(e, a) {
      forall loc ensures AgreeAt(e, a, loc) {
        EqualAgree(e, a, loc);
      }
    } else if forall loc :: AgreeAt(e, a, loc) {
      AgreeEqual(e, a);
    }
  }

  // ---- diff_paths ----

  /** A reported difference; `at` is the location rendered in the report. */
  datatype Diff =
    | Added(at: Location)
    | Removed(at: Location)
    | LengthChanged(at: Location, expected: nat, actual: nat)
    | Differs(at: Location, e: Json, a: Json)

  ghost function Diffs(e: Json, a: Json, at: Location): seq<Diff>
    decreases e, 1, 0
  {
    if e.Obj? && a.Obj? then DiffKeys(e, a, SortSet(e.fields.Keys + a.fields.Keys), at)
    else if e.Arr? && a.Arr? then
      LengthDiffs(e, a, at) + DiffItems(e, a, Shorter(e, a), at)
    else if LeafEqual(e, a) then [] else [Differs(at, e, a)]
  }

  function LengthDiffs(e: Json, a: Json, at: Location): seq<Diff>
    requires e.Arr? && a.Arr?
  {
    if |e.items| != |a.items| then [LengthChanged(at, |e.items|, |a.items|)] else []
  }

  ghost function DiffKey(e: Json, a: Json, k: string, at: Location): seq<Diff>
    requires e.Obj? && a.Obj?
    decreases e, 0, 0
  {
    if k !in e.fields then [Added(at + [Key(k)])]
    else if k !in a.fields then [Removed(at + [Key(k)])]
    else Diffs(e.fields[k], a.fields[k], at + [Key(k)])
  }

  ghost function DiffKeys(e: Json, a: Json, keys: seq<string>, at: Location): seq<Diff>
    requires e.Obj? && a.Obj?
    decreases e, 0, |keys| + 1
  {
    if keys == [] then []
    else DiffKeys(e, a, keys[..|keys| - 1], at) + DiffKey(e, a, keys[|keys| - 1], at)
  }

  function Shorter(e: Json, a: Json): nat
    requires e.Arr? && a.Arr?
  {
    if |e.items| <= |a.items| then |e.items| else |a.items|
  }

  ghost function DiffItem(e: Json, a: Json, i: nat, at: Location): seq<Diff>
    requires e.Arr? && a.Arr? && i < Shorter(e, a)
    decreases e, 0, 0
  {
    Diffs(e.items[i], a.items[i], at + [Index(i)])
  }

  ghost function DiffItems(e: Json, a: Json, n: nat, at: Location): seq<Diff>
    requires e.Arr? && a.Arr? && n <= Shorter(e, a)
    decreases e, 0, n + 1
  {
    if n == 0 then [] else DiffItems(e, a, n - 1, at) + DiffItem(e, a, n - 1, at)
  }

  // ---- The printed report ----

  /** The prefix that stands for a location. */
  function PathText(at: Location): string {
    if at == [] then ""
    else StepText(PathText(at[..|at| - 1]), at[|at| - 1])
  }

  function StepText(prefix: string, step: Step): string {
    match step
    case Key(k) => if prefix != "" then prefix + "." + k else k
    case Index(i) => prefix + "[" + IntText(i) + "]"
  }

  lemma PathTextStep(at: Location, step: Step)
    ensures PathText(at + [step]) == StepText(PathText(at), step)
  {
    assert (at + [step])[..|at|] == at;
  }

  /** The line that reports a difference; `show` is Python's `repr` of a value. */
  function Line(show: Json -> string, d: Diff): string {
    match d
    case Added(at) => PathText(at) + " (added)"
    case Removed(at) => PathText(at) + " (removed)"
    case LengthChanged(at, n, m) => PathText(at) + " (len " + IntText(n) + "->" + IntText(m) + ")"
    case Differs(at, e, a) => PathText(at) + ": " + show(e) + " != " + show(a)
  }

  function Lines(show: Json -> string, diffs: seq<Diff>): (r: seq<string>)
    ensures |r| == |diffs| && forall i :: 0 <= i < |diffs| ==> r[i] == Line(show, diffs[i])
  {
    seq(|diffs|, i requires 0 <= i < |diffs| => Line(show, diffs[i]))
  }

  lemma LinesConcat(show: Json -> string, x: seq<Diff>, y: seq<Diff>)
    ensures Lines(show, x + y) == Lines(show, x) + Lines(show, y)
  {
  }

  lemma OneLine(show: Json -> string, d: Diff, line: string)
    requires line == Line(show, d)
    ensures [line] == Lines(show, [d])
  {
  }

  /** The text of a location does not determine it: a key may hold the dot. */
  lemma DottedKeyCollides(a: string, b: string)
    requires a != ""
    ensures PathText([Key(a), Key(b)]) == PathText([Key(a + "." + b)])
  {
    PathTextStep([], Key(a));
    PathTextStep([Key(a)], Key(b));
    PathTextStep([], Key(a + "." + b));
    assert [Key(a)] + [Key(b)] == [Key(a), Key(b)];
    assert [] + [Key(a)] == [Key(a)] && [] + [Key(a + "." + b)] == [Key(a + "." + b)];
  }

  /** `diff_paths`: the lines of the differences, in order. */
  method DiffPaths(show: Json -> string, e: Json, a: Json, prefix: string, ghost at: Location)
    returns (lines: seq<string>)
    requires prefix == PathText(at)
    ensures lines == Lines(show, Diffs(e, a, at))
    decreases e, 1
  {
    if e.Obj? && a.Obj? {
      lines := DiffDicts(show, e, a, prefix, at);
    } else if e.Arr? && a.Arr? {
      lines := DiffLists(show, e, a, prefix, at);
    } else {
      lines := [];
      if !LeafEqual(e, a) {
        var line := prefix + ": " + show(e) + " != " + show(a);
        OneLine(show, Differs(at, e, a), line);
        lines := lines + [line];
      }
    }
  }

  /** Its branch for two dicts: the keys of either, in sorted order. */
  method DiffDicts(show: Json -> string, e: Json, a: Json, prefix: string, ghost at: Location)
    returns (lines: seq<string>)
    requires e.Obj? && a.Obj? && prefix == PathText(at)
    ensures lines == Lines(show, Diffs(e, a, at))
    decreases e, 0, 1
  {
    lines := [];
    var keys := SortedSet(e.fields.Keys + a.fields.Keys);
    for i := 0 to |keys|
      invariant lines == Lines(show, DiffKeys(e, a, keys[..i], at))
    {
      DiffKeysStep(e, a, keys, i, at);
      assert keys[i] in Elements(keys);
      var found := DiffUnderKey(show, e, a, keys[i], prefix, at);
      LinesConcat(show, DiffKeys(e, a, keys[..i], at), DiffKey(e, a, keys[i], at));
      lines := lines + found;
    }
    assert keys[..|keys|] == keys;
  }

  lemma DiffKeysStep(e: Json, a: Json, keys: seq<string>, i: nat, at: Location)
    requires e.Obj? && a.Obj? && i < |keys|
    ensures DiffKeys(e, a, keys[..i + 1], at) == DiffKeys(e, a, keys[..i], at) + DiffKey(e, a, keys[i], at)
  {
    assert keys[..i + 1][..i] == keys[..i];
  }

  /** The body of that loop. */
  method DiffUnderKey(show: Json -> string, e: Json, a: Json, key: string, prefix: string, ghost at: Location)
    returns (lines: seq<string>)
    requires e.Obj? && a.Obj? && (key in e.fields || key in a.fields) && prefix == PathText(at)
    ensures lines == Lines(show, DiffKey(e, a, key, at))
    decreases e, 0, 0
  {
    var child := if prefix != "" then prefix + "." + key else key;
    PathTextStep(at, Key(key));
    if key !in e.fields {
      OneLine(show, Added(at + [Key(key)]), child + " (added)");
      lines := [child + " (added)"];
    } else if key !in a.fields {
      OneLine(show, Removed(at + [Key(key)]), child + " (removed)");
      lines := [child + " (removed)"];
    } else {
      lines := DiffPaths(show, e.fields[key], a.fields[key], child, at + [Key(key)]);
    }
  }

  /** Its branch for two lists: the lengths, and the items both have. */
  method DiffLists(show: Json -> string, e: Json, a: Json, prefix: string, ghost at: Location)
    returns (lines: seq<string>)
    requires e.Arr? && a.Arr? && prefix == PathText(at)
    ensures lines == Lines(show, Diffs(e, a, at))
    decreases e, 0, 1
  {
    lines := LengthLines(show, e, a, prefix, at);
    ghost var head := LengthDiffs(e, a, at);
    for i := 0 to Shorter(e, a)
      invariant lines == Lines(show, head + DiffItems(e, a, i, at))
    {
      var below := DiffAtIndex(show, e, a, i, prefix, at);
      LinesConcat(show, head + DiffItems(e, a, i, at), DiffItem(e, a, i, at));
      DiffItemsStep(e, a, head, i, at);
      lines := lines + below;
    }
  }

  /** The body of that loop. */
  method DiffAtIndex(show: Json -> string, e: Json, a: Json, i: nat, prefix: string, ghost at: Location)
    returns (lines: seq<string>)
    requires e.Arr? && a.Arr? && i < Shorter(e, a) && prefix == PathText(at)
    ensures lines == Lines(show, DiffItem(e, a, i, at))
    decreases e, 0, 0
  {
    PathTextStep(at, Index(i));
    lines := DiffPaths(show, e.items[i], a.items[i], prefix + "[" + IntText(i) + "]", at + [Index(i)]);
  }

  lemma DiffItemsStep(e: Json, a: Json, head: seq<Diff>, i: nat, at: Location)
    requires e.Arr? && a.Arr? && i < Shorter(e, a)
    ensures head + DiffItems(e, a, i + 1, at) == head + DiffItems(e, a, i, at) + DiffItem(e, a, i, at)
  {
  }

  method LengthLines(show: Json -> string, e: Json, a: Json, prefix: string, ghost at: Location)
    returns (lines: seq<string>)
    requires e.Arr? && a.Arr? && prefix == PathText(at)
    ensures lines == Lines(show, LengthDiffs(e, a, at))
  {
    lines := [];
    if |e.items| != |a.items| {
      var line := prefix + " (len " + IntText(|e.items|) + "->" + IntText(|a.items|) + ")";
      OneLine(show, LengthChanged(at, |e.items|, |a.items|), line);
      lines := lines + [line];
    }
  }

  ghost predicate SameKey(e: Json, a: Json, k: string, at: Location)
    requires e.Obj? && a.Obj?
  {
    DiffKey(e, a, k, at) == []
  }

  lemma {:induction false} DiffKeysEmpty(e: Json, a: Json, keys: seq<string>, at: Location)
    requires e.Obj? && a.Obj?
    ensures DiffKeys(e, a, keys, at) == [] <==> forall k :: k in keys ==> SameKey(e, a, k, at)
  {
    if keys != [] {
      var init, last := keys[..|keys| - 1], keys[|keys| - 1];
      DiffKeysEmpty(e, a, init, at);
      assert keys == init + [last];
      assert forall k :: k in keys <==> k in init || k == last;
      assert DiffKeys(e, a, keys, at) == [] <==> DiffKeys(e, a, init, at) == [] && SameKey(e, a, last, at);
    }
  }

  ghost predicate SameItem(e: Json, a: Json, i: nat, at: Location)
    requires e.Arr? && a.Arr? && i < Shorter(e, a)
  {
    DiffItem(e, a, i, at) == []
  }

  lemma {:induction false} DiffItemsEmpty(e: Json, a: Json, n: nat, at: Location)
    requires e.Arr? && a.Arr? && n <= Shorter(e, a)
    ensures DiffItems(e, a, n, at) == [] <==>
            forall i: nat :: i < n ==> SameItem(e, a, i, at)
  {
    if n > 0 {
      DiffItemsEmpty(e, a, n - 1, at);
      assert DiffItems(e, a, n, at) == [] <==> DiffItems(e, a, n - 1, at) == [] && SameItem(e, a, n - 1, at);
    }
  }

  /** No path is reported exactly when the two trees are equal in Python's sense. */
  lemma {:induction false} NoDiffsIffPyEqual(e: Json, a: Json, at: Location)
    ensures Diffs(e, a, at) == [] <==> PyEqual(e, a)
    decreases e
  {
    if e.Obj? && a.Obj? {
      var keys := SortSet(e.fields.Keys + a.fields.Keys);
      DiffKeysEmpty(e, a, keys, at);
      assert forall k :: k in keys <==> k in Elements(keys);
      forall k | k in e.fields && k in a.fields
        ensures SameKey(e, a, k, at) <==> PyEqual(e.fields[k], a.fields[k])
      {
        NoDiffsIffPyEqual(e.fields[k], a.fields[k], at + [Key(k)]);
      }
      assert forall k :: k in keys && SameKey(e, a, k, at) ==> k in e.fields && k in a.fields;
      if forall k :: k in keys ==> SameKey(e, a, k, at) {
        assert forall k :: k in e.fields || k in a.fields ==> k in keys;
        assert e.fields.Keys == a.fields.Keys;
      }
    } else if e.Arr? && a.Arr? {
      DiffItemsEmpty(e, a, Shorter(e, a), at);
      forall i: nat | i < Shorter(e, a)
        ensures SameItem(e, a, i, at) <==> PyEqual(e.items[i], a.items[i])
      {
        NoDiffsIffPyEqual(e.items[i], a.items[i], at + [Index(i)]);
      }
    }
  }

  // ---- Which differences are reported ----

  /** `d` is a difference of the two trees at the location `rel`, which exists in both. */
  ghost predicate DiffersAt(e: Json, a: Json, rel: Location, d: Diff, at: Location) {
    && At(e, rel).Some? && At(a, rel).Some?
    && var x, y := At(e, rel).value, At(a, rel).value;
       match d
       case Added(l) => x.Obj? && y.Obj? && exists k :: l == at + rel + [Key(k)] && k !in x.fields && k in y.fields
       case Removed(l) => x.Obj? && y.Obj? && exists k :: l == at + rel + [Key(k)] && k in x.fields && k !in y.fields
       case LengthChanged(l, n, m) => l == at + rel && x.Arr? && y.Arr? && n == |x.items| != m == |y.items|
       case Differs(l, u, v) =>
         l == at + rel && u == x && v == y && !(x.Obj? && y.Obj?) && !(x.Arr? && y.Arr?) && !LeafEqual(x, y)
  }

  ghost predicate IsDiff(e: Json, a: Json, d: Diff, at: Location) {
    exists rel :: DiffersAt(e, a, rel, d, at)
  }

  /** The child of a container under one step. */
  function Child(t: Json, step: Step): Option<Json> {
    match t
    case Arr(items) => if step.Index? && step.i < |items| then Some(items[step.i]) else None
    case Obj(fields) => if step.Key? && step.key in fields then Some(fields[step.key]) else None
    case _ => None
  }

  lemma DiffersBelow(e: Json, a: Json, step: Step, rest: Location, d: Diff, at: Location)
    ensures DiffersAt(e, a, [step] + rest, d, at) <==>
            && Child(e, step).Some? && Child(a, step).Some?
            && DiffersAt(Child(e, step).value, Child(a, step).value, rest, d, at + [step])
  {
    var rel := [step] + rest;
    assert rel[1..] == rest && at + rel == at + [step] + rest;
    assert At(e, rel) == if Child(e, step).Some? then At(Child(e, step).value, rest) else None;
    assert At(a, rel) == if Child(a, step).Some? then At(Child(a, step).value, rest) else None;
  }

  /** A difference lies below `step`, which both trees can take. */
  ghost predicate Below(e: Json, a: Json, step: Step, d: Diff, at: Location) {
    && Child(e, step).Some? && Child(a, step).Some?
    && IsDiff(Child(e, step).value, Child(a, step).value, d, at + [step])
  }

  /** A difference is at the top, or below some step both trees can take. */
  lemma IsDiffSplit(e: Json, a: Json, d: Diff, at: Location)
    ensures IsDiff(e, a, d, at) <==> DiffersAt(e, a, [], d, at) || exists step :: Below(e, a, step, d, at)
  {
    if IsDiff(e, a, d, at) {
      var rel :| DiffersAt(e, a, rel, d, at);
      if rel != [] {
        assert rel == [rel[0]] + rel[1..];
        DiffersBelow(e, a, rel[0], rel[1..], d, at);
        assert Below(e, a, rel[0], d, at);
      }
    }
    if step :| Below(e, a, step, d, at) {
      var rest :| DiffersAt(Child(e, step).value, Child(a, step).value, rest, d, at + [step]);
      DiffersBelow(e, a, step, rest, d, at);
    }
  }

  ghost predicate InKey(e: Json, a: Json, k: string, d: Diff, at: Location)
    requires e.Obj? && a.Obj?
  {
    d in DiffKey(e, a, k, at)
  }

  ghost predicate InItem(e: Json, a: Json, i: nat, d: Diff, at: Location)
    requires e.Arr? && a.Arr? && i < Shorter(e, a)
  {
    d in DiffItem(e, a, i, at)
  }

  lemma {:induction false} InDiffKeys(e: Json, a: Json, keys: seq<string>, d: Diff, at: Location)
    requires e.Obj? && a.Obj?
    ensures d in DiffKeys(e, a, keys, at) <==> exists k :: k in keys && InKey(e, a, k, d, at)
  {
    if keys != [] {
      var init, last := keys[..|keys| - 1], keys[|keys| - 1];
      InDiffKeys(e, a, init, d, at);
      assert keys == init + [last];
      assert last in keys && forall k :: k in keys ==> k in init || k == last;
      assert d in DiffKeys(e, a, keys, at) <==> d in DiffKeys(e, a, init, at) || InKey(e, a, last, d, at);
    }
  }

  lemma {:induction false} InDiffItems(e: Json, a: Json, n: nat, d: Diff, at: Location)
    requires e.Arr? && a.Arr? && n <= Shorter(e, a)
    ensures d in DiffItems(e, a, n, at) <==> exists i: nat :: i < n && InItem(e, a, i, d, at)
  {
    if n > 0 {
      InDiffItems(e, a, n - 1, d, at);
      assert d in DiffItems(e, a, n, at) <==> d in DiffItems(e, a, n - 1, at) || InItem(e, a, n - 1, d, at);
    }
  }

  /** `diff_paths` reports exactly the differences of the two trees: keys on one side only, lengths
      that changed, and unequal values that are not two dicts or two lists. */
  lemma {:induction false} DiffsExact(e: Json, a: Json, d: Diff, at: Location)
    ensures d in Diffs(e, a, at) <==> IsDiff(e, a, d, at)
    decreases e, 2
  {
    if e.Obj? && a.Obj? {
      DiffsExactObj(e, a, d, at);
    } else if e.Arr? && a.Arr? {
      DiffsExactArr(e, a, d, at);
    } else {
      DiffsExactLeaf(e, a, d, at);
    }
  }

  lemma DiffsExactLeaf(e: Json, a: Json, d: Diff, at: Location)
    requires !(e.Obj? && a.Obj?) && !(e.Arr? && a.Arr?)
    ensures d in Diffs(e, a, at) <==> IsDiff(e, a, d, at)
  {
    LeafDiffers(e, a, d, at);
    IsDiffSplit(e, a, d, at);
    forall step ensures !Below(e, a, step, d, at) {
      NoCommonStep(e, a, step);
    }
  }

  lemma LeafDiffers(e: Json, a: Json, d: Diff, at: Location)
    requires !(e.Obj? && a.Obj?) && !(e.Arr? && a.Arr?)
    ensures DiffersAt(e, a, [], d, at) <==> d in Diffs(e, a, at)
  {
    assert at + [] == at;
  }

  lemma NoCommonStep(e: Json, a: Json, step: Step)
    requires !(e.Obj? && a.Obj?) && !(e.Arr? && a.Arr?)
    ensures !(Child(e, step).Some? && Child(a, step).Some?)
  {
  }

  lemma {:induction false} ItemExact(e: Json, a: Json, i: nat, d: Diff, at: Location)
    requires e.Arr? && a.Arr? && i < Shorter(e, a)
    ensures InItem(e, a, i, d, at) <==> Below(e, a, Index(i), d, at)
    decreases e, 0
  {
    DiffsExact(e.items[i], a.items[i], d, at + [Index(i)]);
  }

  lemma LengthDiffers(e: Json, a: Json, d: Diff, at: Location)
    requires e.Arr? && a.Arr?
    ensures DiffersAt(e, a, [], d, at) <==> |e.items| != |a.items| && d == LengthChanged(at, |e.items|, |a.items|)
  {
    assert at + [] == at;
  }

  lemma {:induction false} DiffsExactArr(e: Json, a: Json, d: Diff, at: Location)
    requires e.Arr? && a.Arr?
    ensures d in Diffs(e, a, at) <==> IsDiff(e, a, d, at)
    decreases e, 1
  {
    var n := Shorter(e, a);
    InDiffItems(e, a, n, d, at);
    LengthDiffers(e, a, d, at);
    IsDiffSplit(e, a, d, at);
    forall i: nat | i < n ensures InItem(e, a, i, d, at) <==> Below(e, a, Index(i), d, at) {
      ItemExact(e, a, i, d, at);
    }
    if step :| Below(e, a, step, d, at) {
      assert step.Index? && step.i < n && InItem(e, a, step.i, d, at);
    }
  }

  ghost predicate OneSided(e: Json, a: Json, k: string, d: Diff, at: Location)
    requires e.Obj? && a.Obj?
  {
    || (d == Added(at + [Key(k)]) && k !in e.fields && k in a.fields)
    || (d == Removed(at + [Key(k)]) && k in e.fields && k !in a.fields)
  }

  lemma TopDiffers(e: Json, a: Json, d: Diff, at: Location)
    requires e.Obj? && a.Obj?
    ensures DiffersAt(e, a, [], d, at) <==> exists k :: OneSided(e, a, k, d, at)
  {
    assert at + [] == at;
    if DiffersAt(e, a, [], d, at) {
      if d.Added? {
        var k :| d.at == at + [] + [Key(k)] && k !in e.fields && k in a.fields;
        assert OneSided(e, a, k, d, at);
      } else {
        var k :| d.at == at + [] + [Key(k)] && k in e.fields && k !in a.fields;
        assert OneSided(e, a, k, d, at);
      }
    }
    if k :| OneSided(e, a, k, d, at) {
      assert d.at == at + [] + [Key(k)];
    }
  }

  lemma {:induction false} KeyExact(e: Json, a: Json, k: string, d: Diff, at: Location)
    requires e.Obj? && a.Obj? && (k in e.fields || k in a.fields)
    ensures InKey(e, a, k, d, at) <==> OneSided(e, a, k, d, at) || Below(e, a, Key(k), d, at)
    decreases e, 0
  {
    if k in e.fields && k in a.fields {
      DiffsExact(e.fields[k], a.fields[k], d, at + [Key(k)]);
    }
  }

  lemma {:induction false} DiffsExactObj(e: Json, a: Json, d: Diff, at: Location)
    requires e.Obj? && a.Obj?
    ensures d in Diffs(e, a, at) <==> IsDiff(e, a, d, at)
    decreases e, 1
  {
    var keys := SortSet(e.fields.Keys + a.fields.Keys);
    InDiffKeys(e, a, keys, d, at);
    TopDiffers(e, a, d, at);
    IsDiffSplit(e, a, d, at);
    forall k ensures k in keys <==> k in e.fields || k in a.fields {
      assert k in keys <==> k in Elements(keys);
    }
    forall k | k in keys ensures InKey(e, a, k, d, at) <==> OneSided(e, a, k, d, at) || Below(e, a, Key(k), d, at) {
      KeyExact(e, a, k, d, at);
    }
    if k :| OneSided(e, a, k, d, at) {
      assert k in keys && InKey(e, a, k, d, at);
    }
    if step :| Below(e, a, step, d, at) {
      assert step.Key? && step.key in keys && InKey(e, a, step.key, d, at);
    }
  }

  // ---- Recording and comparing ----

  function Segments(mask: seq<string>): (r: seq<seq<string>>)
    ensures |r| == |mask| && forall i :: 0 <= i < |mask| ==> r[i] == SplitDots(mask[i])
  {
    seq(|mask|, i requires 0 <= i < |mask| => SplitDots(mask[i]))
  }

  /** The value `apply_mask` computes. */
  function Masked(t: Json, mask: seq<string>): Json {
    RemovePaths(t, Segments(mask))
  }

  lemma SegmentsNonEmpty(mask: seq<string>)
    ensures NonEmpty(Segments(mask))
  {
    forall p | p in Segments(mask) ensures p != [] {
      var i :| 0 <= i < |mask| && p == Segments(mask)[i];
    }
  }

  /** The golden record; the type names it also stores play no part in the comparison. */
  datatype Golden = Golden(input: Json, output: Json, volatileMask: Option<seq<string>>)

  function RecordGolden(output: Json, input: Json, mask: Option<seq<string>>): Golden {
    Golden(input, output, Some(if mask.Some? then mask.value else []))
  }

  function MaskOf(g: Golden): seq<string> {
    if g.volatileMask.Some? then g.volatileMask.value else []
  }

  /** `outputs_equivalent`, for a canonical printer. */
  predicate OutputsEquivalent(canonical: Json -> string, a: Json, b: Json, mask: seq<string>) {
    canonical(Masked(a, mask)) == canonical(Masked(b, mask))
  }

  ghost predicate Injective(canonical: Json -> string) {
    forall t, u :: canonical(t) == canonical(u) ==> t == u
  }

  /** The trees agree wherever no masked path leads. */
  ghost predicate AgreeOutside(e: Json, a: Json, mask: seq<string>) {
    forall loc :: !Hidden(Segments(mask), loc) ==> AgreeAt(e, a, loc)
  }

  /** Equality after masking is agreement outside the mask. */
  lemma MaskedEqualIff(e: Json, a: Json, mask: seq<string>)
    ensures PyEqual(Masked(e, mask), Masked(a, mask)) <==> AgreeOutside(e, a, mask)
  {
    SegmentsNonEmpty(mask);
    PyEqualIff(Masked(e, mask), Masked(a, mask));
    forall loc
      ensures AgreeAt(Masked(e, mask), Masked(a, mask), loc) <==> Hidden(Segments(mask), loc) || AgreeAt(e, a, loc)
    {
      RemovePathsExact(e, Segments(mask), loc);
      RemovePathsExact(a, Segments(mask), loc);
    }
  }

  /** `compare_output`: the lines of the differences left by the recorded mask; none exactly when the
      outputs agree outside it. A golden without a mask masks nothing. */
  method CompareOutput(show: Json -> string, g: Golden, output: Json) returns (lines: seq<string>)
    ensures var mask := if g.volatileMask.Some? then g.volatileMask.value else [];
      && lines == Lines(show, Diffs(Masked(g.output, mask), Masked(output, mask), []))
      && (lines == [] <==> AgreeOutside(g.output, output, mask))
  {
    lines := DiffPaths(show, Masked(g.output, MaskOf(g)), Masked(output, MaskOf(g)), "", []);
    NoDiffsIffPyEqual(Masked(g.output, MaskOf(g)), Masked(output, MaskOf(g)), []);
    MaskedEqualIff(g.output, output, MaskOf(g));
  }

  /** Recording an output and comparing a later one with the record: nothing is found exactly when the
      two agree outside the mask given to the recording, or everywhere if none was given. */
  method RecordAndCompare(show: Json -> string, output: Json, input: Json, mask: Option<seq<string>>, later: Json)
    returns (lines: seq<string>)
    ensures mask.Some? ==> (lines == [] <==> AgreeOutside(output, later, mask.value))
    ensures mask.None? ==> (lines == [] <==> forall loc :: AgreeAt(output, later, loc))
  {
    lines := CompareOutput(show, RecordGolden(output, input, mask), later);
    assert forall loc :: !Hidden(Segments([]), loc);
  }

  /** Two outputs are equivalent exactly when they show the same at every location outside the mask. */
  lemma EquivalentIff(canonical: Json -> string, a: Json, b: Json, mask: seq<string>)
    requires Injective(canonical)
    ensures OutputsEquivalent(canonical, a, b, mask) <==>
            forall loc :: !Hidden(Segments(mask), loc) ==> ShapeAt(a, loc) == ShapeAt(b, loc)
  {
    SegmentsNonEmpty(mask);
    var x, y := Masked(a, mask), Masked(b, mask);
    forall loc ensures ShapeAt(x, loc) == ShapeAt(y, loc) <==>
                       Hidden(Segments(mask), loc) || ShapeAt(a, loc) == ShapeAt(b, loc) {
      RemovePathsExact(a, Segments(mask), loc);
      RemovePathsExact(b, Segments(mask), loc);
    }
    if forall loc :: !Hidden(Segments(mask), loc) ==> ShapeAt(a, loc) == ShapeAt(b, loc) {
      Extensional(x, y);
    }
  }

  /** A larger mask only merges outputs that a smaller one tells apart. */
  lemma EnlargingMaskMerges(canonical: Json -> string, a: Json, b: Json, small: seq<string>, large: seq<string>)
    requires Injective(canonical)
    requires forall m :: m in small ==> m in large
    requires OutputsEquivalent(canonical, a, b, small)
    ensures OutputsEquivalent(canonical, a, b, large)
  {
    SegmentsNonEmpty(large);
    SegmentsKept(small, large);
    MaskAbsorbs(a, Segments(small), Segments(large));
    MaskAbsorbs(b, Segments(small), Segments(large));
    assert Masked(a, small) == Masked(b, small);
  }

  /** Removing a path keeps two values equal to Python. */
  lemma {:induction false} PyEqualRemoved(e: Json, a: Json, p: seq<string>)
    requires PyEqual(e, a)
    ensures PyEqual(RemovePath(e, p), RemovePath(a, p))
    decreases e, |p|
  {
    if p != [] {
      match e
      case Arr(items) =>
        forall i | 0 <= i < |items| ensures PyEqual(RemovePath(items[i], p), RemovePath(a.items[i], p)) {
          PyEqualRemoved(items[i], a.items[i], p);
        }
      case Obj(fields) =>
        if |p| > 1 && p[0] in fields {
          PyEqualRemoved(fields[p[0]], a.fields[p[0]], p[1..]);
        }
      case _ =>
    }
  }

  lemma {:induction false} PyEqualMasked(e: Json, a: Json, paths: seq<seq<string>>)
    requires PyEqual(e, a)
    ensures PyEqual(RemovePaths(e, paths), RemovePaths(a, paths))
  {
    if paths != [] {
      var init, last := paths[..|paths| - 1], paths[|paths| - 1];
      PyEqualMasked(e, a, init);
      PyEqualRemoved(RemovePaths(e, init), RemovePaths(a, init), last);
    }
  }

  lemma SegmentsKept(small: seq<string>, large: seq<string>)
    requires forall m :: m in small ==> m in large
    ensures forall p :: p in Segments(small) ==> p in Segments(large)
  {
    forall p | p in Segments(small) ensures p in Segments(large) {
      var i :| 0 <= i < |small| && p == Segments(small)[i];
      assert small[i] in large;
      var j :| 0 <= j < |large| && large[j] == small[i];
      assert Segments(large)[j] == p;
    }
  }

  /** A comparison that finds nothing under a mask finds nothing under a larger one. */
  lemma EnlargingMaskKeepsEmpty(e: Json, a: Json, small: seq<string>, large: seq<string>)
    requires forall m :: m in small ==> m in large
    requires Diffs(Masked(e, small), Masked(a, small), []) == []
    ensures Diffs(Masked(e, large), Masked(a, large), []) == []
  {
    SegmentsNonEmpty(large);
    SegmentsKept(small, large);
    MaskAbsorbs(e, Segments(small), Segments(large));
    MaskAbsorbs(a, Segments(small), Segments(large));
    NoDiffsIffPyEqual(Masked(e, small), Masked(a, small), []);
    PyEqualMasked(Masked(e, small), Masked(a, small), Segments(large));
    NoDiffsIffPyEqual(Masked(e, large), Masked(a, large), []);
  }

  // ---- When the two comparisons agree ----

  /** A leaf that Python's `==` and printing treat differently: one that a number of another spelling
      equals, or a NaN, which does not equal itself. */
  ghost predicate Confusable(t: Json) {
    match t
    case Bool(_) => true
    case Int(n) => IsDouble(n as real)
    case Float(Finite(r)) => r.Floor as real == r
    case Float(d) => d.MinusZero? || d.NaN?
    case _ => false
  }

  ghost predicate NoConfusable(t: Json) {
    match t
    case Arr(items) => forall i :: 0 <= i < |items| ==> NoConfusable(items[i])
    case Obj(fields) => forall k :: k in fields ==> NoConfusable(fields[k])
    case _ => !Confusable(t)
  }

  /** An integer that a number of another spelling equals is one that some float stands for. */
  lemma IntEqualled(n: int, a: Json)
    requires IsNumber(a) && !a.Int? && NumberOf(a) == Rational(n as real)
    ensures IsDouble(n as real)
  {
    SmallIntDouble(0);
    SmallIntDouble(1);
    if a.Float? && a.d.Finite? { assert IsDouble(a.d.r); }
  }

  lemma WholeEqualled(r: FiniteReal, a: Json)
    requires IsNumber(a) && !a.Float? && NumberOf(a) == Rational(r)
    ensures r.Floor as real == r
  {
    match a
    case Bool(b) => assert (if b then 1.0 else 0.0) == (if b then 1 else 0) as real;
    case Int(n) => assert (n as real).Floor == n;
  }

  lemma LeafExact(e: Json, a: Json)
    requires !e.Arr? && !e.Obj? && !Confusable(e) && LeafEqual(e, a)
    ensures e == a
  {
    if e.Int? && !a.Int? {
      IntEqualled(e.n, a);
    } else if e.Float? && e.d.Finite? && !a.Float? {
      WholeEqualled(e.d.r, a);
    }
  }

  lemma {:induction false} PyEqualExact(e: Json, a: Json)
    requires NoConfusable(e) && PyEqual(e, a)
    ensures e == a
    decreases e
  {
    match e
    case Arr(items) =>
      forall i | 0 <= i < |items| ensures items[i] == a.items[i] { PyEqualExact(items[i], a.items[i]); }
    case Obj(fields) =>
      forall k | k in fields ensures fields[k] == a.fields[k] { PyEqualExact(fields[k], a.fields[k]); }
    case _ => LeafExact(e, a);
  }

  lemma {:induction false} NoConfusableNoNaN(t: Json)
    requires NoConfusable(t)
    ensures NoNaN(t)
    decreases t
  {
    match t
    case Arr(items) =>
      forall i | 0 <= i < |items| ensures NoNaN(items[i]) { NoConfusableNoNaN(items[i]); }
    case Obj(fields) =>
      forall k | k in fields ensures NoNaN(fields[k]) { NoConfusableNoNaN(fields[k]); }
    case _ =>
  }

  /** The same tree with every confusable leaf but NaN written as a number of another spelling. */
  ghost function Twin(t: Json): Json {
    match t
    case Bool(b) => Int(if b then 1 else 0)
    case Int(n) => if IsDouble(n as real) then Float(Finite(n as real)) else t
    case Float(Finite(r)) => if Confusable(t) then Int(r.Floor) else t
    case Float(MinusZero) => Int(0)
    case Arr(items) => Arr(seq(|items|, i requires 0 <= i < |items| => Twin(items[i])))
    case Obj(fields) => Obj(map k | k in fields :: Twin(fields[k]))
    case _ => t
  }

  lemma {:induction false} TwinEqual(t: Json)
    requires NoNaN(t)
    ensures PyEqual(t, Twin(t))
    ensures !NoConfusable(t) ==> Twin(t) != t
    decreases t
  {
    match t
    case Arr(items) =>
      forall i | 0 <= i < |items| ensures PyEqual(items[i], Twin(items[i])) &&
                                          (!NoConfusable(items[i]) ==> Twin(items[i]) != items[i])
      {
        TwinEqual(items[i]);
      }
      if i :| 0 <= i < |items| && !NoConfusable(items[i]) {
        assert Twin(t).items[i] != items[i];
      }
    case Obj(fields) =>
      forall k | k in fields ensures PyEqual(fields[k], Twin(fields[k])) &&
                                     (!NoConfusable(fields[k]) ==> Twin(fields[k]) != fields[k])
      {
        TwinEqual(fields[k]);
      }
      if k :| k in fields && !NoConfusable(fields[k]) {
        assert Twin(t).fields[k] != fields[k];
      }
    case _ =>
  }

  lemma {:induction false} TwinLocations(t: Json, loc: Location)
    ensures At(Twin(t), loc).Some? <==> At(t, loc).Some?
    ensures At(t, loc).Some? ==> At(Twin(t), loc).value == Twin(At(t, loc).value)
    decreases t
  {
    if loc != [] {
      match t
      case Arr(items) => if loc[0].Index? && loc[0].i < |items| { TwinLocations(items[loc[0].i], loc[1..]); }
      case Obj(fields) => if loc[0].Key? && loc[0].key in fields { TwinLocations(fields[loc[0].key], loc[1..]); }
      case _ =>
    }
  }

  /** What is left after masking has no masked location, and neither has its twin. */
  lemma TwinStaysMasked(t: Json, paths: seq<seq<string>>)
    requires NonEmpty(paths)
    ensures RemovePaths(Twin(RemovePaths(t, paths)), paths) == Twin(RemovePaths(t, paths))
  {
    var m := RemovePaths(t, paths);
    forall loc ensures ShapeAt(RemovePaths(Twin(m), paths), loc) == ShapeAt(Twin(m), loc) {
      RemovePathsExact(Twin(m), paths, loc);
      RemovePathsExact(t, paths, loc);
      TwinLocations(m, loc);
    }
    Extensional(RemovePaths(Twin(m), paths), Twin(m));
  }

  /** `compare_output` finds nothing exactly when `outputs_equivalent` holds. */
  ghost predicate AgreeOn(canonical: Json -> string, g: Golden, output: Json) {
    Diffs(Masked(g.output, MaskOf(g)), Masked(output, MaskOf(g)), []) == [] <==>
    OutputsEquivalent(canonical, g.output, output, MaskOf(g))
  }

  /** A golden that contains NaN differs from itself in the comparison and prints like itself. */
  lemma NaNDisagrees(canonical: Json -> string, g: Golden)
    requires !NoNaN(Masked(g.output, MaskOf(g)))
    ensures !AgreeOn(canonical, g, Masked(g.output, MaskOf(g)))
  {
    var m := Masked(g.output, MaskOf(g));
    SegmentsNonEmpty(MaskOf(g));
    MaskIdempotent(g.output, Segments(MaskOf(g)));
    NoDiffsIffPyEqual(m, m, []);
    PyEqualReflexive(m);
  }

  lemma TwinDisagrees(canonical: Json -> string, g: Golden)
    requires Injective(canonical)
    requires NoNaN(Masked(g.output, MaskOf(g))) && !NoConfusable(Masked(g.output, MaskOf(g)))
    ensures !AgreeOn(canonical, g, Twin(Masked(g.output, MaskOf(g))))
  {
    var m := Masked(g.output, MaskOf(g));
    SegmentsNonEmpty(MaskOf(g));
    TwinStaysMasked(g.output, Segments(MaskOf(g)));
    TwinEqual(m);
    NoDiffsIffPyEqual(m, Twin(m), []);
  }

  /** The two comparisons agree on every fresh output exactly when the masked golden has no boolean, no
      integer that a float equals, no whole-number float, no negative zero and no NaN: Python's `==`
      blurs or splits those, printing does not. */
  lemma AgreementExact(canonical: Json -> string, g: Golden)
    requires Injective(canonical)
    ensures (forall output :: AgreeOn(canonical, g, output)) <==> NoConfusable(Masked(g.output, MaskOf(g)))
  {
    var m := Masked(g.output, MaskOf(g));
    if NoConfusable(m) {
      forall output ensures AgreeOn(canonical, g, output) {
        var f := Masked(output, MaskOf(g));
        NoDiffsIffPyEqual(m, f, []);
        NoConfusableNoNaN(m);
        PyEqualReflexive(m);
        if PyEqual(m, f) { PyEqualExact(m, f); }
      }
    } else if NoNaN(m) {
      TwinDisagrees(canonical, g);
    } else {
      NaNDisagrees(canonical, g);
    }
  }

  /** The limit of the integers: 2^53 + 1 equals no float, so it is told apart. */
  lemma BigIntegerAgrees(canonical: Json -> string, output: Json)
    requires Injective(canonical)
    ensures AgreeOn(canonical, RecordGolden(Int(PRECISION + 1), Null, None), output)
  {
    var g := RecordGolden(Int(PRECISION + 1), Null, None);
    BigOddNotDouble(PRECISION + 1);
    assert Masked(g.output, MaskOf(g)) == Int(PRECISION + 1);
    AgreementExact(canonical, g);
  }

  /** Same tree of containers, and number leaves of the same type wherever both have one; no NaN, and
      zeros of the same sign. */
  predicate SameTypes(e: Json, a: Json) {
    match e
    case Arr(items) =>
      a.Arr? ==> forall i :: 0 <= i < |items| && i < |a.items| ==> SameTypes(items[i], a.items[i])
    case Obj(fields) =>
      a.Obj? ==> forall k :: k in fields && k in a.fields ==> SameTypes(fields[k], a.fields[k])
    case Bool(_) => IsNumber(a) ==> a.Bool?
    case Int(_) => IsNumber(a) ==> a.Int?
    case Float(d) => IsNumber(a) ==> a.Float? && SameZero(d, a.d)
    case _ => true
  }

  /** Not the two zeros of different sign. */
  predicate SameZero(d: Double, f: Double) {
    && (d.MinusZero? && f.Finite? ==> f.r != 0.0)
    && (d.Finite? && f.MinusZero? ==> d.r != 0.0)
  }

  lemma {:induction false} SameTypesExact(e: Json, a: Json)
    requires SameTypes(e, a) && PyEqual(e, a)
    ensures e == a
    decreases e
  {
    match e
    case Arr(items) =>
      forall i | 0 <= i < |items| ensures items[i] == a.items[i] { SameTypesExact(items[i], a.items[i]); }
    case Obj(fields) =>
      forall k | k in fields ensures fields[k] == a.fields[k] { SameTypesExact(fields[k], a.fields[k]); }
    case _ =>
  }

  /** For two dumps without NaN whose shared number leaves have the same types and signs of zero, as
      two dumps of one typed model have, the comparisons agree. */
  lemma AgreementSameTypes(canonical: Json -> string, g: Golden, output: Json)
    requires Injective(canonical) && NoNaN(Masked(g.output, MaskOf(g)))
    requires SameTypes(Masked(g.output, MaskOf(g)), Masked(output, MaskOf(g)))
    ensures AgreeOn(canonical, g, output)
  {
    var m, f := Masked(g.output, MaskOf(g)), Masked(output, MaskOf(g));
    NoDiffsIffPyEqual(m, f, []);
    PyEqualReflexive(m);
    if PyEqual(m, f) { SameTypesExact(m, f); }
  }

  /** The exact condition for one pair: they agree unless the outputs are equal to Python but not the
      same value, or the same value with a NaN in it. */
  lemma AgreementPairExact(canonical: Json -> string, g: Golden, output: Json)
    requires Injective(canonical)
    ensures var m, f := Masked(g.output, MaskOf(g)), Masked(output, MaskOf(g));
      AgreeOn(canonical, g, output) <==> if m == f then NoNaN(m) else !PyEqual(m, f)
  {
    var m, f := Masked(g.output, MaskOf(g)), Masked(output, MaskOf(g));
    NoDiffsIffPyEqual(m, f, []);
    PyEqualReflexive(m);
  }

  /** The disagreement: a golden `{"n": 1}` against a fresh `{"n": true}`. */
  lemma Disagreement(canonical: Json -> string)
    requires Injective(canonical)
    ensures exists g, output :: !AgreeOn(canonical, g, output)
  {
    var e, a := Obj(map["n" := Int(1)]), Obj(map["n" := Bool(true)]);
    var g := RecordGolden(e, Null, None);
    assert Masked(e, []) == e && Masked(a, []) == a;
    NoDiffsIffPyEqual(e, a, []);
    assert e.fields["n"] != a.fields["n"];
    assert MaskOf(g) == [] && PyEqual(e, a) && e != a;
    assert !AgreeOn(canonical, g, a);
  }
}
