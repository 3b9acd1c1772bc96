/** JSON values, locations inside them, and removal of dotted paths as `compute_golden.py` does it. */
module JsonTree {
  import opened Ordering
  import opened Binary
  import opened Text

  datatype Json =
    | Null
    | Bool(b: bool)
    | Int(n: int)
    | Float(d: Double)
    | Str(s: string)
    | Arr(items: seq<Json>)
    | Obj(fields: map<string, Json>)

  datatype Step = Key(key: string) | Index(i: nat)

  type Location = seq<Step>

  /** What can be seen at a location without looking below it. */
  datatype Shape = Leaf(value: Json) | List(length: nat) | Dict

  function ShapeOf(t: Json): Shape {
    match t
    case Arr(items) => List(|items|)
    case Obj(_) => Dict
    case _ => Leaf(t)
  }

  /** The subtree at a location, if the location exists. */
  function At(t: Json, loc: Location): Option<Json> {
    if loc == [] then Some(t)
    else match t
      case Arr(items) =>
        if loc[0].Index? && loc[0].i < |items| then At(items[loc[0].i], loc[1..]) else None
      case Obj(fields) =>
        if loc[0].Key? && loc[0].key in fields then At(fields[loc[0].key], loc[1..]) else None
      case _ => None
  }

  function ShapeAt(t: Json, loc: Location): Option<Shape> {
    var sub := At(t, loc);
    if sub.Some? then Some(ShapeOf(sub.value)) else None
  }

  /** The dictionary keys along a location, list indices dropped. */
  function KeysOf(loc: Location): seq<string> {
    if loc == [] then []
    else if loc[0].Key? then [loc[0].key] + KeysOf(loc[1..])
    else KeysOf(loc[1..])
  }

  /** `_remove_path`. */
  function RemovePath(t: Json, segments: seq<string>): Json
    decreases t, |segments|
  {
    if segments == [] then t
    else match t
      case Arr(items) => Arr(seq(|items|, i requires 0 <= i < |items| => RemovePath(items[i], segments)))
      case Obj(fields) =>
        var head, rest := segments[0], segments[1..];
        if rest == [] then Obj(fields - {head})
        else if head in fields then Obj(fields[head := RemovePath(fields[head], rest)])
        else t
      case _ => t
  }

  function RemovePaths(t: Json, paths: seq<seq<string>>): Json {
    if paths == [] then t else RemovePath(RemovePaths(t, paths[..|paths| - 1]), paths[|paths| - 1])
  }

  ghost predicate NonEmpty(paths: seq<seq<string>>) {
    forall p :: p in paths ==> p != []
  }

  /** The location lies at or below a masked path. */
  ghost predicate Hidden(paths: seq<seq<string>>, loc: Location) {
    exists p :: p in paths && p <= KeysOf(loc)
  }

  lemma PrefixCons(p: seq<string>, k: string, rest: seq<string>)
    requires p != []
    ensures p <= [k] + rest <==> p[0] == k && p[1..] <= rest
  {
    assert p == [p[0]] + p[1..];
    if p[0] == k && p[1..] <= rest {
      assert p <= [k] + rest;
    }
    if p <= [k] + rest {
      assert p[1..] == ([k] + rest)[1..|p|] == rest[..|p| - 1];
    }
  }

  /** Removing a path removes exactly the locations whose keys start with it, and changes nothing
      seen at any other location. */
  lemma {:induction false} RemovePathExact(t: Json, p: seq<string>, loc: Location)
    requires p != []
    ensures ShapeAt(RemovePath(t, p), loc) == if p <= KeysOf(loc) then None else ShapeAt(t, loc)
    decreases t, |p|
  {
    if loc != [] {
      var rest := loc[1..];
      match t
      case Arr(items) =>
        if loc[0].Index? && loc[0].i < |items| {
          RemovePathExact(items[loc[0].i], p, rest);
        }
      case Obj(fields) =>
        if loc[0].Key? {
          PrefixCons(p, loc[0].key, KeysOf(rest));
          if loc[0].key in fields && loc[0].key == p[0] && |p| > 1 {
            RemovePathExact(fields[p[0]], p[1..], rest);
          }
        }
      case _ =>
    }
  }

  lemma {:induction false} RemovePathsExact(t: Json, paths: seq<seq<string>>, loc: Location)
    requires NonEmpty(paths)
    ensures ShapeAt(RemovePaths(t, paths), loc) == if Hidden(paths, loc) then None else ShapeAt(t, loc)
  {
    if paths != [] {
      var init, last := paths[..|paths| - 1], paths[|paths| - 1];
      assert paths == init + [last];
      assert last in paths && forall p :: p in init ==> p in paths;
      RemovePathsExact(t, init, loc);
      RemovePathExact(RemovePaths(t, init), last, loc);
      if Hidden(paths, loc) {
        var p :| p in paths && p <= KeysOf(loc);
        assert p in init || p == last;
      }
      if Hidden(init, loc) {
        var p :| p in init && p <= KeysOf(loc);
        assert p in paths;
      }
    }
  }

  /** Two values that look the same at every location are equal. */
  lemma {:induction false} Extensional(t: Json, u: Json)
    requires forall loc :: ShapeAt(t, loc) == ShapeAt(u, loc)
    ensures t == u
    decreases t
  {
    assert ShapeAt(t, []) == ShapeAt(u, []);
    match t
    case Arr(items) =>
      forall i | 0 <= i < |items| ensures items[i] == u.items[i] {
        forall loc ensures ShapeAt(items[i], loc) == ShapeAt(u.items[i], loc) {
          StepDown(t, Index(i), loc);
          StepDown(u, Index(i), loc);
        }
        Extensional(items[i], u.items[i]);
      }
    case Obj(fields) =>
      forall k ensures k in fields <==> k in u.fields {
        assert ShapeAt(t, [Key(k)]) == ShapeAt(u, [Key(k)]);
        KeyPresent(t, k);
        KeyPresent(u, k);
      }
      forall k | k in fields ensures fields[k] == u.fields[k] {
        forall loc ensures ShapeAt(fields[k], loc) == ShapeAt(u.fields[k], loc) {
          StepDown(t, Key(k), loc);
          StepDown(u, Key(k), loc);
        }
        Extensional(fields[k], u.fields[k]);
      }
    case _ =>
  }

  lemma KeyPresent(t: Json, k: string)
    requires t.Obj?
    ensures ShapeAt(t, [Key(k)]).Some? <==> k in t.fields
  {
    if k in t.fields {
      assert At(t, [Key(k)]) == At(t.fields[k], []);
    }
  }

  lemma StepDown(t: Json, step: Step, loc: Location)
    ensures t.Arr? && step.Index? && step.i < |t.items| ==> ShapeAt(t, [step] + loc) == ShapeAt(t.items[step.i], loc)
    ensures t.Obj? && step.Key? && step.key in t.fields ==> ShapeAt(t, [step] + loc) == ShapeAt(t.fields[step.key], loc)
  {
    assert ([step] + loc)[1..] == loc;
  }

  // ---- Laws of masking: consequences of its exact meaning ----

  /** Only the set of paths matters: neither their order nor repetitions. */
  lemma OrderIrrelevant(t: Json, ps: seq<seq<string>>, qs: seq<seq<string>>)
    requires NonEmpty(ps)
    requires forall p :: p in ps <==> p in qs
    ensures RemovePaths(t, ps) == RemovePaths(t, qs)
  {
    forall loc ensures ShapeAt(RemovePaths(t, ps), loc) == ShapeAt(RemovePaths(t, qs), loc) {
      RemovePathsExact(t, ps, loc);
      RemovePathsExact(t, qs, loc);
    }
    Extensional(RemovePaths(t, ps), RemovePaths(t, qs));
  }

  /** Masking under a larger mask can start from what a smaller mask left. */
  lemma MaskAbsorbs(t: Json, ps: seq<seq<string>>, qs: seq<seq<string>>)
    requires NonEmpty(qs)
    requires forall p :: p in ps ==> p in qs
    ensures RemovePaths(RemovePaths(t, ps), qs) == RemovePaths(t, qs)
  {
    var once := RemovePaths(t, ps);
    forall loc ensures ShapeAt(RemovePaths(once, qs), loc) == ShapeAt(RemovePaths(t, qs), loc) {
      RemovePathsExact(t, ps, loc);
      RemovePathsExact(once, qs, loc);
      RemovePathsExact(t, qs, loc);
    }
    Extensional(RemovePaths(once, qs), RemovePaths(t, qs));
  }

  lemma MaskIdempotent(t: Json, ps: seq<seq<string>>)
    requires NonEmpty(ps)
    ensures RemovePaths(RemovePaths(t, ps), ps) == RemovePaths(t, ps)
  {
    MaskAbsorbs(t, ps, ps);
  }

  // ---- Dotted paths ----

  /** `dotted.split(".")`: never empty. */
  function SplitDots(s: string): (r: seq<string>)
    ensures r != []
  {
    Split(s, '.')
  }

  /** A dotted path and its segments determine each other. */
  lemma SplitDotsIff(s: string, parts: seq<string>)
    requires parts != [] && forall i :: 0 <= i < |parts| ==> '.' !in parts[i]
    ensures SplitDots(s) == parts <==> s == Join(parts, '.')
  {
    SplitThenJoin(s, '.');
    JoinThenSplit(parts, '.');
  }
}
