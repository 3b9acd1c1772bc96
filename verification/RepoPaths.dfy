/** Repository-relative paths and dotted node ids, as the change-scoped ratchet handles them. */
module RepoPaths {
  import opened Ordering
  import opened Text

  /** `pat` stands in `s` at index `i`. */
  predicate OccursAt(s: string, pat: string, i: nat) {
    i + |pat| <= |s| && s[i..i + |pat|] == pat
  }

  /** The index at which `s.partition(pat)` cuts: the first occurrence from `i` on. */
  function FindFrom(s: string, pat: string, i: nat): (r: Option<nat>)
    ensures r.Some? ==> i <= r.value && OccursAt(s, pat, r.value) &&
                        forall j :: i <= j < r.value ==> !OccursAt(s, pat, j)
    ensures r.None? ==> forall j :: i <= j ==> !OccursAt(s, pat, j)
    decreases |s| - i
  {
    if i + |pat| > |s| then None
    else if OccursAt(s, pat, i) then Some(i)
    else FindFrom(s, pat, i + 1)
  }

  predicate EndsWith(s: string, suffix: string) {
    |suffix| <= |s| && s[|s| - |suffix|..] == suffix
  }

  lemma {:induction false} UpToFound(leaf: string, c: char, rest: string)
    requires c !in leaf
    ensures UpTo(leaf + [c] + rest, c) == leaf
  {
    if leaf != "" {
      UpToFound(leaf[1..], c, rest);
      assert (leaf + [c] + rest)[1..] == leaf[1..] + [c] + rest;
    }
  }

  lemma EndsWithIff(s: string, suffix: string, init: string)
    ensures s == init + suffix <==> EndsWith(s, suffix) && init == s[..|s| - |suffix|]
  {
    if s == init + suffix {
      assert s[|init|..] == suffix;
    }
  }

  /** `s.replace(a, b)` for single characters. */
  function ReplaceChar(s: string, a: char, b: char): (r: string)
    ensures |r| == |s|
    ensures forall i :: 0 <= i < |s| ==> r[i] == if s[i] == a then b else s[i]
  {
    seq(|s|, i requires 0 <= i < |s| => if s[i] == a then b else s[i])
  }

  /** The node id of a node directory below `src/`. */
  function Dotted(dir: string): string {
    ReplaceChar(dir, '/', '.')
  }

  /** The directory `classify_node_ids` looks in for a node id. */
  function Undotted(id: string): string {
    ReplaceChar(id, '.', '/')
  }

  lemma DottedInverse(dir: string)
    requires '.' !in dir
    ensures Undotted(Dotted(dir)) == dir
  {
  }

  lemma UndottedInverse(id: string)
    requires '/' !in id
    ensures Dotted(Undotted(id)) == id
  {
  }

  /** The node id read off a path cut at `/nodes/`. */
  function IdAt(rel: string, cut: nat): Option<string>
    requires cut + 7 <= |rel|
  {
    var before, after := rel[..cut], rel[cut + 7..];
    var nodeDir := UpTo(after, '/');
    if !("node_" <= nodeDir) then None
    else Some(ReplaceChar(if |before| <= 4 then "" else before[4..], '/', '.') + ".nodes." + nodeDir)
  }

  /** One iteration of `_touched_node_ids`: the node package that owns a changed path, if any. */
  function TouchedId(rel: string): Option<string> {
    var cut := FindFrom(rel, "/nodes/", 0);
    if cut.None? || !("src/" <= rel) then None else IdAt(rel, cut.value)
  }

  /** The path lies below `leaf`, a directory whose name starts with `node_`, right after the first
      `/nodes/`, which `before` precedes; all of it below `src/`. */
  ghost predicate LiesIn(rel: string, before: string, leaf: string) {
    && "src/" <= rel && before + "/nodes/" <= rel && (forall j :: 0 <= j < |before| ==> !OccursAt(rel, "/nodes/", j))
    && "node_" <= leaf && IsHead(rel[|before| + 7..], '/', leaf)
  }

  /** The id of that directory: its path below `src/`, dotted. */
  ghost predicate NamesIt(id: string, before: string, leaf: string) {
    id == Dotted(if |before| <= 4 then "" else before[4..]) + ".nodes." + leaf
  }

  lemma TouchedLies(rel: string, id: string) returns (before: string, leaf: string)
    requires TouchedId(rel) == Some(id)
    ensures LiesIn(rel, before, leaf) && NamesIt(id, before, leaf)
  {
    var cut := FindFrom(rel, "/nodes/", 0).value;
    before, leaf := rel[..cut], UpTo(rel[cut + 7..], '/');
    assert rel[..cut + 7] == before + "/nodes/";
    UpToIff(rel[cut + 7..], '/', leaf);
  }

  lemma FirstAt(rel: string, before: string)
    requires before + "/nodes/" <= rel && forall j :: 0 <= j < |before| ==> !OccursAt(rel, "/nodes/", j)
    ensures FindFrom(rel, "/nodes/", 0) == Some(|before|) && rel[..|before|] == before
  {
    assert rel[..|before| + 7] == before + "/nodes/";
    assert OccursAt(rel, "/nodes/", |before|);
  }

  lemma LiesTouched(rel: string, id: string, before: string, leaf: string)
    requires LiesIn(rel, before, leaf) && NamesIt(id, before, leaf)
    ensures TouchedId(rel) == Some(id)
  {
    FirstAt(rel, before);
    UpToIff(rel[|before| + 7..], '/', leaf);
    assert IdAt(rel, |before|) == Some(id);
  }

  /** A path is attributed to the dotted name of that directory without `src/`, and to nothing else. */
  lemma TouchedIff(rel: string, id: string)
    ensures TouchedId(rel) == Some(id) <==>
            exists before, leaf :: LiesIn(rel, before, leaf) && NamesIt(id, before, leaf)
  {
    if TouchedId(rel) == Some(id) {
      var before, leaf := TouchedLies(rel, id);
    }
    if before, leaf :| LiesIn(rel, before, leaf) && NamesIt(id, before, leaf) {
      LiesTouched(rel, id, before, leaf);
    }
  }

  /** `_touched_node_ids`. */
  method TouchedNodeIds(changedFiles: seq<string>) returns (nodes: set<string>)
    ensures nodes == Touched(changedFiles)
  {
    nodes := {};
    for i := 0 to |changedFiles|
      invariant nodes == Touched(changedFiles[..i])
    {
      assert changedFiles[..i + 1][..i] == changedFiles[..i];
      var id := TouchedId(changedFiles[i]);
      if id.Some? {
        nodes := nodes + {id.value};
      }
    }
    assert changedFiles[..|changedFiles|] == changedFiles;
  }

  function Touched(changed: seq<string>): set<string> {
    if changed == [] then {}
    else
      var id := TouchedId(changed[|changed| - 1]);
      Touched(changed[..|changed| - 1]) + if id.Some? then {id.value} else {}
  }

  lemma {:induction false} TouchedMember(changed: seq<string>, id: string)
    ensures id in Touched(changed) <==> exists f :: f in changed && TouchedId(f) == Some(id)
  {
    if changed != [] {
      var init, last := changed[..|changed| - 1], changed[|changed| - 1];
      TouchedMember(init, id);
      assert changed == init + [last];
      assert last in changed && forall f :: f in changed ==> f in init || f == last;
    }
  }

  lemma NoSlashInTouchedId(rel: string)
    ensures TouchedId(rel).Some? ==> '/' !in TouchedId(rel).value
  {
    var cut := FindFrom(rel, "/nodes/", 0);
    if TouchedId(rel).Some? {
      UpToNoStop(rel[cut.value + 7..], '/');
    }
  }

  lemma {:induction false} UpToNoStop(s: string, c: char)
    ensures c !in UpTo(s, c)
  {
    if s != "" && s[0] != c { UpToNoStop(s[1..], c); }
  }

  // ---- Which files belong to a node ----

  /** A path below the node directory `dir`. */
  ghost predicate Owned(f: string, dir: string) {
    "src/" + dir + "/" <= f
  }

  ghost predicate SplitsAs(dir: string, root: string, leaf: string) {
    && dir == root + "/nodes/" + leaf
    && '/' !in leaf && "node_" <= leaf
    && forall j :: 0 <= j < 4 + |root| ==> !OccursAt("src/" + root + "/nodes/", "/nodes/", j)
  }

  /** The directory is `<root>/nodes/node_<x>` with no earlier `nodes` directory. */
  ghost predicate Placed(dir: string) {
    exists root, leaf :: SplitsAs(dir, root, leaf)
  }

  /** So placed, and without a dot, which `Undotted` would take for a separator. */
  ghost predicate Direct(dir: string) {
    '.' !in dir && Placed(dir)
  }

  lemma FirstCut(f: string, prefix: string, pat: string, rest: string)
    requires f == prefix + pat + rest
    requires forall j :: 0 <= j < |prefix| ==> !OccursAt(prefix + pat, pat, j)
    ensures FindFrom(f, pat, 0) == Some(|prefix|)
  {
    assert f[|prefix|..|prefix| + |pat|] == pat;
    assert OccursAt(f, pat, |prefix|);
    forall j | 0 <= j < |prefix| ensures !OccursAt(f, pat, j) {
      assert !OccursAt(prefix + pat, pat, j);
      assert f[..|prefix| + |pat|] == prefix + pat;
      assert f[j..j + |pat|] == f[..|prefix| + |pat|][j..j + |pat|];
    }
  }

  lemma OwnedShape(f: string, root: string, leaf: string) returns (below: string)
    requires Owned(f, root + "/nodes/" + leaf)
    ensures f == ("src/" + root) + "/nodes/" + (leaf + "/" + below)
  {
    below := f[|"src/" + (root + "/nodes/" + leaf) + "/"|..];
  }

  lemma DottedShape(root: string, leaf: string)
    requires '/' !in leaf
    ensures Dotted(root + "/nodes/" + leaf) == Dotted(root) + ".nodes." + leaf
  {
  }

  /** What `_touched_node_ids` reads off a path whose first `/nodes/` is where `prefix` ends. */
  lemma TouchedShape(f: string, root: string, leaf: string, below: string)
    requires f == ("src/" + root) + "/nodes/" + (leaf + "/" + below)
    requires '/' !in leaf && "node_" <= leaf && FindFrom(f, "/nodes/", 0) == Some(4 + |root|)
    ensures TouchedId(f) == Some(Dotted(root) + ".nodes." + leaf)
  {
    var cut := 4 + |root|;
    assert f[..cut] == "src/" + root && f[cut + 7..] == leaf + "/" + below;
    UpToFound(leaf, '/', below);
    assert leaf + ['/'] + below == leaf + "/" + below;
    assert "src/" <= f && ("src/" + root)[4..] == root;
  }

  /** Any file of a directly placed node is attributed to that node. */
  lemma OwnedIsTouched(f: string, dir: string)
    requires Placed(dir) && Owned(f, dir)
    ensures TouchedId(f) == Some(Dotted(dir))
  {
    var root, leaf :| SplitsAs(dir, root, leaf);
    var below := OwnedShape(f, root, leaf);
    FirstCut(f, "src/" + root, "/nodes/", leaf + "/" + below);
    TouchedShape(f, root, leaf, below);
    DottedShape(root, leaf);
  }

  lemma {:induction false} UpToPrefix(s: string, c: char)
    ensures UpTo(s, c) <= s
  {
    if s != "" && s[0] != c {
      UpToPrefix(s[1..], c);
      assert s == [s[0]] + s[1..];
    }
  }

  /** A cut at the slash of `src/` gives an id that starts with a dot. */
  lemma EarlyId(f: string, cut: nat)
    requires cut <= 4 && cut + 7 <= |f| && IdAt(f, cut).Some?
    ensures IdAt(f, cut).value != "" && IdAt(f, cut).value[0] == '.'
  {
  }

  /** A cut before the end of `src/` is at its slash. */
  lemma EarlyCut(f: string, cut: nat)
    requires "src/" <= f && OccursAt(f, "/nodes/", cut) && cut < 4
    ensures |f| > 4 && f[4] == 'n'
  {
    var pat := f[cut..cut + 7];
    assert f[0] == 's' && f[1] == 'r' && f[2] == 'c';
    assert pat == "/nodes/" && pat[0] == f[cut] && pat[1] == f[cut + 1];
  }

  /** The id of a directory below `src/` comes from a cut after it. */
  lemma CutAfterSource(f: string, dir: string, cut: nat)
    requires Owned(f, dir) && OccursAt(f, "/nodes/", cut) && IdAt(f, cut) == Some(Dotted(dir))
    ensures cut >= 4
  {
    OwnedName(f, dir);
    assert dir != "" ==> dir[0] == f[4..4 + |dir|][0] == f[4];
    assert dir != "" ==> Dotted(dir)[0] == if dir[0] == '/' then '.' else dir[0];
    if cut < 4 {
      EarlyId(f, cut);
      EarlyCut(f, cut);
    }
  }

  /** The path around its cut. */
  lemma AroundCut(f: string, cut: nat, leaf: string)
    requires 4 <= cut && OccursAt(f, "/nodes/", cut) && leaf <= f[cut + 7..]
    ensures f[4..cut + 7 + |leaf|] == f[4..cut] + "/nodes/" + leaf
  {
    assert f[cut + 7..][..|leaf|] == f[cut + 7..cut + 7 + |leaf|] == leaf;
    assert f[4..cut + 7 + |leaf|] == f[4..cut] + f[cut..cut + 7] + f[cut + 7..cut + 7 + |leaf|];
  }

  lemma IdAtLength(f: string, cut: nat)
    requires 4 <= cut && cut + 7 <= |f| && IdAt(f, cut).Some?
    ensures var leaf := UpTo(f[cut + 7..], '/');
      "node_" <= leaf && |IdAt(f, cut).value| == cut - 4 + 7 + |leaf|
  {
  }

  lemma SplitsBack(f: string, dir: string, cut: nat) returns (root: string, leaf: string)
    requires Owned(f, dir) && OccursAt(f, "/nodes/", cut) && IdAt(f, cut) == Some(Dotted(dir))
    ensures dir == root + "/nodes/" + leaf && '/' !in leaf && "node_" <= leaf && cut == 4 + |root|
  {
    CutAfterSource(f, dir, cut);
    IdAtLength(f, cut);
    leaf := UpTo(f[cut + 7..], '/');
    root := f[4..cut];
    UpToNoStop(f[cut + 7..], '/');
    UpToPrefix(f[cut + 7..], '/');
    AroundCut(f, cut, leaf);
    OwnedName(f, dir);
  }

  /** A path that is attributed splits at its first `/nodes/`; with the id of a directory it splits
      right after that directory's name. */
  lemma TouchedSplits(f: string, dir: string) returns (root: string, leaf: string)
    requires Owned(f, dir) && TouchedId(f) == Some(Dotted(dir))
    ensures dir == root + "/nodes/" + leaf && '/' !in leaf && "node_" <= leaf
    ensures FindFrom(f, "/nodes/", 0) == Some(4 + |root|)
  {
    root, leaf := SplitsBack(f, dir, FindFrom(f, "/nodes/", 0).value);
  }

  lemma OwnedName(f: string, dir: string)
    requires Owned(f, dir)
    ensures |f| >= 4 + |dir| && f[4..4 + |dir|] == dir
  {
  }

  ghost predicate AttributedTo(f: string, dir: string) {
    TouchedId(f) == Some(Dotted(dir))
  }

  lemma ContractOwned(dir: string) returns (f: string)
    ensures Owned(f, dir)
  {
    f := "src/" + dir + "/" + "contract.yaml";
  }

  /** The files of a directory are all attributed to it exactly when it is placed directly in the first
      `nodes` directory of its path. */
  lemma AttributedIffPlaced(dir: string)
    ensures (forall f :: Owned(f, dir) ==> AttributedTo(f, dir)) <==> Placed(dir)
  {
    if Placed(dir) {
      forall f | Owned(f, dir) ensures AttributedTo(f, dir) {
        OwnedIsTouched(f, dir);
      }
    } else {
      var f := ContractOwned(dir);
      if AttributedTo(f, dir) {
        PlacedBack(f, dir);
      }
    }
  }

  /** One attributed file is enough. */
  lemma PlacedBack(f: string, dir: string)
    requires Owned(f, dir) && TouchedId(f) == Some(Dotted(dir))
    ensures Placed(dir)
  {
    var root, leaf := TouchedSplits(f, dir);
    FirstCutBack(f, root, leaf);
    assert SplitsAs(dir, root, leaf);
  }

  /** No earlier occurrence in the path is none in its part up to the cut. */
  lemma FirstCutBack(f: string, root: string, leaf: string)
    requires Owned(f, root + "/nodes/" + leaf) && FindFrom(f, "/nodes/", 0) == Some(4 + |root|)
    ensures forall j :: 0 <= j < 4 + |root| ==> !OccursAt("src/" + root + "/nodes/", "/nodes/", j)
  {
    var part := "src/" + root + "/nodes/";
    assert f[..|part|] == part;
    forall j | 0 <= j < 4 + |root| ensures !OccursAt(part, "/nodes/", j) {
      assert !OccursAt(f, "/nodes/", j);
      if j + 7 <= |part| {
        assert part[j..j + 7] == f[j..j + 7];
      }
    }
  }

  /** A node nested anywhere below another node's directory is attributed to the outer one, so a
      change in it alone never gets it classified. */
  lemma NestedNodeMissed(outer: string, inner: string, f: string)
    requires Placed(outer) && Owned(f, outer + "/" + inner)
    ensures TouchedId(f) == Some(Dotted(outer)) != Some(Dotted(outer + "/" + inner))
  {
    var whole, part := "src/" + (outer + "/" + inner) + "/", "src/" + outer + "/";
    assert whole == part + (inner + "/");
    assert f[..|part|] == whole[..|part|] == part;
    OwnedIsTouched(f, outer);
  }
}
