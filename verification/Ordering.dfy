/** Python's order on strings, `sorted` over sets and lists, and small facts about sequences. */
module Ordering {

  datatype Option<+T> = None | Some(value: T)

  function Elements<T>(s: seq<T>): set<T> {
    set x | x in s
  }

  lemma ElementsConcat<T>(a: seq<T>, b: seq<T>)
    ensures Elements(a + b) == Elements(a) + Elements(b)
  {
    forall x ensures x in Elements(a + b) <==> x in Elements(a) + Elements(b) {
      assert x in a + b <==> x in a || x in b;
    }
  }

  ghost predicate NoDup<T>(s: seq<T>) {
    forall i, j :: 0 <= i < j < |s| ==> s[i] != s[j]
  }

  lemma NoDupCard<T>(s: seq<T>)
    requires NoDup(s)
    ensures |Elements(s)| == |s|
  {
    if s != [] {
      var init := s[..|s| - 1];
      NoDupCard(init);
      assert s[|s| - 1] !in init;
      assert Elements(s) == Elements(init) + {s[|s| - 1]} by {
        assert s == init + [s[|s| - 1]];
      }
    }
  }

  lemma SubsetCard<T>(a: set<T>, b: set<T>)
    requires a <= b
    ensures |a| <= |b|
    ensures |a| == |b| ==> a == b
  {
    assert b == a + (b - a);
  }

  /** Code-point order; a proper prefix is smaller. */
  predicate Less(a: string, b: string) {
    b != "" && (a == "" || a[0] < b[0] || (a[0] == b[0] && Less(a[1..], b[1..])))
  }

  lemma {:induction false} LessAsymmetric(a: string, b: string)
    ensures !(Less(a, b) && Less(b, a))
  {
    if a != "" && b != "" {
      LessAsymmetric(a[1..], b[1..]);
    }
  }

  lemma {:induction false} LessTotal(a: string, b: string)
    ensures a == b || Less(a, b) || Less(b, a)
  {
    if a != "" && b != "" && a[0] == b[0] {
      LessTotal(a[1..], b[1..]);
      assert a == [a[0]] + a[1..] && b == [b[0]] + b[1..];
    }
  }

  lemma {:induction false} LessTransitive(a: string, b: string, c: string)
    requires Less(a, b) && Less(b, c)
    ensures Less(a, c)
  {
    if a != "" && a[0] == b[0] == c[0] {
      LessTransitive(a[1..], b[1..], c[1..]);
    }
  }

  /** `a` is a proper prefix of `b`, or has the smaller character where they first differ. */
  ghost predicate Ascends(a: string, b: string) {
    exists k: nat :: AscendsAt(a, b, k)
  }

  ghost predicate AscendsAt(a: string, b: string, k: nat) {
    k <= |a| && k < |b| && a[..k] == b[..k] && (k == |a| || a[k] < b[k])
  }

  /** The order compares character by character. */
  lemma {:induction false} LessIff(a: string, b: string)
    ensures Less(a, b) <==> Ascends(a, b)
  {
    if a == "" || b == "" || a[0] != b[0] {
      assert b != "" && (a == "" || a[0] < b[0]) ==> AscendsAt(a, b, 0);
      forall k: nat | k > 0 ensures !AscendsAt(a, b, k) {
        FirstDiffers(a, b, k);
      }
    } else {
      LessIff(a[1..], b[1..]);
      if k: nat :| AscendsAt(a, b, k) {
        assert k > 0;
        AscendsTail(a, b, k - 1);
      }
      if k: nat :| AscendsAt(a[1..], b[1..], k) {
        AscendsTail(a, b, k);
      }
    }
  }

  lemma FirstDiffers(a: string, b: string, k: nat)
    requires k > 0 && (a == "" || b == "" || a[0] != b[0])
    ensures !AscendsAt(a, b, k)
  {
    if 0 < k <= |a| && k < |b| {
      assert a[..k][0] == a[0] && b[..k][0] == b[0];
    }
  }

  lemma AscendsTail(a: string, b: string, k: nat)
    requires a != "" && b != "" && a[0] == b[0]
    ensures AscendsAt(a, b, k + 1) <==> AscendsAt(a[1..], b[1..], k)
  {
    if k + 1 <= |a| && k + 1 <= |b| {
      assert a[..k + 1] == [a[0]] + a[1..][..k] && b[..k + 1] == [b[0]] + b[1..][..k];
      assert a[1..][..k] == a[..k + 1][1..] && b[1..][..k] == b[..k + 1][1..];
    }
  }

  ghost predicate Sorted(s: seq<string>) {
    forall i, j :: 0 <= i < j < |s| ==> !Less(s[j], s[i])
  }

  ghost predicate StrictlySorted(s: seq<string>) {
    forall i, j :: 0 <= i < j < |s| ==> Less(s[i], s[j])
  }

  ghost predicate IsLeast(x: string, s: set<string>) {
    x in s && forall y :: y in s && y != x ==> Less(x, y)
  }

  lemma LeastExists(s: set<string>)
    requires s != {}
    ensures exists x :: IsLeast(x, s)
  {
    var x :| x in s;
    var rest := s - {x};
    if rest == {} {
      assert s == {x};
      assert IsLeast(x, s);
    } else {
      LeastExists(rest);
      var m :| IsLeast(m, rest);
      LessTotal(x, m);
      if Less(x, m) {
        forall y | y in s && y != x ensures Less(x, y) {
          if y != m { LessTransitive(x, m, y); }
        }
        assert IsLeast(x, s);
      } else {
        assert IsLeast(m, s);
      }
    }
  }

  lemma SortedCons(x: string, rest: seq<string>, s: set<string>)
    requires IsLeast(x, s) && StrictlySorted(rest) && Elements(rest) == s - {x}
    ensures StrictlySorted([x] + rest) && Elements([x] + rest) == s
  {
    assert forall i :: 0 <= i < |rest| ==> rest[i] in Elements(rest);
    ElementsConcat([x], rest);
  }

  /** `sorted(s)` for a set of strings. */
  ghost function SortSet(s: set<string>): (r: seq<string>)
    ensures StrictlySorted(r) && Elements(r) == s
    decreases |s|
  {
    if s == {} then [] else
      LeastExists(s);
      var x :| IsLeast(x, s);
      var rest := SortSet(s - {x});
      SortedCons(x, rest, s);
      [x] + rest
  }

  lemma StrictlySortedNoDup(s: seq<string>)
    requires StrictlySorted(s)
    ensures NoDup(s)
  {
    forall i, j | 0 <= i < j < |s| ensures s[i] != s[j] {
      LessAsymmetric(s[i], s[j]);
    }
  }

  lemma StrictlySortedUnique(a: seq<string>, b: seq<string>)
    requires StrictlySorted(a) && StrictlySorted(b) && Elements(a) == Elements(b)
    ensures a == b
  {
    StrictlySortedNoDup(a);
    StrictlySortedNoDup(b);
    NoDupCard(a);
    NoDupCard(b);
    if a != [] {
      assert a[0] in Elements(a) && b[0] in Elements(b);
      LessAsymmetric(a[0], b[0]);
      assert a[0] == b[0];
      forall x ensures x in Elements(a[1..]) <==> x in Elements(b[1..]) {
        assert x in Elements(a[1..]) <==> x in Elements(a) && x != a[0];
        assert x in Elements(b[1..]) <==> x in Elements(b) && x != b[0];
      }
      StrictlySortedUnique(a[1..], b[1..]);
      assert a == [a[0]] + a[1..] && b == [b[0]] + b[1..];
    }
  }

  /** The elements that satisfy `p`, in order. */
  ghost function Filter(s: seq<string>, p: string -> bool): seq<string> {
    if s == [] then []
    else Filter(s[..|s| - 1], p) + if p(s[|s| - 1]) then [s[|s| - 1]] else []
  }

  lemma {:induction false} FilterSame(s: seq<string>, p: string -> bool, q: string -> bool)
    requires forall x :: p(x) <==> q(x)
    ensures Filter(s, p) == Filter(s, q)
  {
    if s != [] {
      FilterSame(s[..|s| - 1], p, q);
    }
  }

  lemma {:induction false} FilterMember(s: seq<string>, p: string -> bool, x: string)
    ensures x in Filter(s, p) <==> x in s && p(x)
  {
    if s != [] {
      FilterMember(s[..|s| - 1], p, x);
      assert s == s[..|s| - 1] + [s[|s| - 1]];
    }
  }

  lemma FilterEmpty(s: seq<string>, p: string -> bool)
    ensures Filter(s, p) == [] <==> forall x :: x in s ==> !p(x)
  {
    forall x ensures x in Filter(s, p) <==> x in s && p(x) {
      FilterMember(s, p, x);
    }
    if Filter(s, p) != [] {
      assert Filter(s, p)[0] in Filter(s, p);
    }
  }

  /** The least element, found by one pass. */
  method Least(s: set<string>) returns (least: string)
    requires s != {}
    ensures IsLeast(least, s)
  {
    least :| least in s;
    var rest := s - {least};
    while rest != {}
      invariant rest <= s && least in s
      invariant forall y :: y in s && y !in rest && y != least ==> Less(least, y)
      decreases |rest|
    {
      var y :| y in rest;
      LessTotal(y, least);
      if Less(y, least) {
        forall z | z in s && z !in rest - {y} && z != y ensures Less(y, z) {
          if z != least { LessTransitive(y, least, z); }
        }
        least := y;
      }
      rest := rest - {y};
    }
  }

  /** `sorted(s)` for a set of strings, computed by repeated selection. */
  method SortedSet(s: set<string>) returns (r: seq<string>)
    ensures r == SortSet(s)
  {
    var todo := s;
    r := [];
    while todo != {}
      invariant todo <= s
      invariant StrictlySorted(r) && Elements(r) == s - todo
      invariant forall x, y :: x in r && y in todo ==> Less(x, y)
      decreases |todo|
    {
      var least := Least(todo);
      assert forall x :: x in r ==> Less(x, least);
      ElementsConcat(r, [least]);
      r := r + [least];
      todo := todo - {least};
    }
    StrictlySortedUnique(r, SortSet(s));
  }

  function Insert(x: string, s: seq<string>): (r: seq<string>)
    ensures multiset(r) == multiset(s)[x := multiset(s)[x] + 1]
    ensures |r| > 0 && (r[0] == x || (|s| > 0 && r[0] == s[0]))
  {
    if s == [] then [x]
    else if Less(s[0], x) then
      var r := [s[0]] + Insert(x, s[1..]);
      assert s == [s[0]] + s[1..];
      r
    else [x] + s
  }

  /** `sorted(s)` for a list of strings. */
  function Sort(s: seq<string>): (r: seq<string>)
    ensures multiset(r) == multiset(s)
  {
    if s == [] then [] else
      assert s == [s[0]] + s[1..];
      Insert(s[0], Sort(s[1..]))
  }

  lemma {:induction false} InsertSorted(x: string, s: seq<string>)
    requires Sorted(s)
    ensures Sorted(Insert(x, s))
  {
    if s == [] {
    } else if Less(s[0], x) {
      InsertSorted(x, s[1..]);
      var t := Insert(x, s[1..]);
      forall j | 0 <= j < |t| ensures !Less(t[j], s[0]) {
        assert t[j] in multiset(t);
        assert t[j] == x || t[j] in s[1..];
        LessAsymmetric(s[0], x);
      }
    } else {
      forall j | 0 <= j < |s| ensures !Less(s[j], x) {
        if Less(s[j], x) {
          LessTotal(s[0], s[j]);
          if s[0] != s[j] {
            if Less(s[0], s[j]) { LessTransitive(s[0], s[j], x); }
          }
        }
      }
    }
  }

  lemma {:induction false} SortSorted(s: seq<string>)
    ensures Sorted(Sort(s))
  {
    if s != [] {
      SortSorted(s[1..]);
      InsertSorted(s[0], Sort(s[1..]));
    }
  }

  lemma SortElements(s: seq<string>)
    ensures forall x :: x in Sort(s) <==> x in s
  {
    forall x ensures x in Sort(s) <==> x in s {
      assert x in Sort(s) <==> x in multiset(Sort(s));
    }
  }
}
