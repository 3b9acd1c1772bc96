/** `select_covering`: greedy coverage selection with ties broken by the least index. */
module Covering {
  import opened Ordering

  /** A branch arc: file, from-line, to-line. */
  datatype Arc = Arc(file: string, from: int, to: int)

  /** The union of the arcs of the listed candidates. */
  function Covered(arcs: seq<set<Arc>>, picks: seq<nat>): set<Arc>
    requires InPool(arcs, picks)
  {
    if picks == [] then {} else Covered(arcs, picks[..|picks| - 1]) + arcs[picks[|picks| - 1]]
  }

  predicate InPool(arcs: seq<set<Arc>>, picks: seq<nat>) {
    forall i :: 0 <= i < |picks| ==> picks[i] < |arcs|
  }

  /** The union over the whole pool. */
  ghost function Everything(arcs: seq<set<Arc>>): set<Arc> {
    if arcs == [] then {} else Everything(arcs[..|arcs| - 1]) + arcs[|arcs| - 1]
  }

  lemma {:induction false} EverythingUnion(arcs: seq<set<Arc>>)
    ensures forall i :: 0 <= i < |arcs| ==> arcs[i] <= Everything(arcs)
    ensures forall a :: a in Everything(arcs) ==> exists i :: 0 <= i < |arcs| && a in arcs[i]
  {
    if arcs != [] {
      var init := arcs[..|arcs| - 1];
      EverythingUnion(init);
      forall a | a in Everything(arcs) ensures exists i :: 0 <= i < |arcs| && a in arcs[i] {
        if a in Everything(init) {
          var i :| 0 <= i < |init| && a in init[i];
          assert a in arcs[i];
        } else {
          assert a in arcs[|arcs| - 1];
        }
      }
      assert forall i :: 0 <= i < |init| ==> arcs[i] == init[i];
    }
  }

  /** `set(range(n))`. */
  function Indices(n: nat): (r: set<nat>)
    ensures |r| == n && forall i :: i in r <==> 0 <= i < n
  {
    if n == 0 then {} else Indices(n - 1) + {n - 1}
  }

  function Gain(arcs: seq<set<Arc>>, covered: set<Arc>, i: nat): nat
    requires i < |arcs|
  {
    |arcs[i] - covered|
  }

  /** The least unpicked index of the largest gain, and that gain is positive. */
  ghost predicate BestPick(arcs: seq<set<Arc>>, covered: set<Arc>, earlier: seq<nat>, i: nat) {
    && i < |arcs| && i !in earlier && Gain(arcs, covered, i) > 0
    && forall j :: 0 <= j < |arcs| && j !in earlier ==>
                     && Gain(arcs, covered, j) <= Gain(arcs, covered, i)
                     && (j < i ==> Gain(arcs, covered, j) < Gain(arcs, covered, i))
  }

  ghost predicate BestAt(arcs: seq<set<Arc>>, picks: seq<nat>, n: nat)
    requires InPool(arcs, picks) && n < |picks|
  {
    BestPick(arcs, Covered(arcs, picks[..n]), picks[..n], picks[n])
  }

  /** Each pick is the best one given the picks before it. */
  ghost predicate GreedyPicks(arcs: seq<set<Arc>>, picks: seq<nat>) {
    InPool(arcs, picks) && forall n :: 0 <= n < |picks| ==> BestAt(arcs, picks, n)
  }

  /** What `select_covering` returns: greedy picks, until no candidate adds an arc. */
  ghost predicate GreedySelection(arcs: seq<set<Arc>>, picks: seq<nat>) {
    && GreedyPicks(arcs, picks)
    && forall j :: 0 <= j < |arcs| && j !in picks ==> Gain(arcs, Covered(arcs, picks), j) == 0
  }

  ghost predicate NothingGains(arcs: seq<set<Arc>>, covered: set<Arc>, remaining: set<nat>) {
    forall j :: j in remaining && j < |arcs| ==> Gain(arcs, covered, j) == 0
  }

  /** Index `i` gains the most among the remaining ones, and is the first to gain as much. */
  ghost predicate FirstBest(arcs: seq<set<Arc>>, covered: set<Arc>, remaining: set<nat>, i: nat) {
    && i in remaining && i < |arcs| && Gain(arcs, covered, i) > 0
    && forall j :: j in remaining && j < |arcs| ==>
                     && Gain(arcs, covered, j) <= Gain(arcs, covered, i)
                     && (j < i ==> Gain(arcs, covered, j) < Gain(arcs, covered, i))
  }

  /** The inner loop: scan the remaining indices in increasing order, keep the first best. */
  method FindBest(arcs: seq<set<Arc>>, covered: set<Arc>, remaining: set<nat>)
    returns (bestIdx: int, bestGain: nat)
    requires forall i :: i in remaining ==> i < |arcs|
    ensures bestIdx < 0 ==> bestGain == 0 && NothingGains(arcs, covered, remaining)
    ensures bestIdx >= 0 ==> FirstBest(arcs, covered, remaining, bestIdx) && bestGain == Gain(arcs, covered, bestIdx)
  {
    bestIdx, bestGain := -1, 0;
    for idx := 0 to |arcs|
      invariant bestIdx < idx
      invariant bestIdx < 0 ==> bestGain == 0
      invariant bestIdx >= 0 ==> bestIdx in remaining && bestGain == Gain(arcs, covered, bestIdx) > 0
      invariant forall j :: j in remaining && j < idx ==> Gain(arcs, covered, j) <= bestGain
      invariant forall j :: j in remaining && j < bestIdx ==> Gain(arcs, covered, j) < bestGain
    {
      if idx in remaining {
        var gain := Gain(arcs, covered, idx);
        if gain > bestGain {
          bestGain := gain;
          bestIdx := idx;
        }
      }
    }
  }

  /** `select_covering`, given the measured arcs of each candidate. */
  method SelectCovering(arcs: seq<set<Arc>>) returns (selected: seq<nat>, covered: set<Arc>)
    ensures GreedySelection(arcs, selected)
    ensures covered == Covered(arcs, selected) == Everything(arcs)
  {
    covered, selected := {}, [];
    var remaining := Indices(|arcs|);
    while remaining != {}
      invariant GreedyPicks(arcs, selected) && covered == Covered(arcs, selected)
      invariant remaining == Indices(|arcs|) - Elements(selected)
      decreases |remaining|
    {
      var bestIdx, bestGain := FindBest(arcs, covered, remaining);
      if bestIdx < 0 || bestGain == 0 {
        break;
      }
      BestOfRemaining(arcs, covered, selected, remaining, bestIdx);
      GreedyExtend(arcs, selected, bestIdx);
      RemainingShrinks(Indices(|arcs|), selected, bestIdx);
      selected := selected + [bestIdx];
      covered := covered + arcs[bestIdx];
      remaining := remaining - {bestIdx};
    }
    Exhausted(arcs, selected, remaining);
  }

  lemma BestOfRemaining(arcs: seq<set<Arc>>, covered: set<Arc>, picks: seq<nat>, remaining: set<nat>, i: nat)
    requires remaining == Indices(|arcs|) - Elements(picks) && FirstBest(arcs, covered, remaining, i)
    ensures BestPick(arcs, covered, picks, i)
  {
    assert forall j :: 0 <= j < |arcs| && j !in picks ==> j in remaining;
  }

  lemma RemainingShrinks(all: set<nat>, picks: seq<nat>, i: nat)
    ensures all - Elements(picks) - {i} == all - Elements(picks + [i])
  {
    ElementsConcat(picks, [i]);
    assert Elements([i]) == {i};
  }

  lemma Exhausted(arcs: seq<set<Arc>>, picks: seq<nat>, remaining: set<nat>)
    requires GreedyPicks(arcs, picks) && remaining == Indices(|arcs|) - Elements(picks)
    requires NothingGains(arcs, Covered(arcs, picks), remaining)
    ensures GreedySelection(arcs, picks) && Covered(arcs, picks) == Everything(arcs)
  {
    assert forall j :: 0 <= j < |arcs| && j !in picks ==> j in remaining;
    CoversEverything(arcs, picks);
  }

  lemma GreedyExtend(arcs: seq<set<Arc>>, picks: seq<nat>, i: nat)
    requires GreedyPicks(arcs, picks) && BestPick(arcs, Covered(arcs, picks), picks, i)
    ensures GreedyPicks(arcs, picks + [i])
    ensures Covered(arcs, picks + [i]) == Covered(arcs, picks) + arcs[i]
  {
    var longer := picks + [i];
    assert longer[..|picks|] == picks;
    forall n | 0 <= n < |longer|
      ensures BestAt(arcs, longer, n)
    {
      if n < |picks| {
        assert longer[..n] == picks[..n];
        assert BestAt(arcs, picks, n);
      }
    }
  }

  lemma {:induction false} CoveredContains(arcs: seq<set<Arc>>, picks: seq<nat>, i: nat)
    requires InPool(arcs, picks) && i in picks
    ensures arcs[i] <= Covered(arcs, picks)
  {
    var init := picks[..|picks| - 1];
    if i != picks[|picks| - 1] {
      CoveredContains(arcs, init, i);
    }
  }

  lemma {:induction false} CoveredWithin(arcs: seq<set<Arc>>, picks: seq<nat>)
    requires InPool(arcs, picks)
    ensures Covered(arcs, picks) <= Everything(arcs)
  {
    if picks != [] {
      CoveredWithin(arcs, picks[..|picks| - 1]);
      EverythingUnion(arcs);
    }
  }

  /** Nothing is lost: the picks cover what the whole pool covers. */
  lemma CoversEverything(arcs: seq<set<Arc>>, picks: seq<nat>)
    requires GreedySelection(arcs, picks)
    ensures Covered(arcs, picks) == Everything(arcs)
  {
    CoveredWithin(arcs, picks);
    EverythingUnion(arcs);
    forall i | 0 <= i < |arcs| ensures arcs[i] <= Covered(arcs, picks) {
      if i in picks {
        CoveredContains(arcs, picks, i);
      } else {
        assert Gain(arcs, Covered(arcs, picks), i) == 0;
        NoGain(arcs[i], Covered(arcs, picks));
      }
    }
  }

  lemma NoGain(a: set<Arc>, b: set<Arc>)
    requires |a - b| == 0
    ensures a <= b
  {
    assert a - b == {};
    assert a <= b + (a - b);
  }

  lemma PicksDistinct(arcs: seq<set<Arc>>, picks: seq<nat>)
    requires GreedyPicks(arcs, picks)
    ensures NoDup(picks) && |picks| <= |arcs|
  {
    forall m, n | 0 <= m < n < |picks| ensures picks[m] != picks[n] {
      PickAt(arcs, picks, n);
      assert picks[m] in picks[..n];
    }
    NoDupCard(picks);
    SubsetCard(Elements(picks), Indices(|arcs|));
  }

  /** The arcs pick number `n` adds. */
  ghost function PickGain(arcs: seq<set<Arc>>, picks: seq<nat>, n: nat): nat
    requires InPool(arcs, picks) && n < |picks|
  {
    Gain(arcs, Covered(arcs, picks[..n]), picks[n])
  }

  /** Gains never increase from one pick to the next, and stay positive. */
  lemma GainsNonIncreasing(arcs: seq<set<Arc>>, picks: seq<nat>, n: nat)
    requires GreedyPicks(arcs, picks) && n + 1 < |picks|
    ensures PickGain(arcs, picks, n) >= PickGain(arcs, picks, n + 1) > 0
  {
    var c := Covered(arcs, picks[..n]);
    assert picks[..n + 1][..n] == picks[..n];
    assert Covered(arcs, picks[..n + 1]) == c + arcs[picks[n]];
    PickAt(arcs, picks, n);
    PickAt(arcs, picks, n + 1);
    assert picks[n + 1] !in picks[..n];
    SubsetCard(arcs[picks[n + 1]] - (c + arcs[picks[n]]), arcs[picks[n + 1]] - c);
  }

  lemma PickAt(arcs: seq<set<Arc>>, picks: seq<nat>, n: nat)
    requires GreedyPicks(arcs, picks) && n < |picks|
    ensures InPool(arcs, picks[..n]) && BestPick(arcs, Covered(arcs, picks[..n]), picks[..n], picks[n])
  {
    assert BestAt(arcs, picks, n);
  }

  lemma BestPickUnique(arcs: seq<set<Arc>>, covered: set<Arc>, earlier: seq<nat>, i: nat, j: nat)
    requires BestPick(arcs, covered, earlier, i) && BestPick(arcs, covered, earlier, j)
    ensures i == j
  {
  }

  lemma {:induction false} GreedyPrefix(arcs: seq<set<Arc>>, p: seq<nat>, q: seq<nat>, n: nat)
    requires GreedyPicks(arcs, p) && GreedyPicks(arcs, q) && n <= |p| && n <= |q|
    ensures p[..n] == q[..n]
  {
    if n > 0 {
      var m := n - 1;
      GreedyPrefix(arcs, p, q, m);
      PickAt(arcs, p, m);
      PickAt(arcs, q, m);
      BestPickUnique(arcs, Covered(arcs, p[..m]), p[..m], p[m], q[m]);
      assert p[..n] == p[..m] + [p[m]] && q[..n] == q[..m] + [q[m]];
    }
  }

  lemma GreedyNotLonger(arcs: seq<set<Arc>>, p: seq<nat>, q: seq<nat>)
    requires GreedySelection(arcs, p) && GreedyPicks(arcs, q)
    ensures |q| <= |p| && q == p[..|q|]
  {
    if |p| < |q| {
      assert p[..|p|] == p;
      PickAt(arcs, q, |p|);
      GreedyPrefix(arcs, p, q, |p|);
    } else {
      GreedyPrefix(arcs, p, q, |q|);
      assert q[..|q|] == q;
    }
  }

  /** The selection is a function of the pool. */
  lemma GreedyUnique(arcs: seq<set<Arc>>, p: seq<nat>, q: seq<nat>)
    requires GreedySelection(arcs, p) && GreedySelection(arcs, q)
    ensures p == q
  {
    GreedyNotLonger(arcs, p, q);
    GreedyNotLonger(arcs, q, p);
  }

  // ---- The harmonic bound ----

  /** 1 + 1/2 + ... + 1/n. */
  ghost function Harmonic(n: nat): real {
    if n == 0 then 0.0 else Harmonic(n - 1) + 1.0 / n as real
  }

  lemma {:induction false} HarmonicMonotone(m: nat, n: nat)
    requires m <= n
    ensures Harmonic(m) <= Harmonic(n)
    decreases n
  {
    if m < n {
      HarmonicMonotone(m, n - 1);
    }
  }

  /** `g` copies of `x` added up. */
  ghost function Times(x: real, g: nat): real {
    if g == 0 then 0.0 else Times(x, g - 1) + x
  }

  lemma {:induction false} TimesAdd(x: real, y: real, g: nat)
    ensures Times(x + y, g) == Times(x, g) + Times(y, g)
  {
    if g > 0 { TimesAdd(x, y, g - 1); }
  }

  lemma {:induction false} TimesProduct(x: real, g: nat)
    ensures Times(x, g) == x * g as real
  {
    if g > 0 { TimesProduct(x, g - 1); }
  }

  lemma {:induction false} TimesBelow(x: real, g: nat)
    requires x < 1.0
    ensures g > 0 ==> Times(x, g) < g as real
  {
    if g > 0 { TimesBelow(x, g - 1); }
  }

  lemma {:induction false} TimesTerm(a: nat, g: nat)
    requires 0 < a <= g
    ensures Times(1.0 / a as real, g) >= 1.0
  {
    if a == g {
      TimesProduct(1.0 / a as real, a);
    } else {
      TimesTerm(a, g - 1);
    }
  }

  /** Removing `a - b` terms, each at least 1/g, removes at least (a - b)/g. */
  lemma {:induction false} HarmonicDrop(a: nat, b: nat, g: nat)
    requires b <= a <= g
    ensures Times(Harmonic(a) - Harmonic(b), g) >= (a - b) as real
    decreases a
  {
    if b < a {
      HarmonicDrop(a - 1, b, g);
      TimesTerm(a, g);
      TimesAdd(Harmonic(a - 1) - Harmonic(b), 1.0 / a as real, g);
    } else {
      TimesProduct(0.0, g);
    }
  }

  /** The harmonic weight of what each set of a cover still lacks. */
  ghost function Potential(cover: seq<set<Arc>>, covered: set<Arc>): real {
    if cover == [] then 0.0
    else Potential(cover[..|cover| - 1], covered) + Harmonic(|cover[|cover| - 1] - covered|)
  }

  /** The number of arcs still lacking, counted once for every set of the cover that has them. */
  ghost function Lacking(cover: seq<set<Arc>>, covered: set<Arc>): nat {
    if cover == [] then 0
    else Lacking(cover[..|cover| - 1], covered) + |cover[|cover| - 1] - covered|
  }

  lemma {:induction false} PotentialNonNegative(cover: seq<set<Arc>>, covered: set<Arc>)
    ensures Potential(cover, covered) >= 0.0
  {
    if cover != [] {
      PotentialNonNegative(cover[..|cover| - 1], covered);
      HarmonicMonotone(0, |cover[|cover| - 1] - covered|);
    }
  }

  ghost predicate NoneLacksMore(cover: seq<set<Arc>>, covered: set<Arc>, g: nat) {
    forall i :: 0 <= i < |cover| ==> |cover[i] - covered| <= g
  }

  /** If no set lacks more than `g` arcs, the potential falls by at least 1/g per arc gained. */
  lemma {:induction false} PotentialDrop(cover: seq<set<Arc>>, covered: set<Arc>, pick: set<Arc>, g: nat)
    requires NoneLacksMore(cover, covered, g)
    ensures Times(Potential(cover, covered) - Potential(cover, covered + pick), g)
            >= (Lacking(cover, covered) - Lacking(cover, covered + pick)) as real
  {
    if cover != [] {
      var init, last := cover[..|cover| - 1], cover[|cover| - 1];
      assert forall i :: 0 <= i < |init| ==> init[i] == cover[i];
      PotentialDrop(init, covered, pick, g);
      SubsetCard(last - (covered + pick), last - covered);
      HarmonicDrop(|last - covered|, |last - (covered + pick)|, g);
      TimesAdd(Potential(init, covered) - Potential(init, covered + pick),
               Harmonic(|last - covered|) - Harmonic(|last - (covered + pick)|), g);
    } else {
      TimesProduct(0.0, g);
    }
  }

  ghost predicate Covers(cover: seq<set<Arc>>, all: set<Arc>) {
    forall a :: a in all ==> exists i :: 0 <= i < |cover| && a in cover[i]
  }

  /** Every arc of `part` lies in some set of the cover, so at least |part| lacks disappear. */
  lemma {:induction false} LackingDrop(cover: seq<set<Arc>>, covered: set<Arc>, pick: set<Arc>, part: set<Arc>)
    requires part <= pick - covered && Covers(cover, part)
    ensures Lacking(cover, covered) - Lacking(cover, covered + pick) >= |part|
  {
    if cover == [] {
      assert part == {};
    } else {
      var init, last := cover[..|cover| - 1], cover[|cover| - 1];
      var here, rest := part * last, part - last;
      forall a | a in rest ensures exists i :: 0 <= i < |init| && a in init[i] {
        var i :| 0 <= i < |cover| && a in cover[i];
        assert init[i] == cover[i];
      }
      LackingDrop(init, covered, pick, rest);
      SubsetCard((last - (covered + pick)) + here, last - covered);
      assert part == here + rest;
    }
  }

  /** A cover taken from the pool: candidate indices whose arcs together are everything. */
  ghost predicate IsCover(arcs: seq<set<Arc>>, cover: seq<nat>) {
    InPool(arcs, cover) && Covered(arcs, cover) == Everything(arcs)
  }

  function Chosen(arcs: seq<set<Arc>>, cover: seq<nat>): (r: seq<set<Arc>>)
    requires InPool(arcs, cover)
    ensures |r| == |cover| && forall i :: 0 <= i < |cover| ==> r[i] == arcs[cover[i]]
  {
    seq(|cover|, i requires 0 <= i < |cover| => arcs[cover[i]])
  }

  lemma {:induction false} CoverCovers(arcs: seq<set<Arc>>, cover: seq<nat>)
    requires InPool(arcs, cover)
    ensures Covers(Chosen(arcs, cover), Covered(arcs, cover))
  {
    if cover != [] {
      var init := cover[..|cover| - 1];
      CoverCovers(arcs, init);
      forall a | a in Covered(arcs, cover)
        ensures exists i :: 0 <= i < |cover| && a in Chosen(arcs, cover)[i]
      {
        if a in Covered(arcs, init) {
          var i :| 0 <= i < |init| && a in Chosen(arcs, init)[i];
          assert Chosen(arcs, cover)[i] == Chosen(arcs, init)[i];
        } else {
          assert a in Chosen(arcs, cover)[|cover| - 1];
        }
      }
    }
  }

  lemma NoSetLacksMore(arcs: seq<set<Arc>>, picks: seq<nat>, i: nat, j: nat)
    requires InPool(arcs, picks) && BestPick(arcs, Covered(arcs, picks), picks, i) && j < |arcs|
    ensures |arcs[j] - Covered(arcs, picks)| <= Gain(arcs, Covered(arcs, picks), i)
  {
    if j in picks {
      CoveredContains(arcs, picks, j);
      assert arcs[j] - Covered(arcs, picks) == {};
    }
  }

  /** Taking a set that gains no less than any set of the cover lowers the potential by one. */
  lemma PotentialStep(sets: seq<set<Arc>>, covered: set<Arc>, pick: set<Arc>)
    requires NoneLacksMore(sets, covered, |pick - covered|)
    requires Covers(sets, pick - covered) && |pick - covered| > 0
    ensures Potential(sets, covered + pick) <= Potential(sets, covered) - 1.0
  {
    var g := |pick - covered|;
    LackingDrop(sets, covered, pick, pick - covered);
    PotentialDrop(sets, covered, pick, g);
    TimesAtLeast(Potential(sets, covered) - Potential(sets, covered + pick), g);
  }

  lemma TimesAtLeast(d: real, g: nat)
    requires g > 0 && Times(d, g) >= g as real
    ensures d >= 1.0
  {
    if d < 1.0 {
      TimesBelow(d, g);
    }
  }

  /** The step: one greedy pick lowers the potential of any cover by at least one. */
  lemma PickLowersPotential(arcs: seq<set<Arc>>, cover: seq<nat>, picks: seq<nat>, i: nat)
    requires InPool(arcs, picks) && BestPick(arcs, Covered(arcs, picks), picks, i) && IsCover(arcs, cover)
    ensures Potential(Chosen(arcs, cover), Covered(arcs, picks) + arcs[i]) <=
            Potential(Chosen(arcs, cover), Covered(arcs, picks)) - 1.0
  {
    var c, sets := Covered(arcs, picks), Chosen(arcs, cover);
    assert NoneLacksMore(sets, c, |arcs[i] - c|) by {
      forall j | 0 <= j < |sets| ensures |sets[j] - c| <= |arcs[i] - c| {
        NoSetLacksMore(arcs, picks, i, cover[j]);
      }
    }
    CoverHolds(arcs, cover, i, c);
    PotentialStep(sets, c, arcs[i]);
  }

  lemma CoverHolds(arcs: seq<set<Arc>>, cover: seq<nat>, i: nat, covered: set<Arc>)
    requires IsCover(arcs, cover) && i < |arcs|
    ensures Covers(Chosen(arcs, cover), arcs[i] - covered)
  {
    CoverCovers(arcs, cover);
    EverythingUnion(arcs);
  }

  lemma {:induction false} PicksWithinPotential(arcs: seq<set<Arc>>, cover: seq<nat>, picks: seq<nat>, n: nat)
    requires GreedyPicks(arcs, picks) && n <= |picks| && IsCover(arcs, cover)
    ensures n as real + Potential(Chosen(arcs, cover), Covered(arcs, picks[..n])) <= Potential(Chosen(arcs, cover), {})
  {
    if n > 0 {
      PicksWithinPotential(arcs, cover, picks, n - 1);
      PickAt(arcs, picks, n - 1);
      assert picks[..n][..n - 1] == picks[..n - 1];
      PickLowersPotential(arcs, cover, picks[..n - 1], picks[n - 1]);
    }
  }

  /** The greedy bound: the picks number at most the sum of the harmonic numbers of the sizes of
      the sets in any cover, an optimal one included. */
  lemma GreedyBound(arcs: seq<set<Arc>>, cover: seq<nat>, picks: seq<nat>)
    requires GreedyPicks(arcs, picks) && IsCover(arcs, cover)
    ensures |picks| as real <= Potential(Chosen(arcs, cover), {})
  {
    PicksWithinPotential(arcs, cover, picks, |picks|);
    PotentialNonNegative(Chosen(arcs, cover), Covered(arcs, picks));
    assert picks[..|picks|] == picks;
  }

  lemma {:induction false} PotentialAtMost(cover: seq<set<Arc>>, d: nat)
    requires NoneLacksMore(cover, {}, d)
    ensures Potential(cover, {}) <= Times(Harmonic(d), |cover|)
  {
    if cover != [] {
      var init, last := cover[..|cover| - 1], cover[|cover| - 1];
      assert NoneLacksMore(init, {}, d) && |last - {}| <= d by {
        assert forall i :: 0 <= i < |init| ==> init[i] == cover[i];
      }
      PotentialAtMost(init, d);
      HarmonicMonotone(|last - {}|, d);
    }
  }

  ghost predicate SizesAtMost(arcs: seq<set<Arc>>, cover: seq<nat>, d: nat)
    requires InPool(arcs, cover)
  {
    forall i :: 0 <= i < |cover| ==> |arcs[cover[i]]| <= d
  }

  lemma TimesBound(n: nat, h: real, k: nat)
    requires n as real <= Times(h, k)
    ensures n as real <= k as real * h
  {
    TimesProduct(h, k);
  }

  lemma CoverPotential(arcs: seq<set<Arc>>, cover: seq<nat>, d: nat)
    requires InPool(arcs, cover) && SizesAtMost(arcs, cover, d)
    ensures Potential(Chosen(arcs, cover), {}) <= Times(Harmonic(d), |cover|)
  {
    var sets := Chosen(arcs, cover);
    assert NoneLacksMore(sets, {}, d) by {
      forall i | 0 <= i < |sets| ensures |sets[i] - {}| <= d {
        assert sets[i] - {} == sets[i];
      }
    }
    PotentialAtMost(sets, d);
  }

  lemma GreedyTimesBound(arcs: seq<set<Arc>>, cover: seq<nat>, picks: seq<nat>, d: nat)
    requires GreedyPicks(arcs, picks) && IsCover(arcs, cover) && SizesAtMost(arcs, cover, d)
    ensures |picks| as real <= Times(Harmonic(d), |cover|)
  {
    GreedyBound(arcs, cover, picks);
    CoverPotential(arcs, cover, d);
  }

  /** With k candidates covering everything and no candidate of more than d arcs, at most k H(d)
      picks. */
  lemma GreedyHarmonicBound(arcs: seq<set<Arc>>, cover: seq<nat>, picks: seq<nat>, d: nat)
    requires GreedyPicks(arcs, picks) && IsCover(arcs, cover)
    requires SizesAtMost(arcs, cover, d)
    ensures |picks| as real <= |cover| as real * Harmonic(d)
  {
    GreedyTimesBound(arcs, cover, picks, d);
    TimesBound(|picks|, Harmonic(d), |cover|);
  }

  lemma SizesWithinEverything(arcs: seq<set<Arc>>, cover: seq<nat>)
    requires InPool(arcs, cover)
    ensures SizesAtMost(arcs, cover, |Everything(arcs)|)
  {
    EverythingUnion(arcs);
    forall i | 0 <= i < |cover| ensures |arcs[cover[i]]| <= |Everything(arcs)| {
      SubsetCard(arcs[cover[i]], Everything(arcs));
    }
  }

  /** In particular, at most k H(n) picks for n arcs in all. */
  lemma GreedyTotalBound(arcs: seq<set<Arc>>, cover: seq<nat>, picks: seq<nat>)
    requires GreedyPicks(arcs, picks) && IsCover(arcs, cover)
    ensures |picks| as real <= |cover| as real * Harmonic(|Everything(arcs)|)
  {
    SizesWithinEverything(arcs, cover);
    GreedyHarmonicBound(arcs, cover, picks, |Everything(arcs)|);
  }

  // ---- When the selection is and is not minimal ----

  ghost predicate Disjoint(arcs: seq<set<Arc>>) {
    forall i, j :: 0 <= i < j < |arcs| ==> arcs[i] !! arcs[j]
  }

  lemma {:induction false} CoveredOrigin(arcs: seq<set<Arc>>, picks: seq<nat>, a: Arc) returns (i: nat)
    requires InPool(arcs, picks) && a in Covered(arcs, picks)
    ensures i in picks && a in arcs[i]
  {
    if a in arcs[picks[|picks| - 1]] {
      i := picks[|picks| - 1];
    } else {
      i := CoveredOrigin(arcs, picks[..|picks| - 1], a);
    }
  }

  /** Candidate `i` exercises an arc that no other candidate exercises. */
  ghost predicate HasOwnArc(arcs: seq<set<Arc>>, i: nat) {
    i < |arcs| && exists a :: a in arcs[i] && forall j :: 0 <= j < |arcs| && j != i ==> a !in arcs[j]
  }

  /** Every candidate that exercises anything exercises something of its own. */
  ghost predicate OwnArcs(arcs: seq<set<Arc>>) {
    forall i: nat :: i < |arcs| && arcs[i] != {} ==> HasOwnArc(arcs, i)
  }

  /** A candidate with an arc of its own belongs to every cover. */
  lemma CandidateNeeded(arcs: seq<set<Arc>>, cover: seq<nat>, i: nat)
    requires IsCover(arcs, cover) && HasOwnArc(arcs, i)
    ensures i in cover
  {
    var a :| a in arcs[i] && forall j :: 0 <= j < |arcs| && j != i ==> a !in arcs[j];
    EverythingUnion(arcs);
    var origin := CoveredOrigin(arcs, cover, a);
  }

  /** When every pick has an arc of its own, no cover is smaller than the greedy one. */
  lemma MinimalWhenPicksOwn(arcs: seq<set<Arc>>, cover: seq<nat>, picks: seq<nat>)
    requires GreedyPicks(arcs, picks) && IsCover(arcs, cover)
    requires forall n :: 0 <= n < |picks| ==> HasOwnArc(arcs, picks[n])
    ensures |picks| <= |cover|
  {
    PicksDistinct(arcs, picks);
    NoDupCard(picks);
    forall i | i in Elements(picks) ensures i in Elements(cover) {
      CandidateNeeded(arcs, cover, i);
    }
    SubsetCard(Elements(picks), Elements(cover));
    ElementsCard(cover);
  }

  /** So it is for a pool in which every candidate that exercises an arc has one of its own; the arcs
      of the handler's entry may well be shared by all. */
  lemma MinimalWithOwnArcs(arcs: seq<set<Arc>>, cover: seq<nat>, picks: seq<nat>)
    requires OwnArcs(arcs) && GreedyPicks(arcs, picks) && IsCover(arcs, cover)
    ensures |picks| <= |cover|
  {
    forall n | 0 <= n < |picks| ensures HasOwnArc(arcs, picks[n]) {
      PickAt(arcs, picks, n);
    }
    MinimalWhenPicksOwn(arcs, cover, picks);
  }

  /** And for one in which no arc belongs to two candidates. */
  lemma MinimalWhenDisjoint(arcs: seq<set<Arc>>, cover: seq<nat>, picks: seq<nat>)
    requires Disjoint(arcs) && GreedyPicks(arcs, picks) && IsCover(arcs, cover)
    ensures |picks| <= |cover|
  {
    forall i: nat | i < |arcs| && arcs[i] != {} ensures HasOwnArc(arcs, i) {
      var a :| a in arcs[i];
    }
    MinimalWithOwnArcs(arcs, cover, picks);
  }

  lemma {:induction false} ElementsCard(s: seq<nat>)
    ensures |Elements(s)| <= |s|
  {
    if s != [] {
      var init := s[..|s| - 1];
      ElementsCard(init);
      assert s == init + [s[|s| - 1]];
      assert Elements(s) == Elements(init) + {s[|s| - 1]};
    }
  }

  function Line(n: int): Arc {
    Arc("handler.py", n, n + 1)
  }

  lemma FirstPick(arcs: seq<set<Arc>>, a: set<Arc>, b: set<Arc>, c: set<Arc>)
    requires arcs == [a, b, c] && |a| > |b| && |a| > |c|
    ensures GreedyPicks(arcs, [0]) && Covered(arcs, [0]) == a
  {
    assert a - {} == a && b - {} == b && c - {} == c;
    assert BestPick(arcs, {}, [], 0);
    GreedyExtend(arcs, [], 0);
    assert [] + [0] == [0];
  }

  lemma AllThreePicked(arcs: seq<set<Arc>>, a: set<Arc>, b: set<Arc>, c: set<Arc>)
    requires arcs == [a, b, c] && GreedyPicks(arcs, [0]) && Covered(arcs, [0]) == a
    requires |b - a| == 1 && |c - a| == 1 && |c - (a + b)| == 1
    ensures GreedySelection(arcs, [0, 1, 2])
  {
    assert BestPick(arcs, a, [0], 1);
    GreedyExtend(arcs, [0], 1);
    assert [0] + [1] == [0, 1];
    assert BestPick(arcs, a + b, [0, 1], 2);
    GreedyExtend(arcs, [0, 1], 2);
    assert [0, 1] + [2] == [0, 1, 2];
  }

  lemma LastTwoCover(arcs: seq<set<Arc>>, a: set<Arc>, b: set<Arc>, c: set<Arc>)
    requires arcs == [a, b, c] && a <= b + c
    ensures IsCover(arcs, [1, 2])
  {
    assert [1, 2][..1] == [1] && [1][..0] == [];
    assert Covered(arcs, [1]) == {} + b;
    assert Covered(arcs, [1, 2]) == b + c;
    assert arcs[..2] == [a, b] && [a, b][..1] == [a] && [a][..0] == [];
    assert Everything([a]) == {} + a && Everything([a, b]) == Everything([a]) + b;
    assert Everything(arcs) == a + b + c;
  }

  /** The picks are not minimal in general: candidates of lines {1,2,3,4}, {1,2,5} and {3,4,6}
      are all picked, although the last two suffice. */
  lemma NotMinimal()
    ensures exists arcs, picks, cover ::
              GreedySelection(arcs, picks) && IsCover(arcs, cover) && |cover| < |picks|
  {
    var a, b, c := {Line(1), Line(2), Line(3), Line(4)}, {Line(1), Line(2), Line(5)}, {Line(3), Line(4), Line(6)};
    var arcs := [a, b, c];
    FirstPick(arcs, a, b, c);
    assert b - a == {Line(5)} && c - a == {Line(6)} && c - (a + b) == {Line(6)};
    AllThreePicked(arcs, a, b, c);
    LastTwoCover(arcs, a, b, c);
    var picks: seq<nat>, cover: seq<nat> := [0, 1, 2], [1, 2];
    assert GreedySelection(arcs, picks) && IsCover(arcs, cover) && |cover| < |picks|;
  }
}
