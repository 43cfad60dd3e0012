/** Block locators: a short list of ancestors from which another node finds the fork. */
module Locator {
  import opened BlockTree
  import opened ActiveChain
  import opened LimbMath

  // ---------- the heights in a locator ----------

  /** The heights still to be listed from height h on, when the next step is step and have are listed. */
  function Heights(h: nat, step: nat, have: nat): (s: seq<nat>)
    requires step >= 1
    decreases h
  {
    if h == 0 then [0] else [h] + Heights(Back(h, step), NextStep(step, have), have + 1)
  }

  function Back(h: nat, step: nat): nat { if h > step then h - step else 0 }

  function NextStep(step: nat, have: nat): nat { if have + 1 > 10 then 2 * step else step }

  ghost predicate Decreasing(s: seq<nat>) {
    forall i, j :: 0 <= i < j < |s| ==> s[i] > s[j]
  }

  /** Strictly decreasing, from the start to the genesis block. */
  lemma {:induction false} HeightsDecrease(h: nat, step: nat, have: nat)
    requires step >= 1
    ensures
      var s := Heights(h, step, have);
      |s| > 0 && s[0] == h && s[|s| - 1] == 0 && Decreasing(s)
    decreases h
  {
    if h > 0 { HeightsDecrease(Back(h, step), NextStep(step, have), have + 1); }
  }

  /** How far below the start entry j is, unless the genesis block comes first: ten steps of one, then doubling ones. */
  function Offset(j: nat): nat { if j <= 10 then j else 9 + Pow2(j - 10) }

  function HeightAt(h: nat, j: nat): nat { if Offset(j) < h then h - Offset(j) else 0 }

  /** The list, entry by entry: it goes on as long as the one before is above the genesis block. */
  lemma HeightsAre(h: nat, j: nat)
    ensures
      var s := Heights(h, 1, 0);
      && (j < |s| <==> j == 0 || HeightAt(h, j - 1) > 0)
      && (j < |s| ==> s[j] == HeightAt(h, j))
  {
    HeightsFrom(h, 0, j);
  }

  lemma {:induction false} HeightsFrom(h: nat, i: nat, j: nat)
    requires i <= j
    ensures
      var s := Heights(HeightAt(h, i), if i <= 10 then 1 else Pow2(i - 10), i);
      && (j - i < |s| <==> j == i || HeightAt(h, j - 1) > 0)
      && (j - i < |s| ==> s[j - i] == HeightAt(h, j))
    decreases j - i
  {
    hide Heights;
    HeightsStep(HeightAt(h, i), if i <= 10 then 1 else Pow2(i - 10), i);
    if j > i {
      OffsetUp(i, j - 1);
      if HeightAt(h, i) > 0 { HeightsFrom(h, i + 1, j); }
    }
  }

  lemma HeightsStep(h: nat, step: nat, have: nat)
    requires step >= 1
    ensures Heights(h, step, have) ==
      if h == 0 then [0] else [h] + Heights(Back(h, step), NextStep(step, have), have + 1)
  {
  }

  lemma {:induction false} OffsetUp(i: nat, j: nat)
    requires i <= j
    ensures Offset(i) <= Offset(j)
    decreases j - i
  {
    if i < j { OffsetUp(i, j - 1); }
  }

  /** Doubling steps reach the genesis block after logarithmically many. */
  lemma {:induction false} DoublingShort(h: nat, step: nat, have: nat, k: nat)
    requires step >= 1 && have >= 10 && h <= step * (Pow2(k) - 1)
    ensures |Heights(h, step, have)| <= k + 1
    decreases k
  {
    if h > 0 {
      assert k > 0;
      var p := Pow2(k - 1);
      assert step * (2 * p - 1) - step == (2 * step) * (p - 1);
      DoublingShort(Back(h, step), 2 * step, have + 1, k - 1);
    }
  }

  /** A block at height h has a locator of at most 11 + k entries when h < 10 + 2^k. */
  lemma {:induction false} LocatorShort(h: nat, have: nat, k: nat)
    requires have <= 10 && h < 10 - have + Pow2(k)
    ensures |Heights(h, 1, have)| <= 11 - have + k
    decreases 10 - have
  {
    if have == 10 {
      DoublingShort(h, 1, have, k);
    } else if h > 0 {
      LocatorShort(h - 1, have + 1, k);
    }
  }

  /** The step when the genesis block is reached, the largest of all. */
  function LastStep(h: nat, step: nat, have: nat): (s: nat)
    requires step >= 1
    ensures s >= step
    decreases h
  {
    if h == 0 then step else LastStep(Back(h, step), NextStep(step, have), have + 1)
  }

  lemma {:induction false} DoublingReaches(h: nat, step: nat, have: nat, k: nat)
    requires step >= 1 && have >= 10
    ensures LastStep(h, step, have) >= step * Pow2(k + 1) <==> h > step * (Pow2(k) - 1)
    decreases k
  {
    hide Pow2, LastStep, Back;
    LastStepIs(h, step, have);
    Pow2Double(k);
    if h == 0 {
      Scaled(step, Pow2(k));
    } else if k == 0 {
      assert Pow2(0) == 1 by { Pow2Zero(); }
      assert step * Pow2(1) == 2 * step && step * (Pow2(0) - 1) == 0;
    } else {
      DoublingReaches(Back(h, step), 2 * step, have + 1, k - 1);
      Pow2Double(k - 1);
      Rescaled(h, step, Pow2(k - 1));
    }
  }

  lemma LastStepIs(h: nat, step: nat, have: nat)
    requires step >= 1
    ensures LastStep(h, step, have) == if h == 0 then step else LastStep(Back(h, step), NextStep(step, have), have + 1)
  {
  }

  lemma Scaled(step: int, p: int)
    requires step >= 1 && p >= 1
    ensures step * (2 * p) >= 2 * step && step * (p - 1) == step * p - step >= 0
  {
    assert step * p >= step;
    assert step * (2 * p) == 2 * (step * p);
  }

  lemma Rescaled(h: nat, step: nat, q: int)
    requires step >= 1 && q >= 1
    ensures (2 * step) * (2 * q) == step * (2 * (2 * q))
    ensures Back(h, step) > (2 * step) * (q - 1) <==> h > step * (2 * q - 1)
  {
    assert (2 * step) * (2 * q) == 4 * (step * q) == step * (2 * (2 * q));
    assert (2 * step) * (q - 1) == 2 * (step * q) - 2 * step;
    assert step * (2 * q - 1) == 2 * (step * q) - step;
    assert step * q >= step;
  }

  /** The step reaches 2^(k+1) exactly when the start is higher than 9 + 2^k: a 32-bit step overflows
      from height 2^30 + 10 on and not before. */
  lemma {:induction false} StepReaches(h: nat, have: nat, k: nat)
    requires have <= 10
    ensures LastStep(h, 1, have) >= Pow2(k + 1) <==> h > 10 - have + Pow2(k) - 1
    decreases 10 - have
  {
    if have == 10 {
      DoublingReaches(h, 1, have, k);
    } else if h > 0 {
      StepReaches(h - 1, have + 1, k);
    }
  }

  /** The first listed height not above f. */
  function FirstAtMost(s: seq<nat>, f: nat): (r: nat)
    requires |s| > 0
  {
    if s[0] <= f || |s| == 1 then s[0] else FirstAtMost(s[1..], f)
  }

  /** The distance to the first listed height at or below f is at most twice the distance to f. */
  lemma {:induction false} LocatorNear(h: nat, step: nat, have: nat, start: nat, f: nat)
    requires 1 <= step <= start - h + 1 && f <= h <= start
    ensures |Heights(h, step, have)| > 0
    ensures
      var r := FirstAtMost(Heights(h, step, have), f);
      r <= f && (h == start || f < h ==> start - r <= 2 * (start - f))
    decreases h
  {
    if f < h {
      var g, n := Back(h, step), NextStep(step, have);
      var s := Heights(h, step, have);
      assert s[1..] == Heights(g, n, have + 1);
      HeightsDecrease(g, n, have + 1);
      if f <= g {
        if f < g { LocatorNear(g, n, have + 1, start, f); }
      } else {
        assert FirstAtMost(s[1..], f) == g;
      }
    }
  }

  // ---------- making and using a locator ----------

  /** The ancestors of start at the listed heights. */
  ghost predicate IsLocator(t: Tree, start: int, have: seq<int>)
    requires Linked(t) && 0 <= start < |t|
  {
    HeightNonNegative(t, start);
    var s := Heights(t[start].height, 1, 0);
    |have| == |s| && forall k :: 0 <= k < |s| ==> s[k] <= t[start].height && have[k] == Ancestor(t, start, s[k])
  }

  /** The locator of a block, or of the tip for NULL; the empty chain has none. */
  method GetLocator(c: Chain, t: Tree, i: int) returns (have: seq<int>)
    requires WellBuilt(t) && c.Valid(t) && NULL <= i < |t|
    ensures
      var start := if i == NULL then c.Last() else i;
      if start == NULL then have == [] else IsLocator(t, start, have)
  {
    hide Path, SkipsRight, Linked, Heights, Ancestor, LastStep;
    have := [];
    var step := 1;
    var index := if i == NULL then c.Last() else i;
    ghost var start := index;
    if index == NULL { return; }
    HeightNonNegative(t, start);
    ghost var s := Heights(t[start].height, 1, 0);
    HeightsDecrease(t[start].height, 1, 0);
    assert s[0..] == s;
    StartHere(t, start);
    while index != NULL
      invariant 0 <= index < |t| && step >= 1 && 0 <= t[index].height <= t[start].height
      invariant index == Ancestor(t, start, t[index].height)
      invariant |have| < |s| && s[|have|..] == Heights(t[index].height, step, |have|)
      invariant step <= LastStep(t[start].height, 1, 0) == LastStep(t[index].height, step, |have|)
      invariant forall k :: 0 <= k < |have| ==> s[k] <= t[start].height && have[k] == Ancestor(t, start, s[k])
      decreases t[index].height
    {
      Listed(s, |have|, t[index].height, step);
      LastStepIs(t[index].height, step, |have|);
      have := have + [index];
      if t[index].height == 0 {
        break;
      }
      var height := if t[index].height - step > 0 then t[index].height - step else 0;
      AncestorOfAncestor(t, start, t[index].height, height);
      if c.Contains(t, index) {
        AtIsAncestor(c, t, index, height);
        index := c.At(height);
      } else {
        ghost var steps;
        index, steps := GetAncestor(t, index, height);
      }
      if |have| > 10 {
        step := step * 2;
      }
    }
  }

  lemma StartHere(t: Tree, i: int)
    requires Linked(t) && 0 <= i < |t|
    ensures (HeightNonNegative(t, i); Ancestor(t, i, t[i].height) == i)
  {
  }

  /** The next entry of the list, and what comes after it. */
  lemma Listed(s: seq<nat>, n: nat, h: nat, step: nat)
    requires step >= 1 && n < |s| && s[n..] == Heights(h, step, n)
    ensures s[n] == h
    ensures h == 0 ==> |s| == n + 1
    ensures h > 0 ==> n + 1 < |s| && s[n + 1..] == Heights(Back(h, step), NextStep(step, n), n + 1)
  {
    assert s[n] == s[n..][0];
    assert s[n + 1..] == s[n..][1..];
    if h > 0 { HeightsDecrease(Back(h, step), NextStep(step, n), n + 1); }
  }

  /** Indexing the chain is the same as walking back from a block in it. */
  lemma AtIsAncestor(c: Chain, t: Tree, i: int, h: int)
    requires Linked(t) && c.Valid(t) && 0 <= i < |t| && c.Contains(t, i)
    requires (HeightNonNegative(t, i); 0 <= h <= t[i].height)
    ensures c.At(h) == Ancestor(t, i, h)
  {
    AncestorAt(t, i, c.Last());
    AncestorOnPath(t, i, h);
  }

  /** r is the first locator entry on the chain, or the chain's genesis block if there is none. */
  ghost predicate FirstShared(have: seq<int>, chain: seq<int>, r: int) {
    (exists k :: 0 <= k < |have| && r == have[k] && r in chain && forall j :: 0 <= j < k ==> have[j] !in chain) ||
    ((forall j :: 0 <= j < |have| ==> have[j] !in chain) && r == if chain == [] then NULL else chain[0])
  }

  /** Looks the entries up in the block index, and those found in the chain. */
  method FindForkInGlobalIndex(c: Chain, t: Tree, known: set<int>, have: seq<int>) returns (r: int)
    requires Linked(t) && c.Valid(t)
    requires forall x :: x in known ==> 0 <= x < |t|
    requires forall x :: x in c.vChain ==> x in known
    ensures FirstShared(have, c.vChain, r)
  {
    var k := 0;
    while k < |have|
      invariant 0 <= k <= |have|
      invariant forall j :: 0 <= j < k ==> have[j] !in c.vChain
    {
      if have[k] in known {
        if c.Contains(t, have[k]) {
          return have[k];
        }
      }
      k := k + 1;
    }
    return c.At(0);
  }

  lemma {:induction false} FirstAtMostIs(s: seq<nat>, f: nat, k: nat)
    requires k < |s| && s[k] <= f && forall j :: 0 <= j < k ==> s[j] > f
    ensures FirstAtMost(s, f) == s[k]
    decreases k
  {
    if k > 0 { FirstAtMostIs(s[1..], f, k - 1); }
  }

  /** A node whose chain has the same genesis block finds a common ancestor at most twice as far back as
      the fork. */
  lemma ForkIsNear(t: Tree, start: int, have: seq<int>, tip: int, r: int, fork: int)
    requires Linked(t) && 0 <= start < |t| && 0 <= tip < |t|
    requires IsLocator(t, start, have) && FirstShared(have, Path(t, tip), r) && HighestCommon(t, fork, start, tip)
    requires (PathHeights(t, start); PathHeights(t, tip); Path(t, start)[0] == Path(t, tip)[0])
    ensures Common(t, r, start, tip) && 0 <= r < |t| && 0 <= fork < |t|
    ensures t[start].height - t[r].height <= 2 * (t[start].height - t[fork].height)
  {
    hide Linked, Path, Heights, Ancestor, IsLocator, FirstShared, HighestCommon, Common, IsAncestor, FirstAtMost;
    HeightNonNegative(t, start);
    ForkExists(t, start, tip, fork);
    var s, f := Heights(t[start].height, 1, 0), t[fork].height;
    HeightsDecrease(t[start].height, 1, 0);
    EntryHeights(t, start, have);
    forall k | 0 <= k < |s| ensures have[k] in Path(t, tip) <==> s[k] <= f {
      LocatorEntry(t, start, have, k);
      EntryShared(t, start, tip, fork, s[k]);
    }
    assert have[|s| - 1] in Path(t, tip);
    var k := SharedEntry(have, Path(t, tip), r, |s| - 1);
    BothAncestors(t, r, start, tip);
    FirstAtMostIs(s, f, k);
    LocatorNear(t[start].height, 1, 0, t[start].height, f);
  }

  lemma BothAncestors(t: Tree, r: int, i: int, j: int)
    requires Linked(t) && 0 <= i < |t| && 0 <= j < |t| && IsAncestor(t, r, i) && r in Path(t, j)
    ensures Common(t, r, i, j)
  {
  }

  lemma LocatorEntry(t: Tree, start: int, have: seq<int>, k: nat)
    requires Linked(t) && 0 <= start < |t| && IsLocator(t, start, have)
    requires k < |have|
    ensures (HeightNonNegative(t, start);
      k < |Heights(t[start].height, 1, 0)| && Heights(t[start].height, 1, 0)[k] <= t[start].height &&
      have[k] == Ancestor(t, start, Heights(t[start].height, 1, 0)[k]))
  {
  }

  lemma SharedEntry(have: seq<int>, chain: seq<int>, r: int, last: nat) returns (k: nat)
    requires FirstShared(have, chain, r) && last < |have| && have[last] in chain
    ensures k < |have| && r == have[k] && r in chain && forall j :: 0 <= j < k ==> have[j] !in chain
  {
    k :| 0 <= k < |have| && r == have[k] && r in chain && forall j :: 0 <= j < k ==> have[j] !in chain;
  }

  lemma ForkExists(t: Tree, start: int, tip: int, fork: int)
    requires Linked(t) && 0 <= start < |t| && 0 <= tip < |t| && HighestCommon(t, fork, start, tip)
    requires (PathHeights(t, start); PathHeights(t, tip); Path(t, start)[0] == Path(t, tip)[0])
    ensures 0 <= fork < |t| && 0 <= t[fork].height <= t[start].height
  {
    hide Path, Linked;
    TipOnPath(t, start);
    TipOnPath(t, tip);
    assert Common(t, Path(t, start)[0], start, tip);
    AncestorAt(t, fork, start);
  }

  lemma EntryHeights(t: Tree, start: int, have: seq<int>)
    requires Linked(t) && 0 <= start < |t| && IsLocator(t, start, have)
    ensures
      (HeightNonNegative(t, start);
      var s := Heights(t[start].height, 1, 0);
      |have| == |s| && forall k :: 0 <= k < |s| ==>
        IsAncestor(t, have[k], start) && 0 <= have[k] < |t| && t[have[k]].height == s[k])
  {
    hide Path, Heights;
    HeightNonNegative(t, start);
    var s := Heights(t[start].height, 1, 0);
    forall k | 0 <= k < |s| ensures IsAncestor(t, have[k], start) {
      AncestorOnPath(t, start, s[k]);
    }
  }

  /** An ancestor is shared exactly when it is not above the fork. */
  lemma EntryShared(t: Tree, start: int, tip: int, fork: int, h: int)
    requires Linked(t) && 0 <= start < |t| && 0 <= tip < |t| && 0 <= fork < |t| && HighestCommon(t, fork, start, tip)
    requires (HeightNonNegative(t, start); 0 <= h <= t[start].height)
    ensures Ancestor(t, start, h) in Path(t, tip) <==> h <= t[fork].height
  {
    hide Path;
    AncestorOnPath(t, start, h);
    var a := Ancestor(t, start, h);
    AncestorsBelow(t, a, fork, start);
    AncestorsBelow(t, a, fork, tip);
    assert a in Path(t, tip) ==> Common(t, a, start, tip);
  }
}
