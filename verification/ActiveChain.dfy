/** The active chain as an indexed vector, and the last block two branches share. */
module ActiveChain {
  import opened BlockTree

  // ---------- the highest common ancestor ----------

  ghost predicate Common(t: Tree, c: int, i: int, j: int)
    requires Linked(t) && NULL <= i < |t| && NULL <= j < |t|
  {
    IsAncestor(t, c, i) && IsAncestor(t, c, j)
  }

  /** r is the highest block on both paths, or NULL when they share none. */
  ghost predicate HighestCommon(t: Tree, r: int, i: int, j: int)
    requires Linked(t) && NULL <= i < |t| && NULL <= j < |t|
  {
    if r == NULL then forall c :: !Common(t, c, i, j)
    else Common(t, r, i, j) && 0 <= r < |t| && forall c :: Common(t, c, i, j) ==> c in Path(t, r)
  }

  lemma {:induction false} SelfAncestor(t: Tree, i: int)
    requires Linked(t) && 0 <= i < |t|
    ensures IsAncestor(t, i, i)
  {
    PathStep(t, i);
    assert Path(t, i)[|Path(t, i)| - 1] == i;
  }

  /** Ancestors of an ancestor are ancestors, and every lower ancestor is one of those. */
  lemma AncestorsBelow(t: Tree, c: int, a: int, i: int)
    requires Linked(t) && NULL <= i < |t| && IsAncestor(t, a, i)
    ensures 0 <= a < |t|
    ensures IsAncestor(t, c, a) <==> IsAncestor(t, c, i) && (AncestorAt(t, c, i); t[c].height <= t[a].height)
  {
    hide Path;
    AncestorAt(t, a, i);
    AncestorAt(t, c, i);
    AncestorAt(t, c, a);
    var p, q := Path(t, i), Path(t, a);
    if IsAncestor(t, c, a) {
      var h :| 0 <= h < |q| && q[h] == c;
      assert p[h] == c;
      PathHeights(t, i);
    }
    assert IsAncestor(t, c, i) && t[c].height <= t[a].height ==> q[t[c].height] == c;
  }

  /** The ancestor at a height not below any common ancestor may stand for the block. */
  lemma CommonFromAncestor(t: Tree, i: int, j: int, h: int)
    requires Linked(t) && 0 <= i < |t| && NULL <= j < |t|
    requires (HeightNonNegative(t, i); 0 <= h <= t[i].height)
    requires j == NULL || t[j].height <= h
    ensures forall c :: Common(t, c, i, j) <==> Common(t, c, Ancestor(t, i, h), j)
  {
    hide Path;
    AncestorOnPath(t, i, h);
    var a := Ancestor(t, i, h);
    PathHeights(t, j);
    forall c ensures Common(t, c, i, j) <==> Common(t, c, a, j) {
      AncestorsBelow(t, c, a, i);
      AncestorAt(t, c, j);
    }
  }

  /** A block that is not an ancestor of j shares with j what its parent shares. */
  lemma CommonFromParent(t: Tree, i: int, j: int)
    requires Linked(t) && 0 <= i < |t| && NULL <= j < |t| && !IsAncestor(t, i, j)
    ensures forall c :: Common(t, c, i, j) <==> Common(t, c, t[i].prev, j)
  {
    PathStep(t, i);
    hide Path;
    forall c ensures Common(t, c, i, j) <==> Common(t, c, t[i].prev, j) {
      assert c in Path(t, i) <==> c in Path(t, t[i].prev) || c == i;
    }
  }

  lemma CommonSym(t: Tree, i: int, j: int)
    requires Linked(t) && NULL <= i < |t| && NULL <= j < |t|
    ensures forall c :: Common(t, c, i, j) <==> Common(t, c, j, i)
  {
  }

  /** A block that is an ancestor of j is the highest it shares with j. */
  lemma AncestorIsHighest(t: Tree, i: int, j: int)
    requires Linked(t) && 0 <= i < |t| && NULL <= j < |t| && IsAncestor(t, i, j)
    ensures HighestCommon(t, i, i, j)
  {
    SelfAncestor(t, i);
  }

  lemma SameHeight(t: Tree, i: int, j: int)
    requires Linked(t) && 0 <= i < |t| && 0 <= j < |t| && t[i].height == t[j].height
    ensures IsAncestor(t, i, j) <==> i == j
  {
    hide Path;
    AncestorAt(t, i, j);
    SelfAncestor(t, j);
    AncestorAt(t, j, j);
  }

  method LastCommonAncestor(t: Tree, a: int, b: int) returns (r: int)
    requires WellBuilt(t) && 0 <= a < |t| && 0 <= b < |t|
    ensures HighestCommon(t, r, a, b)
  {
    hide Path, Ancestor, SkipsRight;
    var pa, pb := a, b;
    HeightNonNegative(t, a);
    HeightNonNegative(t, b);
    CommonSym(t, a, b);
    ghost var steps: nat;
    if t[pa].height > t[pb].height {
      pa, steps := GetAncestor(t, pa, t[pb].height);
      CommonFromAncestor(t, a, b, t[b].height);
    } else if t[pb].height > t[pa].height {
      pb, steps := GetAncestor(t, pb, t[pa].height);
      CommonFromAncestor(t, b, a, t[a].height);
      CommonSym(t, pb, a);
    }
    while pa != pb && pa != NULL && pb != NULL
      invariant NULL <= pa < |t| && NULL <= pb < |t|
      invariant pa == NULL <==> pb == NULL
      invariant pa != NULL ==> t[pa].height == t[pb].height
      invariant forall c :: Common(t, c, a, b) <==> Common(t, c, pa, pb)
      decreases pa
    {
      CommonUp(t, pa, pb);
      HeightNonNegative(t, t[pa].prev);
      HeightNonNegative(t, t[pb].prev);
      pa := t[pa].prev;
      pb := t[pb].prev;
    }
    assert pa == pb;
    r := pa;
    MetHighest(t, r, a, b);
  }

  lemma CommonUp(t: Tree, i: int, j: int)
    requires Linked(t) && 0 <= i < |t| && 0 <= j < |t| && i != j && t[i].height == t[j].height
    ensures forall c :: Common(t, c, i, j) <==> Common(t, c, t[i].prev, t[j].prev)
  {
    hide Path;
    SameHeight(t, i, j);
    CommonFromParent(t, i, j);
    CommonSym(t, t[i].prev, j);
    HeightNonNegative(t, t[i].prev);
    if IsAncestor(t, j, t[i].prev) {
      AncestorAt(t, j, t[i].prev);
      PathHeights(t, t[i].prev);
    }
    CommonFromParent(t, j, t[i].prev);
    CommonSym(t, t[j].prev, t[i].prev);
  }

  lemma MetHighest(t: Tree, r: int, a: int, b: int)
    requires Linked(t) && NULL <= r < |t| && NULL <= a < |t| && NULL <= b < |t|
    requires forall c :: Common(t, c, a, b) <==> Common(t, c, r, r)
    ensures HighestCommon(t, r, a, b)
  {
    if r != NULL { SelfAncestor(t, r); assert Common(t, r, r, r); }
  }

  // ---------- the chain vector ----------

  /** The blocks from the root to the tip, by height. */
  class Chain {
    var vChain: seq<int>

    /** The vector is the path of some block. */
    ghost predicate Valid(t: Tree)
      requires Linked(t)
      reads this
    {
      NULL <= Last() < |t| && vChain == Path(t, Last())
    }

    function Last(): int
      reads this
    {
      if vChain == [] then NULL else vChain[|vChain| - 1]
    }

    constructor (t: Tree)
      requires Linked(t)
      ensures Valid(t) && vChain == []
    {
      vChain := [];
    }

    function Height(): int
      reads this
    {
      |vChain| - 1
    }

    function At(height: int): int
      reads this
    {
      if height < 0 || height >= |vChain| then NULL else vChain[height]
    }

    /** The constant-time test is the ancestor relation. */
    function Contains(t: Tree, i: int): (r: bool)
      requires Linked(t) && Valid(t) && 0 <= i < |t|
      reads this
      ensures r <==> IsAncestor(t, i, Last())
    {
      AncestorAt(t, i, Last());
      At(t[i].height) == i
    }

    /** Rewrites the vector from the new tip down, stopping where it already agrees. */
    method SetTip(t: Tree, tip: int)
      requires Linked(t) && Valid(t) && NULL <= tip < |t|
      modifies this
      ensures Valid(t) && Last() == tip && vChain == Path(t, tip)
    {
      hide Path, Rewritten, Resized, Linked, IsAncestor;
      NoPath(t);
      if tip == NULL {
        vChain := [];
        return;
      }
      ghost var was, p, a := vChain, Path(t, tip), Last();
      TipOnPath(t, tip);
      var n := t[tip].height + 1;
      vChain := Resized(vChain, n);
      var i := tip;
      StartRewriting(was, p);
      while i != NULL && vChain[t[i].height] != i
        invariant NULL <= i < |t| && (i != NULL ==> IsAncestor(t, i, tip) && 0 <= t[i].height < |vChain|)
        invariant Rewritten(vChain, was, p, if i == NULL then 0 else t[i].height + 1)
        decreases i
      {
        var k := t[i].height;
        AncestorAt(t, i, tip);
        RewriteOne(vChain, was, p, k);
        ParentOnPath(t, tip, i);
        vChain := vChain[k := i];
        i := t[i].prev;
      }
      AgreesBelow(t, vChain, was, a, p, i, tip);
    }

    /** The last block of the chain on the path of i. */
    method FindFork(t: Tree, i: int) returns (r: int)
      requires WellBuilt(t) && Valid(t) && 0 <= i < |t|
      ensures HighestCommon(t, r, i, Last()) && (r != NULL ==> Contains(t, r))
    {
      hide Path, Ancestor, SkipsRight;
      r := i;
      HeightNonNegative(t, i);
      PathHeights(t, Last());
      NoPath(t);
      if t[i].height > Height() {
        ghost var steps;
        r, steps := GetAncestor(t, i, Height());
        if r != NULL { CommonFromAncestor(t, i, Last(), Height()); }
      }
      while r != NULL && !Contains(t, r)
        invariant NULL <= r < |t|
        invariant forall c :: Common(t, c, i, Last()) <==> Common(t, c, r, Last())
        decreases r
      {
        CommonFromParent(t, r, Last());
        r := t[r].prev;
      }
      if r != NULL { AncestorIsHighest(t, r, Last()); }
    }
  }

  lemma TipOnPath(t: Tree, tip: int)
    requires Linked(t) && 0 <= tip < |t|
    ensures |Path(t, tip)| == t[tip].height + 1 && t[tip].height >= 0 && IsAncestor(t, tip, tip)
    ensures Path(t, tip)[|Path(t, tip)| - 1] == tip
  {
    PathHeights(t, tip);
    SelfAncestor(t, tip);
  }

  lemma NoPath(t: Tree)
    requires Linked(t)
    ensures Path(t, NULL) == []
  {
  }

  /** From height k up the vector is the new path, and below it is what was there. */
  ghost predicate Rewritten(v: seq<int>, was: seq<int>, p: seq<int>, k: int) {
    |v| == |p| && 0 <= k <= |p| &&
    (forall h :: k <= h < |p| ==> v[h] == p[h]) &&
    (forall h :: 0 <= h < k ==> v[h] == if h < |was| then was[h] else NULL)
  }

  /** A vector cut short, or filled up with null pointers. */
  function Resized(v: seq<int>, n: nat): (r: seq<int>)
    ensures |r| == n && forall h :: 0 <= h < n ==> r[h] == if h < |v| then v[h] else NULL
  {
    if n <= |v| then v[..n] else v + seq(n - |v|, _ => NULL)
  }

  lemma StartRewriting(was: seq<int>, p: seq<int>)
    ensures Rewritten(Resized(was, |p|), was, p, |p|)
  {
  }

  lemma RewriteOne(v: seq<int>, was: seq<int>, p: seq<int>, k: int)
    requires Rewritten(v, was, p, k + 1) && 0 <= k
    ensures |v| == |p| && Rewritten(v[k := p[k]], was, p, k)
  {
  }

  lemma ParentOnPath(t: Tree, tip: int, i: int)
    requires Linked(t) && 0 <= tip < |t| && 0 <= i < |t| && IsAncestor(t, i, tip)
    ensures NULL <= t[i].prev < i
    ensures t[i].prev != NULL ==> t[t[i].prev].height == t[i].height - 1
    ensures t[i].prev != NULL ==> IsAncestor(t, t[i].prev, tip) && 0 <= t[t[i].prev].height < |Path(t, tip)|
    ensures t[i].prev == NULL ==> t[i].height == 0
  {
    if t[i].prev != NULL {
      PathStep(t, i);
      SelfAncestor(t, t[i].prev);
      assert IsAncestor(t, t[i].prev, i);
      AncestorsBelow(t, t[i].prev, i, tip);
      AncestorAt(t, t[i].prev, tip);
    }
  }

  /** Two paths that share a block agree up to it, so the rewriting may stop there. */
  lemma AgreesBelow(t: Tree, v: seq<int>, was: seq<int>, a: int, p: seq<int>, i: int, tip: int)
    requires Linked(t) && NULL <= i < |t| && 0 <= tip < |t| && p == Path(t, tip)
    requires NULL <= a < |t| && was == Path(t, a)
    requires Rewritten(v, was, p, if i == NULL then 0 else t[i].height + 1)
    requires i != NULL ==> IsAncestor(t, i, tip) && 0 <= t[i].height && v[t[i].height] == i
    ensures v == p
  {
    hide Path;
    if i != NULL {
      var k := t[i].height;
      assert k < |was| && was[k] == i;
      assert IsAncestor(t, i, a);
      AncestorAt(t, i, a);
      AncestorAt(t, i, tip);
      forall h | 0 <= h <= k ensures v[h] == p[h] {
        assert was[..k + 1][h] == p[..k + 1][h];
      }
    }
  }
}
