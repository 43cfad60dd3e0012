/** The tree of block headers, its skip list, and ancestors. */
module BlockTree {
  import opened SkipList

  const NULL := -1

  /** A block index entry.  Entries are numbered in the order they are created. */
  datatype Block = Block(prev: int, skip: int, height: int)

  type Tree = seq<Block>

  /** Every parent is an earlier entry, one lower. */
  ghost predicate Linked(t: Tree) {
    forall i :: 0 <= i < |t| ==>
      NULL <= t[i].prev < i &&
      t[i].height == if t[i].prev == NULL then 0 else t[t[i].prev].height + 1
  }

  // ---------- the simple walk ----------

  /** The entries from the root to i. */
  function Path(t: Tree, i: int): (p: seq<int>)
    requires Linked(t) && NULL <= i < |t|
    decreases i
  {
    if i == NULL then [] else Path(t, t[i].prev) + [i]
  }

  /** The ancestor at height h, one step back at a time. */
  function Ancestor(t: Tree, i: int, h: int): (a: int)
    requires Linked(t) && 0 <= i < |t|
    requires (HeightNonNegative(t, i); 0 <= h <= t[i].height)
    ensures NULL < a <= i && t[a].height == h
    decreases i
  {
    if t[i].height == h then i else (HeightNonNegative(t, t[i].prev); Ancestor(t, t[i].prev, h))
  }

  lemma {:induction false} HeightNonNegative(t: Tree, i: int)
    requires Linked(t) && NULL <= i < |t|
    ensures i >= 0 ==> t[i].height >= 0
    decreases i
  {
    if i >= 0 { HeightNonNegative(t, t[i].prev); }
  }

  /** The path has one entry per height, and entry h is the ancestor at height h. */
  lemma {:induction false} PathHeights(t: Tree, i: int)
    requires Linked(t) && NULL <= i < |t|
    ensures |Path(t, i)| == if i == NULL then 0 else t[i].height + 1
    ensures forall h :: 0 <= h < |Path(t, i)| ==> 0 <= Path(t, i)[h] <= i && t[Path(t, i)[h]].height == h
    ensures forall h :: 0 <= h < |Path(t, i)| ==> Path(t, Path(t, i)[h]) == Path(t, i)[..h + 1]
    decreases i
  {
    if i != NULL {
      PathHeights(t, t[i].prev);
      var p, q := Path(t, i), Path(t, t[i].prev);
      forall h | 0 <= h < |p| ensures 0 <= p[h] <= i && t[p[h]].height == h && Path(t, p[h]) == p[..h + 1] {
        if h < |q| { assert p[h] == q[h] && p[..h + 1] == q[..h + 1]; } else { assert p[..h + 1] == p; }
      }
    }
  }

  lemma {:induction false} AncestorOnPath(t: Tree, i: int, h: int)
    requires Linked(t) && 0 <= i < |t|
    requires (HeightNonNegative(t, i); 0 <= h <= t[i].height)
    ensures h < |Path(t, i)| && Ancestor(t, i, h) == Path(t, i)[h]
    decreases i
  {
    PathHeights(t, i);
    if t[i].height != h {
      AncestorOnPath(t, t[i].prev, h);
      PathHeights(t, t[i].prev);
    }
  }

  ghost predicate IsAncestor(t: Tree, a: int, i: int)
    requires Linked(t) && NULL <= i < |t|
  {
    a in Path(t, i)
  }

  /** An ancestor is the path's entry at its own height. */
  lemma AncestorAt(t: Tree, a: int, i: int)
    requires Linked(t) && NULL <= i < |t|
    ensures IsAncestor(t, a, i) ==>
      0 <= a <= i && 0 <= t[a].height < |Path(t, i)| && Path(t, i)[t[a].height] == a &&
      Path(t, a) == Path(t, i)[..t[a].height + 1]
  {
    hide Path;
    PathHeights(t, i);
    if IsAncestor(t, a, i) {
      var h :| 0 <= h < |Path(t, i)| && Path(t, i)[h] == a;
    }
  }

  /** The ancestor at a height is the same seen from any descendant. */
  lemma AncestorOfAncestor(t: Tree, i: int, h: int, g: int)
    requires Linked(t) && 0 <= i < |t|
    requires (HeightNonNegative(t, i); 0 <= g <= h <= t[i].height)
    ensures Ancestor(t, Ancestor(t, i, h), g) == Ancestor(t, i, g)
  {
    hide Path;
    AncestorOnPath(t, i, h);
    AncestorOnPath(t, i, g);
    PathHeights(t, i);
    AncestorOnPath(t, Ancestor(t, i, h), g);
  }

  // ---------- skip pointers ----------

  /** Every skip pointer is the ancestor at the skip height. */
  ghost predicate SkipsRight(t: Tree)
    requires Linked(t)
  {
    forall i :: 0 <= i < |t| ==> SkipRight(t, i)
  }

  ghost predicate SkipRight(t: Tree, i: int)
    requires Linked(t) && 0 <= i < |t|
  {
    if t[i].prev == NULL then t[i].skip == NULL
    else
      (HeightNonNegative(t, i); HeightNonNegative(t, t[i].prev); t[i].skip == Ancestor(t, i, SkipHeight(t[i].height)))
  }

  ghost predicate WellBuilt(t: Tree) {
    Linked(t) && SkipsRight(t)
  }

  /** Follows the skip list down to a height; NULL for a height the block does not have.  The number of steps is
      at most about a quarter of the square of the number of bits of the block's height. */
  method GetAncestor(t: Tree, i: int, height: int) returns (walk: int, ghost steps: nat)
    requires WellBuilt(t) && 0 <= i < |t|
    ensures (HeightNonNegative(t, i); walk == if 0 <= height <= t[i].height then Ancestor(t, i, height) else NULL)
    ensures (HeightNonNegative(t, i); steps <= MaxSteps(t[i].height))
  {
    hide Effort, MaxSteps, SkipHeight, Ancestor, Linked, SkipsRight;
    HeightNonNegative(t, i);
    steps := 0;
    if height > t[i].height || height < 0 {
      return NULL, 0;
    }
    walk := i;
    var heightWalk := t[i].height;
    EffortBound(heightWalk, height);
    while heightWalk > height
      invariant 0 <= walk < |t| && height <= heightWalk == t[walk].height
      invariant Ancestor(t, walk, height) == Ancestor(t, i, height)
      invariant steps + Effort(heightWalk, height) <= MaxSteps(t[i].height)
    {
      var heightSkip := SkipHeight(heightWalk);
      var heightSkipPrev := SkipHeight(heightWalk - 1);
      StepHelps(heightWalk, height);
      if heightSkip == height ||
         (heightSkip > height && !(heightSkipPrev < heightSkip - 2 && heightSkipPrev >= height))
      {
        SkipStep(t, walk, height);
        walk := t[walk].skip;
        heightWalk := heightSkip;
      } else {
        PrevStep(t, walk, height);
        walk := t[walk].prev;
        heightWalk := heightWalk - 1;
      }
      steps := steps + 1;
    }
    OwnAncestor(t, walk);
  }

  lemma OwnAncestor(t: Tree, i: int)
    requires Linked(t) && 0 <= i < |t|
    ensures (HeightNonNegative(t, i); Ancestor(t, i, t[i].height) == i)
  {
  }

  lemma SkipStep(t: Tree, i: int, h: int)
    requires WellBuilt(t) && 0 <= i < |t|
    requires (HeightNonNegative(t, i); 0 <= h <= SkipHeight(t[i].height) && h < t[i].height)
    ensures 0 <= t[i].skip < |t| && t[t[i].skip].height == SkipHeight(t[i].height)
    ensures Ancestor(t, t[i].skip, h) == Ancestor(t, i, h)
  {
    hide Ancestor, SkipHeight;
    HeightNonNegative(t, i);
    assert SkipRight(t, i);
    AncestorOfAncestor(t, i, SkipHeight(t[i].height), h);
  }

  lemma PrevStep(t: Tree, i: int, h: int)
    requires Linked(t) && 0 <= i < |t|
    requires (HeightNonNegative(t, i); 0 <= h < t[i].height)
    ensures 0 <= t[i].prev < |t| && t[t[i].prev].height == t[i].height - 1
    ensures Ancestor(t, t[i].prev, h) == Ancestor(t, i, h)
  {
    HeightNonNegative(t, t[i].prev);
  }

  // ---------- growing the tree ----------

  /** Entries already there are not affected by a new one. */
  lemma {:induction false} AncestorStable(t: Tree, b: Block, i: int, h: int)
    requires Linked(t) && Linked(t + [b]) && 0 <= i < |t|
    requires (HeightNonNegative(t, i); 0 <= h <= t[i].height)
    ensures Ancestor(t + [b], i, h) == Ancestor(t, i, h)
    decreases i
  {
    if t[i].height != h { AncestorStable(t, b, t[i].prev, h); }
  }

  lemma {:induction false} PathStable(t: Tree, b: Block, i: int)
    requires Linked(t) && Linked(t + [b]) && NULL <= i < |t|
    ensures Path(t + [b], i) == Path(t, i)
    decreases i
  {
    if i != NULL { PathStable(t, b, t[i].prev); }
  }

  /** The block index, which only ever grows. */
  class BlockMap {
    var blocks: Tree

    constructor ()
      ensures blocks == [] && WellBuilt(blocks)
    {
      blocks := [];
    }

    /** A new entry below its parent, with its skip pointer found through the parent's own skip list. */
    method AddToBlockIndex(prev: int) returns (i: int)
      requires WellBuilt(blocks) && NULL <= prev < |blocks|
      modifies this
      ensures WellBuilt(blocks) && i == |old(blocks)| && |blocks| == i + 1 && blocks[..i] == old(blocks)
      ensures blocks[i].prev == prev && Path(blocks, i) == old(Path(blocks, prev)) + [i]
    {
      i := |blocks|;
      var b := Block(prev, NULL, 0);
      if prev != NULL {
        HeightNonNegative(blocks, prev);
        b := Block(prev, NULL, blocks[prev].height + 1);
        // BuildSkip
        var skip, _ := GetAncestor(blocks, prev, SkipHeight(b.height));
        b := b.(skip := skip);
      }
      Grown(blocks, b);
      blocks := blocks + [b];
    }
  }

  lemma Grown(t: Tree, b: Block)
    requires WellBuilt(t) && NULL <= b.prev < |t|
    requires b.height == if b.prev == NULL then 0 else t[b.prev].height + 1
    requires (HeightNonNegative(t, b.prev);
      b.skip == if b.prev == NULL then NULL else Ancestor(t, b.prev, SkipHeight(b.height)))
    ensures WellBuilt(t + [b]) && Path(t + [b], |t|) == Path(t, b.prev) + [|t|]
  {
    hide SkipRight, Path;
    var u := t + [b];
    LinkedGrown(t, b);
    forall i | 0 <= i < |u| ensures SkipRight(u, i) {
      if i < |t| { SkipKept(t, b, i); } else { SkipNew(t, b); }
    }
    PathStable(t, b, b.prev);
    PathStep(u, |t|);
  }

  lemma PathStep(t: Tree, i: int)
    requires Linked(t) && 0 <= i < |t|
    ensures Path(t, i) == Path(t, t[i].prev) + [i]
  {
  }

  lemma LinkedGrown(t: Tree, b: Block)
    requires Linked(t) && NULL <= b.prev < |t|
    requires b.height == if b.prev == NULL then 0 else t[b.prev].height + 1
    ensures Linked(t + [b])
  {
  }

  lemma SkipKept(t: Tree, b: Block, i: int)
    requires Linked(t) && Linked(t + [b]) && 0 <= i < |t| && SkipRight(t, i)
    ensures SkipRight(t + [b], i)
  {
    HeightNonNegative(t, i);
    if t[i].prev != NULL {
      HeightNonNegative(t, t[i].prev);
      AncestorStable(t, b, i, SkipHeight(t[i].height));
    }
  }

  lemma SkipNew(t: Tree, b: Block)
    requires Linked(t) && Linked(t + [b]) && NULL <= b.prev < |t|
    requires b.height == if b.prev == NULL then 0 else t[b.prev].height + 1
    requires (HeightNonNegative(t, b.prev);
      b.skip == if b.prev == NULL then NULL else Ancestor(t, b.prev, SkipHeight(b.height)))
    ensures SkipRight(t + [b], |t|)
  {
    hide Ancestor;
    HeightNonNegative(t, b.prev);
    if b.prev != NULL {
      AncestorStable(t, b, b.prev, SkipHeight(b.height));
      PrevStep(t + [b], |t|, SkipHeight(b.height));
    }
  }
}
