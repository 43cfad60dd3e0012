/** Blocks that arrive after the start: how the tree of headers grows, and how the node comes to know the linked
    blocks. */
module BlockArrival {
  import opened BlockTree
  import opened ActiveChain
  import opened ArrivalOrder
  import opened Candidates
  import Utxo
  import ChainState

  // ---------- the node knows the linked blocks ----------

  /** Block i is linked, and the node has it. */
  ghost predicate Known(k: Blocks, tree: ChainState.Tree, i: int) {
    && k.Has(i) && |k.chainTx| == |k.body| == |k.t| && k.IsLinked(i)
    && k.HashAt(i) in tree && tree[k.HashAt(i)] == k.InfoAt(i)
  }

  /** The node's blocks are those with a number in known. */
  ghost predicate Mirrors(k: Blocks, known: set<int>, tree: ChainState.Tree) {
    && (forall i :: i in known ==> Known(k, tree, i))
    && (forall h :: h in tree ==> exists i :: i in known && k.HashAt(i) == h)
  }

  /** Whether block i is accepted after its parent: by the coins there are, and by the other checks. */
  ghost predicate AcceptedBy(k: Blocks, checks: int -> bool, tree: ChainState.Tree, i: int) {
    ChainState.TreeOk(tree) && k.HashAt(i) in tree && ChainState.Connected(tree, k.HashAt(i)).Some? && checks(i)
  }

  ghost predicate Verdicts(k: Blocks, checks: int -> bool, tree: ChainState.Tree, accepts: int -> bool) {
    forall i :: accepts(i) <==> AcceptedBy(k, checks, tree, i)
  }

  /** A linked block, as the node sees it. */
  lemma LinkedKnown(k: Blocks, checks: int -> bool, tree: ChainState.Tree, accepts: int -> bool, i: int)
    requires k.Valid() && Mirrors(k, k.LinkedSet(), tree) && Verdicts(k, checks, tree, accepts)
    requires ChainState.TreeOk(tree) && k.Has(i) && k.IsLinked(i)
    ensures k.HashAt(i) in tree && tree[k.HashAt(i)].prev == k.HashAt(k.t[i].prev)
    ensures k.t[i].height > 0 ==> tree[k.HashAt(i)].height > 0
    ensures accepts(i) <==> ChainState.Connected(tree, k.HashAt(i)).Some? && checks(i)
  {
    hide ChainState.TreeOk, ChainState.Connected, Blocks.Valid, Blocks.HashAt;
    Sizes(k);
    assert i in k.LinkedSet();
    assert Known(k, tree, i);
    assert accepts(i) <==> AcceptedBy(k, checks, tree, i);
  }

  /** Before any block has arrived. */
  lemma NoBlocks(k: Blocks, checks: int -> bool, accepts: int -> bool)
    requires k == Blocks([], [], [], [], [], [], []) && forall i :: !accepts(i)
    ensures StateOk(k, accepts, [], {}) && TipOk(k, accepts, NULL) && k.LinkedSet() == {}
    ensures Mirrors(k, {}, map[]) && Verdicts(k, checks, map[], accepts)
  {
    hide Mirrors, Verdicts, Blocks.Valid, Linked, Sound, Distinct, Blocks.Named, Summed, SkipsRight;
    NoHeaders(k, accepts);
    NothingKnown(k, checks, accepts);
  }

  lemma NoHeaders(k: Blocks, accepts: int -> bool)
    requires k == Blocks([], [], [], [], [], [], [])
    ensures Linked(k.t) && k.Valid() && Sound(k.t, accepts, NULL)
  {
  }

  lemma NothingKnown(k: Blocks, checks: int -> bool, accepts: int -> bool)
    requires k.hash == [] && forall i :: !accepts(i)
    ensures Mirrors(k, {}, map[]) && Verdicts(k, checks, map[], accepts)
  {
    hide ChainState.Connected, ChainState.TreeOk;
  }

  // ---------- growth ----------

  /** More headers, and more linked blocks: what was there keeps its place, and what was linked keeps all. */
  ghost predicate Extends(k: Blocks, k': Blocks)
    requires k.Valid()
  {
    && k'.Valid() && |k.t| <= |k'.t| && k'.t[..|k.t|] == k.t && k'.hash[..|k.t|] == k.hash
    && forall i :: k.Has(i) && k.IsLinked(i) ==>
         k'.IsLinked(i) && k'.rank[i] == k.rank[i] && k'.body[i] == k.body[i]
  }

  lemma ExtendsFacts(k: Blocks, k': Blocks)
    requires k.Valid() && Extends(k, k')
    ensures k'.Valid() && Linked(k.t) && Linked(k'.t) && |k.t| <= |k'.t|
    ensures |k.chainTx| == |k.hash| == |k.body| == |k.t| && |k'.chainTx| == |k'.hash| == |k'.body| == |k'.t| &&
      k.LinkedSet() <= k'.LinkedSet()
    ensures forall i :: 0 <= i < |k.t| ==> k'.t[i] == k.t[i] && k'.HashAt(i) == k.HashAt(i)
    ensures |k.rank| == |k.t| && |k'.rank| == |k'.t|
    ensures forall i :: i in k.LinkedSet() ==> k'.rank[i] == k.rank[i] && k'.body[i] == k.body[i]
  {
    forall i | 0 <= i < |k.t|
      ensures k'.t[i] == k.t[i] && k'.HashAt(i) == k.HashAt(i)
    {
      assert k'.t[..|k.t|][i] == k'.t[i] && k'.hash[..|k.t|][i] == k'.hash[i];
    }
  }

  lemma KnownGrown(k: Blocks, k': Blocks, tree: ChainState.Tree, i: int)
    requires k.Valid() && Extends(k, k') && Known(k, tree, i)
    ensures Known(k', tree, i) && k'.HashAt(i) == k.HashAt(i)
  {
    hide Blocks.Valid, Extends, Linked;
    ExtendsFacts(k, k');
    Sizes(k);
    assert i in k.LinkedSet();
  }

  lemma MirrorsGrown(k: Blocks, k': Blocks, tree: ChainState.Tree)
    requires k.Valid() && |k.chainTx| == |k.t| && Extends(k, k') && Mirrors(k, k.LinkedSet(), tree)
    ensures Mirrors(k', k.LinkedSet(), tree)
  {
    hide Blocks.Valid, Extends, Known, Blocks.HashAt, Blocks.LinkedSet;
    forall i | i in k.LinkedSet()
      ensures Known(k', tree, i) && k'.HashAt(i) == k.HashAt(i)
    {
      KnownGrown(k, k', tree, i);
    }
    forall h | h in tree
      ensures exists i :: i in k.LinkedSet() && k'.HashAt(i) == h
    {
      var i :| i in k.LinkedSet() && k.HashAt(i) == h;
      assert k'.HashAt(i) == h;
    }
  }

  /** One more linked block, whose parent is known, is new to the node and fits its tree. */
  lemma MirrorOne(k: Blocks, known: set<int>, tree: ChainState.Tree, i: int)
    requires k.Valid() && Mirrors(k, known, tree) && k.Has(i) && k.IsLinked(i) && i !in known
    requires k.t[i].prev != NULL ==> k.t[i].prev in known
    ensures k.HashAt(i) !in tree && ChainState.BlockOk(tree, k.HashAt(i), k.InfoAt(i))
    ensures Mirrors(k, known + {i}, tree[k.HashAt(i) := k.InfoAt(i)])
  {
    hide Blocks.Valid, Blocks.HashAt, Blocks.InfoAt, ChainState.BlockOk;
    OthersDiffer(k, known, tree, i);
    NewFits(k, tree, i);
    var tree' := tree[k.HashAt(i) := k.InfoAt(i)];
    forall h | h in tree'
      ensures exists j :: j in known + {i} && k.HashAt(j) == h
    {
      if h == k.HashAt(i) {
        assert i in known + {i};
      } else {
        var j :| j in known && k.HashAt(j) == h;
        assert j in known + {i};
      }
    }
  }

  lemma OthersDiffer(k: Blocks, known: set<int>, tree: ChainState.Tree, i: int)
    requires k.Valid() && Mirrors(k, known, tree) && k.Has(i) && i !in known
    ensures k.HashAt(i) !in tree && |k.body| == |k.chainTx| == |k.t|
  {
    hide SkipsRight, Distinct, Summed, Linked, Blocks.OneRoot, Blocks.InfoAt, Utxo.IdsIdentify;
    Sizes(k);
  }

  lemma NewFits(k: Blocks, tree: ChainState.Tree, i: int)
    requires k.Valid() && k.Has(i)
    requires k.t[i].prev != NULL ==> Known(k, tree, k.t[i].prev)
    ensures ChainState.BlockOk(tree, k.HashAt(i), k.InfoAt(i))
  {
    hide SkipsRight, Distinct, Summed, Blocks.OneRoot, Utxo.IdsIdentify;
    HeightNonNegative(k.t, i);
    HeightNonNegative(k.t, k.t[i].prev);
  }

  lemma ParentLinked(k: Blocks, i: int)
    requires k.Valid() && k.Has(i) && k.IsLinked(i)
    ensures k.t[i].prev != NULL ==> 0 <= k.t[i].prev < i && k.IsLinked(k.t[i].prev)
  {
    assert SummedAt(k.t, k.nTx, k.data, k.chainTx, i);
  }

  /** The verdict on a linked block does not change when other blocks arrive. */
  lemma VerdictStays(k: Blocks, k': Blocks, checks: int -> bool, tree: ChainState.Tree, tree': ChainState.Tree, i: int)
    requires k.Valid() && Extends(k, k') && Mirrors(k, k.LinkedSet(), tree) && i in k.LinkedSet()
    requires ChainState.TreeOk(tree) && ChainState.TreeOk(tree') && Keeps(tree, tree')
    ensures AcceptedBy(k', checks, tree', i) <==> AcceptedBy(k, checks, tree, i)
  {
    hide ChainState.TreeOk, ChainState.Connected, ChainState.Replay, Extends, Blocks.Valid;
    ExtendsFacts(k, k');
    assert Known(k, tree, i);
    ChainState.ReplayStable(tree, tree', k.HashAt(i));
  }

  ghost predicate Keeps(tree: ChainState.Tree, tree': ChainState.Tree) {
    forall h :: h in tree ==> h in tree' && tree'[h] == tree[h]
  }

  lemma {:induction false} PathGrown(t: Tree, t': Tree, i: int)
    requires Linked(t) && Linked(t') && |t| <= |t'| && (forall j :: 0 <= j < |t| ==> t'[j] == t[j]) && NULL <= i < |t|
    ensures Path(t', i) == Path(t, i)
    decreases i
  {
    if i != NULL { PathGrown(t, t', t[i].prev); }
  }

  /** The verdicts on the blocks that were linked are the same. */
  ghost predicate SameVerdicts(k: Blocks, accepts: int -> bool, accepts': int -> bool)
    requires k.Valid()
  {
    forall i :: i in k.LinkedSet() ==> (accepts'(i) <==> accepts(i))
  }

  lemma {:induction false} SoundGrown(k: Blocks, k': Blocks, accepts: int -> bool, accepts': int -> bool, i: int)
    requires k.Valid() && Extends(k, k') && SameVerdicts(k, accepts, accepts')
    requires NULL <= i < |k.t| && (i != NULL ==> k.IsLinked(i))
    ensures Linked(k.t) && Linked(k'.t) && |k.t| <= |k'.t|
    ensures Sound(k'.t, accepts', i) <==> Sound(k.t, accepts, i)
    decreases i
  {
    ExtendsFacts(k, k');
    hide Extends, Blocks.Named, Blocks.OneRoot, SkipsRight, Distinct;
    if i != NULL {
      assert i in k.LinkedSet();
      ParentLinked(k, i);
      SoundGrown(k, k', accepts, accepts', k.t[i].prev);
    }
  }

  /** Newly linked blocks become candidates, so every sound linked block is covered again. */
  lemma StateGrows(
      k: Blocks, k': Blocks, accepts: int -> bool, accepts': int -> bool, failed: seq<bool>, candidates: set<int>)
    requires StateOk(k, accepts, failed, candidates) && Extends(k, k') && SameVerdicts(k, accepts, accepts')
    ensures |failed| <= |k'.t| && |k.chainTx| == |k.t| && |k'.chainTx| == |k'.t|
    ensures StateOk(k', accepts', failed + seq(|k'.t| - |failed|, _ => false),
      candidates + (k'.LinkedSet() - k.LinkedSet()))
  {
    hide Extends, Sound, SameVerdicts, Blocks.Valid, Linked, Covered;
    ExtendsFacts(k, k');
    StateFacts(k, accepts, failed, candidates);
    var marks := failed + seq(|k'.t| - |failed|, _ => false);
    var more := candidates + (k'.LinkedSet() - k.LinkedSet());
    MarksGrow(k, k', accepts, accepts', failed, marks);
    CoverGrows(k, k', accepts, accepts', candidates, more);
  }

  lemma MarksGrow(
      k: Blocks, k': Blocks, accepts: int -> bool, accepts': int -> bool, failed: seq<bool>, marks: seq<bool>)
    requires k.Valid() && Extends(k, k') && SameVerdicts(k, accepts, accepts')
    requires |failed| == |k.t| && MarksUnsound(k.t, accepts, failed)
    requires forall i :: 0 <= i < |k.t| && failed[i] ==> k.IsLinked(i)
    requires |marks| == |k'.t| && forall i :: 0 <= i < |marks| && marks[i] ==> i < |failed| && failed[i]
    ensures k'.Valid() && MarksUnsound(k'.t, accepts', marks)
    ensures forall i :: 0 <= i < |k'.t| && marks[i] ==> k'.IsLinked(i)
  {
    hide Extends, Sound, SameVerdicts, Blocks.Valid, Linked;
    ExtendsFacts(k, k');
    forall i | 0 <= i < |k'.t| && marks[i]
      ensures !Sound(k'.t, accepts', i) && k'.IsLinked(i)
    {
      assert i in k.LinkedSet();
      SoundGrown(k, k', accepts, accepts', i);
    }
  }

  lemma CoverGrows(
      k: Blocks, k': Blocks, accepts: int -> bool, accepts': int -> bool, candidates: set<int>, more: set<int>)
    requires k.Valid() && Extends(k, k') && SameVerdicts(k, accepts, accepts')
    requires (forall c :: c in candidates ==> k.Has(c) && k.IsLinked(c)) && (forall c :: c in more ==> 0 <= c < |k'.t|)
    requires Covered(k.t, accepts, k.rank, k.chainTx, candidates)
    requires k'.Valid() && more == candidates + (k'.LinkedSet() - k.LinkedSet())
    ensures Covered(k'.t, accepts', k'.rank, k'.chainTx, more)
  {
    hide Extends, Sound, SameVerdicts, Blocks.Valid, Linked, Less;
    ExtendsFacts(k, k');
    forall b | 0 <= b < |k'.t| && k'.chainTx[b] > 0 && Sound(k'.t, accepts', b)
      ensures CoveredAt(k'.t, accepts', k'.rank, more, b)
    {
      if b in k.LinkedSet() {
        SoundGrown(k, k', accepts, accepts', b);
        assert CoveredAt(k.t, accepts, k.rank, candidates, b);
        var c :| c in candidates && Sound(k.t, accepts, c) && AtLeast(k.rank, c, b);
        SoundGrown(k, k', accepts, accepts', c);
        assert c in k.LinkedSet() && c in more && AtLeast(k'.rank, c, b);
      } else {
        assert b in more && AtLeast(k'.rank, b, b);
      }
    }
  }

  /** The active chain and its tip are as good as they were. */
  lemma ChainGrows(k: Blocks, k': Blocks, accepts: int -> bool, accepts': int -> bool, tip: int)
    requires k.Valid() && Extends(k, k') && SameVerdicts(k, accepts, accepts') && TipOk(k, accepts, tip)
    ensures Linked(k.t) && k'.Valid() && TipOk(k', accepts', tip) && Path(k'.t, tip) == Path(k.t, tip) &&
      k'.HashAt(tip) == k.HashAt(tip)
  {
    ExtendsFacts(k, k');
    SoundGrown(k, k', accepts, accepts', tip);
    PathGrown(k.t, k'.t, tip);
    if tip != NULL { assert tip in k.LinkedSet(); }
    hide Extends, Sound, SameVerdicts, Path, Blocks.Named, Blocks.OneRoot, SkipsRight, Distinct, Summed;
  }
}
