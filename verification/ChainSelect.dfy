/** Choosing the chain with the most work, and moving the active chain and the coin set to it. */
module ChainSelect {
  import opened BlockTree
  import opened ActiveChain
  import opened ArrivalOrder
  import opened Candidates
  import opened BlockArrival
  import Utxo
  import ChainState
  import CoinsViews
  import BlockUndo
  import Wrappers

  /** The greatest of some candidates, or NULL if there is none. */
  method Greatest(rank: seq<Rank>, candidates: set<int>) returns (r: int)
    requires Distinct(rank) && forall c :: c in candidates ==> 0 <= c < |rank|
    ensures r == NULL ==> forall c :: c !in candidates
    ensures r != NULL ==> r in candidates && forall c :: c in candidates ==> AtLeast(rank, r, c)
  {
    r := NULL;
    var i := 0;
    while i < |rank|
      invariant 0 <= i <= |rank| && (r == NULL || (r in candidates && r < i))
      invariant forall c :: c in candidates && c < i ==> r != NULL && AtLeast(rank, r, c)
    {
      if i in candidates {
        if r == NULL {
          r := i;
        } else {
          LessOrder(rank[r], rank[i], rank[i]);
          if Less(rank[r], rank[i]) {
            forall c | c in candidates && c < i ensures AtLeast(rank, i, c) { AtLeastTrans(rank, i, r, c); }
            r := i;
          }
        }
      }
      i := i + 1;
    }
  }

  /** The least of some candidates, or NULL if there is none. */
  method Least(rank: seq<Rank>, candidates: set<int>) returns (r: int)
    requires Distinct(rank) && forall c :: c in candidates ==> 0 <= c < |rank|
    ensures r == NULL ==> forall c :: c !in candidates
    ensures r != NULL ==> r in candidates && forall c :: c in candidates ==> AtLeast(rank, c, r)
  {
    r := NULL;
    var i := 0;
    while i < |rank|
      invariant 0 <= i <= |rank| && (r == NULL || (r in candidates && r < i))
      invariant forall c :: c in candidates && c < i ==> r != NULL && AtLeast(rank, c, r)
    {
      if i in candidates {
        if r == NULL {
          r := i;
        } else {
          LessOrder(rank[r], rank[i], rank[i]);
          if Less(rank[i], rank[r]) {
            forall c | c in candidates && c < i ensures AtLeast(rank, c, i) { AtLeastTrans(rank, c, r, i); }
            r := i;
          }
        }
      }
      i := i + 1;
    }
  }

  /** How one operation on the disk goes: whether the block can be read (and its undo data written), whether undo
      data can be read, whether the block is found possibly corrupted, whether the cache is to be written, and how
      that goes. */
  datatype Turn = Turn(readable: bool, undoReadable: bool, corrupt: bool, needFlush: bool, disk: ChainState.Disk)
  {
    predicate Writes() { needFlush ==> disk.Works? }
  }

  /** A block with a possible corruption is Suspect: it is not marked, and may be valid. */
  datatype Outcome = Connected | Invalid | Suspect | SystemError

  datatype Batch = Done | Better | Bad | Unsure | Broken

  datatype Round = Settled | Reached | Again | Failed

  /** The node, which knows some of the linked blocks, is told of the others, parents first. */
  method Announce(k: Blocks, had: set<int>, node: ChainState.Node)
    requires k.Valid() && node.Consistent() && had <= k.LinkedSet() && Mirrors(k, had, node.tree)
    modifies node`tree
    ensures node.Consistent() && Mirrors(k, k.LinkedSet(), node.tree) && Keeps(old(node.tree), node.tree)
    ensures old(node.Ready()) ==> node.Ready()
  {
    hide ChainState.Node.Consistent, ChainState.Node.Ready, ChainState.TreeOk, ChainState.BlockOk, Blocks.Valid;
    hide Mirrors;
    hide Blocks.InfoAt, Blocks.HashAt;
    Sizes(k);
    var known := had;
    for i := 0 to |k.t|
      invariant node.Consistent() && Mirrors(k, known, node.tree) && had <= known <= k.LinkedSet()
      invariant forall j :: 0 <= j < i && k.IsLinked(j) ==> j in known
      invariant forall j :: j in known ==> j < i || j in had
      invariant Keeps(old(node.tree), node.tree) && (old(node.Ready()) ==> node.Ready())
    {
      if k.IsLinked(i) && i !in known {
        ParentLinked(k, i);
        MirrorOne(k, known, node.tree, i);
        node.AddBlock(k.HashAt(i), k.InfoAt(i));
        known := known + {i};
      }
    }
    assert known == k.LinkedSet();
  }

  class Selection {
    /** The verdict of the checks that do not look at the coins, for each block. */
    const checks: int -> bool
    /** The operations on the disk, in their order; from number `calm` on, none finds a corruption. */
    const turns: nat -> Turn
    const calm: nat
    const chain: Chain
    const node: ChainState.Node

    var k: Blocks
    var failed: seq<bool>
    var candidates: set<int>
    var ops: nat
    /** Whether a block is accepted after its parent, by the coins and the other checks. */
    ghost var accepts: int -> bool

    ghost predicate Valid()
      reads this, chain, node, node.coins
    {
      && StateOk(k, accepts, failed, candidates) && chain.Valid(k.t) && TipOk(k, accepts, chain.Last())
      && Backed()
    }

    /** The node has the linked blocks, follows the active chain, and decides what is accepted. */
    ghost predicate Backed()
      requires |k.chainTx| == |k.t|
      reads this, chain, node, node.coins
    {
      && node.Consistent() && Mirrors(k, k.LinkedSet(), node.tree) && Verdicts(k, checks, node.tree, accepts)
      && node.tip == k.HashAt(chain.Last()) && CalmAfter(turns, calm)
    }

    constructor (checks: int -> bool, turns: nat -> Turn, calm: nat)
      requires CalmAfter(turns, calm)
      ensures Valid() && node.Ready() && !node.aborted && !node.failedFlush
      ensures this.checks == checks && this.turns == turns && this.calm == calm
      ensures k == Blocks([], [], [], [], [], [], []) && failed == [] && candidates == {} && chain.vChain == []
      ensures fresh(chain) && fresh(node) && fresh(node.coins)
    {
      hide StateOk, TipOk, Mirrors, Verdicts, ChainState.Node.Consistent, ChainState.Node.Ready, Blocks.Valid;
      this.checks, this.turns, this.calm := checks, turns, calm;
      k := Blocks([], [], [], [], [], [], []);
      chain := new Chain([]);
      node := new ChainState.Node();
      failed, candidates, ops := [], {}, 0;
      ghost var none := (i: int) => false;
      accepts := none;
      NoBlocks(Blocks([], [], [], [], [], [], []), checks, none);
    }

    /** Headers and bodies arrived, and some more blocks are linked.  They become known to the node, parents first,
        and are candidates from then on. */
    method Arrived(k': Blocks)
      requires Valid() && Extends(k, k')
      modifies this`k, this`candidates, this`failed, this`accepts, node`tree
      ensures Valid() && k == k' && (old(node.Ready()) ==> node.Ready())
      ensures candidates == old(candidates) + (k'.LinkedSet() - old(k).LinkedSet())
      ensures |failed| == |k.t| && failed[..|old(failed)|] == old(failed)
      ensures forall i :: |old(failed)| <= i < |failed| ==> !failed[i]
    {
      hide StateOk, TipOk, ChainState.Node.Consistent, ChainState.Node.Ready, ChainState.TreeOk, Blocks.Valid, Extends;
      hide Mirrors, AcceptedBy, Blocks.HashAt, Path, Linked, Keeps;
      StateFacts(k, accepts, failed, candidates);
      ExtendsFacts(k, k');
      NodeTree(node);
      MirrorsGrown(k, k', node.tree);
      ghost var tree := node.tree;
      Announce(k', k.LinkedSet(), node);
      NodeTree(node);
      ghost var ch, tr := checks, node.tree;
      ghost var accepts' := j => AcceptedBy(k', ch, tr, j);
      forall j | j in k.LinkedSet()
        ensures accepts'(j) <==> accepts(j)
      {
        VerdictStays(k, k', checks, tree, node.tree, j);
      }
      StateGrows(k, k', accepts, accepts', failed, candidates);
      ChainGrows(k, k', accepts, accepts', chain.Last());
      candidates := candidates + (k'.LinkedSet() - k.LinkedSet());
      failed := failed + seq(|k'.t| - |failed|, _ => false);
      k, accepts := k', accepts';
    }

    /** The best candidate whose branch has no failed block; candidates with one are dropped on the way. */
    method FindMostWorkChain() returns (r: int)
      requires Valid()
      modifies this`failed, this`candidates
      ensures Valid() && Dropped(k.t, old(failed), old(candidates), failed, candidates)
      ensures r == NULL <==> forall c :: c !in candidates
      ensures r != NULL ==>
        r in candidates && Good(k.t, failed, r) && forall c :: c in candidates ==> AtLeast(k.rank, r, c)
      ensures r != NULL ==> forall c :: c in candidates ==> k.Has(c) && k.rank[c].work <= k.rank[r].work
    {
      hide StateOk, Dropped, Good, TipOk, Linked, Distinct, AtLeast, Path, Blocks.Valid, IsAncestor, Marked, TakenOff;
      hide ChainState.Node.Consistent, ChainState.Node.Ready, Mirrors, Verdicts;
      StateFacts(k, accepts, failed, candidates);
      NoneDropped(k.t, failed, candidates);
      while true
        invariant Valid() && Dropped(k.t, old(failed), old(candidates), failed, candidates)
        decreases |candidates|
      {
        StateFacts(k, accepts, failed, candidates);
        r := Greatest(k.rank, candidates);
        if r == NULL {
          return;
        }
        var bad := FailedAncestor(r);
        if bad == NULL {
          forall c | c in candidates ensures k.rank[c].work <= k.rank[r].work { AtLeastIsWork(k.rank, r, c); }
          return;
        }
        ghost var before, had := failed, candidates;
        MarkBranch(r, bad);
        DroppedMore(k.t, old(failed), old(candidates), before, had, failed, candidates);
        Fewer(candidates, had, r);
      }
    }

    /** Walks from a candidate to the active chain, and stops at a failed block. */
    method FailedAncestor(r: int) returns (test: int)
      requires Valid() && k.Has(r) && k.IsLinked(r)
      ensures test == NULL ==> Good(k.t, failed, r)
      ensures test != NULL ==> k.Has(test) && IsAncestor(k.t, test, r) && failed[test]
    {
      hide StateOk, Good, TipOk, Linked, IsAncestor, Summed, Path, ChainState.Node.Consistent;
      hide ChainState.Node.Ready, Mirrors, Verdicts;
      StateFacts(k, accepts, failed, candidates);
      test := r;
      SelfAncestor(k.t, r);
      while test != NULL && !chain.Contains(k.t, test)
        invariant NULL <= test <= r && (test != NULL ==> IsAncestor(k.t, test, r))
        invariant Good(k.t, failed, r) <==> Good(k.t, failed, test)
        decreases test
      {
        LinkedAncestor(k.t, k.nTx, k.data, k.chainTx, test, r);
        assert k.data[test] && k.chainTx[test] > 0;
        if failed[test] {
          return;
        }
        GoodStep(k.t, failed, test);
        ParentOnPath(k.t, r, test);
        test := k.t[test].prev;
      }
      ChainGood(k, accepts, failed, chain.Last(), test);
      test := NULL;
    }

    /** Marks exactly the blocks of the branch above the failed one, and takes these and the failed one off the
        candidates. */
    method MarkBranch(top: int, bad: int)
      requires StateOk(k, accepts, failed, candidates)
      requires k.Has(top) && k.IsLinked(top) && k.Has(bad) && IsAncestor(k.t, bad, top) && failed[bad]
      modifies this`failed, this`candidates
      ensures StateOk(k, accepts, failed, candidates) && Dropped(k.t, old(failed), old(candidates), failed, candidates)
      ensures Marked(k.t, old(failed), failed, top, k.t[bad].height)
      ensures TakenOff(k.t, old(candidates), candidates, top, k.t[bad].height - 1)
      ensures candidates <= old(candidates) && top !in candidates
    {
      hide StateOk, Linked, Blocks.Valid, IsAncestor, Marked, TakenOff, Dropped, Above, Path, Blocks.IsLinked;
      StateLengths(k, accepts, failed, candidates);
      var t := k.t;
      BranchStart(t, bad, top);
      NothingMarked(t, failed, candidates, top);
      var x := top;
      ghost var was := failed;
      while x != bad
        invariant bad <= x <= top && IsAncestor(t, bad, x) && IsAncestor(t, x, top) && |failed| == |k.t|
        invariant Marked(t, was, failed, top, t[x].height)
        invariant TakenOff(t, old(candidates), candidates, top, t[x].height)
        decreases x
      {
        MarkOne(t, was, failed, old(candidates), candidates, top, x);
        failed := failed[x := true];
        candidates := candidates - {x};
        BranchStep(t, bad, top, x);
        x := t[x].prev;
      }
      MarkOne(t, was, failed, old(candidates), candidates, top, bad);
      candidates := candidates - {bad};
      BranchDropped(k, accepts, was, old(candidates), failed, candidates, top, bad);
    }

    /** Connects a child of the tip.  Nothing moves on an error; an invalid block is marked, and no candidate any
        more. */
    method ConnectTip(i: int) returns (outcome: Outcome)
      requires Valid() && node.Ready() && k.Has(i) && k.IsLinked(i) && k.t[i].prev == chain.Last()
      modifies this`failed, this`candidates, this`ops, chain, node, node.coins
      ensures Valid() && ops == old(ops) + 1 && node.tree == old(node.tree)
      ensures node.failedFlush ==> old(node.failedFlush) || !turns(old(ops)).Writes()
      ensures
        var turn := turns(old(ops));
        outcome ==
          if !turn.readable then SystemError
          else if turn.corrupt then Suspect
          else if !accepts(i) then Invalid
          else if turn.Writes() then Connected
          else SystemError
      ensures node.aborted <==> old(node.aborted) || outcome == SystemError
      ensures outcome != SystemError || !turns(old(ops)).readable ==> node.Ready()
      ensures outcome == Connected ==> chain.Last() == i
      ensures outcome != Connected ==> chain.vChain == old(chain.vChain)
      ensures outcome != Invalid ==> failed == old(failed) && candidates == old(candidates)
      ensures outcome == Invalid ==> failed == old(failed)[i := true] && candidates == old(candidates) - {i}
    {
      hide StateOk, Sound, Path, Blocks.Valid, Linked, ChainState.Node.Consistent, ChainState.Node.Ready;
      hide Mirrors, Verdicts, ChainState.TreeOk;
      hide ChainState.Connected, ChainState.UndoMatches, Blocks.HashAt, CoinsViews.Views.Top;
      hide CoinsViews.Views.BestBlock, ChainState.Node.Sound, ChainState.SetOf, BlockUndo.ConnectBlock, Utxo.CheckTxs;
      hide CalmAfter, Utxo.StoredBlockUndo, ChainState.Follows;
      StateLengths(k, accepts, failed, candidates);
      NodeTree(node);
      NodeReady(node);
      LinkedKnown(k, checks, node.tree, accepts, i);
      assert k.t[i].prev == chain.Last();
      var turn := turns(ops);
      ops := ops + 1;
      if !turn.readable {
        node.Abort();
        return SystemError;
      }
      if turn.corrupt {
        return Suspect;
      }
      var ok, accepted := node.ConnectTip(k.HashAt(i), checks(i), true, turn.needFlush, turn.disk);
      if accepted && !ok {
        return SystemError;
      }
      if !accepted {
        RejectKeeps(k, accepts, failed, candidates, i);
        failed := failed[i := true];
        candidates := candidates - {i};
        return Invalid;
      }
      SoundStep(k.t, accepts, i);
      chain.SetTip(k.t, i);
      return Connected;
    }

    /** Block i spares the records of the genesis block, so that it can be undone. */
    ghost predicate Undoable(i: int)
      reads this, node
    {
      ChainState.TreeOk(node.tree) && k.HashAt(i) in node.tree && ChainState.Revertible(node.tree, k.HashAt(i))
    }

    /** Disconnects the tip, unless it is the genesis block.  Nothing moves on an error. */
    method DisconnectTip() returns (ok: bool)
      requires Valid() && node.Ready() && k.Has(chain.Last()) && k.t[chain.Last()].height > 0
      modifies this`ops, chain, node, node.coins
      ensures Valid() && ops == old(ops) + 1 && node.tree == old(node.tree)
      ensures node.failedFlush ==> old(node.failedFlush) || !turns(old(ops)).Writes()
      ensures
        var turn := turns(old(ops));
        && (ok <==> turn.readable && turn.undoReadable && old(Undoable(chain.Last())) && turn.Writes())
        && (node.aborted <==>
              || old(node.aborted) || !turn.readable
              || (turn.undoReadable && old(Undoable(chain.Last())) && !turn.Writes()))
        && (ok || !turn.readable || !turn.undoReadable || !old(Undoable(chain.Last())) ==> node.Ready())
      ensures Sparing(node.tree) ==> old(Undoable(chain.Last()))
      ensures chain.Last() == (if ok then k.t[old(chain.Last())].prev else old(chain.Last()))
      ensures !ok ==> chain.vChain == old(chain.vChain)
    {
      hide StateOk, Sound, Path, Blocks.Valid, Linked, ChainState.Node.Consistent, ChainState.Node.Ready;
      hide Mirrors, Verdicts, ChainState.TreeOk;
      hide ChainState.Revertible, ChainState.UndoMatches, Blocks.HashAt, CoinsViews.Views.Top;
      hide CoinsViews.Views.BestBlock, ChainState.Node.Sound, ChainState.SetOf, ChainState.Reverts;
      hide ChainState.Reverted;
      hide CalmAfter, ChainState.Follows, Sparing, TipOk;
      StateLengths(k, accepts, failed, candidates);
      NodeTree(node);
      NodeReady(node);
      TipKnown();
      var turn := turns(ops);
      ops := ops + 1;
      if !turn.readable {
        node.Abort();
        return false;
      }
      if !turn.undoReadable {
        return false;
      }
      var clean;
      ok, clean := node.DisconnectTip(turn.needFlush, turn.disk);
      if ok {
        ParentTip(k, accepts, chain.Last());
        chain.SetTip(k.t, k.t[chain.Last()].prev);
      }
    }

    /** The tip, as the node sees it. */
    lemma TipKnown()
      requires Valid() && k.Has(chain.Last())
      ensures
        && k.HashAt(chain.Last()) in node.tree && |k.t| == |k.chainTx| && k.IsLinked(chain.Last())
        && node.tree[k.HashAt(chain.Last())].prev == k.HashAt(k.t[chain.Last()].prev)
        && (k.t[chain.Last()].height > 0 ==> node.tree[k.HashAt(chain.Last())].height > 0)
      ensures Sparing(node.tree) ==> Undoable(chain.Last())
    {
      hide StateOk, Sound, Path, Blocks.Valid, Linked, ChainState.Node.Consistent, ChainState.Node.Ready, Blocks.HashAt;
      hide Mirrors, Verdicts, ChainState.TreeOk, ChainState.Connected, ChainState.Revertible, Chain.Valid, CalmAfter;
      StateLengths(k, accepts, failed, candidates);
      Sizes(k);
      NodeTree(node);
      LinkedKnown(k, checks, node.tree, accepts, chain.Last());
      SoundStep(k.t, accepts, chain.Last());
    }

    /** Drops the candidates worse than the tip, lowest first; one at least as good as the tip is always left. */
    method PruneBlockIndexCandidates()
      requires Valid() && chain.Last() != NULL
      modifies this`candidates
      ensures Valid() && candidates <= old(candidates)
      ensures forall c :: c in old(candidates) ==> (c in candidates <==> NoWorse(k.rank[c], k.rank[chain.Last()]))
      ensures exists c :: c in candidates
    {
      hide StateOk, Good, Linked, Path, Blocks.Valid, TipOk, Covered, ChainState.Node.Consistent;
      hide ChainState.Node.Ready, Mirrors, Verdicts;
      StateFacts(k, accepts, failed, candidates);
      var tip := chain.Last();
      var least := Least(k.rank, candidates);
      while least != NULL && Less(k.rank[least], k.rank[tip])
        invariant candidates <= old(candidates)
        invariant least == NULL ==> forall c :: c in candidates ==> !Less(k.rank[c], k.rank[tip])
        invariant least != NULL ==> least in candidates && forall c :: c in candidates ==> AtLeast(k.rank, c, least)
        invariant forall c :: c in old(candidates) && c !in candidates ==> Less(k.rank[c], k.rank[tip])
        decreases |candidates|
      {
        ghost var had := candidates;
        candidates := candidates - {least};
        Fewer(candidates, had, least);
        least := Least(k.rank, candidates);
      }
      if least != NULL { NoneWorse(k.rank, candidates, least, tip); }
      PruneKeeps(k, accepts, failed, old(candidates), candidates, tip);
    }

    /** Connects one block and, if that worked, prunes the candidates and compares with the tip of before. */
    method ConnectOne(i: int, oldTip: int) returns (result: Batch)
      requires Valid() && node.Ready() && k.Has(i) && k.IsLinked(i) && k.t[i].prev == chain.Last() && !failed[i]
      requires NULL <= oldTip < |k.t|
      modifies this`failed, this`candidates, this`ops, chain, node, node.coins
      ensures Valid() && candidates <= old(candidates) && ops == old(ops) + 1 && (result != Broken ==> node.Ready())
      ensures node.tree == old(node.tree) && (Smooth(turns, old(ops)) ==> result != Broken)
      ensures Smooth(turns, old(ops)) && !old(node.failedFlush) ==> !node.failedFlush
      ensures result == Done ==> chain.Last() == i
      ensures result == Better ==> WorkOf(k, chain.Last()) > WorkOf(k, oldTip)
      ensures result == Unsure ==> Left(ops) < Left(old(ops))
      ensures result == Bad ==> OneMore(k, old(failed), failed)
      ensures result != Bad ==> failed == old(failed)
    {
      hide StateOk, TipOk, Linked, Path, Blocks.Valid, Less, Distinct, ChainState.Node.Consistent;
      hide ChainState.Node.Ready, Mirrors, Verdicts;
      StateFacts(k, accepts, failed, candidates);
      var outcome := ConnectTip(i);
      match outcome {
        case Invalid => return Bad;
        case Suspect => return Unsure;
        case SystemError => return Broken;
        case Connected =>
      }
      PruneBlockIndexCandidates();
      if oldTip == NULL || k.rank[i].work > k.rank[oldTip].work {
        return Better;
      }
      return Done;
    }

    /** Disconnects blocks until the fork is the tip. */
    method DisconnectTo(fork: int) returns (ok: bool)
      requires Valid() && node.Ready()
      requires if chain.Last() == NULL then fork == NULL else k.Has(fork) && IsAncestor(k.t, fork, chain.Last())
      modifies this`ops, chain, node, node.coins
      ensures Valid() && ops >= old(ops) && (ok ==> node.Ready()) && (ok ==> chain.Last() == fork)
      ensures node.tree == old(node.tree) && (Smooth(turns, old(ops)) && Sparing(node.tree) ==> ok)
      ensures Smooth(turns, old(ops)) && !old(node.failedFlush) ==> !node.failedFlush
    {
      hide StateOk, TipOk, Linked, Path, IsAncestor, Blocks.Valid, ChainState.Node.Consistent;
      hide ChainState.Node.Ready, Mirrors, Verdicts;
      StateFacts(k, accepts, failed, candidates);
      while chain.Last() != NULL && chain.Last() != fork
        invariant Smooth(turns, old(ops)) && !old(node.failedFlush) ==> !node.failedFlush
        invariant Valid() && node.Ready() && NULL <= chain.Last() < |k.t| && ops >= old(ops) &&
          node.tree == old(node.tree)
        invariant if chain.Last() == NULL then fork == NULL else k.Has(fork) && IsAncestor(k.t, fork, chain.Last())
        decreases chain.Last()
      {
        AboveFork(k.t, fork, chain.Last());
        AboveParent(k.t, fork, chain.Last());
        ok := DisconnectTip();
        if !ok {
          return;
        }
      }
      ok := true;
    }

    /** The blocks of the target's branch above height base and up to height top, highest first. */
    method BlocksToConnect(most: int, base: int, top: int) returns (list: seq<int>)
      requires Valid() && k.Has(most) && -1 <= base < top <= k.t[most].height
      ensures IsBatch(k.t, most, base, top, list)
    {
      hide StateOk, TipOk, Linked, Path, SkipsRight, Summed, Ancestor, IsAncestor, Distinct, OnBranch, IsBatch;
      hide Collected;
      hide Blocks.Named, Blocks.OneRoot, ChainState.Node.Consistent, ChainState.Node.Ready, Mirrors, Verdicts;
      StateFacts(k, accepts, failed, candidates);
      var t := k.t;
      HeightNonNegative(t, most);
      var iter, _ := GetAncestor(t, most, top);
      list := [];
      StartCollecting(t, most, top);
      while iter != NULL && t[iter].height != base
        invariant NULL <= iter < |t| && |list| <= top - base && Collected(t, most, top, list, iter)
        decreases top - base - |list|
      {
        CollectOne(t, most, base, top, list, iter);
        list := list + [iter];
        iter := t[iter].prev;
      }
      AllCollected(t, most, base, top, list, iter);
    }

    /** The tip is the block of the target's branch at a height, or there is none below its root. */
    ghost predicate At(most: int, height: int)
      reads this, chain
    {
      Linked(k.t) && 0 <= most < |k.t| && chain.Last() == OnBranch(Path(k.t, most), height)
    }

    /** Connects one block of a batch. */
    method ConnectListed(most: int, base: int, top: int, list: seq<int>, j: int, oldTip: int) returns (result: Batch)
      requires Valid() && node.Ready() && k.Has(most) && k.IsLinked(most) && Good(k.t, failed, most)
      requires IsBatch(k.t, most, base, top, list) && 0 <= j < |list|
      requires NULL <= oldTip < |k.t| && At(most, top - j - 1)
      modifies this`failed, this`candidates, this`ops, chain, node, node.coins
      ensures Valid() && candidates <= old(candidates) && ops >= old(ops) && (result != Broken ==> node.Ready())
      ensures node.tree == old(node.tree) && (Smooth(turns, old(ops)) ==> result != Broken)
      ensures Smooth(turns, old(ops)) && !old(node.failedFlush) ==> !node.failedFlush
      ensures result == Done ==> At(most, top - j)
      ensures result == Better ==> WorkOf(k, chain.Last()) > WorkOf(k, oldTip)
      ensures result == Unsure ==> Left(ops) < Left(old(ops))
      ensures result == Bad ==> OneMore(k, old(failed), failed)
      ensures result != Bad ==> failed == old(failed)
    {
      hide StateOk, TipOk, Linked, Path, Good, Blocks.Valid, IsAncestor, IsBatch, OnBranch, Less, Distinct, OneMore;
      hide ChainState.Node.Consistent, ChainState.Node.Ready, Mirrors, Verdicts, Blocks.HashAt, CalmAfter, Chain.Valid;
      hide WorkOf, Smooth;
      StateLengths(k, accepts, failed, candidates);
      BatchBlock(k, failed, most, base, top, list, j);
      result := ConnectOne(list[j], oldTip);
    }

    /** Connects a batch, lowest block first, until one fails or the chain is better than before. */
    method ConnectBatch(most: int, base: int, top: int, list: seq<int>, oldTip: int) returns (result: Batch)
      requires Valid() && node.Ready() && k.Has(most) && k.IsLinked(most) && Good(k.t, failed, most)
      requires -1 <= base < top <= k.t[most].height && IsBatch(k.t, most, base, top, list)
      requires NULL <= oldTip < |k.t| && At(most, base)
      modifies this`failed, this`candidates, this`ops, chain, node, node.coins
      ensures Valid() && candidates <= old(candidates) && ops >= old(ops) && (result != Broken ==> node.Ready())
      ensures node.tree == old(node.tree) && (Smooth(turns, old(ops)) ==> result != Broken)
      ensures Smooth(turns, old(ops)) && !old(node.failedFlush) ==> !node.failedFlush
      ensures result == Done ==> At(most, top)
      ensures result == Better ==> WorkOf(k, chain.Last()) > WorkOf(k, oldTip)
      ensures result == Unsure ==> Left(ops) < Left(old(ops))
      ensures result == Bad ==> OneMore(k, old(failed), failed)
      ensures result != Bad ==> failed == old(failed)
    {
      hide StateOk, TipOk, Linked, Path, Good, Blocks.Valid, IsAncestor, IsBatch, Distinct, OneMore, At, WorkOf, Smooth;
      hide ChainState.Node.Consistent, ChainState.Node.Ready, Mirrors, Verdicts, Blocks.HashAt, CalmAfter, Chain.Valid;
      hide Blocks.IsLinked;
      StateLengths(k, accepts, failed, candidates);
      BatchSize(k.t, most, base, top, list);
      var j := |list|;
      while j > 0
        invariant 0 <= j <= |list| == top - base && Valid() && node.Ready() && ops >= old(ops)
        invariant node.tree == old(node.tree) && failed == old(failed) && candidates <= old(candidates)
        invariant At(most, top - j)
        invariant Smooth(turns, old(ops)) && !old(node.failedFlush) ==> !node.failedFlush
      {
        j := j - 1;
        if Smooth(turns, old(ops)) { SmoothLater(turns, old(ops), ops); }
        result := ConnectListed(most, base, top, list, j, oldTip);
        if result != Done {
          return;
        }
      }
      return Done;
    }

    /** Operations that may still find a corruption. */
    function Left(n: nat): nat {
      if n < calm then calm - n else 0
    }

    /** Moves the active chain toward a candidate, and returns early once it is better than before.  It ends at the
        candidate or with more work than it had, unless a block is found invalid (Bad) or possibly corrupted
        (Unsure) or the system fails (Broken). */
    method ActivateBestChainStep(most: int) returns (result: Batch)
      requires Valid() && node.Ready() && k.Has(most) && k.IsLinked(most) && Good(k.t, failed, most)
      modifies this`failed, this`candidates, this`ops, chain, node, node.coins
      ensures Valid() && candidates <= old(candidates) && ops >= old(ops) && (result != Broken ==> node.Ready())
      ensures node.tree == old(node.tree) && (Smooth(turns, old(ops)) && Sparing(node.tree) ==> result != Broken)
      ensures Smooth(turns, old(ops)) && !old(node.failedFlush) ==> !node.failedFlush
      ensures result == Done ==> chain.Last() == most
      ensures result == Better ==> WorkOf(k, chain.Last()) > WorkOf(k, old(chain.Last()))
      ensures result == Unsure ==> Left(ops) < Left(old(ops))
      ensures result == Bad ==> OneMore(k, old(failed), failed)
      ensures result != Bad ==> failed == old(failed)
    {
      hide StateOk, TipOk, Linked, Path, Good, Summed, IsAncestor, SkipsRight, HighestCommon, Blocks.Named;
      hide Blocks.OneRoot;
      hide Distinct, OnBranch, OneMore, WorkOf, ChainState.Node.Consistent, ChainState.Node.Ready, Mirrors, Verdicts;
      StateFacts(k, accepts, failed, candidates);
      var oldTip := chain.Last();
      var fork := chain.FindFork(k.t, most);
      ForkPlace(k, accepts, fork, most, oldTip);
      var ok := DisconnectTo(fork);
      if !ok {
        return Broken;
      }
      result := Done;
      var height := if fork != NULL then k.t[fork].height else -1;
      while result == Done && height != k.t[most].height
        invariant Smooth(turns, old(ops)) && !old(node.failedFlush) ==> !node.failedFlush
        invariant Valid() && candidates <= old(candidates) && -1 <= height <= k.t[most].height && ops >= old(ops)
        invariant node.tree == old(node.tree) && (result != Broken ==> node.Ready())
        invariant Smooth(turns, old(ops)) && Sparing(node.tree) ==> result != Broken
        invariant result == Done ==> At(most, height)
        invariant result == Better ==> WorkOf(k, chain.Last()) > WorkOf(k, oldTip)
        invariant result == Unsure ==> Left(ops) < Left(old(ops))
        invariant result == Bad ==> OneMore(k, old(failed), failed)
        invariant result != Bad ==> failed == old(failed)
        decreases k.t[most].height - height
      {
        var top := if height + 32 < k.t[most].height then height + 32 else k.t[most].height;
        var list := BlocksToConnect(most, height, top);
        result := ConnectBatch(most, height, top, list, oldTip);
        height := top;
      }
      BranchTop(k.t, most);
    }

    /** One round: nothing is left to do, the target is reached, it is not but there is progress, or the system
        fails. */
    method ActivateOnce() returns (round: Round)
      requires Valid() && node.Ready()
      modifies this`failed, this`candidates, this`ops, chain, node, node.coins
      ensures Valid() && node.tree == old(node.tree) && KeepsMarks(old(failed), failed) && ops >= old(ops)
      ensures Smooth(turns, old(ops)) && Sparing(node.tree) ==> round != Failed
      ensures Smooth(turns, old(ops)) && !old(node.failedFlush) ==> !node.failedFlush
      ensures round != Failed ==> node.Ready()
      ensures round == Settled || round == Reached ==> IsBest(k, accepts, chain.Last())
      ensures round == Again ==>
        || Left(ops) < Left(old(ops))
        || Unmarked(failed) < Unmarked(old(failed))
        || (Unmarked(failed) <= Unmarked(old(failed)) && WorkOf(k, chain.Last()) > WorkOf(k, old(chain.Last())))
      ensures Unmarked(failed) <= Unmarked(old(failed))
    {
      hide StateOk, TipOk, Linked, Path, Good, Blocks.Valid, IsAncestor, IsBest, WorkOf, AtLeast, Blocks.HashAt;
      hide ChainState.Node.Consistent, ChainState.Node.Ready, Mirrors, Verdicts, Dropped, OneMore, KeepsMarks;
      hide Smooth, Sparing, CalmAfter, Chain.Valid, Unmarked;
      StateFacts(k, accepts, failed, candidates);
      var most := FindMostWorkChain();
      DroppedKeeps(k.t, old(failed), old(candidates), failed, candidates);
      StateFacts(k, accepts, failed, candidates);
      FewerUnmarked(k.t, old(failed), failed);
      GreatestIsBest(k, accepts, failed, candidates, most, chain.Last());
      if most == NULL {
        return Settled;
      }
      if most == chain.Last() {
        BestTarget(k, accepts, most);
        return Settled;
      }
      ghost var marks := failed;
      var result := ActivateBestChainStep(most);
      if result == Bad {
        OneMoreKeeps(k, marks, failed);
        OneMoreMark(k, marks, failed);
        KeepsMarksTrans(old(failed), marks, failed);
      }
      if result == Broken {
        return Failed;
      }
      if most == chain.Last() {
        BestTarget(k, accepts, most);
        return Reached;
      }
      return Again;
    }

    /** Moves to the best chain in as many steps as it takes.  On success the tip is the best of all blocks whose
        branch is complete and acceptable, and the coin set is the replay of that branch, but for negative versions
        that have been to disk.  It succeeds if the disk works and no block uses up a record of the genesis block. */
    method ActivateBestChain() returns (ok: bool)
      requires Valid() && node.Ready()
      modifies this`failed, this`candidates, this`ops, chain, node, node.coins
      ensures Valid() && node.tree == old(node.tree) && KeepsMarks(old(failed), failed) && ops >= old(ops)
      ensures Smooth(turns, old(ops)) && Sparing(node.tree) ==> ok
      ensures Smooth(turns, old(ops)) && !old(node.failedFlush) ==> !node.failedFlush
      ensures ok ==> IsBest(k, accepts, chain.Last()) && MostWork(k, accepts, chain.Last()) && node.Ready()
      ensures ok ==>
        && node.coins.BestBlock() == k.HashAt(chain.Last())
        && ChainState.Follows(node.tree, k.HashAt(chain.Last()), node.coins.Top())
        && ChainState.ShowsLedger(node.tree, k.HashAt(chain.Last()), node.coins.Top())
      ensures ok && ChainState.NoNegativeVersions(node.tree) ==>
        ChainState.Replay(node.tree, k.HashAt(chain.Last())) == Wrappers.Some(node.coins.Top())
    {
      hide StateOk, TipOk, Linked, Path, Blocks.Valid, IsBest, MostWork, WorkOf, Blocks.HashAt, Unmarked, MaxWork;
      hide ChainState.Node.Consistent, ChainState.Node.Ready, Mirrors, Verdicts, KeepsMarks;
      hide Smooth, Sparing, CalmAfter, Chain.Valid, ChainState.Follows, ChainState.Replay, ChainState.ShowsLedger;
      hide ChainState.NoNegativeVersions;
      SameMarks(failed);
      while true
        invariant Valid() && node.Ready() && ops >= old(ops)
        invariant node.tree == old(node.tree) && KeepsMarks(old(failed), failed)
        invariant Smooth(turns, old(ops)) && !old(node.failedFlush) ==> !node.failedFlush
        decreases Left(ops), Unmarked(failed), MaxWork(k.rank) - WorkOf(k, chain.Last())
      {
        if Smooth(turns, old(ops)) { SmoothLater(turns, old(ops), ops); }
        ghost var marks := failed;
        var round := ActivateOnce();
        KeepsMarksTrans(old(failed), marks, failed);
        WorkBound(k, chain.Last());
        StateLengths(k, accepts, failed, candidates);
        match round {
          case Failed => return false;
          case Settled =>
            BestHasMostWork(k, accepts, chain.Last());
            NodeFollows(node);
            return true;
          case Reached =>
            BestHasMostWork(k, accepts, chain.Last());
            break;
          case Again =>
        }
      }
      if Smooth(turns, old(ops)) { SmoothAt(turns, old(ops), ops); }
      ok := Flush();
    }

    /** Writes the coin set to the database if asked to; the tip stays where it is. */
    method Flush() returns (ok: bool)
      requires Valid() && node.Ready()
      modifies this`ops, node, node.coins
      ensures Valid() && ops == old(ops) + 1 && node.tree == old(node.tree)
      ensures node.failedFlush ==> old(node.failedFlush) || !turns(old(ops)).Writes()
      ensures (ok <==> turns(old(ops)).Writes()) && (ok ==> node.Ready()) && node.aborted == (old(node.aborted) || !ok)
      ensures ok ==>
        && node.coins.BestBlock() == k.HashAt(chain.Last())
        && ChainState.Follows(node.tree, k.HashAt(chain.Last()), node.coins.Top())
        && ChainState.ShowsLedger(node.tree, k.HashAt(chain.Last()), node.coins.Top())
      ensures ok && ChainState.NoNegativeVersions(node.tree) ==>
        ChainState.Replay(node.tree, k.HashAt(chain.Last())) == Wrappers.Some(node.coins.Top())
    {
      hide StateOk, TipOk, Linked, Path, Blocks.Valid, Blocks.HashAt, Mirrors, Verdicts, ChainState.TreeOk;
      hide ChainState.UndoMatches, CoinsViews.Views.Top, CoinsViews.Views.BestBlock, CoinsViews.Views.Valid;
      hide ChainState.Follows, ChainState.ShowsLedger;
      var turn := turns(ops);
      ops := ops + 1;
      ok := node.FlushStateToDisk(turn.needFlush, turn.disk);
      if ok { NodeFollows(node); }
    }
  }

  ghost predicate CalmAfter(turns: nat -> Turn, calm: nat) {
    forall n :: n >= calm ==> !turns(n).corrupt
  }

  /** From operation n on, every block can be read and the disk works. */
  ghost predicate Smooth(turns: nat -> Turn, n: nat) {
    forall m :: m >= n ==> turns(m).readable && turns(m).undoReadable && turns(m).Writes()
  }

  lemma SmoothLater(turns: nat -> Turn, n: nat, m: nat)
    requires Smooth(turns, n) && n <= m
    ensures Smooth(turns, m)
  {
  }

  lemma SmoothAt(turns: nat -> Turn, n: nat, m: nat)
    requires Smooth(turns, n) && n <= m
    ensures turns(m).readable && turns(m).undoReadable && turns(m).Writes()
  {
  }

  /** No acceptable block that the node knows uses up a record of the genesis block. */
  ghost predicate Sparing(tree: ChainState.Tree) {
    ChainState.TreeOk(tree) && ChainState.AllRevertible(tree)
  }

  lemma NodeTree(node: ChainState.Node)
    requires node.Consistent()
    ensures ChainState.TreeOk(node.tree)
  {
  }

  /** Before a write to disk has failed, the node is ready. */
  lemma NoFailureReady(node: ChainState.Node)
    requires node.Consistent() && !node.failedFlush
    ensures node.Ready()
  {
  }

  lemma NodeReady(node: ChainState.Node)
    requires node.Ready()
    ensures node.Consistent() && !node.crashed && node.coins.BestBlock() == node.tip
  {
  }

  lemma NodeFollows(node: ChainState.Node)
    requires node.Ready()
    ensures ChainState.TreeOk(node.tree)
    ensures node.coins.BestBlock() == node.tip && ChainState.Follows(node.tree, node.tip, node.coins.Top())
    ensures ChainState.ShowsLedger(node.tree, node.tip, node.coins.Top())
    ensures ChainState.NoNegativeVersions(node.tree) ==>
      ChainState.Replay(node.tree, node.tip) == Wrappers.Some(node.coins.Top())
  {
    hide ChainState.Replay, CoinsViews.Views.Valid, CoinsViews.Views.Top, CoinsViews.Views.BestBlock;
    hide ChainState.UndoMatches, ChainState.TreeOk, Utxo.Like, ChainState.NoNegativeVersions, ChainState.ShowsLedger;
    ChainState.LikeReplayExact(node.tree, node.tip, node.coins.Top());
    ChainState.FollowsLedger(node.tree, node.tip, node.coins.Top());
  }
}
