/** Headers and bodies arrive in any order, and the best chain is activated now and then: the block table, the
    selection and the node together.  The result speaks of the received blocks only. */
module Processing {
  import opened Wrappers
  import opened BlockTree
  import opened ActiveChain
  import opened ArrivalOrder
  import opened Candidates
  import opened BlockArrival
  import opened ChainSelect
  import ChainState
  import Utxo
  import BlockUndo

  // ---------- acceptable blocks ----------

  /** The coins after block i, if it and every block below it are accepted, one after the other. */
  ghost function CoinsAt(k: Blocks, checks: int -> bool, i: int): Option<Utxo.UtxoSet>
    requires Linked(k.t) && |k.body| == |k.t| && NULL <= i < |k.t|
    decreases i
  {
    if i == NULL then Some(map[])
    else
      match CoinsAt(k, checks, k.t[i].prev)
      case None => None
      case Some(m) =>
        if checks(i) then ChainState.SetOf(BlockUndo.ConnectBlock(m, k.body[i], k.InfoAt(i).height, true)) else None
  }

  /** All blocks from the root to i have been received, and are accepted. */
  ghost predicate Usable(k: Blocks, checks: int -> bool, i: int)
    requires k.Valid() && k.Has(i)
  {
    Sizes(k);
    AllData(k.t, k.data, i) && CoinsAt(k, checks, i).Some?
  }

  /** Among all usable blocks, tip has the most work; of those with as much, it came first; and of those that came at
      the same time, it has the lowest address.  Without a tip, no block is usable. */
  ghost predicate BestUsable(k: Blocks, checks: int -> bool, tip: int)
    requires k.Valid()
  {
    && NULL <= tip < |k.t| == |k.rank| && (tip != NULL ==> Usable(k, checks, tip))
    && forall b :: k.Has(b) && Usable(k, checks, b) ==>
         && tip != NULL && k.rank[b].work <= k.rank[tip].work
         && (k.rank[b].work == k.rank[tip].work ==>
               && k.rank[tip].sequence <= k.rank[b].sequence
               && (k.rank[b].sequence == k.rank[tip].sequence ==> k.rank[tip].address <= k.rank[b].address))
  }

  /** What the node takes for a linked block's chain is that chain. */
  lemma {:induction false} SoundIsAccepted(
      k: Blocks, checks: int -> bool, tree: ChainState.Tree, accepts: int -> bool, i: int)
    requires k.Valid() && Mirrors(k, k.LinkedSet(), tree) && Verdicts(k, checks, tree, accepts)
    requires ChainState.TreeOk(tree) && NULL <= i < |k.t| && (i != NULL ==> k.IsLinked(i))
    ensures Linked(k.t) && |k.body| == |k.t| && (k.HashAt(i) == Utxo.NULL_HASH || k.HashAt(i) in tree)
    ensures Sound(k.t, accepts, i) <==> CoinsAt(k, checks, i).Some?
    ensures Sound(k.t, accepts, i) ==> ChainState.Replay(tree, k.HashAt(i)) == CoinsAt(k, checks, i)
    decreases i
  {
    hide Blocks.Valid, Linked, ChainState.TreeOk, ChainState.Connected, ChainState.Replay, Mirrors, Verdicts;
    hide BlockUndo.ConnectBlock;
    Sizes(k);
    if i == NULL {
      NoHash(k, tree);
    } else {
      ParentLinked(k, i);
      SoundIsAccepted(k, checks, tree, accepts, k.t[i].prev);
      LinkedKnown(k, checks, tree, accepts, i);
      BodyKnown(k, tree, i);
      ReplayStep(tree, k.HashAt(i));
      SoundStep(k.t, accepts, i);
    }
  }

  lemma NoHash(k: Blocks, tree: ChainState.Tree)
    requires ChainState.TreeOk(tree)
    ensures k.HashAt(NULL) == Utxo.NULL_HASH && ChainState.Replay(tree, Utxo.NULL_HASH) == Some(map[])
  {
  }

  lemma BodyKnown(k: Blocks, tree: ChainState.Tree, i: int)
    requires k.Valid() && Mirrors(k, k.LinkedSet(), tree) && k.Has(i) && k.IsLinked(i)
    ensures k.HashAt(i) in tree && |k.body| == |k.t| && tree[k.HashAt(i)] == k.InfoAt(i)
  {
    hide Blocks.Valid, Blocks.HashAt;
    Sizes(k);
    assert i in k.LinkedSet();
    assert Known(k, tree, i);
  }

  lemma ReplayStep(tree: ChainState.Tree, h: nat)
    requires ChainState.TreeOk(tree) && h in tree
    ensures h != Utxo.NULL_HASH && (tree[h].prev == Utxo.NULL_HASH || tree[h].prev in tree)
    ensures ChainState.Replay(tree, h) == ChainState.SetOf(ChainState.Connected(tree, h))
    ensures
      ChainState.Connected(tree, h) ==
        match ChainState.Replay(tree, tree[h].prev)
        case None => None
        case Some(m) => BlockUndo.ConnectBlock(m, tree[h].vtx, tree[h].height, true)
  {
    hide BlockUndo.ConnectBlock;
    assert ChainState.BlockOk(tree, h, tree[h]);
  }

  // ---------- received blocks are linked, unless they are unacceptable ----------

  /** Acceptable blocks have no failed block below them. */
  lemma {:induction false} AcceptedUnfailed(
      k: Blocks, checks: int -> bool, tree: ChainState.Tree, accepts: int -> bool, failed: seq<bool>,
      candidates: set<int>, i: int)
    requires StateOk(k, accepts, failed, candidates)
    requires Mirrors(k, k.LinkedSet(), tree) && Verdicts(k, checks, tree, accepts) && ChainState.TreeOk(tree)
    requires NULL <= i < |k.t| && (Sizes(k); CoinsAt(k, checks, i).Some?)
    ensures |failed| == |k.t| && NoFailedParent(k.t, failed, i)
    decreases i
  {
    hide Blocks.Valid, Linked, ChainState.TreeOk, Mirrors, Verdicts, BlockUndo.ConnectBlock, Covered;
    StateFacts(k, accepts, failed, candidates);
    Sizes(k);
    if i != NULL {
      var p := k.t[i].prev;
      AcceptedUnfailed(k, checks, tree, accepts, failed, candidates, p);
      if p != NULL && failed[p] { SoundIsAccepted(k, checks, tree, accepts, p); }
    }
  }

  /** The best of the sound linked blocks is the best of the usable blocks. */
  lemma BestIsUsable(
      k: Blocks, checks: int -> bool, tree: ChainState.Tree, accepts: int -> bool, failed: seq<bool>,
      candidates: set<int>, unlinked: set<(int, int)>, tip: int)
    requires StateOk(k, accepts, failed, candidates)
    requires Mirrors(k, k.LinkedSet(), tree) && Verdicts(k, checks, tree, accepts) && ChainState.TreeOk(tree)
    requires (StateLengths(k, accepts, failed, candidates); Sizes(k);
              Waiting(k.t, k.data, k.chainTx, failed, unlinked, [], NULL))
    requires TipOk(k, accepts, tip) && IsBest(k, accepts, tip)
    ensures BestUsable(k, checks, tip)
  {
    hide Blocks.Valid, Linked, ChainState.TreeOk, Mirrors, Verdicts, StateOk, Waiting, AllData, AtLeast, Sound, CoinsAt;
    StateFacts(k, accepts, failed, candidates);
    Sizes(k);
    SumsHold(k);
    if tip != NULL {
      SoundIsAccepted(k, checks, tree, accepts, tip);
      CountedSum(k.t, k.nTx, k.data, k.chainTx, tip);
    }
    forall b | k.Has(b) && Usable(k, checks, b)
      ensures tip != NULL && AtLeast(k.rank, tip, b)
      ensures
        && k.rank[b].work <= k.rank[tip].work
        && (k.rank[b].work == k.rank[tip].work ==>
              && k.rank[tip].sequence <= k.rank[b].sequence
              && (k.rank[b].sequence == k.rank[tip].sequence ==> k.rank[tip].address <= k.rank[b].address))
    {
      AcceptedUnfailed(k, checks, tree, accepts, failed, candidates, b);
      AllCounted(k.t, k.nTx, k.data, k.chainTx, failed, unlinked, b);
      SoundIsAccepted(k, checks, tree, accepts, b);
      AtLeastIsWork(k.rank, tip, b);
    }
  }

  lemma SumsHold(k: Blocks)
    requires k.Valid()
    ensures Summed(k.t, k.nTx, k.data, k.chainTx)
  {
  }

  // ---------- what an arrival changes ----------

  /** A header without a body. */
  function WithHeader(k: Blocks, t: Tree, rank: Rank, hash: nat): Blocks {
    Blocks(t, k.rank + [rank], k.nTx + [0], k.data + [false], k.chainTx + [0], k.hash + [hash], k.body + [[]])
  }

  /** The hash and the address of a new entry are its own. */
  predicate IsNew(k: Blocks, address: nat, hash: nat) {
    && hash != Utxo.NULL_HASH && hash !in k.hash
    && forall i :: 0 <= i < |k.rank| ==> k.rank[i].address != address
  }

  lemma HeaderExtends(k: Blocks, t: Tree, rank: Rank, hash: nat)
    requires k.Valid() && IsNew(k, rank.address, hash)
    requires WellBuilt(t) && |t| == |k.t| + 1 && t[..|k.t|] == k.t && (t[|k.t|].prev == NULL ==> k.t == [])
    requires Summed(t, k.nTx + [0], k.data + [false], k.chainTx + [0])
    ensures Extends(k, WithHeader(k, t, rank, hash))
    ensures |k.chainTx| == |k.t| && WithHeader(k, t, rank, hash).LinkedSet() == k.LinkedSet()
  {
    hide WellBuilt, Summed, Distinct, Blocks.Named, Blocks.OneRoot, IsNew;
    Sizes(k);
    var k' := WithHeader(k, t, rank, hash);
    HeaderRanked(k, t, rank, hash);
    HeaderNamed(k, t, rank, hash);
    assert k'.hash[..|k.t|] == k.hash;
    assert forall i :: k.Has(i) ==> k'.chainTx[i] == k.chainTx[i] && k'.rank[i] == k.rank[i] && k'.body[i] == k.body[i];
  }

  lemma HeaderRanked(k: Blocks, t: Tree, rank: Rank, hash: nat)
    requires k.Valid() && IsNew(k, rank.address, hash) && |t| == |k.t| + 1
    requires t[..|k.t|] == k.t && (t[|k.t|].prev == NULL ==> k.t == [])
    ensures Distinct(WithHeader(k, t, rank, hash).rank) && WithHeader(k, t, rank, hash).OneRoot()
  {
    hide WellBuilt, Summed, Blocks.Named;
    Sizes(k);
    assert forall i :: 0 <= i < |k.t| ==> t[i] == t[..|k.t|][i];
  }

  lemma HeaderNamed(k: Blocks, t: Tree, rank: Rank, hash: nat)
    requires k.Valid() && IsNew(k, rank.address, hash) && |t| == |k.t| + 1
    ensures WithHeader(k, t, rank, hash).Named()
  {
    hide WellBuilt, Summed, Distinct, Blocks.OneRoot;
    Sizes(k);
  }

  /** A body for a header, with its place in the order of arrival, and the new counters. */
  function WithBody(k: Blocks, i: int, vtx: seq<Utxo.Tx>, sequence: nat, chainTx: seq<nat>): Blocks
    requires 0 <= i < |k.rank| && i < |k.nTx| && i < |k.data| && i < |k.body|
  {
    k.(rank := k.rank[i := k.rank[i].(sequence := sequence)], nTx := k.nTx[i := |vtx|], data := k.data[i := true],
       chainTx := chainTx, body := k.body[i := vtx])
  }

  lemma BodyExtends(k: Blocks, i: int, vtx: seq<Utxo.Tx>, sequence: nat, chainTx: seq<nat>)
    requires k.Valid() && k.Has(i) && (Sizes(k); !k.data[i]) && Utxo.IdsIdentify(vtx)
    requires Summed(k.t, k.nTx[i := |vtx|], k.data[i := true], chainTx)
    requires forall j :: 0 <= j < |k.t| && k.chainTx[j] > 0 ==> chainTx[j] == k.chainTx[j]
    ensures Extends(k, WithBody(k, i, vtx, sequence, chainTx))
  {
    hide WellBuilt, Utxo.IdsIdentify, Linked, Distinct;
    Sizes(k);
    SameAddresses(k.rank, i, sequence);
    var k' := WithBody(k, i, vtx, sequence, chainTx);
    assert k.chainTx[i] > 0 ==> SummedAt(k.t, k.nTx, k.data, k.chainTx, i);
    assert k'.t[..|k.t|] == k.t && k'.hash[..|k.t|] == k.hash;
  }

  lemma SameAddresses(rank: seq<Rank>, i: int, sequence: nat)
    requires Distinct(rank) && 0 <= i < |rank|
    ensures Distinct(rank[i := rank[i].(sequence := sequence)])
  {
  }

  lemma NewlyLinked(k: Blocks, k': Blocks)
    requires k.Valid() && Extends(k, k')
    ensures |k.chainTx| == |k.t| && |k'.chainTx| == |k'.t| && |k.t| <= |k'.t|
    ensures |k'.t| == |k.t| ==>
      k'.LinkedSet() - k.LinkedSet() == set j | 0 <= j < |k.t| && k'.chainTx[j] > 0 && k.chainTx[j] == 0
  {
    hide Blocks.Valid, Extends;
    ExtendsFacts(k, k');
  }

  /** Marks that are added only excuse more waiting blocks. */
  lemma WaitingKept(
      t: Tree, data: seq<bool>, chainTx: seq<nat>, failed: seq<bool>, failed': seq<bool>, unlinked: set<(int, int)>)
    requires Linked(t) && |data| == |chainTx| == |failed| == |t| && KeepsMarks(failed, failed')
    requires Waiting(t, data, chainTx, failed, unlinked, [], NULL)
    ensures Waiting(t, data, chainTx, failed', unlinked, [], NULL)
  {
    hide ParentWaits;
    forall i | 0 <= i < |t| && data[i] && chainTx[i] == 0
      ensures t[i].prev != NULL && ((t[i].prev, i) in unlinked || failed'[t[i].prev])
    {
      assert i !in [];
    }
  }

  // ---------- everything together ----------

  datatype Input =
    | HeaderInput(prev: int, work: nat, address: nat, hash: nat)
    | BodyInput(i: int, vtx: seq<Utxo.Tx>)
    | ActivateInput

  class Processor {
    const table: BlockTable
    const sel: Selection
    /** The number of the next body, by order of arrival. */
    var nBlockSequenceId: nat

    /** The table and the selection have the same blocks, marks and candidates. */
    ghost predicate Shared()
      reads this, table, sel
    {
      && sel.k.t == table.t && sel.k.nTx == table.nTx && sel.k.data == table.data && sel.k.chainTx == table.chainTx
      && sel.failed == table.failed && sel.candidates == table.candidates
    }

    ghost predicate Valid()
      reads this, table, sel, sel.chain, sel.node, sel.node.coins
    {
      sel.Valid() && table.Valid() && Shared()
    }

    constructor (checks: int -> bool, turns: nat -> Turn, calm: nat)
      requires CalmAfter(turns, calm)
      ensures Valid() && sel.node.Ready() && sel.k.t == [] && sel.chain.vChain == []
      ensures sel.checks == checks && sel.turns == turns && sel.calm == calm
      ensures fresh(table) && fresh(sel) && fresh(sel.chain) && fresh(sel.node) && fresh(sel.node.coins)
    {
      hide StateOk, TipOk, Mirrors, Verdicts, ChainState.Node.Consistent, ChainState.Node.Ready, Chain.Valid;
      hide Summed, Waiting, CalmAfter, Blocks.HashAt, Path, Blocks.Valid, Linked, Selection.Valid, BlockTable.Valid;
      table := new BlockTable();
      sel := new Selection(checks, turns, calm);
      nBlockSequenceId := 1;
    }

    /** A header below a known one, or the genesis block. */
    method Header(prev: int, work: nat, address: nat, hash: nat)
      requires Valid() && NULL <= prev < |table.t| && (prev == NULL ==> table.t == []) && IsNew(sel.k, address, hash)
      modifies table, sel`k, sel`candidates, sel`failed, sel`accepts, sel.node`tree
      ensures Valid() && (old(sel.node.Ready()) ==> sel.node.Ready())
      ensures sel.k == WithHeader(old(sel.k), table.t, Rank(work, 0, address), hash) &&
        table.t[|old(table.t)|].prev == prev
    {
      hide StateOk, TipOk, Mirrors, Verdicts, ChainState.Node.Consistent, ChainState.Node.Ready, WellBuilt;
      hide Summed, Waiting;
      hide Blocks.Valid, Extends;
      BlocksValid(sel.k, sel.accepts, sel.failed, sel.candidates);
      table.AddHeader(prev);
      var k' := WithHeader(sel.k, table.t, Rank(work, 0, address), hash);
      HeaderExtends(sel.k, table.t, Rank(work, 0, address), hash);
      sel.Arrived(k');
    }

    /** The body of a block whose header is known: it is linked with every waiting descendant, or has to wait. */
    method Body(i: int, vtx: seq<Utxo.Tx>)
      requires Valid() && sel.k.Has(i) && i < |table.data| && !table.data[i] && vtx != [] && Utxo.IdsIdentify(vtx)
      modifies this, table, sel`k, sel`candidates, sel`failed, sel`accepts, sel.node`tree
      ensures Valid() && (old(sel.node.Ready()) ==> sel.node.Ready())
      ensures sel.k.t == old(sel.k.t) && sel.k.hash == old(sel.k.hash) && sel.k.data == old(sel.k.data)[i := true]
      ensures i < |old(sel.k.body)| && sel.k.body == old(sel.k.body)[i := vtx]
    {
      hide StateOk, TipOk, Mirrors, Verdicts, ChainState.Node.Consistent, ChainState.Node.Ready, WellBuilt;
      hide Summed, Waiting;
      hide Blocks.Valid, Extends, Linked, Utxo.IdsIdentify;
      BlocksValid(sel.k, sel.accepts, sel.failed, sel.candidates);
      Sizes(sel.k);
      table.ReceivedBlockTransactions(i, |vtx|);
      var k' := WithBody(sel.k, i, vtx, nBlockSequenceId, table.chainTx);
      nBlockSequenceId := nBlockSequenceId + 1;
      BodyExtends(sel.k, i, vtx, nBlockSequenceId - 1, table.chainTx);
      NewlyLinked(sel.k, k');
      sel.Arrived(k');
    }

    /** Activates the best chain.  On success the tip is the best of all blocks that have been received, with every
        block below them, and are acceptable; and the coin set is what connecting these blocks one after the other
        gives, but for negative versions that have been to disk. */
    method Activate() returns (ok: bool)
      requires Valid() && sel.node.Ready()
      modifies table, sel, sel.chain, sel.node, sel.node.coins
      ensures Valid() && sel.k == old(sel.k) && sel.node.tree == old(sel.node.tree)
      ensures ok ==> sel.node.Ready() && Current()
      ensures ok ==>
        && ChainState.TreeOk(sel.node.tree)
        && ChainState.ShowsLedger(sel.node.tree, sel.k.HashAt(sel.chain.Last()), sel.node.coins.Top())
      ensures Smooth(sel.turns, old(sel.ops)) && Sparing(sel.node.tree) ==> ok
      ensures sel.ops >= old(sel.ops)
      ensures Smooth(sel.turns, old(sel.ops)) && !old(sel.node.failedFlush) ==> !sel.node.failedFlush
    {
      hide StateOk, TipOk, Mirrors, Verdicts, ChainState.Node.Consistent, ChainState.Node.Ready, WellBuilt;
      hide Summed, Waiting;
      hide Blocks.Valid, Linked, KeepsMarks, IsBest, Current, ChainState.Follows, Blocks.HashAt, Chain.Valid, Path;
      hide Smooth, Sparing, ChainState.TreeOk, ChainState.NoNegativeVersions, ChainState.Replay, ChainState.ShowsLedger;
      NodeTree(sel.node);
      ok := sel.ActivateBestChain();
      BlocksValid(sel.k, sel.accepts, sel.failed, sel.candidates);
      StateLengths(sel.k, sel.accepts, sel.failed, sel.candidates);
      Sizes(sel.k);
      WaitingKept(table.t, table.data, table.chainTx, table.failed, sel.failed, table.unlinked);
      table.failed, table.candidates := sel.failed, sel.candidates;
      if ok { NowCurrent(); }
    }

    lemma NowCurrent()
      requires Valid() && IsBest(sel.k, sel.accepts, sel.chain.Last())
      requires
        && ChainState.TreeOk(sel.node.tree)
        && ChainState.Follows(sel.node.tree, sel.k.HashAt(sel.chain.Last()), sel.node.coins.Top())
      ensures Current()
    {
      hide StateOk, TipOk, Mirrors, Verdicts, ChainState.Node.Consistent, ChainState.TreeOk, WellBuilt, Summed, Waiting;
      hide Blocks.Valid, Linked, IsBest, BestUsable, Holds, ChainState.Follows, CoinsAt, Blocks.HashAt, Chain.Valid;
      BlocksValid(sel.k, sel.accepts, sel.failed, sel.candidates);
      Sizes(sel.k);
      TipFacts(sel.k, sel.accepts, sel.chain.Last());
      BestIsUsable(sel.k, sel.checks, sel.node.tree, sel.accepts, sel.failed, sel.candidates, table.unlinked,
        sel.chain.Last());
      CoinsHeld(sel.k, sel.checks, sel.node.tree, sel.accepts, sel.chain.Last(), sel.node.coins.Top());
    }

    /** A header that may be known already, or have no parent. */
    method TryHeader(prev: int, work: nat, address: nat, hash: nat)
      requires Valid()
      modifies table, sel`k, sel`candidates, sel`failed, sel`accepts, sel.node`tree
      ensures Valid()
    {
      hide StateOk, TipOk, Mirrors, Verdicts, ChainState.Node.Consistent, ChainState.Node.Ready, WellBuilt;
      hide Summed, Waiting;
      if NULL <= prev < |table.t| && (prev == NULL ==> table.t == []) && IsNew(sel.k, address, hash) {
        Header(prev, work, address, hash);
      }
    }

    /** A body that may be known already, or have no header. */
    method TryBody(i: int, vtx: seq<Utxo.Tx>)
      requires Valid()
      modifies this, table, sel`k, sel`candidates, sel`failed, sel`accepts, sel.node`tree
      ensures Valid()
    {
      hide StateOk, TipOk, Mirrors, Verdicts, ChainState.Node.Consistent, ChainState.Node.Ready, WellBuilt;
      hide Summed, Waiting;
      if sel.k.Has(i) && i < |table.data| && !table.data[i] && vtx != [] && Utxo.IdsIdentify(vtx) {
        Body(i, vtx);
      }
    }

    /** Any run: headers and bodies in any order, and activations at any time.  What does not fit is ignored: headers
        without a parent or known already, bodies without a header or received already.  After a write to disk has
        failed there are no more activations.  Whenever the last activation succeeded, and nothing arrived since,
        the tip is the best usable block, with its coins. */
    method Run(inputs: seq<Input>) returns (current: bool)
      requires Valid()
      modifies this, table, sel, sel.chain, sel.node, sel.node.coins
      ensures Valid()
      ensures current ==> Current()
      ensures
        && Smooth(sel.turns, old(sel.ops)) && !old(sel.node.failedFlush) && Sparing(sel.node.tree)
        && inputs != [] && inputs[|inputs| - 1].ActivateInput?
        ==> current
    {
      hide StateOk, TipOk, Mirrors, Verdicts, ChainState.Node.Consistent, ChainState.Node.Ready, WellBuilt;
      hide Summed, Waiting;
      current := false;
      for n := 0 to |inputs|
        invariant Valid() && (current ==> Current()) && sel.ops >= old(sel.ops)
        invariant Smooth(sel.turns, old(sel.ops)) && !old(sel.node.failedFlush) ==> !sel.node.failedFlush
        invariant
          && Smooth(sel.turns, old(sel.ops)) && !old(sel.node.failedFlush) && Sparing(sel.node.tree)
          && n > 0 && inputs[n - 1].ActivateInput?
          ==> current
      {
        match inputs[n] {
          case HeaderInput(prev, work, address, hash) =>
            TryHeader(prev, work, address, hash);
            current := false;
          case BodyInput(i, vtx) =>
            TryBody(i, vtx);
            current := false;
          case ActivateInput =>
            current := false;
            if !sel.node.failedFlush {
              NoFailureReady(sel.node);
              current := Activate();
            }
        }
      }
    }

    /** The tip is the best usable block, and the coin view has its coins. */
    ghost predicate Current()
      reads this, table, sel, sel.chain, sel.node, sel.node.coins
    {
      && sel.k.Valid() && BestUsable(sel.k, sel.checks, sel.chain.Last())
      && (Sizes(sel.k); Holds(CoinsAt(sel.k, sel.checks, sel.chain.Last()), sel.node.coins.Top()))
    }
  }

  /** The coins held are those given, but for what has been to disk. */
  ghost predicate Holds(given: Option<Utxo.UtxoSet>, held: Utxo.UtxoSet) {
    given.Some? && Utxo.Like(given.value, held)
  }

  lemma CoinsHeld(
      k: Blocks, checks: int -> bool, tree: ChainState.Tree, accepts: int -> bool, tip: int, held: Utxo.UtxoSet)
    requires k.Valid() && Mirrors(k, k.LinkedSet(), tree) && Verdicts(k, checks, tree, accepts) &&
      ChainState.TreeOk(tree)
    requires TipOk(k, accepts, tip) && ChainState.Follows(tree, k.HashAt(tip), held)
    ensures Linked(k.t) && |k.body| == |k.t| && NULL <= tip < |k.t| && Holds(CoinsAt(k, checks, tip), held)
  {
    hide Blocks.Valid, Linked, ChainState.TreeOk, Mirrors, Verdicts, CoinsAt, Utxo.Like, ChainState.Replay, Sound;
    Sizes(k);
    SoundIsAccepted(k, checks, tree, accepts, tip);
  }

  lemma BlocksValid(k: Blocks, accepts: int -> bool, failed: seq<bool>, candidates: set<int>)
    requires StateOk(k, accepts, failed, candidates)
    ensures k.Valid() && WellBuilt(k.t) && Summed(k.t, k.nTx, k.data, k.chainTx)
  {
  }
}
