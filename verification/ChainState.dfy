/** The coin set of the active chain over whole runs: connecting and disconnecting tips, flushing,
    and disk failures, in any order.  What has been on disk comes back in its stored form. */
module ChainState {
  import opened Wrappers
  import opened Utxo
  import opened CoinsCache
  import opened CoinsViews
  import opened BlockUndo
  import opened StoredSets
  import opened Ledger
  import BlockConnect

  /** A known block with its body. */
  datatype BlockInfo = BlockInfo(prev: Hash, height: nat, vtx: seq<Tx>)

  type Tree = map<Hash, BlockInfo>

  predicate BlockOk(tree: Tree, h: Hash, b: BlockInfo) {
    && h != NULL_HASH && IdsIdentify(b.vtx)
    && (b.height == 0 ==> b.prev == NULL_HASH)
    && (b.height > 0 ==> b.prev in tree && tree[b.prev].height == b.height - 1)
  }

  ghost predicate TreeOk(tree: Tree) {
    forall h :: h in tree ==> BlockOk(tree, h, tree[h])
  }

  // ---------- replay ----------

  /** Connects every block from genesis to h, in order, to the empty set. */
  ghost function Replay(tree: Tree, h: Hash): Option<UtxoSet>
    requires TreeOk(tree) && (h == NULL_HASH || h in tree)
    decreases if h == NULL_HASH then 0 else tree[h].height + 1, 1
  {
    if h == NULL_HASH then Some(map[])
    else
      match Connected(tree, h)
      case None => None
      case Some((m, _)) => Some(m)
  }

  /** What connecting h to the replay of its parent gives: the new set and the undo data. */
  ghost function Connected(tree: Tree, h: Hash): Option<(UtxoSet, seq<TxUndo>)>
    requires TreeOk(tree) && h in tree
    decreases tree[h].height + 1, 0
  {
    assert BlockOk(tree, h, tree[h]);
    match Replay(tree, tree[h].prev)
    case None => None
    case Some(m) => ConnectBlock(m, tree[h].vtx, tree[h].height, true)
  }

  /** Replay looks at ancestors only, so it survives the arrival of blocks. */
  lemma {:induction false} ReplayStable(tree: Tree, tree': Tree, h: Hash)
    requires TreeOk(tree) && TreeOk(tree')
    requires forall k :: k in tree ==> k in tree' && tree'[k] == tree[k]
    requires h == NULL_HASH || h in tree
    ensures Replay(tree', h) == Replay(tree, h)
    ensures h in tree ==> Connected(tree', h) == Connected(tree, h)
    decreases if h == NULL_HASH then 0 else tree[h].height + 1
  {
    hide ConnectBlock;
    if h in tree {
      assert BlockOk(tree, h, tree[h]);
      if h != NULL_HASH {
        ReplayStable(tree, tree', tree[h].prev);
      }
    }
  }

  lemma TreeGrows(tree: Tree, h: Hash, b: BlockInfo)
    requires TreeOk(tree) && h !in tree && BlockOk(tree, h, b)
    ensures TreeOk(tree[h := b])
    ensures forall k :: k == NULL_HASH || k in tree ==> Replay(tree[h := b], k) == Replay(tree, k)
    ensures forall k :: k in tree ==> Connected(tree[h := b], k) == Connected(tree, k)
  {
    hide Connected, Replay, IdsIdentify;
    var tree' := tree[h := b];
    forall k | k in tree'
      ensures BlockOk(tree', k, tree'[k])
    {
      if k != h { assert BlockOk(tree, k, tree[k]); }
    }
    forall k | k == NULL_HASH || k in tree
      ensures Replay(tree', k) == Replay(tree, k)
      ensures k in tree ==> Connected(tree', k) == Connected(tree, k)
    {
      ReplayStable(tree, tree', k);
    }
  }

  lemma ConnectWellFormed(m: UtxoSet, txs: seq<Tx>, h: nat)
    requires WellFormed(m) && ConnectBlock(m, txs, h, true).Some?
    ensures WellFormed(ConnectBlock(m, txs, h, true).value.0)
  {
    ApplyTxsSources(m, txs, h);
  }

  lemma {:induction false} ReplayWellFormed(tree: Tree, h: Hash)
    requires TreeOk(tree) && (h == NULL_HASH || h in tree) && Replay(tree, h).Some?
    ensures WellFormed(Replay(tree, h).value)
    decreases if h == NULL_HASH then 0 else tree[h].height + 1
  {
    hide ConnectBlock;
    if h != NULL_HASH {
      assert BlockOk(tree, h, tree[h]);
      ReplayWellFormed(tree, tree[h].prev);
      ConnectWellFormed(Replay(tree, tree[h].prev).value, tree[h].vtx, tree[h].height);
    }
  }

  // ---------- the replay as a ledger ----------

  /** Block k is on the branch of h, and no block from k to h spends q. */
  ghost predicate UnspentFrom(tree: Tree, k: Hash, h: Hash, q: OutPoint)
    requires TreeOk(tree) && (h == NULL_HASH || h in tree)
    decreases if h == NULL_HASH then 0 else tree[h].height + 1
  {
    && h != NULL_HASH && !SpendsAny(tree[h].vtx, q)
    && (assert BlockOk(tree, h, tree[h]); k == h || UnspentFrom(tree, k, tree[h].prev, q))
  }

  /** Output q.n of transaction i of block k is o, and it has not been spent up to block h. */
  ghost predicate Created(tree: Tree, k: Hash, i: nat, h: Hash, q: OutPoint, o: Output)
    requires TreeOk(tree) && (h == NULL_HASH || h in tree)
  {
    && k in tree && i < |tree[k].vtx| && tree[k].vtx[i].id == q.hash
    && OutputOf(tree[k].vtx[i], q.n, tree[k].height) == Some(o)
    && UnspentFrom(tree, k, h, q)
  }

  ghost predicate OnLedger(tree: Tree, h: Hash, q: OutPoint, o: Output)
    requires TreeOk(tree) && (h == NULL_HASH || h in tree)
  {
    exists k, i: nat :: Created(tree, k, i, h, q, o)
  }

  /** The replay has exactly the outputs that transactions of the branch created and none of its blocks spent
      from then on, each at its place and with the height, coinbase flag and version of its creation. */
  lemma {:induction false} ReplayLedger(tree: Tree, h: Hash, q: OutPoint, o: Output)
    requires TreeOk(tree) && (h == NULL_HASH || h in tree) && Replay(tree, h).Some?
    ensures OutputAt(Replay(tree, h).value, q) == Some(o) <==> OnLedger(tree, h, q, o)
    decreases if h == NULL_HASH then 0 else tree[h].height + 1
  {
    hide OutputAt, OutputOf, ConnectBlock, SpendsAny, IdsIdentify, DistinctIds, NoOverwrite, OfferedBy;
    hide Created, OnLedger;
    if h == NULL_HASH {
      EmptyLedger(tree, q, o);
    } else {
      assert BlockOk(tree, h, tree[h]);
      var prev, b := tree[h].prev, tree[h];
      var m := Replay(tree, prev).value;
      ReplayWellFormed(tree, prev);
      ReplayLedger(tree, prev, q, o);
      ConnectOutputs(m, b.vtx, b.height, true, q);
      ConnectedIds(m, b.vtx, b.height, q);
      LedgerStep(tree, h, q, o);
    }
  }

  lemma EmptyLedger(tree: Tree, q: OutPoint, o: Output)
    requires TreeOk(tree)
    ensures !OnLedger(tree, NULL_HASH, q, o) && OutputAt(map[], q) == None
  {
  }

  lemma ConnectedIds(m: UtxoSet, txs: seq<Tx>, h: nat, q: OutPoint)
    requires WellFormed(m) && IdsIdentify(txs) && ConnectBlock(m, txs, h, true).Some?
    ensures DistinctIds(txs) && (q.hash in Ids(txs) ==> OutputAt(m, q) == None)
  {
    hide ApplyTxs, CheckTransaction;
    AcceptedIdsDistinct(m, txs, h);
  }

  lemma LedgerStep(tree: Tree, h: Hash, q: OutPoint, o: Output)
    requires TreeOk(tree) && h in tree && h != NULL_HASH && DistinctIds(tree[h].vtx)
    requires tree[h].prev == NULL_HASH || tree[h].prev in tree
    requires q.hash in Ids(tree[h].vtx) ==> !OnLedger(tree, tree[h].prev, q, o)
    ensures OnLedger(tree, h, q, o) <==>
      && !SpendsAny(tree[h].vtx, q)
      && if q.hash in Ids(tree[h].vtx) then OfferedBy(tree[h].vtx, q, tree[h].height) == Some(o)
         else OnLedger(tree, tree[h].prev, q, o)
  {
    hide OutputOf, SpendsAny, DistinctIds, OfferedBy;
    var b := tree[h];
    if OnLedger(tree, h, q, o) {
      var k, i: nat :| Created(tree, k, i, h, q, o);
      if k == h {
        assert b.vtx[i].id in Ids(b.vtx);
        OfferedByOne(b.vtx, q, b.height, i);
      } else {
        assert Created(tree, k, i, b.prev, q, o);
      }
    }
    if !SpendsAny(b.vtx, q) {
      if q.hash in Ids(b.vtx) {
        var i: nat :| i < |b.vtx| && b.vtx[i].id == q.hash;
        OfferedByOne(b.vtx, q, b.height, i);
        assert OutputOf(b.vtx[i], q.n, b.height) == Some(o) ==> Created(tree, h, i, h, q, o);
      } else if OnLedger(tree, b.prev, q, o) {
        var k, i: nat :| Created(tree, k, i, b.prev, q, o);
        assert Created(tree, k, i, h, q, o);
      }
    }
  }

  /** The set w has exactly the outputs on the ledger of h, each as it was created or in its stored form. */
  ghost predicate ShowsLedger(tree: Tree, h: Hash, w: UtxoSet)
    requires TreeOk(tree)
  {
    && (h == NULL_HASH || h in tree)
    && (forall q: OutPoint :: OutputAt(w, q).Some? ==> exists o :: OnLedger(tree, h, q, o))
    && (forall q: OutPoint, o: Output :: OnLedger(tree, h, q, o) ==>
          OutputAt(w, q) == Some(o) || OutputAt(w, q) == Some(o.(nVersion := StoredVersion(o.nVersion))))
  }

  lemma FollowsLedger(tree: Tree, h: Hash, w: UtxoSet)
    requires TreeOk(tree) && Follows(tree, h, w)
    ensures ShowsLedger(tree, h, w)
  {
    hide Replay, OutputAt, OnLedger, TreeOk, Like;
    var m := Replay(tree, h).value;
    forall q: OutPoint, o: Output
      ensures OutputAt(m, q) == Some(o) <==> OnLedger(tree, h, q, o)
    {
      ReplayLedger(tree, h, q, o);
    }
    forall q: OutPoint
      ensures OutputAt(w, q).Some? ==> OutputAt(m, q).Some? && OnLedger(tree, h, q, OutputAt(m, q).value)
      ensures OutputAt(m, q).Some? ==>
        || OutputAt(w, q) == OutputAt(m, q)
        || OutputAt(w, q) ==
             Some(OutputAt(m, q).value.(nVersion := StoredVersion(OutputAt(m, q).value.nVersion)))
    {
      LikeOutput(m, w, q);
    }
  }

  lemma LikeOutput(m: UtxoSet, w: UtxoSet, q: OutPoint)
    requires Like(m, w)
    ensures OutputAt(w, q).Some? <==> OutputAt(m, q).Some?
    ensures OutputAt(m, q).Some? ==>
      var o := OutputAt(m, q).value;
      OutputAt(w, q) == Some(o) || OutputAt(w, q) == Some(o.(nVersion := StoredVersion(o.nVersion)))
  {
  }

  /** Disconnecting h from anything like its replay, with the stored undo data, gives something like the replay
      of the parent whenever it is reported clean; and it is, if and only if h spares an output of every record
      that was created in the genesis block. */
  lemma DisconnectReplay(tree: Tree, h: Hash, w: UtxoSet)
    requires TreeOk(tree) && h in tree && tree[h].height > 0 && Connected(tree, h).Some?
    requires Like(Connected(tree, h).value.0, w)
    ensures Replay(tree, tree[h].prev).Some?
    ensures
      var undo := StoredBlockUndo(Connected(tree, h).value.1);
      var before := Replay(tree, tree[h].prev).value;
      && DisconnectBlock(w, tree[h].vtx, undo, tree[h].height).Some?
      && var (r, clean) := DisconnectBlock(w, tree[h].vtx, undo, tree[h].height).value;
      && (clean ==> Like(before, r))
      && (clean <==> SparesZero(before, tree[h].vtx))
  {
    assert BlockOk(tree, h, tree[h]);
    ReplayWellFormed(tree, tree[h].prev);
    hide ConnectBlock, DisconnectBlock, Like, SparesZero, Undone, VersionsSurvive;
    DisconnectInvertsConnect(Replay(tree, tree[h].prev).value, tree[h].vtx, tree[h].height, true, w);
  }

  /** Block h spares an output of every record of the genesis block. */
  ghost predicate Revertible(tree: Tree, h: Hash)
    requires TreeOk(tree) && h in tree
  {
    assert BlockOk(tree, h, tree[h]);
    Replay(tree, tree[h].prev).Some? && SparesZero(Replay(tree, tree[h].prev).value, tree[h].vtx)
  }

  /** No acceptable block uses up a record of the genesis block. */
  ghost predicate AllRevertible(tree: Tree)
    requires TreeOk(tree)
  {
    forall h :: h in tree && Connected(tree, h).Some? ==> Revertible(tree, h)
  }

  // ---------- without negative versions ----------

  ghost predicate NoNegativeVersions(tree: Tree) {
    forall h, i :: h in tree && 0 <= i < |tree[h].vtx| ==> tree[h].vtx[i].nVersion >= 0
  }

  lemma {:induction false} SpendKeepsVersions(m: UtxoSet, vin: seq<OutPoint>)
    requires VersionsKnown(m) && SpendInputs(m, vin).Some?
    ensures VersionsKnown(SpendInputs(m, vin).value.0)
    decreases |vin|
  {
    hide Trim;
    if vin != [] {
      assert VersionsKnown(AfterSpend(m, vin[0]));
      SpendKeepsVersions(AfterSpend(m, vin[0]), vin[1..]);
    }
  }

  lemma {:induction false} ApplyKeepsVersions(m: UtxoSet, txs: seq<Tx>, h: nat)
    requires VersionsKnown(m) && ApplyTxs(m, txs, h).Some? && forall i :: 0 <= i < |txs| ==> txs[i].nVersion >= 0
    ensures VersionsKnown(ApplyTxs(m, txs, h).value.0)
    decreases |txs|
  {
    hide SpendInputs, HaveInputs;
    if txs != [] {
      SpendKeepsVersions(m, if txs[0].IsCoinBase() then [] else txs[0].vin);
      ApplyKeepsVersions(ApplyTx(m, txs[0], h).value.0, txs[1..], h);
    }
  }

  lemma {:induction false} ReplayVersions(tree: Tree, h: Hash)
    requires TreeOk(tree) && NoNegativeVersions(tree) && (h == NULL_HASH || h in tree) && Replay(tree, h).Some?
    ensures VersionsKnown(Replay(tree, h).value)
    decreases if h == NULL_HASH then 0 else tree[h].height + 1
  {
    hide ApplyTxs;
    if h != NULL_HASH {
      assert BlockOk(tree, h, tree[h]);
      ReplayVersions(tree, tree[h].prev);
      ApplyKeepsVersions(Replay(tree, tree[h].prev).value, tree[h].vtx, tree[h].height);
    }
  }

  /** Without negative versions, a set like the replay is the replay. */
  lemma LikeReplayExact(tree: Tree, h: Hash, w: UtxoSet)
    requires TreeOk(tree) && (h == NULL_HASH || h in tree) && Replay(tree, h).Some? && Like(Replay(tree, h).value, w)
    ensures NoNegativeVersions(tree) ==> Replay(tree, h) == Some(w)
  {
    hide Replay, Like;
    if NoNegativeVersions(tree) {
      ReplayVersions(tree, h);
      LikeExact(Replay(tree, h).value, w);
    }
  }

  // ---------- undo data holds real outputs ----------

  ghost predicate CanonicalUndo(us: seq<TxUndo>) {
    forall i, j :: 0 <= i < |us| && 0 <= j < |us[i]| ==> us[i][j].Canonical()
  }

  lemma {:induction false} SpentAreCanonical(m: UtxoSet, vin: seq<OutPoint>)
    requires SpendInputs(m, vin).Some?
    ensures forall j :: 0 <= j < |SpendInputs(m, vin).value.1| ==> SpendInputs(m, vin).value.1[j].Canonical()
    decreases |vin|
  {
    hide Spend, Trim;
    if vin != [] {
      SpentAreCanonical(AfterSpend(m, vin[0]), vin[1..]);
    }
  }

  lemma {:induction false} RecordedAreCanonical(m: UtxoSet, txs: seq<Tx>, h: nat)
    requires ApplyTxs(m, txs, h).Some?
    ensures CanonicalUndo(ApplyTxs(m, txs, h).value.1)
    decreases |txs|
  {
    hide SpendInputs, HaveInputs;
    if txs != [] {
      SpentAreCanonical(m, if txs[0].IsCoinBase() then [] else txs[0].vin);
      RecordedAreCanonical(ApplyTx(m, txs[0], h).value.0, txs[1..], h);
    }
  }

  lemma ConnectedFacts(tree: Tree, h: Hash)
    requires TreeOk(tree) && h in tree && Connected(tree, h).Some?
    ensures CanonicalUndo(Connected(tree, h).value.1)
    ensures forall i :: 0 <= i < |tree[h].vtx| ==> CheckTransaction(tree[h].vtx[i])
  {
    assert BlockOk(tree, h, tree[h]);
    var m := Replay(tree, tree[h].prev).value;
    RecordedAreCanonical(m, tree[h].vtx, tree[h].height);
    hide ApplyTxs;
  }

  lemma StoredCanonical(us: seq<TxUndo>)
    requires CanonicalUndo(us)
    ensures CanonicalUndo(StoredBlockUndo(us))
  {
    var stored: seq<TxUndo> := StoredBlockUndo(us);
    forall i, j | 0 <= i < |stored| && 0 <= j < |stored[i]|
      ensures stored[i][j].Canonical()
    {
      assert us[i][j].Canonical();
    }
  }

  /** Every undo record on disk is the one that replay would store. */
  ghost predicate UndoMatches(tree: Tree, undo: map<Hash, seq<TxUndo>>)
    requires TreeOk(tree)
  {
    forall h :: h in undo ==>
      && h in tree && tree[h].height > 0 && Connected(tree, h).Some?
      && undo[h] == StoredBlockUndo(Connected(tree, h).value.1)
  }

  /** Every block from h down to the one after genesis has undo data. */
  ghost predicate Recorded(tree: Tree, undo: map<Hash, seq<TxUndo>>, h: Hash)
    requires TreeOk(tree)
    decreases if h in tree then tree[h].height + 1 else 0
  {
    h == NULL_HASH ||
    (h in tree && (tree[h].height == 0 ||
      (h in undo && (assert BlockOk(tree, h, tree[h]); Recorded(tree, undo, tree[h].prev)))))
  }

  lemma {:induction false} RecordedStays(
    tree: Tree, tree': Tree, undo: map<Hash, seq<TxUndo>>, undo': map<Hash, seq<TxUndo>>, h: Hash)
    requires TreeOk(tree) && TreeOk(tree') && Recorded(tree, undo, h)
    requires forall k :: k in tree ==> k in tree' && tree'[k] == tree[k]
    requires forall k :: k in undo ==> k in undo'
    ensures Recorded(tree', undo', h)
    decreases if h in tree then tree[h].height + 1 else 0
  {
    hide TreeOk, BlockOk;
    if h != NULL_HASH && tree[h].height > 0 {
      ParentKnown(tree, h);
      RecordedStays(tree, tree', undo, undo', tree[h].prev);
    }
  }

  lemma ParentKnown(tree: Tree, h: Hash)
    requires TreeOk(tree) && h in tree && tree[h].height > 0
    ensures tree[h].prev in tree && tree[tree[h].prev].height == tree[h].height - 1
  {
    assert BlockOk(tree, h, tree[h]);
  }

  lemma RecordedStep(tree: Tree, undo: map<Hash, seq<TxUndo>>, h: Hash)
    requires TreeOk(tree) && h in tree
    ensures Recorded(tree, undo, h) <==> tree[h].height == 0 || (h in undo && Recorded(tree, undo, tree[h].prev))
  {
    assert BlockOk(tree, h, tree[h]);
  }

  lemma UndoStays(tree: Tree, h: Hash, b: BlockInfo, undo: map<Hash, seq<TxUndo>>)
    requires TreeOk(tree) && h !in tree && BlockOk(tree, h, b) && UndoMatches(tree, undo)
    ensures TreeOk(tree[h := b]) && UndoMatches(tree[h := b], undo)
  {
    TreeGrows(tree, h, b);
  }

  lemma UndoRecorded(tree: Tree, undo: map<Hash, seq<TxUndo>>, h: Hash)
    requires TreeOk(tree) && UndoMatches(tree, undo)
    requires h in tree && tree[h].height > 0 && Connected(tree, h).Some?
    ensures h in undo ==> undo[h] == StoredBlockUndo(Connected(tree, h).value.1)
    ensures UndoMatches(tree, undo[h := StoredBlockUndo(Connected(tree, h).value.1)])
  {
  }

  /** The set w follows block h: it is the replay of h, but for what has been to disk. */
  ghost predicate Follows(tree: Tree, h: Hash, w: UtxoSet)
    requires TreeOk(tree)
  {
    (h == NULL_HASH || h in tree) && Replay(tree, h).Some? && Like(Replay(tree, h).value, w)
  }

  lemma FollowsLike(tree: Tree, h: Hash, w: UtxoSet, w': UtxoSet)
    requires TreeOk(tree) && Follows(tree, h, w) && Like(w, w')
    ensures Follows(tree, h, w')
  {
    hide Like, Replay;
    LikeTrans(Replay(tree, h).value, w, w');
  }

  lemma FollowsGrown(tree: Tree, h: Hash, b: BlockInfo, k: Hash, w: UtxoSet)
    requires TreeOk(tree) && h !in tree && BlockOk(tree, h, b)
    ensures TreeOk(tree[h := b]) && (Follows(tree, k, w) ==> Follows(tree[h := b], k, w))
  {
    hide Like, Replay;
    TreeGrows(tree, h, b);
  }

  lemma StoredAlready(db: UtxoSet, db': UtxoSet)
    requires VersionsKnown(db) && Like(db, db')
    ensures db' == db
  {
    hide Like;
    LikeExact(db, db');
  }

  /** Undo data that some connect recorded, of whatever set: it has the shape that disconnecting requires. */
  ghost predicate UndoShaped(tree: Tree, undo: map<Hash, seq<TxUndo>>) {
    forall h :: h in undo ==>
      && h in tree && tree[h].height > 0 && CanonicalUndo(undo[h])
      && (forall i :: 0 <= i < |tree[h].vtx| ==> CheckTransaction(tree[h].vtx[i]))
  }

  lemma ShapedMore(tree: Tree, undo: map<Hash, seq<TxUndo>>, h: Hash, m: UtxoSet, checks: bool)
    requires UndoShaped(tree, undo) && h in tree && tree[h].height > 0
    requires ConnectBlock(m, tree[h].vtx, tree[h].height, checks).Some?
    ensures
      UndoShaped(tree, undo[h := StoredBlockUndo(ConnectBlock(m, tree[h].vtx, tree[h].height, checks).value.1)])
  {
    RecordedAreCanonical(m, tree[h].vtx, tree[h].height);
    hide ApplyTxs, CheckTransaction, TxInUndo.Canonical;
    StoredCanonical(ConnectBlock(m, tree[h].vtx, tree[h].height, checks).value.1);
  }

  lemma ShapeOf(tree: Tree, undo: map<Hash, seq<TxUndo>>, h: Hash)
    requires UndoShaped(tree, undo) && h in undo
    ensures h in tree && CanonicalUndo(undo[h])
    ensures forall i :: 0 <= i < |tree[h].vtx| ==> CheckTransaction(tree[h].vtx[i])
  {
  }

  // ---------- the node ----------

  /** How writing to disk goes: it works, there is no space and nothing is touched, or the database refuses the
      write after the cache has been handed over. */
  datatype Disk = Works | Full | Refuses

  /** One event of a run; the booleans are what the remaining checks, before and after the entry assertion of
      ConnectBlock, and the cache size answer. */
  datatype Event =
    | Arrive(hash: Hash, info: BlockInfo)
    | ConnectEvent(target: Hash, blockChecks: bool, otherChecks: bool, needFlush: bool, disk: Disk)
    | DisconnectEvent(needFlush: bool, disk: Disk)
    | FlushEvent(disk: Disk)
  {
    predicate Refused() { !Arrive? && disk.Refuses? }
  }

  class Node {
    const coins: Views
    var tree: Tree
    var undo: map<Hash, seq<TxUndo>>
    var tip: Hash
    /** The node was told to shut down; nothing below looks at this. */
    var aborted: bool
    /** A write to disk has failed. */
    var failedFlush: bool
    /** An assertion failed, and the process is gone. */
    var crashed: bool
    /** A refused write emptied the cache, so that the view shows the coins of block `based`. */
    ghost var lost: bool
    ghost var based: Hash
    /** Since then a write worked, which put the view's best block over these coins. */
    ghost var rewritten: bool
    /** A block was connected to, or disconnected from, coins that are not those of its best block. */
    ghost var strayed: bool

    ghost predicate Shape()
      reads this, coins
    {
      && coins.Valid() && coins.modifier == None && |coins.layers| == 1
      && TreeOk(tree) && UndoShaped(tree, undo) && Recorded(tree, undo, tip)
      && (tip == NULL_HASH || tip in tree) && VersionsKnown(coins.db)
    }

    /** The view shows the coins of its best block. */
    ghost predicate Sound()
      requires TreeOk(tree)
      reads this, coins
    {
      !strayed && Follows(tree, coins.BestBlock(), coins.Top())
    }

    /** Until the node strays: the database and the view follow their own best blocks, except after a refused
        write; then both have the coins of block `based`, and one of two best blocks. */
    ghost predicate Whole()
      reads this, coins
    {
      && Shape()
      && (!strayed ==> UndoMatches(tree, undo))
      && (!strayed && !lost ==> Follows(tree, coins.dbBest, coins.db) && Follows(tree, coins.BestBlock(), coins.Top()))
      && (!strayed && lost ==>
            && coins.Top() == coins.db && Follows(tree, based, coins.db)
            && coins.dbBest == if rewritten then coins.BestBlock() else based)
    }

    ghost predicate Consistent()
      reads this, coins
    {
      && Whole() && (failedFlush ==> aborted)
      && (!failedFlush ==> !lost && !strayed && !crashed && coins.BestBlock() == tip)
    }

    /** The coin view is that of the tip; this is all that the operations need. */
    ghost predicate Ready()
      reads this, coins
    {
      Consistent() && !crashed && Sound() && coins.BestBlock() == tip
    }

    constructor ()
      ensures Consistent() && Ready() && tip == NULL_HASH && !aborted && !failedFlush && tree == map[] && fresh(coins)
      ensures coins.db == map[] && coins.dbBest == NULL_HASH
    {
      var views := new Views(map[], NULL_HASH);
      views.PushCache();
      coins := views;
      tree, undo, tip, aborted, failedFlush, crashed := map[], map[], NULL_HASH, false, false, false;
      lost, based, rewritten, strayed := false, NULL_HASH, false, false;
      new;
      hide View, Best, StackOk;
      NoCaches(map[], NULL_HASH);
      LikeSelf(map[]);
    }

    /** A new block, with its body, becomes known. */
    method AddBlock(h: Hash, b: BlockInfo)
      requires Consistent() && h !in tree && BlockOk(tree, h, b)
      modifies this`tree
      ensures Consistent() && tree == old(tree)[h := b]
      ensures old(Ready()) ==> Ready()
    {
      hide Views.Valid, Views.Top, Views.BestBlock, TreeOk, UndoMatches, Recorded, BlockOk, Replay, Follows;
      TreeGrows(tree, h, b);
      if !strayed { UndoStays(tree, h, b, undo); }
      RecordedStays(tree, tree[h := b], undo, undo, tip);
      FollowsGrown(tree, h, b, coins.dbBest, coins.db);
      FollowsGrown(tree, h, b, based, coins.db);
      FollowsGrown(tree, h, b, coins.BestBlock(), coins.Top());
      tree := tree[h := b];
    }

    /** The node is told to shut down, for a reason that does not concern the coins. */
    method Abort()
      requires Consistent()
      modifies this`aborted
      ensures Consistent() && aborted && (old(Ready()) ==> Ready())
    {
      aborted := true;
    }

    /** Writes the coin cache to the database if asked to, in whatever state the node is.  A write that works
        makes the database what the view is; if the cache had been lost, this puts a new best block over the
        same coins. */
    method FlushStateToDisk(needFlush: bool, disk: Disk) returns (ok: bool)
      requires Whole()
      modifies this`aborted, this`failedFlush, this`lost, this`based, this`rewritten, coins
      ensures Whole() && coins.BestBlock() == old(coins.BestBlock())
      ensures ok <==> !needFlush || disk.Works?
      ensures aborted == (old(aborted) || !ok) && failedFlush == (old(failedFlush) || !ok)
      ensures ok && needFlush ==>
        && coins.db == coins.Top() && coins.dbBest == coins.BestBlock() && Like(old(coins.Top()), coins.Top())
        && (lost <==> old(lost)) && (rewritten <==> old(lost))
        && (old(Sound()) ==> Follows(tree, coins.dbBest, coins.db))
        && (old(lost) && !strayed ==> coins.db == old(coins.db))
      ensures !(ok && needFlush) ==> coins.db == old(coins.db) && coins.dbBest == old(coins.dbBest)
      ensures !needFlush || disk.Full? ==>
        coins.Top() == old(coins.Top()) && (lost <==> old(lost)) && (rewritten <==> old(rewritten))
      ensures needFlush && disk.Refuses? ==> lost && coins.Top() == coins.db && (rewritten ==> old(lost && rewritten))
      ensures old(Sound()) && !(needFlush && disk.Refuses?) ==> Sound()
      ensures old(Consistent()) ==> Consistent() && (old(Ready()) && !(needFlush && disk.Refuses?) ==> Ready())
    {
      hide StackOk, TreeOk, UndoMatches, UndoShaped, Recorded, Replay, Follows, View, Best, Like, VersionsKnown;
      ok := true;
      LikeSelf(coins.Top());
      if needFlush {
        if disk.Full? {
          aborted, failedFlush := true, true;
          return false;
        }
        if disk.Refuses? {
          coins.LoseCache();
          if !lost { lost, based, rewritten := true, coins.dbBest, false; }
          aborted, failedFlush := true, true;
          return false;
        }
        ghost var top, db := coins.Top(), coins.db;
        coins.Flush();
        assert coins.layers[..0] == [];
        NoCaches(coins.db, coins.dbBest);
        if Follows(tree, coins.BestBlock(), top) { FollowsLike(tree, coins.BestBlock(), top, coins.Top()); }
        if !strayed && lost { StoredAlready(db, coins.db); }
        rewritten := lost;
      }
    }

    /** The common end of connecting and disconnecting: flush if needed, then move the tip to h. */
    method Commit(h: Hash, needFlush: bool, disk: Disk) returns (ok: bool)
      requires Whole() && coins.BestBlock() == h && h in tree && Recorded(tree, undo, h)
      modifies this`tip, this`aborted, this`failedFlush, this`lost, this`based, this`rewritten, coins
      ensures Whole() && coins.BestBlock() == h
      ensures ok <==> !needFlush || disk.Works?
      ensures aborted == (old(aborted) || !ok) && failedFlush == (old(failedFlush) || !ok) &&
        tip == (if ok then h else old(tip))
      ensures needFlush && disk.Refuses? ==> lost && coins.Top() == coins.db
      ensures !(needFlush && disk.Refuses?) ==> (lost <==> old(lost)) && (old(Sound()) ==> Sound())
      ensures !needFlush || disk.Full? ==> coins.Top() == old(coins.Top())
      ensures Like(old(coins.Top()), coins.Top()) || (needFlush && disk.Refuses?)
      ensures !(ok && needFlush) ==> coins.db == old(coins.db) && coins.dbBest == old(coins.dbBest)
    {
      hide Replay, Follows, Views.Valid, Views.Top, Views.BestBlock, UndoMatches, UndoShaped, Recorded, TreeOk, Like;
      hide VersionsKnown;
      LikeSelf(coins.Top());
      ok := FlushStateToDisk(needFlush, disk);
      if ok {
        tip := h;
      }
    }

    /** Connects a block to the tip.  If the view's best block is not the tip, the entry assertion ends the
        process.  Otherwise the coins of the view decide, and these are the tip's, unless a refused write lost
        the cache.  A rejected block changes nothing and an accepted one becomes the tip, unless the disk fails:
        then the view is one block ahead of the tip if there was no space. */
    method ConnectTip(h: Hash, blockChecks: bool, otherChecks: bool, needFlush: bool, disk: Disk)
      returns (ok: bool, accepted: bool)
      requires Consistent() && !crashed && h in tree && tree[h].prev == tip
      modifies this`undo, this`tip, this`aborted, this`failedFlush, this`crashed, coins
      modifies this`lost, this`based, this`rewritten, this`strayed
      ensures Consistent() && tree == old(tree)
      ensures crashed <==> old(coins.BestBlock() != tip) && CheckTxs(tree[h].vtx) && blockChecks
      ensures ok <==> accepted && (needFlush ==> disk.Works?)
      ensures (aborted <==> old(aborted) || (accepted && !ok)) &&
        (failedFlush <==> old(failedFlush) || (accepted && !ok))
      ensures tip == (if ok then h else old(tip)) &&
        coins.BestBlock() == (if accepted then h else old(coins.BestBlock()))
      ensures !accepted ==> coins.Top() == old(coins.Top()) && undo == old(undo) && (strayed <==> old(strayed))
      ensures accepted ==>
        && old(coins.BestBlock() == tip) && (strayed <==> !old(Sound())) && (needFlush && disk.Refuses? ==> lost)
        && (!needFlush || disk.Full? ==>
              Some(coins.Top()) == SetOf(ConnectBlock(old(coins.Top()), tree[h].vtx, tree[h].height, true)))
      ensures old(coins.BestBlock() == tip) ==>
        (accepted <==> ConnectBlock(old(coins.Top()), tree[h].vtx, tree[h].height, blockChecks && otherChecks).Some?)
      ensures old(Ready()) ==>
        && !crashed && (accepted <==> Connected(tree, h).Some? && blockChecks && otherChecks)
        && (Connected(tree, h).Some? ==>
              && ConnectBlock(old(coins.Top()), tree[h].vtx, tree[h].height, true).Some?
              && (h in old(undo) ==>
                    old(undo)[h] ==
                      StoredBlockUndo(ConnectBlock(old(coins.Top()), tree[h].vtx, tree[h].height, true).value.1)))
      ensures old(Ready()) && (ok || coins.BestBlock() == tip) ==> Ready()
      ensures !disk.Refuses? && !old(lost) ==> !lost
      ensures !(ok && needFlush) ==> coins.db == old(coins.db) && coins.dbBest == old(coins.dbBest)
      ensures forall k :: k in old(undo) ==> k in undo && undo[k] == old(undo)[k]
    {
      hide ConnectBlock, Connected, Replay, Views.Valid, Views.Top, Views.BestBlock, BlockOk, UndoMatches, UndoShaped;
      hide Recorded, TreeOk, StackOk, Like, Follows, VersionsKnown, CheckTransaction;
      OtherChecks(coins.Top(), tree[h].vtx, tree[h].height, blockChecks && otherChecks);
      KnownNotNull(tree, h);
      var best := coins.GetBestBlock();
      if best != tip {
        if CheckTxs(tree[h].vtx) && blockChecks {
          crashed := true;
        }
        return false, false;
      }
      accepted := Extend(h, blockChecks && otherChecks);
      ok := accepted;
      if accepted {
        ok := Commit(h, needFlush, disk);
      }
    }

    /** Applies the block to the coin view and records its undo data, if the coins of the view allow it. */
    method Extend(h: Hash, checks: bool) returns (rv: bool)
      requires Whole() && coins.BestBlock() == tip && h in tree && tree[h].prev == tip
      modifies this`undo, this`lost, this`rewritten, this`strayed, coins
      ensures Whole() && coins.db == old(coins.db) && coins.dbBest == old(coins.dbBest)
      ensures
        var r := ConnectBlock(old(coins.Top()), tree[h].vtx, tree[h].height, checks);
        && (rv <==> r.Some?)
        && (rv ==> coins.Top() == r.value.0 && coins.BestBlock() == h && Recorded(tree, undo, h))
      ensures rv ==> !lost && (strayed <==> !old(Sound()))
      ensures !rv ==> coins.Top() == old(coins.Top()) && coins.BestBlock() == tip && undo == old(undo)
      ensures !rv ==> (lost <==> old(lost)) && (rewritten <==> old(rewritten)) && (strayed <==> old(strayed))
      ensures old(Sound()) ==>
        && Sound() && (rv <==> Connected(tree, h).Some? && checks)
        && (Connected(tree, h).Some? ==>
              && ConnectBlock(old(coins.Top()), tree[h].vtx, tree[h].height, true).Some?
              && (h in old(undo) ==>
                    old(undo)[h] ==
                      StoredBlockUndo(ConnectBlock(old(coins.Top()), tree[h].vtx, tree[h].height, true).value.1)))
      ensures forall k :: k in old(undo) ==> k in undo && undo[k] == old(undo)[k]
    {
      hide ConnectBlock, Connected, Replay, Views.Valid, Views.Top, Views.BestBlock, BlockOk, UndoMatches, UndoShaped;
      hide Recorded, TreeOk, StackOk, Like, Follows, VersionsKnown;
      ghost var sound, m := Sound(), coins.Top();
      if sound { ConnectAtTip(tree, h, m, checks, undo); }
      KnownNotNull(tree, h);
      var blockundo;
      rv, blockundo := BlockConnect.ApplyBlock(tree[h].vtx, tree[h].height, h, checks, coins);
      if !rv {
        return false;
      }
      if tree[h].height > 0 && h !in undo {
        ShapedMore(tree, undo, h, m, checks);
        undo := undo[h := StoredBlockUndo(blockundo)];
      }
      RecordedStays(tree, tree, old(undo), undo, tip);
      RecordedStep(tree, undo, h);
      lost, rewritten, strayed := false, false, !sound;
    }

    /** Disconnects the tip.  If the view's best block is not the tip, the entry assertion ends the process.
        Otherwise the coins of the view decide.  If they are the tip's, it succeeds if and only if the tip spares
        the records of the genesis block and the disk works; then the view follows the parent.  Without space on
        the disk the view is then one block behind the tip. */
    method DisconnectTip(needFlush: bool, disk: Disk) returns (ok: bool, clean: bool)
      requires Consistent() && !crashed && tip in tree && tree[tip].height > 0
      modifies this`tip, this`aborted, this`failedFlush, this`crashed, coins
      modifies this`lost, this`based, this`rewritten, this`strayed
      ensures Consistent() && tree == old(tree) && undo == old(undo) && old(tip) in undo
      ensures crashed <==> old(coins.BestBlock() != tip)
      ensures ok <==> clean && (needFlush ==> disk.Works?)
      ensures (aborted <==> old(aborted) || (clean && !ok)) && (failedFlush <==> old(failedFlush) || (clean && !ok))
      ensures tip == if ok then tree[old(tip)].prev else old(tip)
      ensures coins.BestBlock() == if clean then tree[old(tip)].prev else old(coins.BestBlock())
      ensures !clean ==> coins.Top() == old(coins.Top()) && (strayed <==> old(strayed))
      ensures clean ==>
        && !crashed && (strayed <==> !old(Sound())) && (needFlush && disk.Refuses? ==> lost)
        && (!needFlush || disk.Full? ==>
              Some(coins.Top()) == Reverted(old(coins.Top()), tree[old(tip)], undo[old(tip)]))
      ensures !crashed ==> (clean <==> Reverts(old(coins.Top()), tree[old(tip)], undo[old(tip)]))
      ensures old(Ready()) ==> !crashed && (clean <==> Revertible(tree, old(tip)))
      ensures old(Ready()) && (ok || coins.BestBlock() == tip) ==> Ready()
      ensures !disk.Refuses? && !old(lost) ==> !lost
    {
      hide Replay, Views.Valid, Views.Top, Views.BestBlock, UndoMatches, UndoShaped, Recorded, TreeOk, Revertible;
      hide BlockOk, StackOk, Follows, Reverts, Reverted, VersionsKnown, Like;
      RecordedStep(tree, undo, tip);
      KnownNotNull(tree, tip);
      var best := coins.GetBestBlock();
      if best != tip {
        crashed := true;
        return false, false;
      }
      var prev := tree[tip].prev;
      clean := RevertTip();
      ok := clean;
      if clean {
        ok := Commit(prev, needFlush, disk);
      }
    }

    /** Disconnects the tip from the coin view, with the undo data on disk, if that fits.  There always is undo data. */
    method RevertTip() returns (clean: bool)
      requires Whole() && coins.BestBlock() == tip && tip in tree && tree[tip].height > 0
      modifies this`lost, this`rewritten, this`strayed, coins
      ensures Whole() && coins.db == old(coins.db) && coins.dbBest == old(coins.dbBest) && tip in undo
      ensures clean <==> Reverts(old(coins.Top()), tree[tip], undo[tip])
      ensures clean ==>
        var b := tree[tip];
        && b.prev in tree && Recorded(tree, undo, b.prev) && coins.BestBlock() == b.prev
        && Some(coins.Top()) == Reverted(old(coins.Top()), b, undo[tip])
        && !lost && (strayed <==> !old(Sound()))
      ensures !clean ==> coins.Top() == old(coins.Top()) && coins.BestBlock() == tip
      ensures !clean ==> (lost <==> old(lost)) && (rewritten <==> old(rewritten)) && (strayed <==> old(strayed))
      ensures old(Sound()) ==> Sound() && (clean <==> Revertible(tree, tip))
    {
      hide ConnectBlock, DisconnectBlock, Connected, Replay, BlockOk, CheckTransaction, SparesZero, TxInUndo.Canonical;
      hide Views.Valid, Views.Top, Views.BestBlock, UndoMatches, UndoShaped, Recorded, TreeOk, StackOk, Like, Follows;
      hide CanonicalUndo, VersionsKnown, Reverts, Reverted;
      var h, b := tip, tree[tip];
      ghost var sound, m := Sound(), coins.Top();
      RecordedStep(tree, undo, h);
      assert h in undo;
      ParentKnown(tree, h);
      ShapeOf(tree, undo, h);
      KnownNotNull(tree, b.prev);
      if sound { RevertAtTip(tree, undo, h, m); }
      clean := RevertOn(b, undo[h]);
      if clean {
        lost, rewritten, strayed := false, false, !sound;
      }
    }

    /** Undoes a block in the view, whatever coins it shows. */
    method RevertOn(b: BlockInfo, blockUndo: seq<TxUndo>) returns (clean: bool)
      requires coins.Valid() && coins.modifier == None && |coins.layers| == 1 && b.prev != NULL_HASH
      requires CanonicalUndo(blockUndo) && forall i :: 0 <= i < |b.vtx| ==> CheckTransaction(b.vtx[i])
      modifies coins
      ensures coins.Valid() && coins.modifier == None && |coins.layers| == 1
      ensures coins.db == old(coins.db) && coins.dbBest == old(coins.dbBest)
      ensures clean <==> Reverts(old(coins.Top()), b, blockUndo)
      ensures clean ==>
        && Some(coins.Top()) == Reverted(old(coins.Top()), b, blockUndo)
        && coins.BestBlock() == b.prev
      ensures !clean ==> coins.Top() == old(coins.Top()) && coins.BestBlock() == old(coins.BestBlock())
    {
      hide DisconnectBlock, CheckTransaction, Views.Valid, Views.Top, Views.BestBlock, StackOk, TxInUndo.Canonical;
      clean := BlockConnect.RevertBlock(b.vtx, blockUndo, b.height, b.prev, coins);
    }

    /** Any run, from any consistent state: blocks arrive, tips are connected and disconnected with any outcome,
        caches are flushed, the disk fails, and all this goes on after a failure, until an assertion fails.
        Events that the code never starts are skipped: connecting a block that is not a child of the tip, and
        disconnecting the genesis block.

        At the end the coin set is the replay of the active chain, up to negative versions that have been to disk,
        unless there was a failure.  The database follows its own best block if and only if no refused write lost
        the cache, or no write has worked since, or the lost cache made no difference; this holds until a block
        is connected to, or disconnected from, the wrong coins, which takes a refused write too. */
    method Run(events: seq<Event>)
      requires Consistent()
      modifies this, coins
      ensures Consistent()
      ensures !aborted ==> coins.BestBlock() == tip && Follows(tree, tip, coins.Top())
      ensures !aborted && NoNegativeVersions(tree) ==> Replay(tree, tip) == Some(coins.Top())
      ensures !aborted ==> ShowsLedger(tree, tip, coins.Top())
      ensures Follows(tree, coins.dbBest, coins.db) ==> ShowsLedger(tree, coins.dbBest, coins.db)
      ensures !strayed ==>
        (Follows(tree, coins.dbBest, coins.db) <==> !lost || !rewritten || Follows(tree, coins.BestBlock(), coins.db))
      ensures Follows(tree, coins.dbBest, coins.db) && NoNegativeVersions(tree) ==>
        Replay(tree, coins.dbBest) == Some(coins.db)
      ensures old(!lost && !strayed) && (forall i :: 0 <= i < |events| ==> !events[i].Refused()) ==>
        && !lost && !strayed
        && Follows(tree, coins.dbBest, coins.db) && Follows(tree, coins.BestBlock(), coins.Top())
    {
      hide Replay, Follows, Views.Valid, Views.Top, Views.BestBlock, UndoMatches, UndoShaped, Recorded, TreeOk, BlockOk;
      hide Like, NoNegativeVersions, VersionsKnown, ConnectBlock, Connected, Reverts, Reverted, Revertible, ShowsLedger;
      for i := 0 to |events|
        invariant Consistent()
        invariant old(!lost && !strayed) && (forall j :: 0 <= j < i ==> !events[j].Refused()) ==> !lost && !strayed
      {
        match events[i] {
          case Arrive(h, b) =>
            if !crashed && h !in tree && BlockOk(tree, h, b) {
              AddBlock(h, b);
            }
          case ConnectEvent(h, blockChecks, otherChecks, needFlush, disk) =>
            if !crashed && h in tree && tree[h].prev == tip {
              var ok, accepted := ConnectTip(h, blockChecks, otherChecks, needFlush, disk);
            }
          case DisconnectEvent(needFlush, disk) =>
            if !crashed && tip in tree && tree[tip].height > 0 {
              var ok, clean := DisconnectTip(needFlush, disk);
            }
          case FlushEvent(disk) =>
            if !crashed {
              var ok := FlushStateToDisk(true, disk);
            }
        }
      }
      if !aborted {
        FollowsExact(tree, tip, coins.Top());
        FollowsLedger(tree, tip, coins.Top());
      }
      if Follows(tree, coins.dbBest, coins.db) {
        FollowsExact(tree, coins.dbBest, coins.db);
        FollowsLedger(tree, coins.dbBest, coins.db);
      }
    }
  }

  function SetOf<T>(r: Option<(UtxoSet, T)>): Option<UtxoSet> {
    match r
    case None => None
    case Some((m, _)) => Some(m)
  }

  /** The undo of a block fits the coins m. */
  ghost predicate Reverts(m: UtxoSet, b: BlockInfo, blockUndo: seq<TxUndo>) {
    var r := DisconnectBlock(m, b.vtx, blockUndo, b.height);
    r.Some? && r.value.1
  }

  /** The coins after the undo of a block. */
  ghost function Reverted(m: UtxoSet, b: BlockInfo, blockUndo: seq<TxUndo>): Option<UtxoSet> {
    SetOf(DisconnectBlock(m, b.vtx, blockUndo, b.height))
  }

  lemma FollowsExact(tree: Tree, h: Hash, w: UtxoSet)
    requires TreeOk(tree) && Follows(tree, h, w)
    ensures (h == NULL_HASH || h in tree) && (NoNegativeVersions(tree) ==> Replay(tree, h) == Some(w))
  {
    hide Replay, Like, NoNegativeVersions;
    LikeReplayExact(tree, h, w);
  }

  lemma KnownNotNull(tree: Tree, h: Hash)
    requires TreeOk(tree) && h in tree
    ensures h != NULL_HASH && tree[h].prev != h
  {
    assert BlockOk(tree, h, tree[h]);
  }

  /** Disconnecting h from a view that follows it. */
  lemma RevertAtTip(tree: Tree, undo: map<Hash, seq<TxUndo>>, h: Hash, w: UtxoSet)
    requires TreeOk(tree) && UndoMatches(tree, undo) && h in undo && h in tree && tree[h].height > 0 &&
      Follows(tree, h, w)
    ensures Reverts(w, tree[h], undo[h]) <==> Revertible(tree, h)
    ensures Reverts(w, tree[h], undo[h]) ==>
      Reverted(w, tree[h], undo[h]).Some? && Follows(tree, tree[h].prev, Reverted(w, tree[h], undo[h]).value)
  {
    hide DisconnectBlock, Connected, Replay, BlockOk, TreeOk, SparesZero, Like, UndoMatches;
    ReplayIsConnected(tree, h);
    UndoRecorded(tree, undo, h);
    DisconnectReplay(tree, h, w);
  }

  // ---------- a refused write, and one that works ----------

  const COINBASE := Tx(8, 1, [OutPoint(NULL_HASH, NULL_INDEX)], [OUT])
  const GENESIS := BlockInfo(NULL_HASH, 0, [COINBASE])

  lemma GenesisCoins()
    ensures BlockOk(map[], 1, GENESIS) && TreeOk(map[1 := GENESIS]) && CheckTxs(GENESIS.vtx)
    ensures Connected(map[1 := GENESIS], 1).Some? && 8 in Connected(map[1 := GENESIS], 1).value.0
  {
    var tree, m := map[1 := GENESIS], Put(map[], 8, FromTx(COINBASE, 0));
    assert Replay(tree, NULL_HASH) == Some(map[]);
    assert 8 in m;
    hide Trim, NullUnspendable, FromTx;
    assert ApplyTxs(m, [], 0) == Some((m, []));
    assert ApplyTx(map[], COINBASE, 0) == Some((m, []));
    assert GENESIS.vtx[1..] == [];
    assert ApplyTxs(map[], GENESIS.vtx, 0).Some? && ApplyTxs(map[], GENESIS.vtx, 0).value.0 == m;
  }

  /** The first block is connected, the write is refused, and the write at shutdown works: then the database has
      the best block, and none of its coins. */
  method LostFlushWitness() returns (node: Node)
    ensures node.Consistent() && node.coins.db == map[] && node.coins.dbBest == 1
    ensures !Follows(node.tree, node.coins.dbBest, node.coins.db)
  {
    hide ConnectBlock, Connected, Replay, Views.Valid, Views.Top, Views.BestBlock, UndoMatches, UndoShaped, Recorded;
    hide TreeOk, BlockOk, VersionsKnown, CheckTransaction, CheckTxs;
    GenesisCoins();
    node := new Node();
    node.AddBlock(1, GENESIS);
    assert node.tree == map[1 := GENESIS];
    var ok, accepted := node.ConnectTip(1, true, true, true, Refuses);
    ok := node.FlushStateToDisk(true, Works);
    ReplayOfConnected(node.tree, 1);
  }

  lemma ReplayIsConnected(tree: Tree, h: Hash)
    requires TreeOk(tree) && h in tree && tree[h].height > 0 && Replay(tree, h).Some?
    ensures tree[h].prev in tree && tree[h].prev != NULL_HASH
    ensures Connected(tree, h).Some? && Connected(tree, h).value.0 == Replay(tree, h).value
    ensures Replay(tree, tree[h].prev).Some?
  {
    assert BlockOk(tree, h, tree[h]);
    assert BlockOk(tree, tree[h].prev, tree[tree[h].prev]);
  }

  /** Connecting h to a view that follows its parent. */
  lemma ConnectAtTip(tree: Tree, h: Hash, w: UtxoSet, otherChecks: bool, undo: map<Hash, seq<TxUndo>>)
    requires TreeOk(tree) && UndoMatches(tree, undo) && h in tree && Follows(tree, tree[h].prev, w)
    ensures h != NULL_HASH
    ensures
      var r := ConnectBlock(w, tree[h].vtx, tree[h].height, otherChecks);
      && (r.Some? <==> Connected(tree, h).Some? && otherChecks)
      && (r.Some? ==> Follows(tree, h, r.value.0))
      && (r.Some? && tree[h].height > 0 ==> UndoMatches(tree, undo[h := StoredBlockUndo(r.value.1)]))
    ensures Connected(tree, h).Some? ==>
      var r := ConnectBlock(w, tree[h].vtx, tree[h].height, true);
      r.Some? && (h in undo ==> undo[h] == StoredBlockUndo(r.value.1))
  {
    assert BlockOk(tree, h, tree[h]);
    var m, b := Replay(tree, tree[h].prev).value, tree[h];
    assert Connected(tree, h) == ConnectBlock(m, b.vtx, b.height, true);
    OtherChecks(m, b.vtx, b.height, otherChecks);
    OtherChecks(w, b.vtx, b.height, otherChecks);
    hide ConnectBlock, Connected, Replay, Like, BlockOk, TreeOk, UndoMatches;
    ConnectLike(m, w, b.vtx, b.height, true);
    if Connected(tree, h).Some? {
      ReplayOfConnected(tree, h);
      if b.height > 0 { UndoRecorded(tree, undo, h); } else { GenesisHasNone(tree, undo, h); }
    }
  }

  lemma GenesisHasNone(tree: Tree, undo: map<Hash, seq<TxUndo>>, h: Hash)
    requires TreeOk(tree) && UndoMatches(tree, undo) && h in tree && tree[h].height == 0
    ensures h !in undo
  {
  }

  lemma OtherChecks(m: UtxoSet, txs: seq<Tx>, h: nat, otherChecks: bool)
    ensures ConnectBlock(m, txs, h, otherChecks) == if otherChecks then ConnectBlock(m, txs, h, true) else None
  {
  }

  lemma ReplayOfConnected(tree: Tree, h: Hash)
    requires TreeOk(tree) && h in tree && Connected(tree, h).Some?
    ensures h != NULL_HASH
    ensures Replay(tree, h) == Some(Connected(tree, h).value.0)
  {
    assert BlockOk(tree, h, tree[h]);
  }
}
