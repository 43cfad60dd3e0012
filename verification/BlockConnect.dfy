/** Connecting and disconnecting blocks through the coin caches: the loops of UpdateCoins,
    ConnectBlock and DisconnectBlock, proved against the functions on the plain map. */
module BlockConnect {
  import opened Wrappers
  import opened Utxo
  import opened CoinsCache
  import opened CoinsViews
  import opened BlockUndo
  import opened Ledger

  lemma CleanIsTrimmed(c: Coins)
    requires c.Clean()
    ensures c.(vout := Trim(c.vout)) == c
    ensures c.IsPruned() <==> c.vout == []
  {
  }

  /** Spends the inputs of tx and adds its outputs.  The assertion on each input holds whenever
      the transaction can be applied at all. */
  method UpdateCoins(tx: Tx, view: Views, h: nat) returns (undo: TxUndo)
    requires view.Valid() && view.modifier == None && view.layers != []
    requires CheckTransaction(tx) && ApplyTx(view.Top(), tx, h).Some?
    modifies view`layers, view`modifier
    ensures view.Valid() && view.modifier == None && view.layers != []
    ensures ApplyTx(old(view.Top()), tx, h) == Some((view.Top(), undo))
    ensures forall q: OutPoint ::
      OutputAt(view.Top(), q) ==
        if q.hash == tx.id then OutputOf(tx, q.n, h)
        else if !tx.IsCoinBase() && q in tx.vin then None
        else OutputAt(old(view.Top()), q)
    ensures view.BestBlock() == old(view.BestBlock())
    ensures SameBase(view.db, view.dbBest, old(view.layers), view.layers)
  {
    hide StackOk, View, Best, Trim, CheckTransaction, FromTx, Put, Get, SpendInputs, Coins.Clean;
    hide Coins.IsPruned, SameBase, WellFormed, OutputAt, OutputOf;
    undo := [];
    ghost var vin := if tx.IsCoinBase() then [] else tx.vin;
    ghost var start := view.Top();
    ViewWellFormed(view.db, view.layers);
    SameBaseSelf(view.db, view.dbBest, view.layers);
    assert vin[0..] == vin;
    StartSpending(start, vin);
    if !tx.IsCoinBase() {
      var i := 0;
      while i < |tx.vin|
        invariant 0 <= i <= |tx.vin|
        invariant view.Valid() && view.modifier == None && view.layers != []
        invariant SpendInputs(view.Top(), tx.vin[i..]).Some?
        invariant SpendInputs(start, tx.vin) == SpentSoFar(undo, SpendInputs(view.Top(), tx.vin[i..]))
        invariant view.BestBlock() == old(view.BestBlock())
        invariant SameBase(view.db, view.dbBest, old(view.layers), view.layers)
      {
        ghost var layers := view.layers;
        undo := SpendOne(tx.vin, i, view, undo);
        SameBaseTrans(view.db, view.dbBest, old(view.layers), layers, view.layers);
        i := i + 1;
      }
      assert tx.vin[i..] == [];
    }
    AllSpent(view.Top(), undo);
    assert SpendInputs(start, vin) == Some((view.Top(), undo));
    ghost var spent, layers := view.Top(), view.layers;
    var c := view.ModifyCoins(tx.id);
    SameBaseTrans(view.db, view.dbBest, old(view.layers), layers, view.layers);
    layers := view.layers;
    FromTxClean(tx, h);
    CleanIsTrimmed(FromTx(tx, h));
    view.WriteCoins(FromTx(tx, h));
    SameBaseTrans(view.db, view.dbBest, old(view.layers), layers, view.layers);
    assert view.Top() == Put(spent, tx.id, FromTx(tx, h));
    forall q: OutPoint
      ensures
        OutputAt(view.Top(), q) ==
          if q.hash == tx.id then OutputOf(tx, q.n, h)
          else if !tx.IsCoinBase() && q in tx.vin then None
          else OutputAt(old(view.Top()), q)
    {
      ApplyTxOutput(start, tx, h, q);
    }
  }

  /** The inputs spent before, and the result of spending the others. */
  ghost function SpentSoFar(undo: TxUndo, r: Option<(UtxoSet, TxUndo)>): Option<(UtxoSet, TxUndo)> {
    match r
    case None => None
    case Some((m, us)) => Some((m, undo + us))
  }

  lemma StartSpending(m: UtxoSet, vin: seq<OutPoint>)
    ensures SpendInputs(m, vin) == SpentSoFar([], SpendInputs(m, vin))
  {
    hide SpendInputs;
    match SpendInputs(m, vin) {
      case None =>
      case Some((m', us)) => assert [] + us == us;
    }
  }

  lemma AllSpent(m: UtxoSet, undo: TxUndo)
    ensures SpentSoFar(undo, SpendInputs(m, [])) == Some((m, undo)) && SpendInputs(m, []) == Some((m, []))
  {
    assert undo + [] == undo;
  }

  /** One round of the input loop. */
  method SpendOne(vin: seq<OutPoint>, i: nat, view: Views, undo: TxUndo) returns (undo': TxUndo)
    requires i < |vin| && view.Valid() && view.modifier == None && view.layers != []
    requires SpendInputs(view.Top(), vin[i..]).Some?
    modifies view`layers, view`modifier
    ensures view.Valid() && view.modifier == None && view.layers != []
    ensures SpendInputs(view.Top(), vin[i + 1..]).Some?
    ensures SpentSoFar(undo', SpendInputs(view.Top(), vin[i + 1..])) ==
      SpentSoFar(undo, old(SpendInputs(view.Top(), vin[i..])))
    ensures view.BestBlock() == old(view.BestBlock())
    ensures SameBase(view.db, view.dbBest, old(view.layers), view.layers)
  {
    hide StackOk, View, Best, Trim, SpendInputs, Spend, UndoOf, SameBase;
    var prevout := vin[i];
    ghost var m, layers := view.Top(), view.layers;
    SpendStep(m, vin, i, undo);
    var c := view.ModifyCoins(prevout.hash);
    ghost var layers1 := view.layers;
    assert c.IsPruned() ==> !Available(m, prevout);
    assert Get(m, prevout.hash) == c;
    assert c.IsAvailable(prevout.n);
    undo' := undo + [UndoOf(c, prevout.n)];
    SpendClean(c, prevout.n);
    CleanIsTrimmed(Spend(c, prevout.n));
    view.WriteCoins(Spend(c, prevout.n));
    SameBaseTrans(view.db, view.dbBest, layers, layers1, view.layers);
    assert view.Top() == AfterSpend(m, prevout);
  }

  lemma SpendStep(m: UtxoSet, vin: seq<OutPoint>, i: nat, undo: TxUndo)
    requires i < |vin| && SpendInputs(m, vin[i..]).Some?
    ensures Available(m, vin[i]) && SpendInputs(AfterSpend(m, vin[i]), vin[i + 1..]).Some?
    ensures
      SpentSoFar(undo + [UndoOf(Get(m, vin[i].hash), vin[i].n)], SpendInputs(AfterSpend(m, vin[i]), vin[i + 1..])) ==
      SpentSoFar(undo, SpendInputs(m, vin[i..]))
  {
    hide AfterSpend, UndoOf, Get;
    assert vin[i..][1..] == vin[i + 1..] && vin[i..][0] == vin[i];
    var u, us := UndoOf(Get(m, vin[i].hash), vin[i].n), SpendInputs(AfterSpend(m, vin[i]), vin[i + 1..]).value.1;
    assert undo + ([u] + us) == (undo + [u]) + us;
  }

  /** The rule that no transaction may have the id of one with unspent outputs. */
  method NoneUnspent(txs: seq<Tx>, view: Views) returns (isNew: bool)
    requires view.Valid() && view.modifier == None && view.layers != []
    modifies view`layers
    ensures view.Valid() && view.modifier == None && view.layers != [] && view.Top() == old(view.Top())
    ensures SameBase(view.db, view.dbBest, old(view.layers), view.layers)
    ensures isNew <==> NoOverwrite(old(view.Top()), txs)
  {
    hide StackOk, View, Best;
    ghost var m := view.Top();
    var i := 0;
    while i < |txs|
      invariant 0 <= i <= |txs|
      invariant view.Valid() && view.modifier == None && view.layers != [] && view.Top() == m
      invariant SameBase(view.db, view.dbBest, old(view.layers), view.layers)
      invariant forall j :: 0 <= j < i ==> txs[j].id !in m
    {
      var coins := view.FetchCoins(txs[i].id);
      if coins.Some? && !coins.value.IsPruned() {
        assert txs[i].id in m;
        return false;
      }
      i := i + 1;
    }
    return true;
  }

  /** Connects a block to the view.  Whether it succeeds, the resulting set and the undo data are
      exactly those of the function on the plain map; the views below never change. */
  method Connect(txs: seq<Tx>, h: nat, hash: Hash, ghost hashPrev: Hash, otherChecks: bool, view: Views)
      returns (ok: bool, undo: seq<TxUndo>)
    requires view.Valid() && view.modifier == None && view.layers != []
    requires view.BestBlock() == hashPrev && hash != NULL_HASH
    modifies view`layers, view`modifier
    ensures view.Valid() && view.modifier == None && view.layers != []
    ensures SameBase(view.db, view.dbBest, old(view.layers), view.layers)
    ensures ok <==> ConnectBlock(old(view.Top()), txs, h, otherChecks).Some?
    ensures ok ==> ConnectBlock(old(view.Top()), txs, h, otherChecks) == Some((view.Top(), undo))
    ensures ok ==> view.BestBlock() == hash && view.layers[|view.layers| - 1].hashBlock == hash
  {
    hide StackOk, View, Best, ApplyTx, ApplyTxs, HaveInputs, CheckTransaction, WellFormed, SameBase, NoOverwrite;
    undo := [];
    SameBaseSelf(view.db, view.dbBest, view.layers);
    if !CheckTxs(txs) {
      return false, [];
    }
    ghost var m, layers := view.Top(), view.layers;
    var best := view.GetBestBlock();
    assert best == hashPrev;
    ghost var layers1 := view.layers;
    SameBaseSize(view.db, view.dbBest, layers, layers1);
    var isNew := NoneUnspent(txs, view);
    SameBaseTrans(view.db, view.dbBest, layers, layers1, view.layers);
    if !isNew {
      return false, [];
    }
    var i := 0;
    var all: seq<TxUndo> := [];
    assert txs[0..] == txs;
    StartApplying(m, txs, h);
    while i < |txs|
      invariant 0 <= i <= |txs| && |all| == i
      invariant view.Valid() && view.modifier == None && view.layers != []
      invariant SameBase(view.db, view.dbBest, layers, view.layers)
      invariant ApplyTxs(m, txs, h) == AppliedSoFar(all, ApplyTxs(view.Top(), txs[i..], h))
    {
      ghost var before := view.layers;
      var have := view.HaveInputs(txs[i]);
      SameBaseTrans(view.db, view.dbBest, layers, before, view.layers);
      ApplyStep(view.Top(), txs, i, h, all);
      if !have {
        return false, [];
      }
      ViewWellFormed(view.db, view.layers);
      HaveInputsApply(view.Top(), txs[i], h);
      before := view.layers;
      var u := UpdateCoins(txs[i], view, h);
      SameBaseTrans(view.db, view.dbBest, layers, before, view.layers);
      all := all + [u];
      i := i + 1;
    }
    assert txs[i..] == [];
    AllApplied(view.Top(), all, h);
    if !otherChecks {
      return false, [];
    }
    ghost var before := view.layers;
    view.SetBestBlock(hash);
    SameBaseTrans(view.db, view.dbBest, layers, before, view.layers);
    return true, all[1..];
  }

  /** The transactions applied before, and the result of applying the others. */
  ghost function AppliedSoFar(all: seq<TxUndo>, r: Option<(UtxoSet, seq<TxUndo>)>): Option<(UtxoSet, seq<TxUndo>)> {
    match r
    case None => None
    case Some((m, us)) => Some((m, all + us))
  }

  lemma StartApplying(m: UtxoSet, txs: seq<Tx>, h: nat)
    ensures ApplyTxs(m, txs, h) == AppliedSoFar([], ApplyTxs(m, txs, h))
  {
    hide ApplyTxs;
    match ApplyTxs(m, txs, h) {
      case None =>
      case Some((m', us)) => assert [] + us == us;
    }
  }

  lemma ApplyStep(m: UtxoSet, txs: seq<Tx>, i: nat, h: nat, all: seq<TxUndo>)
    requires i < |txs|
    ensures !HaveInputs(m, txs[i]) ==> ApplyTxs(m, txs[i..], h) == None
    ensures HaveInputs(m, txs[i]) && ApplyTx(m, txs[i], h).Some? ==>
      var (m1, u) := ApplyTx(m, txs[i], h).value;
      AppliedSoFar(all, ApplyTxs(m, txs[i..], h)) == AppliedSoFar(all + [u], ApplyTxs(m1, txs[i + 1..], h))
  {
    hide ApplyTx, HaveInputs;
    assert txs[i..][0] == txs[i] && txs[i..][1..] == txs[i + 1..];
    if HaveInputs(m, txs[i]) && ApplyTx(m, txs[i], h).Some? {
      var (m1, u) := ApplyTx(m, txs[i], h).value;
      match ApplyTxs(m1, txs[i + 1..], h) {
        case None =>
        case Some((_, us)) => assert all + ([u] + us) == (all + [u]) + us;
      }
    }
  }

  lemma AllApplied(m: UtxoSet, all: seq<TxUndo>, h: nat)
    ensures AppliedSoFar(all, ApplyTxs(m, [], h)) == Some((m, all))
  {
    assert all + [] == all;
  }

  /** With distinct inputs that are all available, the assertion in UpdateCoins cannot fail. */
  lemma HaveInputsApply(m: UtxoSet, tx: Tx, h: nat)
    requires WellFormed(m) && CheckTransaction(tx) && HaveInputs(m, tx)
    ensures ApplyTx(m, tx, h).Some?
  {
    if !tx.IsCoinBase() {
      DistinctInputsSpend(m, tx.vin);
    }
  }

  /** Disconnects a block from the view.  The verdict is that of the function on the plain map, and
      after a clean undo so is the set; the views below never change. */
  method Disconnect(txs: seq<Tx>, undo: seq<TxUndo>, h: nat, hashPrev: Hash, view: Views) returns (fClean: bool)
    requires view.Valid() && view.modifier == None && view.layers != [] && hashPrev != NULL_HASH
    requires forall i :: 0 <= i < |txs| ==> CheckTransaction(txs[i])
    requires forall i, j :: 0 <= i < |undo| && 0 <= j < |undo[i]| ==> undo[i][j].Canonical()
    modifies view`layers, view`modifier
    ensures view.Valid() && view.modifier == None && view.layers != []
    ensures SameBase(view.db, view.dbBest, old(view.layers), view.layers)
    ensures fClean <==> DisconnectBlock(old(view.Top()), txs, undo, h).Some? &&
                        DisconnectBlock(old(view.Top()), txs, undo, h).value.1
    ensures fClean ==> view.Top() == DisconnectBlock(old(view.Top()), txs, undo, h).value.0
    ensures fClean ==> view.BestBlock() == hashPrev && view.layers[|view.layers| - 1].hashBlock == hashPrev
  {
    hide StackOk, View, Best, CheckTransaction, UndoTx, UndoTxs, SameBase, TxInUndo.Canonical;
    SameBaseSelf(view.db, view.dbBest, view.layers);
    if |undo| + 1 != |txs| {
      return false;
    }
    ghost var m, layers := view.Top(), view.layers;
    ghost var us := [[]] + undo;
    fClean := true;
    var i := |txs|;
    assert txs[i..] == [] && us[i..] == [];
    NothingUndone(m, h);
    while i > 0
      invariant 0 <= i <= |txs|
      invariant view.Valid() && view.modifier == None && view.layers != []
      invariant SameBase(view.db, view.dbBest, layers, view.layers)
      invariant forall k :: (if i == 0 then 1 else i) <= k < |txs| ==> |us[k]| == |txs[k].vin|
      invariant fClean <==> UndoTxs(m, txs[i..], us[i..], h, i == 0).1
      invariant fClean ==> view.Top() == UndoTxs(m, txs[i..], us[i..], h, i == 0).0
    {
      i := i - 1;
      if i > 0 && |undo[i - 1]| != |txs[i].vin| {
        return false;
      }
      UndoStep(m, txs, us, i, h);
      ghost var before := view.layers;
      var ok := DisconnectTx(txs[i], if i > 0 then undo[i - 1] else [], h, i == 0, view);
      SameBaseTrans(view.db, view.dbBest, layers, before, view.layers);
      fClean := fClean && ok;
    }
    assert txs[0..] == txs && us[0..] == us;
    ghost var before := view.layers;
    view.SetBestBlock(hashPrev);
    SameBaseTrans(view.db, view.dbBest, layers, before, view.layers);
  }

  lemma NothingUndone(m: UtxoSet, h: nat)
    ensures UndoTxs(m, [], [], h, false) == (m, true)
  {
  }

  lemma UndoStep(m: UtxoSet, txs: seq<Tx>, us: seq<TxUndo>, i: nat, h: nat)
    requires i < |txs| == |us|
    requires forall k :: (if i == 0 then 1 else i) <= k < |txs| ==> |us[k]| == |txs[k].vin|
    ensures
      var (m1, ok1) := UndoTxs(m, txs[i + 1..], us[i + 1..], h, false);
      var (m0, ok0) := UndoTx(m1, txs[i], us[i], h, i == 0);
      UndoTxs(m, txs[i..], us[i..], h, i == 0) == (m0, ok1 && ok0)
  {
    hide UndoTx;
    assert txs[i..][0] == txs[i] && txs[i..][1..] == txs[i + 1..];
    assert us[i..][0] == us[i] && us[i..][1..] == us[i + 1..];
  }

  /** One round of the transaction loop of DisconnectBlock. */
  method DisconnectTx(tx: Tx, undo: TxUndo, h: nat, first: bool, view: Views) returns (ok: bool)
    requires view.Valid() && view.modifier == None && view.layers != []
    requires CheckTransaction(tx) && (!first ==> |undo| == |tx.vin|)
    requires forall j :: 0 <= j < |undo| ==> undo[j].Canonical()
    modifies view`layers, view`modifier
    ensures view.Valid() && view.modifier == None && view.layers != []
    ensures SameBase(view.db, view.dbBest, old(view.layers), view.layers)
    ensures ok <==> UndoTx(old(view.Top()), tx, undo, h, first).1
    ensures ok ==> view.Top() == UndoTx(old(view.Top()), tx, undo, h, first).0
  {
    hide StackOk, View, Best, RemoveOutputs, RestoreInputs;
    ok := RemoveTx(tx, h, view);
    if !first {
      var restored := RestoreTx(tx.vin, undo, view);
      ok := ok && restored;
    }
  }

  /** Compares the outputs of tx with those in the block, and removes them. */
  method RemoveTx(tx: Tx, h: nat, view: Views) returns (ok: bool)
    requires view.Valid() && view.modifier == None && view.layers != []
    modifies view`layers, view`modifier
    ensures view.Valid() && view.modifier == None && view.layers != []
    ensures SameBase(view.db, view.dbBest, old(view.layers), view.layers)
    ensures (view.Top(), ok) == RemoveOutputs(old(view.Top()), tx, h)
    ensures CheckTransaction(tx) ==> (ok <==> HasOutputsOf(old(view.Top()), tx, h))
  {
    hide StackOk, View, Best, Trim, NullUnspendable, WellFormed, HasOutputsOf, CheckTransaction, OutputAt;
    ghost var m := view.Top();
    ViewWellFormed(view.db, view.layers);
    if CheckTransaction(tx) { RemoveCleanIff(m, tx, h); }
    var outs := view.ModifyCoins(tx.id);
    if outs.IsPruned() { ClearPruned(outs); }
    var outsBlock := FromTx(tx, h);
    var cleared := ClearUnspendable(outs);
    if outsBlock.nVersion < 0 {
      cleared := cleared.(nVersion := outsBlock.nVersion);
    }
    ok := SameCoins(cleared, outsBlock);
    CleanIsTrimmed(EMPTY_COINS);
    ClearPruned(EMPTY_COINS);
    assert outs.IsPruned() || outs == Get(m, tx.id);
    assert ok == RemoveOutputs(m, tx, h).1;
    hide ClearUnspendable, FromTx, SameCoins;
    view.WriteCoins(EMPTY_COINS);
  }

  /** Restores the inputs of a transaction, last one first. */
  method RestoreTx(vin: seq<OutPoint>, undo: TxUndo, view: Views) returns (ok: bool)
    requires view.Valid() && view.modifier == None && view.layers != []
    requires |undo| == |vin| && forall j :: 0 <= j < |undo| ==> undo[j].Canonical()
    modifies view`layers, view`modifier
    ensures view.Valid() && view.modifier == None && view.layers != []
    ensures SameBase(view.db, view.dbBest, old(view.layers), view.layers)
    ensures ok <==> RestoreInputs(old(view.Top()), vin, undo).1
    ensures ok ==> view.Top() == RestoreInputs(old(view.Top()), vin, undo).0
  {
    hide StackOk, View, Best, RestoreInput;
    ghost var m := view.Top();
    var j := |vin|;
    ok := true;
    assert vin[j..] == [] && undo[j..] == [];
    while j > 0
      invariant 0 <= j <= |vin|
      invariant view.Valid() && view.modifier == None && view.layers != []
      invariant SameBase(view.db, view.dbBest, old(view.layers), view.layers)
      invariant ok <==> RestoreInputs(m, vin[j..], undo[j..]).1
      invariant ok ==> view.Top() == RestoreInputs(m, vin[j..], undo[j..]).0
    {
      j := j - 1;
      assert vin[j..][0] == vin[j] && vin[j..][1..] == vin[j + 1..];
      assert undo[j..][0] == undo[j] && undo[j..][1..] == undo[j + 1..];
      var restored := RestoreOne(vin[j], undo[j], view);
      ok := ok && restored;
    }
    assert vin[0..] == vin && undo[0..] == undo;
  }

  /** Clearing a pruned record leaves it pruned, whatever its metadata. */
  lemma ClearPruned(c: Coins)
    requires c.Clean() && c.IsPruned()
    ensures ClearUnspendable(c).IsPruned()
  {
  }

  /** One round of the input loop of DisconnectBlock. */
  method RestoreOne(out: OutPoint, undo: TxInUndo, view: Views) returns (ok: bool)
    requires view.Valid() && view.modifier == None && view.layers != []
    requires undo.Canonical()
    modifies view`layers, view`modifier
    ensures view.Valid() && view.modifier == None && view.layers != []
    ensures SameBase(view.db, view.dbBest, old(view.layers), view.layers)
    ensures ok <==> RestoreInput(old(view.Top()), out, undo).1
    ensures ok ==> view.Top() == RestoreInput(old(view.Top()), out, undo).0
  {
    hide StackOk, View, Best, Trim;
    ghost var m := view.Top();
    var c := view.ModifyCoins(out.hash);
    ok := true;
    if undo.nHeight != 0 {
      if !c.IsPruned() {
        ok := false;
      }
      c := Coins(undo.fCoinBase, [], undo.nHeight, undo.nVersion);
    } else if c.IsPruned() {
      ok := false;
    }
    if c.IsAvailable(out.n) {
      ok := false;
    }
    PlacedClean(c, out.n, undo.txout);
    c := c.(vout := PlaceAt(c.vout, out.n, undo.txout));
    view.WriteCoins(c);
  }

  // ---------- block by block ----------

  /** The top cache shows m with best block h. */
  ghost predicate Shows(view: Views, m: UtxoSet, h: Hash)
    reads view
  {
    && view.Valid() && view.modifier == None && view.layers != []
    && view.Top() == m && view.BestBlock() == h
  }

  /** Connects a block in a cache of its own, which is flushed on success and dropped otherwise:
      a block is applied completely or not at all. */
  method ApplyBlock(txs: seq<Tx>, h: nat, hash: Hash, otherChecks: bool, view: Views)
      returns (ok: bool, undo: seq<TxUndo>)
    requires view.Valid() && view.modifier == None && view.layers != [] && hash != NULL_HASH
    modifies view
    ensures |view.layers| == |old(view.layers)| && view.db == old(view.db) && view.dbBest == old(view.dbBest)
    ensures ok <==> ConnectBlock(old(view.Top()), txs, h, otherChecks).Some?
    ensures ok ==> undo == ConnectBlock(old(view.Top()), txs, h, otherChecks).value.1
    ensures ok ==> Shows(view, ConnectBlock(old(view.Top()), txs, h, otherChecks).value.0, hash)
    ensures !ok ==> Shows(view, old(view.Top()), old(view.BestBlock()))
  {
    hide ConnectBlock, CheckTransaction;
    view.PushCache();
    ok, undo := Connect(txs, h, hash, view.BestBlock(), otherChecks, view);
    hide StackOk, View, Best;
    if ok {
      view.Flush();
    }
    view.DropCache();
  }

  /** Disconnects a block in a cache of its own, likewise. */
  method RevertBlock(txs: seq<Tx>, undo: seq<TxUndo>, h: nat, hashPrev: Hash, view: Views) returns (ok: bool)
    requires view.Valid() && view.modifier == None && view.layers != [] && hashPrev != NULL_HASH
    requires forall i :: 0 <= i < |txs| ==> CheckTransaction(txs[i])
    requires forall i, j :: 0 <= i < |undo| && 0 <= j < |undo[i]| ==> undo[i][j].Canonical()
    modifies view
    ensures |view.layers| == |old(view.layers)| && view.db == old(view.db) && view.dbBest == old(view.dbBest)
    ensures ok <==>
      && DisconnectBlock(old(view.Top()), txs, undo, h).Some?
      && DisconnectBlock(old(view.Top()), txs, undo, h).value.1
    ensures ok ==> Shows(view, DisconnectBlock(old(view.Top()), txs, undo, h).value.0, hashPrev)
    ensures !ok ==> Shows(view, old(view.Top()), old(view.BestBlock()))
  {
    hide DisconnectBlock, CheckTransaction;
    view.PushCache();
    ok := Disconnect(txs, undo, h, hashPrev, view);
    hide StackOk, View, Best;
    if ok {
      view.Flush();
    }
    view.DropCache();
  }
}
