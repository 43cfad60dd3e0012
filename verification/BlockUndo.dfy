/** Connecting a block and disconnecting it again, with undo data that was recorded while the transactions
    were applied and has been to disk since, from a set whose records may have been there too.  Outputs and
    metadata come back, but for negative versions; a record of height zero that is used up is always reported. */
module BlockUndo {
  import opened Wrappers
  import opened Utxo

  // ---------- one transaction ----------

  lemma FromTxClean(tx: Tx, h: nat)
    requires CheckTransaction(tx)
    ensures FromTx(tx, h).Clean()
    ensures FromTx(tx, h).IsPruned() <==> FromTx(tx, h).vout == []
    ensures ClearUnspendable(FromTx(tx, h)) == FromTx(tx, h)
  {
    var v := NullUnspendable(tx.vout);
    var c := FromTx(tx, h);
    assert forall i :: 0 <= i < |c.vout| ==> c.vout[i] == v[i];
    assert forall i :: 0 <= i < |c.vout| && v[i].IsNull() ==> v[i] == NULL_OUT;
    assert NullUnspendable(c.vout) == c.vout;
  }

  /** Removing the outputs of a transaction undoes adding them, and finds nothing wrong: a version that was lost
      on disk is corrected before the comparison. */
  lemma RemoveOutputsUndoes(m: UtxoSet, tx: Tx, h: nat, w: UtxoSet)
    requires CheckTransaction(tx) && tx.id !in m && Like(Put(m, tx.id, FromTx(tx, h)), w)
    ensures RemoveOutputs(w, tx, h) == (w - {tx.id}, true) && Like(m, w - {tx.id})
  {
    hide FromTx, ClearUnspendable, Coins.Clean, CheckTransaction, Like;
    FromTxClean(tx, h);
    var c := FromTx(tx, h);
    ClearedVersion(c);
    NothingCleared();
    LikeWithout(m, tx.id, c, w);
    if tx.id in w { assert w[tx.id] == c || w[tx.id] == StoredCoins(c); }
  }

  /** Clearing does not look at the version. */
  lemma ClearedVersion(c: Coins)
    requires ClearUnspendable(c) == c
    ensures ClearUnspendable(StoredCoins(c)) == StoredCoins(c)
  {
  }

  lemma NothingCleared()
    ensures ClearUnspendable(EMPTY_COINS).IsPruned()
  {
  }

  lemma LikeWithout(m: UtxoSet, t: Txid, c: Coins, w: UtxoSet)
    requires t !in m && Like(Put(m, t, c), w)
    ensures Like(m, w - {t})
    ensures if c.IsPruned() then t !in w else t in w && (w[t] == c || w[t] == StoredCoins(c))
  {
  }

  lemma ApplyTxUndoes(m: UtxoSet, tx: Tx, h: nat, w: UtxoSet)
    requires WellFormed(m) && h >= 1 && CheckTransaction(tx) && tx.id !in m
    requires ApplyTx(m, tx, h).Some? && Like(ApplyTx(m, tx, h).value.0, w)
    ensures
      var (m', u) := ApplyTx(m, tx, h).value;
      && WellFormed(m') && KeepsOrigin(m, m', {tx.id})
      && (!tx.IsCoinBase() ==> |u| == |tx.vin|)
      && Inverts(m, m', w, UndoTx(w, tx, StoredTxUndo(u), h, tx.IsCoinBase()))
  {
    hide Put, FromTx, RemoveOutputs, CheckTransaction, WellFormed, AtZero, SpendInputs, RestoreInputs, Undone, Like;
    var vin := if tx.IsCoinBase() then [] else tx.vin;
    var (m1, u) := SpendInputs(m, vin).value;
    LikeSelf(m1);
    RestoreInputsUndoes(m, vin, m1);
    RemoveOutputsUndoes(m1, tx, h, w);
    RestoreInputsUndoes(m, vin, w - {tx.id});
    AddingKeepsZero(m1, tx, h);
    KeepsJoin(m, m1, ApplyTx(m, tx, h).value.0, tx.id);
    NoInputs(w - {tx.id});
    var (r, ok) := RestoreInputs(w - {tx.id}, vin, StoredTxUndo(u));
    if ok { UndoneLess(m, w, tx.id, r); }
  }

  lemma NoInputs(w: UtxoSet)
    ensures RestoreInputs(w, [], []) == (w, true)
  {
  }

  lemma KeepsJoin(m: UtxoSet, m1: UtxoSet, m': UtxoSet, id: Txid)
    requires KeepsOrigin(m, m1, {}) && KeepsOrigin(m1, m', {id})
    ensures KeepsOrigin(m, m', {id})
  {
  }

  /** A record that m does not have does not matter to it. */
  lemma UndoneLess(m: UtxoSet, w: UtxoSet, id: Txid, r: UtxoSet)
    requires id !in m && Undone(m, w - {id}, r)
    ensures Undone(m, w, r)
  {
  }

  lemma AddingKeepsZero(m: UtxoSet, tx: Tx, h: nat)
    requires WellFormed(m) && h >= 1 && CheckTransaction(tx) && tx.id !in m
    ensures
      var m' := Put(m, tx.id, FromTx(tx, h));
      && WellFormed(m') && AtZero(m') == AtZero(m) && KeepsOrigin(m, m', {tx.id})
  {
    FromTxClean(tx, h);
    assert FromTx(tx, h).nHeight == h;
    hide FromTx;
  }

  // ---------- the whole block ----------

  /** The transactions of a block, or of a tail of one. */
  ghost predicate BlockTail(txs: seq<Tx>, first: bool) {
    && (forall i :: 0 <= i < |txs| ==> CheckTransaction(txs[i]))
    && (forall i :: 0 <= i < |txs| ==> (txs[i].IsCoinBase() <==> first && i == 0))
  }

  ghost function Ids(txs: seq<Tx>): set<Txid> {
    set i | 0 <= i < |txs| :: txs[i].id
  }

  lemma {:induction false} ApplyTxsUndoes(m: UtxoSet, txs: seq<Tx>, h: nat, first: bool, w: UtxoSet)
    requires WellFormed(m) && h >= 1
    requires BlockTail(txs, first) && DistinctIds(txs) && NoOverwrite(m, txs)
    requires ApplyTxs(m, txs, h).Some? && Like(ApplyTxs(m, txs, h).value.0, w)
    ensures
      var (m', us) := ApplyTxs(m, txs, h).value;
      && WellFormed(m') && KeepsOrigin(m, m', Ids(txs))
      && |us| == |txs|
      && (forall i :: (if first then 1 else 0) <= i < |txs| ==> |us[i]| == |txs[i].vin|)
      && Inverts(m, m', w, UndoTxs(w, txs, StoredBlockUndo(us), h, first))
    decreases |txs|
  {
    hide ApplyTx, UndoTx, HaveInputs, AtZero, WellFormed, CheckTransaction, Like, Undone, StoredTxUndo, KeepsOrigin;
    if txs == [] {
      UndoneSelf(m, w);
      KeepsSelf(m, Ids(txs));
    } else {
      var (m1, u) := ApplyTx(m, txs[0], h).value;
      LikeSelf(m1);
      ApplyTxUndoes(m, txs[0], h, m1);
      TailAbsent(m, m1, txs);
      ApplyTxsUndoes(m1, txs[1..], h, false, w);
      var (m', us1) := ApplyTxs(m1, txs[1..], h).value;
      var us := ApplyTxs(m, txs, h).value.1;
      assert us == [u] + us1 && us[1..] == us1;
      assert StoredBlockUndo(us)[1..] == StoredBlockUndo(us1);
      IdsFirst(txs);
      IdsAbsent(m1, txs[1..]);
      IdsAbsent(m, txs);
      FirstUndoes(m, txs[0], h, m', Ids(txs[1..]), w, UndoTxs(w, txs[1..], StoredBlockUndo(us1), h, false));
    }
  }

  lemma KeepsSelf(m: UtxoSet, added: set<Txid>)
    ensures KeepsOrigin(m, m, added)
  {
  }

  lemma TailAbsent(m: UtxoSet, m1: UtxoSet, txs: seq<Tx>)
    requires txs != [] && DistinctIds(txs) && NoOverwrite(m, txs) && KeepsOrigin(m, m1, {txs[0].id})
    ensures NoOverwrite(m1, txs[1..])
  {
    forall i | 0 <= i < |txs[1..]|
      ensures txs[1..][i].id !in m1
    {
      assert txs[i + 1].id != txs[0].id && txs[i + 1].id !in m;
    }
  }

  /** Once the transactions after tx have been undone, undoing tx undoes them all. */
  lemma FirstUndoes(m: UtxoSet, tx: Tx, h: nat, m': UtxoSet, ids: set<Txid>, w: UtxoSet, rest: (UtxoSet, bool))
    requires WellFormed(m) && h >= 1 && CheckTransaction(tx) && tx.id !in m && ids !! m.Keys
    requires ApplyTx(m, tx, h).Some? && ids !! ApplyTx(m, tx, h).value.0.Keys
    requires KeepsOrigin(ApplyTx(m, tx, h).value.0, m', ids) && Like(m', w)
    requires Inverts(ApplyTx(m, tx, h).value.0, m', w, rest)
    ensures KeepsOrigin(m, m', {tx.id} + ids) && AtZero(m') <= AtZero(m)
    ensures !tx.IsCoinBase() ==> |ApplyTx(m, tx, h).value.1| == |tx.vin|
    ensures rest.1 ==> Inverts(m, m', w,
      UndoTx(rest.0, tx, StoredTxUndo(ApplyTx(m, tx, h).value.1), h, tx.IsCoinBase()))
    ensures !rest.1 ==> AtZero(m') != AtZero(m)
  {
    hide ApplyTx, UndoTx, AtZero, WellFormed, CheckTransaction, Like, Undone, StoredTxUndo;
    var (m1, u) := ApplyTx(m, tx, h).value;
    LikeSelf(m1);
    ApplyTxUndoes(m, tx, h, m1);
    if rest.1 {
      UndoneLike(m1, m', ids, w, rest.0);
      ApplyTxUndoes(m, tx, h, rest.0);
      var (r, ok) := UndoTx(rest.0, tx, StoredTxUndo(u), h, tx.IsCoinBase());
      if ok { UndoneTwice(m, m1, m', {tx.id}, ids, w, rest.0, r); }
    }
  }

  lemma IdsFirst(txs: seq<Tx>)
    requires txs != []
    ensures Ids(txs) == {txs[0].id} + Ids(txs[1..])
  {
    assert forall i :: 0 <= i < |txs[1..]| ==> txs[1..][i] == txs[i + 1];
  }

  lemma IdsAbsent(m: UtxoSet, txs: seq<Tx>)
    requires NoOverwrite(m, txs)
    ensures Ids(txs) !! m.Keys
  {
  }

  // ---------- accepted blocks never repeat a transaction ----------

  lemma {:induction false} ApplyTxsSplit(m: UtxoSet, txs: seq<Tx>, h: nat, i: nat)
    requires i <= |txs| && ApplyTxs(m, txs, h).Some?
    ensures ApplyTxs(m, txs[..i], h).Some?
    ensures
      var m1 := ApplyTxs(m, txs[..i], h).value.0;
      && ApplyTxs(m1, txs[i..], h).Some?
      && ApplyTxs(m1, txs[i..], h).value.0 == ApplyTxs(m, txs, h).value.0
    decreases i
  {
    if i == 0 {
      assert txs[..0] == [] && txs[0..] == txs;
    } else {
      var m1 := ApplyTx(m, txs[0], h).value.0;
      ApplyTxsSplit(m1, txs[1..], h, i - 1);
      assert txs[..i][1..] == txs[1..][..i - 1];
      assert txs[1..][i - 1..] == txs[i..];
    }
  }

  /** Which outputs a transaction spends; the input of a coinbase spends none. */
  predicate Spends(tx: Tx, q: OutPoint) {
    !tx.IsCoinBase() && q in tx.vin
  }

  /** One transaction: where records come from, and which other outputs are available afterwards. */
  lemma ApplyTxSources(m: UtxoSet, tx: Tx, h: nat)
    requires WellFormed(m) && CheckTransaction(tx) && ApplyTx(m, tx, h).Some?
    ensures
      var m' := ApplyTx(m, tx, h).value.0;
      && WellFormed(m') && m'.Keys <= m.Keys + {tx.id}
      && forall q: OutPoint :: q.hash != tx.id ==> (Available(m', q) <==> Available(m, q) && !Spends(tx, q))
  {
    hide FromTx, WellFormed, SpendInputs, Coins.IsAvailable;
    var vin := if tx.IsCoinBase() then [] else tx.vin;
    SpendInputsSources(m, vin);
    var m1 := SpendInputs(m, vin).value.0;
    FromTxClean(tx, h);
    PutOutputs(m1, tx.id, FromTx(tx, h));
  }

  lemma PutOutputs(m: UtxoSet, t: Txid, c: Coins)
    requires WellFormed(m) && c.Clean() && (c.IsPruned() <==> c.vout == [])
    ensures WellFormed(Put(m, t, c)) && Put(m, t, c).Keys <= m.Keys + {t}
    ensures forall q: OutPoint :: q.hash != t ==> Available(Put(m, t, c), q) == Available(m, q)
  {
  }

  lemma {:induction false} SpendInputsSources(m: UtxoSet, vin: seq<OutPoint>)
    requires WellFormed(m) && SpendInputs(m, vin).Some?
    ensures
      var m' := SpendInputs(m, vin).value.0;
      && WellFormed(m') && m'.Keys <= m.Keys
      && forall q: OutPoint :: Available(m', q) <==> Available(m, q) && q !in vin
    decreases |vin|
  {
    hide WellFormed, Available, AfterSpend;
    if vin != [] {
      SpendTakesOne(m, vin[0]);
      SpendInputsSources(AfterSpend(m, vin[0]), vin[1..]);
      assert forall q :: q in vin <==> q == vin[0] || q in vin[1..];
    }
  }

  /** Several transactions: a new record, or a newly available output, names one of them. */
  lemma {:induction false} ApplyTxsSources(m: UtxoSet, txs: seq<Tx>, h: nat)
    requires WellFormed(m) && ApplyTxs(m, txs, h).Some?
    requires forall i :: 0 <= i < |txs| ==> CheckTransaction(txs[i])
    ensures
      var m' := ApplyTxs(m, txs, h).value.0;
      && WellFormed(m')
      && (forall t :: t in m' && t !in m ==> exists k :: 0 <= k < |txs| && txs[k].id == t)
      && (forall q: OutPoint :: Available(m', q) && !Available(m, q) ==>
        exists k :: 0 <= k < |txs| && txs[k].id == q.hash)
    decreases |txs|
  {
    if txs != [] {
      ApplyTxSources(m, txs[0], h);
      var m1 := ApplyTx(m, txs[0], h).value.0;
      ApplyTxsSources(m1, txs[1..], h);
      var m' := ApplyTxs(m, txs, h).value.0;
      assert forall k :: 0 <= k < |txs[1..]| ==> txs[1..][k] == txs[k + 1];
      forall t | t in m' && t !in m
        ensures exists k :: 0 <= k < |txs| && txs[k].id == t
      {
        if t == txs[0].id { assert txs[0].id == t; }
      }
      forall q: OutPoint | Available(m', q) && !Available(m, q)
        ensures exists k :: 0 <= k < |txs| && txs[k].id == q.hash
      {
        if q.hash == txs[0].id { assert txs[0].id == q.hash; }
      }
    }
  }

  ghost predicate SpendsAny(txs: seq<Tx>, q: OutPoint) {
    exists i :: 0 <= i < |txs| && Spends(txs[i], q)
  }

  /** Of the outputs that are not the block's own, exactly those that it does not spend are left. */
  lemma {:induction false} ApplyTxsAvailable(m: UtxoSet, txs: seq<Tx>, h: nat, q: OutPoint)
    requires WellFormed(m) && ApplyTxs(m, txs, h).Some? && q.hash !in Ids(txs)
    requires forall i :: 0 <= i < |txs| ==> CheckTransaction(txs[i])
    ensures Available(ApplyTxs(m, txs, h).value.0, q) <==> Available(m, q) && !SpendsAny(txs, q)
    decreases |txs|
  {
    hide ApplyTx, HaveInputs, Available, WellFormed, CheckTransaction, Spends;
    if txs != [] {
      assert txs[0].id in Ids(txs);
      ApplyTxSources(m, txs[0], h);
      assert forall t :: t in Ids(txs[1..]) ==> t in Ids(txs);
      ApplyTxsAvailable(ApplyTx(m, txs[0], h).value.0, txs[1..], h, q);
      SpendsFirst(txs, q);
    }
  }

  lemma SpendsFirst(txs: seq<Tx>, q: OutPoint)
    requires txs != []
    ensures SpendsAny(txs, q) <==> Spends(txs[0], q) || SpendsAny(txs[1..], q)
  {
    hide Spends;
    if i :| 0 <= i < |txs| && Spends(txs[i], q) {
      if i > 0 { assert Spends(txs[1..][i - 1], q); }
    }
    if i :| 0 <= i < |txs[1..]| && Spends(txs[1..][i], q) {
      assert Spends(txs[i + 1], q);
    }
  }

  ghost function StateAt(m: UtxoSet, txs: seq<Tx>, h: nat, i: nat): UtxoSet
    requires i <= |txs| && ApplyTxs(m, txs[..i], h).Some?
  {
    ApplyTxs(m, txs[..i], h).value.0
  }

  /** From position i on: what the loop has established, and where it goes next. */
  lemma StateAtStep(m: UtxoSet, txs: seq<Tx>, h: nat, i: nat, j: nat)
    requires WellFormed(m) && CheckTxs(txs) && ApplyTxs(m, txs, h).Some?
    requires i <= j <= |txs|
    ensures ApplyTxs(m, txs[..i], h).Some? && ApplyTxs(m, txs[..j], h).Some?
    ensures WellFormed(StateAt(m, txs, h, i))
    ensures forall t :: t in StateAt(m, txs, h, i) && t !in m ==> exists k :: 0 <= k < i && txs[k].id == t
    ensures forall q: OutPoint :: Available(StateAt(m, txs, h, j), q) && !Available(StateAt(m, txs, h, i), q) ==>
                                    exists k :: i <= k < j && txs[k].id == q.hash
    ensures i < |txs| ==> HaveInputs(StateAt(m, txs, h, i), txs[i])
    ensures i < |txs| ==> ApplyTx(StateAt(m, txs, h, i), txs[i], h).Some?
    ensures i < j == i + 1 ==> StateAt(m, txs, h, j) == ApplyTx(StateAt(m, txs, h, i), txs[i], h).value.0
  {
    hide ApplyTx, HaveInputs, WellFormed, CheckTransaction, Get;
    ApplyTxsSplit(m, txs, h, j);
    ApplyTxsSplit(m, txs[..j], h, i);
    assert txs[..j][..i] == txs[..i];
    ApplyTxsSources(m, txs[..i], h);
    var mi := StateAt(m, txs, h, i);
    ApplyTxsSources(mi, txs[i..j], h);
    assert txs[..j][i..] == txs[i..j];
    assert forall k :: 0 <= k < |txs[i..j]| ==> txs[i..j][k] == txs[k + i];
    ApplyTxsSplit(m, txs, h, i);
    if i < |txs| {
      assert txs[i..][0] == txs[i];
      if j == i + 1 {
        assert txs[i..j] == [txs[i]];
      }
    }
  }

  /** Two transactions of a block that passes BIP 30 and the input checks have different ids:
      a repeated one would need its parent to be repeated, earlier in the block. */
  lemma {:induction false} NoRepeatedTransaction(m: UtxoSet, txs: seq<Tx>, h: nat, i: nat, j: nat)
    requires WellFormed(m) && CheckTxs(txs) && IdsIdentify(txs) && NoOverwrite(m, txs)
    requires ApplyTxs(m, txs, h).Some?
    requires i < j < |txs|
    ensures txs[i].id != txs[j].id
    decreases i
  {
    if txs[i].id == txs[j].id {
      var t := txs[i];
      assert t == txs[j];
      var q := t.vin[0];
      StateAtStep(m, txs, h, i, i + 1);
      StateAtStep(m, txs, h, i + 1, j);
      StateAtStep(m, txs, h, j, j);
      var mi := StateAt(m, txs, h, i);
      assert Available(mi, q) && q.hash in mi;
      if q.hash == t.id {
        var k :| 0 <= k < i && txs[k].id == t.id;
        NoRepeatedTransaction(m, txs, h, k, i);
      } else {
        ApplyTxSources(mi, t, h);
        assert !Available(StateAt(m, txs, h, i + 1), q);
        assert Available(StateAt(m, txs, h, j), q);
        var k :| i + 1 <= k < j && txs[k].id == q.hash;
        var k' :| 0 <= k' < i && txs[k'].id == q.hash;
        NoRepeatedTransaction(m, txs, h, k', k);
      }
    }
  }

  lemma AcceptedIdsDistinct(m: UtxoSet, txs: seq<Tx>, h: nat)
    requires WellFormed(m) && CheckTxs(txs) && IdsIdentify(txs) && NoOverwrite(m, txs)
    requires ApplyTxs(m, txs, h).Some?
    ensures DistinctIds(txs)
  {
    forall i, j | 0 <= i < j < |txs|
      ensures txs[i].id != txs[j].id
    {
      NoRepeatedTransaction(m, txs, h, i, j);
    }
  }

  // ---------- ConnectBlock and DisconnectBlock ----------

  /** The effect of ConnectBlock on the set, with the undo data it records (all but the first
      transaction's).  `otherChecks` stands for signature-operation counts, amounts and scripts. */
  function ConnectBlock(m: UtxoSet, txs: seq<Tx>, h: nat, otherChecks: bool): Option<(UtxoSet, seq<TxUndo>)>
  {
    if !CheckTxs(txs) || !NoOverwrite(m, txs) then None
    else
      match ApplyTxs(m, txs, h)
      case None => None
      case Some((m', us)) => if otherChecks && us != [] then Some((m', us[1..])) else None
  }

  /** DisconnectBlock: None when the undo data does not have the block's shape. */
  function DisconnectBlock(m: UtxoSet, txs: seq<Tx>, undo: seq<TxUndo>, h: nat): Option<(UtxoSet, bool)>
  {
    if |undo| + 1 != |txs| then None
    else if exists i :: 1 <= i < |txs| && |undo[i - 1]| != |txs[i].vin| then None
    else
      var us := [[]] + undo;
      Some(UndoTxs(m, txs, us, h, true))
  }

  lemma {:induction false} UndoIgnoresFirst(m: UtxoSet, txs: seq<Tx>, us: seq<TxUndo>, vs: seq<TxUndo>, h: nat)
    requires |txs| == |us| == |vs| && txs != [] && us[1..] == vs[1..]
    requires forall i :: 1 <= i < |txs| ==> |us[i]| == |txs[i].vin|
    requires forall i :: 1 <= i < |txs| ==> |vs[i]| == |txs[i].vin|
    ensures UndoTxs(m, txs, us, h, true) == UndoTxs(m, txs, vs, h, true)
  {
  }

  /** The block leaves an output of every record of height zero. */
  ghost predicate SparesZero(m: UtxoSet, txs: seq<Tx>) {
    forall t :: t in m && m[t].nHeight == 0 ==> Spared(m, txs, t)
  }

  ghost predicate Spared(m: UtxoSet, txs: seq<Tx>, t: Txid) {
    exists n: nat :: Available(m, OutPoint(t, n)) && !SpendsAny(txs, OutPoint(t, n))
  }

  /** A record outlives a block exactly when the block spares one of its outputs. */
  lemma RecordSpared(m: UtxoSet, txs: seq<Tx>, h: nat, t: Txid)
    requires WellFormed(m) && CheckTxs(txs) && ApplyTxs(m, txs, h).Some? && t in m && t !in Ids(txs)
    ensures t in ApplyTxs(m, txs, h).value.0 <==> Spared(m, txs, t)
  {
    hide ApplyTxs, SpendsAny, CheckTransaction;
    ApplyTxsSources(m, txs, h);
    var m' := ApplyTxs(m, txs, h).value.0;
    if t in m' {
      var n := |m'[t].vout| - 1;
      assert Available(m', OutPoint(t, n));
      ApplyTxsAvailable(m, txs, h, OutPoint(t, n));
    }
    if n: nat :| Available(m, OutPoint(t, n)) && !SpendsAny(txs, OutPoint(t, n)) {
      ApplyTxsAvailable(m, txs, h, OutPoint(t, n));
      assert Available(m', OutPoint(t, n));
    }
  }

  /** Every version that an undo from w brings back is the right one. */
  ghost predicate VersionsSurvive(m: UtxoSet, w: UtxoSet) {
    forall t :: t in m ==> if t in w then w[t].nVersion == m[t].nVersion else m[t].nVersion >= 0
  }

  lemma UndoneExactly(m: UtxoSet, w: UtxoSet, r: UtxoSet)
    requires Undone(m, w, r)
    ensures r == m <==> VersionsSurvive(m, w)
  {
    if VersionsSurvive(m, w) {
      assert forall t :: t in m ==> r[t] == m[t];
      assert r == m;
    }
    if r == m {
      forall t | t in m
        ensures if t in w then w[t].nVersion == m[t].nVersion else m[t].nVersion >= 0
      {
        assert r[t].nVersion == m[t].nVersion;
      }
    }
  }

  /** Block undo is an inverse.  For every accepted block above genesis, and every set w that is the result but
      for having been to disk, disconnecting with the stored undo data has the right shape, and it reports a
      clean undo if and only if the block spares an output of every record of height zero.  A clean undo gives
      back the set before the block, up to storing, and exactly if and only if no version was lost. */
  lemma DisconnectInvertsConnect(m: UtxoSet, txs: seq<Tx>, h: nat, otherChecks: bool, w: UtxoSet)
    requires WellFormed(m) && h >= 1 && IdsIdentify(txs)
    requires ConnectBlock(m, txs, h, otherChecks).Some? && Like(ConnectBlock(m, txs, h, otherChecks).value.0, w)
    ensures
      var (m', undo) := ConnectBlock(m, txs, h, otherChecks).value;
      && WellFormed(m')
      && DisconnectBlock(w, txs, StoredBlockUndo(undo), h).Some?
      && var (r, clean) := DisconnectBlock(w, txs, StoredBlockUndo(undo), h).value;
      && (clean <==> SparesZero(m, txs))
      && (clean <==> forall t :: t in m && m[t].nHeight == 0 ==> t in m')
      && (clean ==> Undone(m, w, r) && Like(m, r))
      && (clean ==> (r == m <==> VersionsSurvive(m, w)))
  {
    hide UndoTxs, ApplyTxs, CheckTransaction, WellFormed, Like, Undone, VersionsSurvive, Spared, Inverts;
    AcceptedIdsDistinct(m, txs, h);
    ApplyTxsUndoes(m, txs, h, true, w);
    var (m', us) := ApplyTxs(m, txs, h).value;
    IdsAbsent(m, txs);
    forall t | t in m
      ensures t in m' <==> Spared(m, txs, t)
    {
      RecordSpared(m, txs, h, t);
    }
    StoredShape(txs, us);
    UndoIgnoresFirst(w, txs, StoredBlockUndo(us), [[]] + StoredBlockUndo(us[1..]), h);
    var (r, clean) := UndoTxs(w, txs, StoredBlockUndo(us), h, true);
    ZeroesKept(m, m', Ids(txs), w, (r, clean));
    if clean {
      UndoneLike(m, m', Ids(txs), w, r);
      UndoneExactly(m, w, r);
    }
  }

  lemma StoredShape(txs: seq<Tx>, us: seq<TxUndo>)
    requires |us| == |txs| > 0 && forall i :: 1 <= i < |txs| ==> |us[i]| == |txs[i].vin|
    ensures
      var stored, later := StoredBlockUndo(us), StoredBlockUndo(us[1..]);
      && ([[]] + later)[1..] == stored[1..]
      && (forall i :: 1 <= i < |txs| ==> |stored[i]| == |txs[i].vin| && |([[]] + later)[i]| == |txs[i].vin|)
      && (forall i :: 1 <= i < |txs| ==> |later[i - 1]| == |txs[i].vin|)
  {
    var stored, later := StoredBlockUndo(us), StoredBlockUndo(us[1..]);
    assert forall i :: 1 <= i < |txs| ==> later[i - 1] == stored[i];
  }

  lemma ZeroesKept(m: UtxoSet, m': UtxoSet, added: set<Txid>, w: UtxoSet, undone: (UtxoSet, bool))
    requires Inverts(m, m', w, undone) && KeepsOrigin(m, m', added) && added !! m.Keys
    ensures undone.1 <==> forall t :: t in m && m[t].nHeight == 0 ==> t in m'
    ensures undone.1 ==> Undone(m, w, undone.0)
  {
    hide Undone;
    assert forall t :: t in m && t in m' ==> m'[t].nHeight == m[t].nHeight;
    assert AtZero(m) <= m.Keys && AtZero(m') <= m'.Keys;
    if forall t :: t in m && m[t].nHeight == 0 ==> t in m' {
      assert forall t :: t in AtZero(m) ==> t in AtZero(m');
      assert AtZero(m') == AtZero(m);
    }
    if AtZero(m') == AtZero(m) {
      assert forall t :: t in m && m[t].nHeight == 0 ==> t in AtZero(m');
    }
  }

  // ---------- the exceptions are real ----------

  const OUT := TxOut(50, [1])

  /** A set with one record, of one output. */
  function OneRecord(height: nat, version: int): UtxoSet {
    map[7 := Coins(true, [OUT], height, version)]
  }

  /** A block that spends that output. */
  const SPENDING := [Tx(8, 1, [OutPoint(NULL_HASH, NULL_INDEX)], [OUT]), Tx(9, 1, [OutPoint(7, 0)], [OUT])]

  lemma RecordUsedUp(height: nat, version: int)
    ensures ConnectBlock(OneRecord(height, version), SPENDING, height + 1, true).Some?
    ensures 7 !in ConnectBlock(OneRecord(height, version), SPENDING, height + 1, true).value.0
  {
    var c := Coins(true, [OUT], height, version);
    var m := OneRecord(height, version);
    var coinbase, spend, h := SPENDING[0], SPENDING[1], height + 1;
    var m1 := Put(m, 8, FromTx(coinbase, h));
    assert 7 in m1 && m1[7] == c;
    SpendClean(c, 0);
    assert Spend(c, 0).vout == [] by { assert !Spend(c, 0).IsAvailable(0); }
    var m2 := AfterSpend(m1, OutPoint(7, 0));
    assert 7 !in m2;
    hide Trim, NullUnspendable, Spend, AfterSpend, FromTx, UndoOf;
    assert SpendInputs(m2, []) == Some((m2, []));
    assert SpendInputs(m1, spend.vin).Some?;
    var m3 := Put(m2, 9, FromTx(spend, h));
    assert 7 !in m3;
    assert ApplyTx(m1, spend, h).value.0 == m3;
    assert ApplyTxs(m3, [], h) == Some((m3, []));
    assert ApplyTxs(m1, [spend], h).Some?;
    assert ApplyTx(m, coinbase, h) == Some((m1, []));
    assert SPENDING[1..] == [spend];
    assert ApplyTxs(m, SPENDING, h).Some? && ApplyTxs(m, SPENDING, h).value.0 == m3;
  }

  /** A block that spends the only output of a record of height zero is accepted, and its undo is reported as
      inconsistent. */
  lemma HeightZeroWitness()
    ensures
      var m := OneRecord(0, 1);
      && ConnectBlock(m, SPENDING, 1, true).Some?
      && var (m', undo) := ConnectBlock(m, SPENDING, 1, true).value;
      && DisconnectBlock(m', SPENDING, StoredBlockUndo(undo), 1).Some?
      && !DisconnectBlock(m', SPENDING, StoredBlockUndo(undo), 1).value.1
  {
    hide ConnectBlock, DisconnectBlock;
    RecordUsedUp(0, 1);
    var m := OneRecord(0, 1);
    var m' := ConnectBlock(m, SPENDING, 1, true).value.0;
    LikeSelf(m');
    DisconnectInvertsConnect(m, SPENDING, 1, true, m');
    assert 7 in m && m[7].nHeight == 0;
  }

  /** A block that spends the only output of a record of version -1 is accepted, its undo is reported as clean,
      and the record comes back with version 127. */
  lemma NegativeVersionWitness()
    ensures
      var m := OneRecord(5, -1);
      && ConnectBlock(m, SPENDING, 6, true).Some?
      && var (m', undo) := ConnectBlock(m, SPENDING, 6, true).value;
      && DisconnectBlock(m', SPENDING, StoredBlockUndo(undo), 6).Some?
      && var (r, clean) := DisconnectBlock(m', SPENDING, StoredBlockUndo(undo), 6).value;
      && clean && r == OneRecord(5, 127) && r != m
  {
    hide ConnectBlock, DisconnectBlock;
    RecordUsedUp(5, -1);
    var m := OneRecord(5, -1);
    var m' := ConnectBlock(m, SPENDING, 6, true).value.0;
    LikeSelf(m');
    DisconnectInvertsConnect(m, SPENDING, 6, true, m');
    var undo := ConnectBlock(m, SPENDING, 6, true).value.1;
    var r := DisconnectBlock(m', SPENDING, StoredBlockUndo(undo), 6).value.0;
    assert r[7] == Coins(true, [OUT], 5, 127);
    assert r == OneRecord(5, 127);
  }
}
