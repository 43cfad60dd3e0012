/** Sets that differ only in having been to disk accept the same blocks, with the same results up to that. */
module StoredSets {
  import opened Wrappers
  import opened Utxo
  import opened BlockUndo

  lemma LikeTrans(a: UtxoSet, b: UtxoSet, c: UtxoSet)
    requires Like(a, b) && Like(b, c)
    ensures Like(a, c)
  {
  }

  /** Without negative versions, storing loses nothing. */
  lemma LikeExact(m: UtxoSet, w: UtxoSet)
    requires Like(m, w) && forall t :: t in m ==> m[t].nVersion >= 0
    ensures w == m
  {
    assert forall t :: t in m ==> w[t] == m[t];
  }

  lemma LikeOutputs(m: UtxoSet, w: UtxoSet, q: OutPoint)
    requires Like(m, w)
    ensures Available(m, q) <==> Available(w, q)
  {
  }

  lemma SpendLike(m: UtxoSet, w: UtxoSet, o: OutPoint)
    requires Like(m, w) && Available(m, o) && Available(w, o)
    ensures Like(AfterSpend(m, o), AfterSpend(w, o))
    ensures StoredUndo(UndoOf(Get(m, o.hash), o.n)) == StoredUndo(UndoOf(Get(w, o.hash), o.n))
  {
    hide Trim;
    var c, d := Get(m, o.hash), Get(w, o.hash);
    assert d == c || d == StoredCoins(c);
    assert Spend(d, o.n) == Spend(c, o.n) || Spend(d, o.n) == StoredCoins(Spend(c, o.n));
  }

  lemma {:induction false} SpendInputsLike(m: UtxoSet, w: UtxoSet, vin: seq<OutPoint>)
    requires Like(m, w)
    ensures SpendInputs(m, vin).Some? <==> SpendInputs(w, vin).Some?
    ensures SpendInputs(m, vin).Some? ==>
      && Like(SpendInputs(m, vin).value.0, SpendInputs(w, vin).value.0)
      && StoredTxUndo(SpendInputs(m, vin).value.1) == StoredTxUndo(SpendInputs(w, vin).value.1)
    decreases |vin|
  {
    hide Like, Available, AfterSpend, UndoOf, Get, StoredUndo;
    if vin != [] {
      LikeOutputs(m, w, vin[0]);
      if Available(m, vin[0]) {
        SpendLike(m, w, vin[0]);
        SpendInputsLike(AfterSpend(m, vin[0]), AfterSpend(w, vin[0]), vin[1..]);
      }
    }
  }

  lemma PutLike(m: UtxoSet, w: UtxoSet, t: Txid, c: Coins)
    requires Like(m, w)
    ensures Like(Put(m, t, c), Put(w, t, c))
  {
  }

  lemma HaveInputsLike(m: UtxoSet, w: UtxoSet, tx: Tx)
    requires Like(m, w)
    ensures HaveInputs(m, tx) <==> HaveInputs(w, tx)
  {
    hide Like, Available;
    forall q: OutPoint ensures Available(m, q) <==> Available(w, q) { LikeOutputs(m, w, q); }
  }

  lemma {:induction false} ApplyTxsLike(m: UtxoSet, w: UtxoSet, txs: seq<Tx>, h: nat)
    requires Like(m, w)
    ensures ApplyTxs(m, txs, h).Some? <==> ApplyTxs(w, txs, h).Some?
    ensures ApplyTxs(m, txs, h).Some? ==>
      && Like(ApplyTxs(m, txs, h).value.0, ApplyTxs(w, txs, h).value.0)
      && StoredBlockUndo(ApplyTxs(m, txs, h).value.1) == StoredBlockUndo(ApplyTxs(w, txs, h).value.1)
    decreases |txs|
  {
    hide Like, HaveInputs, SpendInputs, Put, FromTx, StoredTxUndo;
    if txs != [] {
      HaveInputsLike(m, w, txs[0]);
      SpendInputsLike(m, w, if txs[0].IsCoinBase() then [] else txs[0].vin);
      if ApplyTx(m, txs[0], h).Some? {
        var (m1, u) := SpendInputs(m, if txs[0].IsCoinBase() then [] else txs[0].vin).value;
        var (w1, v) := SpendInputs(w, if txs[0].IsCoinBase() then [] else txs[0].vin).value;
        PutLike(m1, w1, txs[0].id, FromTx(txs[0], h));
        ApplyTxsLike(ApplyTx(m, txs[0], h).value.0, ApplyTx(w, txs[0], h).value.0, txs[1..], h);
      }
    }
  }

  /** A block is accepted from both sets or from neither, and leaves sets that differ in nothing more; the undo
      data on disk is the same. */
  lemma ConnectLike(m: UtxoSet, w: UtxoSet, txs: seq<Tx>, h: nat, otherChecks: bool)
    requires Like(m, w)
    ensures ConnectBlock(m, txs, h, otherChecks).Some? <==> ConnectBlock(w, txs, h, otherChecks).Some?
    ensures ConnectBlock(m, txs, h, otherChecks).Some? ==>
      var (m', us), (w', vs) := ConnectBlock(m, txs, h, otherChecks).value, ConnectBlock(w, txs, h, otherChecks).value;
      Like(m', w') && StoredBlockUndo(us) == StoredBlockUndo(vs)
  {
    hide ApplyTxs, StoredTxUndo;
    ApplyTxsLike(m, w, txs, h);
    assert NoOverwrite(m, txs) <==> NoOverwrite(w, txs);
    if ApplyTxs(m, txs, h).Some? {
      var us, vs := ApplyTxs(m, txs, h).value.1, ApplyTxs(w, txs, h).value.1;
      assert |us| == |vs| by { assert |StoredBlockUndo(us)| == |StoredBlockUndo(vs)|; }
      if us != [] { StoredTail(us, vs); }
    }
  }

  lemma StoredTail(us: seq<TxUndo>, vs: seq<TxUndo>)
    requires us != [] && vs != [] && StoredBlockUndo(us) == StoredBlockUndo(vs)
    ensures StoredBlockUndo(us[1..]) == StoredBlockUndo(vs[1..])
  {
    assert StoredBlockUndo(us[1..]) == StoredBlockUndo(us)[1..];
    assert StoredBlockUndo(vs[1..]) == StoredBlockUndo(vs)[1..];
  }
}
