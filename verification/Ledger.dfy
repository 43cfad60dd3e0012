/** The coin set read as a ledger: which outputs there are after a transaction and after a block, in terms of the
    transactions alone; which blocks are accepted; and what a clean undo has checked. */
module Ledger {
  import opened Wrappers
  import opened Utxo
  import opened BlockUndo

  // ---------- outputs ----------

  /** An unspent output with the metadata of its record. */
  datatype Output = Output(txout: TxOut, fCoinBase: bool, nHeight: nat, nVersion: int)

  /** What the set has at an outpoint. */
  function OutputAt(m: UtxoSet, q: OutPoint): Option<Output> {
    if q.hash in m && q.n < |m[q.hash].vout| && m[q.hash].vout[q.n].nValue != -1
    then Some(Output(m[q.hash].vout[q.n], m[q.hash].fCoinBase, m[q.hash].nHeight, m[q.hash].nVersion))
    else None
  }

  /** What a transaction in a block of height h offers as its output n; a script that begins with OP_RETURN can never
      be spent. */
  function OutputOf(tx: Tx, n: nat, h: nat): Option<Output> {
    if n < |tx.vout| && (tx.vout[n].script == [] || tx.vout[n].script[0] != 0x6a)
    then Some(Output(tx.vout[n], |tx.vin| == 1 && tx.vin[0] == OutPoint(0, 0xFFFF_FFFF), h, tx.nVersion))
    else None
  }

  lemma AvailableIs(m: UtxoSet, q: OutPoint)
    ensures Available(m, q) <==> OutputAt(m, q).Some?
  {
  }

  /** The record that a transaction adds has its outputs in their places. */
  lemma FromTxOutputs(tx: Tx, h: nat, n: nat)
    requires CheckTransaction(tx)
    ensures OutputAt(map[tx.id := FromTx(tx, h)], OutPoint(tx.id, n)) == OutputOf(tx, n, h)
  {
    hide CheckTransaction;
    ValuesKnown(tx);
    var v := NullUnspendable(tx.vout);
    var c := FromTx(tx, h);
    assert c.vout == Trim(v);
    if n < |tx.vout| {
      assert v[n] == if tx.vout[n].IsUnspendable() then NULL_OUT else tx.vout[n];
      assert n >= |c.vout| ==> v[n].IsNull();
    }
  }

  lemma ValuesKnown(tx: Tx)
    requires CheckTransaction(tx)
    ensures forall i :: 0 <= i < |tx.vout| ==> tx.vout[i].nValue >= 0
  {
  }

  lemma PutOutput(m: UtxoSet, t: Txid, c: Coins, q: OutPoint)
    ensures OutputAt(Put(m, t, c), q) == if q.hash == t then OutputAt(map[t := c], q) else OutputAt(m, q)
  {
  }

  /** A spend takes one output away and leaves every other as it is. */
  lemma SpendOutput(m: UtxoSet, o: OutPoint, q: OutPoint)
    requires WellFormed(m) && Available(m, o)
    ensures OutputAt(AfterSpend(m, o), q) == if q == o then None else OutputAt(m, q)
  {
    var c := Get(m, o.hash);
    var spent := c.vout[o.n := NULL_OUT];
    var s := Trim(spent);
    assert Spend(c, o.n).vout == s;
    hide Trim;
    PutOutput(m, o.hash, Spend(c, o.n), q);
    if q.hash == o.hash && q.n < |spent| {
      assert q.n < |s| ==> s[q.n] == spent[q.n];
      assert q.n >= |s| ==> spent[q.n].IsNull();
    }
  }

  lemma {:induction false} SpendAllOutputs(m: UtxoSet, vin: seq<OutPoint>, q: OutPoint)
    requires WellFormed(m) && SpendInputs(m, vin).Some?
    ensures OutputAt(SpendInputs(m, vin).value.0, q) == if q in vin then None else OutputAt(m, q)
    decreases |vin|
  {
    hide OutputAt, AfterSpend, WellFormed, Available;
    if vin != [] {
      SpendTakesOne(m, vin[0]);
      SpendOutput(m, vin[0], q);
      SpendAllOutputs(AfterSpend(m, vin[0]), vin[1..], q);
      assert q in vin <==> q == vin[0] || q in vin[1..];
    }
  }

  /** After a transaction: its own outputs, and of the others those it does not spend. */
  lemma ApplyTxOutput(m: UtxoSet, tx: Tx, h: nat, q: OutPoint)
    requires WellFormed(m) && CheckTransaction(tx) && ApplyTx(m, tx, h).Some?
    ensures OutputAt(ApplyTx(m, tx, h).value.0, q) ==
      if q.hash == tx.id then OutputOf(tx, q.n, h)
      else if !tx.IsCoinBase() && q in tx.vin then None
      else OutputAt(m, q)
  {
    hide OutputAt, OutputOf, FromTx, WellFormed, CheckTransaction, SpendInputs, Put;
    var vin := if tx.IsCoinBase() then [] else tx.vin;
    SpendAllOutputs(m, vin, q);
    PutOutput(SpendInputs(m, vin).value.0, tx.id, FromTx(tx, h), q);
    if q.hash == tx.id { FromTxOutputs(tx, h, q.n); }
  }

  /** The outputs tell everything about a set. */
  lemma OutputsDecide(m: UtxoSet, m': UtxoSet)
    requires WellFormed(m) && WellFormed(m') && forall q: OutPoint :: OutputAt(m, q) == OutputAt(m', q)
    ensures m == m'
  {
    forall t
      ensures t in m ==> t in m' && m'[t].nHeight == m[t].nHeight && |m[t].vout| <= |m'[t].vout|
      ensures t in m' ==> t in m && |m'[t].vout| <= |m[t].vout|
    {
      if t in m { assert OutputAt(m, OutPoint(t, |m[t].vout| - 1)).Some?; }
      if t in m' { assert OutputAt(m', OutPoint(t, |m'[t].vout| - 1)).Some?; }
    }
    forall t | t in m
      ensures m'[t] == m[t]
    {
      forall n | 0 <= n < |m[t].vout|
        ensures m'[t].vout[n] == m[t].vout[n]
      {
        assert OutputAt(m, OutPoint(t, n)) == OutputAt(m', OutPoint(t, n));
      }
      assert OutputAt(m, OutPoint(t, |m[t].vout| - 1)) == OutputAt(m', OutPoint(t, |m[t].vout| - 1));
    }
    assert m.Keys == m'.Keys;
  }

  // ---------- blocks ----------

  /** What the transactions of a block of height h offer at an outpoint. */
  function OfferedBy(txs: seq<Tx>, q: OutPoint, h: nat): Option<Output>
    decreases |txs|
  {
    if txs == [] then None
    else if txs[0].id == q.hash then OutputOf(txs[0], q.n, h)
    else OfferedBy(txs[1..], q, h)
  }

  lemma {:induction false} OfferedByOne(txs: seq<Tx>, q: OutPoint, h: nat, i: nat)
    requires DistinctIds(txs) && i < |txs| && txs[i].id == q.hash
    ensures OfferedBy(txs, q, h) == OutputOf(txs[i], q.n, h)
    decreases |txs|
  {
    if i > 0 {
      assert txs[0].id != txs[i].id;
      OfferedByOne(txs[1..], q, h, i - 1);
    }
  }

  /** A transaction cannot spend an output of a transaction that is not there yet. */
  lemma NotYetSpent(m: UtxoSet, tx: Tx, q: OutPoint)
    requires HaveInputs(m, tx) && q.hash !in m
    ensures !Spends(tx, q)
  {
  }

  /** After the transactions of a block: what none of them spends, of what they offer and of what was there. */
  lemma {:induction false} ApplyTxsOutput(m: UtxoSet, txs: seq<Tx>, h: nat, q: OutPoint)
    requires WellFormed(m) && ApplyTxs(m, txs, h).Some? && DistinctIds(txs) && NoOverwrite(m, txs)
    requires forall i :: 0 <= i < |txs| ==> CheckTransaction(txs[i])
    ensures OutputAt(ApplyTxs(m, txs, h).value.0, q) ==
      if SpendsAny(txs, q) then None
      else if q.hash in Ids(txs) then OfferedBy(txs, q, h)
      else OutputAt(m, q)
    decreases |txs|
  {
    hide ApplyTx, HaveInputs, WellFormed, CheckTransaction, Spends, OutputAt, OutputOf, SpendsAny, DistinctIds;
    hide NoOverwrite;
    if txs == [] {
      NothingSpent(q);
    } else {
      var m1 := ApplyTx(m, txs[0], h).value.0;
      ApplyTxSources(m, txs[0], h);
      ApplyTxOutput(m, txs[0], h, q);
      LaterIds(m, m1, txs);
      ApplyTxsOutput(m1, txs[1..], h, q);
      SpendsFirst(txs, q);
      IdsFirst(txs);
      if q.hash in Ids(txs) {
        IdAbsent(m, txs, q.hash);
        NotYetSpent(m, txs[0], q);
      }
      SpendsIs(txs[0], q);
    }
  }

  lemma SpendsIs(tx: Tx, q: OutPoint)
    ensures Spends(tx, q) <==> !tx.IsCoinBase() && q in tx.vin
  {
  }

  lemma NothingSpent(q: OutPoint)
    ensures !SpendsAny([], q)
  {
  }

  lemma IdAbsent(m: UtxoSet, txs: seq<Tx>, t: Txid)
    requires NoOverwrite(m, txs) && t in Ids(txs)
    ensures t !in m
  {
  }

  lemma LaterIds(m: UtxoSet, m1: UtxoSet, txs: seq<Tx>)
    requires txs != [] && DistinctIds(txs) && NoOverwrite(m, txs) && m1.Keys <= m.Keys + {txs[0].id}
    ensures DistinctIds(txs[1..]) && NoOverwrite(m1, txs[1..]) && txs[0].id !in Ids(txs[1..])
  {
    forall i | 0 <= i < |txs[1..]|
      ensures txs[1..][i].id !in m1 && txs[1..][i].id != txs[0].id
    {
      assert txs[1..][i] == txs[i + 1];
      assert txs[i + 1].id !in m && txs[0].id != txs[i + 1].id;
    }
  }

  /** The whole block: exactly these outputs are there afterwards. */
  lemma ConnectOutputs(m: UtxoSet, txs: seq<Tx>, h: nat, otherChecks: bool, q: OutPoint)
    requires WellFormed(m) && IdsIdentify(txs) && ConnectBlock(m, txs, h, otherChecks).Some?
    ensures OutputAt(ConnectBlock(m, txs, h, otherChecks).value.0, q) ==
      if SpendsAny(txs, q) then None
      else if q.hash in Ids(txs) then OfferedBy(txs, q, h)
      else OutputAt(m, q)
  {
    hide ApplyTxs, CheckTransaction, OutputAt, SpendsAny, WellFormed, OfferedBy;
    AcceptedIdsDistinct(m, txs, h);
    ApplyTxsOutput(m, txs, h, q);
  }

  // ---------- which blocks are accepted ----------

  /** The rules for a block that do not look at the coins: a coinbase first and nowhere else, and every transaction
      with inputs, all different, and with outputs of no negative amount. */
  ghost predicate WellShaped(txs: seq<Tx>) {
    && txs != []
    && (forall i :: 0 <= i < |txs| ==> (i == 0 <==> |txs[i].vin| == 1 && txs[i].vin[0] == OutPoint(0, 0xFFFF_FFFF)))
    && (forall i :: 0 <= i < |txs| ==> txs[i].vin != [] && txs[i].vout != [])
    && (forall i, n :: 0 <= i < |txs| && 0 <= n < |txs[i].vout| ==> txs[i].vout[n].nValue >= 0)
    && (forall i, a, b :: 0 <= i < |txs| && 0 <= a < b < |txs[i].vin| ==> txs[i].vin[a] != txs[i].vin[b])
  }

  /** No transaction of the block has an output in the set already. */
  ghost predicate NewIds(m: UtxoSet, txs: seq<Tx>) {
    forall i, n: nat :: 0 <= i < |txs| ==> OutputAt(m, OutPoint(txs[i].id, n)).None?
  }

  /** Input q of transaction i: it is an output of an earlier transaction of the block or, if none of these has its
      id, of the set; and no earlier transaction of the block spends it. */
  ghost predicate Spendable(m: UtxoSet, txs: seq<Tx>, h: nat, i: nat, q: OutPoint)
    requires i <= |txs|
  {
    && (if q.hash in Ids(txs[..i]) then OfferedBy(txs[..i], q, h) else OutputAt(m, q)).Some?
    && !SpendsAny(txs[..i], q)
  }

  ghost predicate InputsSpendable(m: UtxoSet, txs: seq<Tx>, h: nat) {
    forall i, a :: 1 <= i < |txs| && 0 <= a < |txs[i].vin| ==> Spendable(m, txs, h, i, txs[i].vin[a])
  }

  /** A block is accepted if and only if it is well shaped, overwrites nothing, spends only outputs that are there or
      come from earlier in the block, none of them twice, and passes the other checks. */
  lemma AcceptedIff(m: UtxoSet, txs: seq<Tx>, h: nat, otherChecks: bool)
    requires WellFormed(m) && IdsIdentify(txs)
    ensures ConnectBlock(m, txs, h, otherChecks).Some? <==>
      otherChecks && WellShaped(txs) && NewIds(m, txs) && InputsSpendable(m, txs, h)
  {
    hide ApplyTxs, CheckTxs, WellShaped, NewIds, NoOverwrite, InputsSpendable, WellFormed, IdsIdentify;
    ShapeIs(txs);
    if WellShaped(txs) {
      NewIs(m, txs);
      if NoOverwrite(m, txs) {
        if ApplyTxs(m, txs, h).Some? {
          AppliedSpendable(m, txs, h);
          UndoSize(m, txs, h);
        }
        if InputsSpendable(m, txs, h) {
          SpendableDistinct(m, txs, h);
          SpendableApplies(m, txs, h, |txs|);
          assert txs[..|txs|] == txs;
        }
      }
    }
  }

  lemma ShapeIs(txs: seq<Tx>)
    ensures CheckTxs(txs) <==> WellShaped(txs)
  {
    if WellShaped(txs) {
      forall i | 0 <= i < |txs|
        ensures CheckTransaction(txs[i])
      {
      }
    }
  }

  lemma LastOutput(m: UtxoSet, t: Txid)
    requires WellFormed(m) && t in m
    ensures m[t].vout != [] && OutputAt(m, OutPoint(t, |m[t].vout| - 1)).Some?
  {
  }

  lemma NewIs(m: UtxoSet, txs: seq<Tx>)
    requires WellFormed(m)
    ensures NoOverwrite(m, txs) <==> NewIds(m, txs)
  {
    if NewIds(m, txs) {
      forall i | 0 <= i < |txs|
        ensures txs[i].id !in m
      {
        if txs[i].id in m { LastOutput(m, txs[i].id); }
      }
    }
  }

  lemma UndoSize(m: UtxoSet, txs: seq<Tx>, h: nat)
    requires CheckTxs(txs) && ApplyTxs(m, txs, h).Some?
    ensures ApplyTxs(m, txs, h).value.1 != []
  {
  }

  lemma PrefixRules(m: UtxoSet, txs: seq<Tx>, i: nat)
    requires i <= |txs| && DistinctIds(txs) && NoOverwrite(m, txs) && CheckTxs(txs)
    ensures DistinctIds(txs[..i]) && NoOverwrite(m, txs[..i])
    ensures forall k :: 0 <= k < i ==> CheckTransaction(txs[..i][k])
  {
    hide CheckTransaction;
  }

  /** The state before transaction i has an output exactly if it is spendable there. */
  lemma StateSpendable(m: UtxoSet, txs: seq<Tx>, h: nat, i: nat, q: OutPoint)
    requires WellFormed(m) && CheckTxs(txs) && DistinctIds(txs) && NoOverwrite(m, txs)
    requires i <= |txs| && ApplyTxs(m, txs[..i], h).Some?
    ensures Available(ApplyTxs(m, txs[..i], h).value.0, q) <==> Spendable(m, txs, h, i, q)
  {
    hide CheckTxs, ApplyTxs, DistinctIds, NoOverwrite, WellFormed, OutputAt, OfferedBy, SpendsAny, CheckTransaction;
    hide Available;
    PrefixRules(m, txs, i);
    ApplyTxsOutput(m, txs[..i], h, q);
    AvailableIs(ApplyTxs(m, txs[..i], h).value.0, q);
  }

  lemma AppliedSpendable(m: UtxoSet, txs: seq<Tx>, h: nat)
    requires WellFormed(m) && CheckTxs(txs) && IdsIdentify(txs) && NoOverwrite(m, txs) && ApplyTxs(m, txs, h).Some?
    ensures InputsSpendable(m, txs, h)
  {
    hide ApplyTxs, ApplyTx, Spendable, WellFormed, IdsIdentify, NoOverwrite, DistinctIds, Available, CheckTransaction;
    AcceptedIdsDistinct(m, txs, h);
    forall i, a | 1 <= i < |txs| && 0 <= a < |txs[i].vin|
      ensures Spendable(m, txs, h, i, txs[i].vin[a])
    {
      StateAtStep(m, txs, h, i, i);
      StateSpendable(m, txs, h, i, txs[i].vin[a]);
    }
  }

  /** A transaction that came twice would spend its inputs twice. */
  lemma SpendableDistinct(m: UtxoSet, txs: seq<Tx>, h: nat)
    requires CheckTxs(txs) && IdsIdentify(txs) && InputsSpendable(m, txs, h)
    ensures DistinctIds(txs)
  {
    forall i, j | 0 <= i < j < |txs|
      ensures txs[i].id != txs[j].id
    {
      if txs[i].id == txs[j].id {
        assert txs[i] == txs[j] && CheckTransaction(txs[j]);
        assert Spendable(m, txs, h, j, txs[j].vin[0]);
        assert txs[..j][i] == txs[i];
        assert Spends(txs[..j][i], txs[j].vin[0]);
      }
    }
  }

  lemma {:induction false} SpendableApplies(m: UtxoSet, txs: seq<Tx>, h: nat, i: nat)
    requires WellFormed(m) && CheckTxs(txs) && DistinctIds(txs) && NoOverwrite(m, txs) && InputsSpendable(m, txs, h)
    requires i <= |txs|
    ensures ApplyTxs(m, txs[..i], h).Some?
    decreases i
  {
    hide ApplyTxs, ApplyTx, Spendable, WellFormed, DistinctIds, NoOverwrite, Available, CheckTransaction;
    if i == 0 {
      NothingApplied(m, h);
      assert txs[..0] == [];
    } else {
      var k := i - 1;
      SpendableApplies(m, txs, h, k);
      var mk := ApplyTxs(m, txs[..k], h).value.0;
      if k > 0 {
        forall a | 0 <= a < |txs[k].vin|
          ensures Available(mk, txs[k].vin[a])
        {
          StateSpendable(m, txs, h, k, txs[k].vin[a]);
        }
      }
      ApplyTxsSources(m, txs[..k], h);
      InputsApply(mk, txs[k], h);
      ApplyOneMore(m, txs[..k], txs[k], h);
      assert txs[..i] == txs[..k] + [txs[k]];
    }
  }

  lemma NothingApplied(m: UtxoSet, h: nat)
    ensures ApplyTxs(m, [], h) == Some((m, []))
  {
  }

  lemma InputsApply(m: UtxoSet, tx: Tx, h: nat)
    requires WellFormed(m) && CheckTransaction(tx) && HaveInputs(m, tx)
    ensures ApplyTx(m, tx, h).Some?
  {
    hide FromTx;
    if !tx.IsCoinBase() { DistinctInputsSpend(m, tx.vin); }
  }

  lemma {:induction false} ApplyOneMore(m: UtxoSet, txs: seq<Tx>, tx: Tx, h: nat)
    requires ApplyTxs(m, txs, h).Some? && HaveInputs(ApplyTxs(m, txs, h).value.0, tx)
    requires ApplyTx(ApplyTxs(m, txs, h).value.0, tx, h).Some?
    ensures ApplyTxs(m, txs + [tx], h).Some?
    decreases |txs|
  {
    hide ApplyTx, HaveInputs;
    var all := txs + [tx];
    if txs == [] {
      assert all[0] == tx && all[1..] == [];
    } else {
      assert all[0] == txs[0] && all[1..] == txs[1..] + [tx];
      ApplyOneMore(ApplyTx(m, txs[0], h).value.0, txs[1..], tx, h);
    }
  }

  // ---------- what a clean undo has checked ----------

  /** What the set has at an outpoint, unless it can never be spent. */
  function UsableAt(m: UtxoSet, q: OutPoint): Option<Output> {
    match OutputAt(m, q)
    case None => None
    case Some(o) => if o.txout.script != [] && o.txout.script[0] == 0x6a then None else Some(o)
  }

  /** The set has exactly the outputs that the block gives to tx; a negative version is not compared. */
  ghost predicate HasOutputsOf(m: UtxoSet, tx: Tx, h: nat) {
    forall n: nat ::
      var has, gives := UsableAt(m, OutPoint(tx.id, n)), OutputOf(tx, n, h);
      has == gives || (tx.nVersion < 0 && has.Some? && gives == Some(has.value.(nVersion := tx.nVersion)))
  }

  /** Removing the outputs of a transaction is reported as clean if and only if the set had exactly these. */
  lemma RemoveCleanIff(m: UtxoSet, tx: Tx, h: nat)
    requires WellFormed(m) && CheckTransaction(tx)
    ensures RemoveOutputs(m, tx, h).1 <==> HasOutputsOf(m, tx, h)
    ensures forall q: OutPoint ::
      OutputAt(RemoveOutputs(m, tx, h).0, q) == if q.hash == tx.id then None else OutputAt(m, q)
  {
    hide HasOutputsOf, FromTx, ClearUnspendable, SameCoins, CheckTransaction;
    var outs, block := ClearUnspendable(Get(m, tx.id)), FromTx(tx, h);
    var fixed := if block.nVersion < 0 then outs.(nVersion := block.nVersion) else outs;
    GetClean(m, tx.id);
    ClearedClean(Get(m, tx.id));
    FromTxClean(tx, h);
    FromTxVersion(tx, h);
    SameRecords(fixed, block);
    forall n: nat
      ensures RecordAt(block, n) == OutputOf(tx, n, h)
      ensures RecordAt(outs, n) == UsableAt(m, OutPoint(tx.id, n))
    {
      FromTxOutputs(tx, h, n);
      ClearedOutputs(m, tx.id, n);
      RecordIs(tx.id, block, n);
    }
    SameOutputs(m, tx, h, outs, fixed, block);
  }

  /** What a record has as its output n. */
  function RecordAt(c: Coins, n: nat): Option<Output> {
    if n < |c.vout| && c.vout[n].nValue != -1 then Some(Output(c.vout[n], c.fCoinBase, c.nHeight, c.nVersion)) else None
  }

  lemma RecordIs(t: Txid, c: Coins, n: nat)
    ensures OutputAt(map[t := c], OutPoint(t, n)) == RecordAt(c, n)
  {
  }

  lemma GetClean(m: UtxoSet, t: Txid)
    requires WellFormed(m)
    ensures Get(m, t).Clean()
  {
  }

  lemma FromTxVersion(tx: Tx, h: nat)
    ensures FromTx(tx, h).nVersion == tx.nVersion
  {
  }

  lemma ClearedClean(c: Coins)
    requires c.Clean()
    ensures ClearUnspendable(c).Clean() && ClearUnspendable(c).nVersion == c.nVersion
  {
    var v := NullUnspendable(c.vout);
    var d := ClearUnspendable(c);
    assert d.vout == Trim(v);
    assert forall i :: 0 <= i < |d.vout| ==> d.vout[i] == v[i];
  }

  lemma ClearedOutputs(m: UtxoSet, t: Txid, n: nat)
    requires WellFormed(m)
    ensures RecordAt(ClearUnspendable(Get(m, t)), n) == UsableAt(m, OutPoint(t, n))
  {
    var c := Get(m, t);
    var v := NullUnspendable(c.vout);
    var d := ClearUnspendable(c);
    assert d.vout == Trim(v);
    if n < |c.vout| {
      assert v[n] == if c.vout[n].IsUnspendable() then NULL_OUT else c.vout[n];
      assert n >= |d.vout| ==> v[n].IsNull();
    }
  }

  /** Clean records are the same if and only if they have the same outputs. */
  lemma SameRecords(c: Coins, d: Coins)
    requires c.Clean() && d.Clean()
    ensures SameCoins(c, d) <==> forall n: nat :: RecordAt(c, n) == RecordAt(d, n)
  {
    if forall n: nat :: RecordAt(c, n) == RecordAt(d, n) {
      if c.vout != [] { assert RecordAt(c, |c.vout| - 1) == RecordAt(d, |c.vout| - 1); }
      if d.vout != [] { assert RecordAt(c, |d.vout| - 1) == RecordAt(d, |d.vout| - 1); }
      assert |c.vout| == |d.vout|;
      forall n | 0 <= n < |c.vout|
        ensures c.vout[n] == d.vout[n]
      {
        assert RecordAt(c, n) == RecordAt(d, n);
      }
    }
    if SameCoins(c, d) {
      forall n: nat
        ensures RecordAt(c, n) == RecordAt(d, n)
      {
      }
    }
  }

  lemma SameOutputs(m: UtxoSet, tx: Tx, h: nat, outs: Coins, fixed: Coins, block: Coins)
    requires fixed == if block.nVersion < 0 then outs.(nVersion := block.nVersion) else outs
    requires block.nVersion == tx.nVersion
    requires forall n: nat :: RecordAt(block, n) == OutputOf(tx, n, h)
    requires forall n: nat :: RecordAt(outs, n) == UsableAt(m, OutPoint(tx.id, n))
    ensures (forall n: nat :: RecordAt(fixed, n) == RecordAt(block, n)) <==> HasOutputsOf(m, tx, h)
  {
    hide OutputOf, UsableAt;
    forall n: nat
      ensures
        var has, gives := UsableAt(m, OutPoint(tx.id, n)), OutputOf(tx, n, h);
        RecordAt(fixed, n) == RecordAt(block, n) <==>
          has == gives || (tx.nVersion < 0 && has.Some? && gives == Some(has.value.(nVersion := tx.nVersion)))
    {
      assert RecordAt(block, n) == OutputOf(tx, n, h);
      assert RecordAt(outs, n) == UsableAt(m, OutPoint(tx.id, n));
    }
  }

  /** Restoring an output is reported as clean if and only if it was not there, and its record was missing exactly if
      the undo data has the metadata; then it is there again and everything else is as before. */
  lemma RestoreCleanIff(m: UtxoSet, o: OutPoint, undo: TxInUndo, q: OutPoint)
    requires WellFormed(m) && undo.txout.nValue != -1
    ensures RestoreInput(m, o, undo).1 <==> OutputAt(m, o).None? && (undo.nHeight != 0 <==> o.hash !in m)
    ensures RestoreInput(m, o, undo).1 ==>
      OutputAt(RestoreInput(m, o, undo).0, q) ==
        if q != o then OutputAt(m, q)
        else if undo.nHeight != 0 then Some(Output(undo.txout, undo.fCoinBase, undo.nHeight, undo.nVersion))
        else Some(Output(undo.txout, m[o.hash].fCoinBase, m[o.hash].nHeight, m[o.hash].nVersion))
  {
    var c := Get(m, o.hash);
    assert c.IsPruned() <==> o.hash !in m by {
      if o.hash in m { assert !c.vout[|c.vout| - 1].IsNull(); }
    }
    var c1 := if undo.nHeight != 0 then Coins(undo.fCoinBase, [], undo.nHeight, undo.nVersion) else c;
    var v := PlaceAt(c1.vout, o.n, undo.txout);
    var r := c1.(vout := Trim(v));
    assert RestoreInput(m, o, undo).0 == Put(m, o.hash, r);
    TrimAt(v, q.n);
    hide Trim;
    PutOutput(m, o.hash, r, q);
  }

  lemma TrimAt(v: seq<TxOut>, n: nat)
    ensures (n < |v| && !v[n].IsNull()) <==> (n < |Trim(v)| && !Trim(v)[n].IsNull())
    ensures n < |Trim(v)| ==> Trim(v)[n] == v[n]
  {
    assert n < |v| && n >= |Trim(v)| ==> v[n].IsNull();
  }

  /** The set from which the outputs of transaction i are removed in an undo. */
  ghost function UndoneAfter(m: UtxoSet, txs: seq<Tx>, us: seq<TxUndo>, h: nat, i: nat): UtxoSet
    requires i < |txs| == |us| && forall k :: 1 <= k < |txs| ==> |us[k]| == |txs[k].vin|
  {
    UndoTxs(m, txs[i + 1..], us[i + 1..], h, false).0
  }

  /** A clean undo of a block: every transaction's outputs were removed from a set that had exactly these. */
  lemma CleanUndoChecks(m: UtxoSet, txs: seq<Tx>, undo: seq<TxUndo>, h: nat, i: nat)
    requires DisconnectBlock(m, txs, undo, h).Some? && DisconnectBlock(m, txs, undo, h).value.1
    requires WellFormed(m) && i < |txs| && CheckTransaction(txs[i])
    requires forall k, j :: 0 <= k < |undo| && 0 <= j < |undo[k]| ==> undo[k][j].Canonical()
    ensures HasOutputsOf(UndoneAfter(m, txs, [[]] + undo, h, i), txs[i], h)
  {
    hide HasOutputsOf, WellFormed, CheckTransaction, UndoTxs, TxInUndo.Canonical;
    var us: seq<TxUndo> := [[]] + undo;
    CleanParts(m, txs, us, h, true, i);
    assert us[i + 1..] == undo[i..];
    UndoKeeps(m, txs[i + 1..], us[i + 1..], h);
    RemoveCleanIff(UndoneAfter(m, txs, [[]] + undo, h, i), txs[i], h);
  }

  lemma {:induction false} UndoKeeps(m: UtxoSet, txs: seq<Tx>, us: seq<TxUndo>, h: nat)
    requires WellFormed(m) && |us| == |txs| && forall k :: 0 <= k < |txs| ==> |us[k]| == |txs[k].vin|
    requires forall k, j :: 0 <= k < |us| && 0 <= j < |us[k]| ==> us[k][j].Canonical()
    ensures WellFormed(UndoTxs(m, txs, us, h, false).0)
    decreases |txs|
  {
    hide WellFormed, RestoreInputs, TxInUndo.Canonical;
    if txs != [] {
      var m1 := UndoTxs(m, txs[1..], us[1..], h, false).0;
      UndoKeeps(m, txs[1..], us[1..], h);
      RemoveKeeps(m1, txs[0].id);
      RestoresKeep(m1 - {txs[0].id}, txs[0].vin, us[0]);
    }
  }

  lemma RemoveKeeps(m: UtxoSet, t: Txid)
    requires WellFormed(m)
    ensures WellFormed(m - {t})
  {
  }

  lemma {:induction false} RestoresKeep(m: UtxoSet, vin: seq<OutPoint>, us: TxUndo)
    requires WellFormed(m) && |us| == |vin| && forall j :: 0 <= j < |us| ==> us[j].Canonical()
    ensures WellFormed(RestoreInputs(m, vin, us).0)
    decreases |vin|
  {
    hide WellFormed, RestoreInput, TxInUndo.Canonical;
    if vin != [] {
      RestoresKeep(m, vin[1..], us[1..]);
      RestoreKeeps(RestoreInputs(m, vin[1..], us[1..]).0, vin[0], us[0]);
    }
  }

  lemma RestoreKeeps(m: UtxoSet, o: OutPoint, undo: TxInUndo)
    requires WellFormed(m) && undo.Canonical()
    ensures WellFormed(RestoreInput(m, o, undo).0)
  {
    hide WellFormed, Coins.Clean, Trim, PlaceAt, Put;
    var c := Get(m, o.hash);
    GetClean(m, o.hash);
    var c1 := if undo.nHeight != 0 then Coins(undo.fCoinBase, [], undo.nHeight, undo.nVersion) else c;
    MetaClean(undo);
    PlacedClean(c1, o.n, undo.txout);
    PutKeeps(m, o.hash, c1.(vout := Trim(PlaceAt(c1.vout, o.n, undo.txout))));
  }

  lemma MetaClean(undo: TxInUndo)
    ensures Coins(undo.fCoinBase, [], undo.nHeight, undo.nVersion).Clean()
  {
  }

  lemma PutKeeps(m: UtxoSet, t: Txid, c: Coins)
    requires WellFormed(m) && c.Clean()
    ensures WellFormed(Put(m, t, c))
  {
  }

  lemma PlacedClean(c: Coins, n: nat, o: TxOut)
    requires c.Clean() && (o.IsNull() ==> o == NULL_OUT)
    ensures c.(vout := Trim(PlaceAt(c.vout, n, o))).Clean()
  {
    hide Trim;
    var v := PlaceAt(c.vout, n, o);
    var w := Trim(v);
    assert forall i :: 0 <= i < |w| ==> w[i] == v[i];
    assert forall i :: 0 <= i < |v| && v[i].IsNull() ==> v[i] == NULL_OUT;
  }

  lemma {:induction false} CleanParts(m: UtxoSet, txs: seq<Tx>, us: seq<TxUndo>, h: nat, first: bool, i: nat)
    requires i < |txs| == |us| && forall k :: (if first then 1 else 0) <= k < |txs| ==> |us[k]| == |txs[k].vin|
    requires UndoTxs(m, txs, us, h, first).1
    ensures
      var before := UndoTxs(m, txs[i + 1..], us[i + 1..], h, false);
      before.1 && RemoveOutputs(before.0, txs[i], h).1
    decreases |txs|
  {
    hide RemoveOutputs, RestoreInputs;
    if i > 0 {
      assert txs[1..][i..] == txs[i + 1..] && us[1..][i..] == us[i + 1..];
      CleanParts(m, txs[1..], us[1..], h, false, i - 1);
    }
  }
}
