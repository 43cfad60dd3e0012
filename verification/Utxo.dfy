/** The unspent-output set at the level of values: transactions, coin records, spending with undo
    data, and undoing.  A record whose outputs are all spent ("pruned") is identified with an absent
    one, so the set is a finite map from transaction id to a coin record that still has an output. */
module Utxo {
  import opened Wrappers

  /** A transaction id; zero is the null hash. */
  type Txid = nat

  const NULL_HASH: Txid := 0
  const NULL_INDEX: nat := 0xFFFF_FFFF
  const OP_RETURN := 0x6a

  datatype TxOut = TxOut(nValue: int, script: seq<int>) {
    predicate IsNull() {
      nValue == -1
    }

    predicate IsUnspendable() {
      script != [] && script[0] == OP_RETURN
    }
  }

  const NULL_OUT := TxOut(-1, [])

  datatype OutPoint = OutPoint(hash: Txid, n: nat) {
    predicate IsNull() {
      hash == NULL_HASH && n == NULL_INDEX
    }
  }

  datatype Tx = Tx(id: Txid, nVersion: int, vin: seq<OutPoint>, vout: seq<TxOut>) {
    predicate IsCoinBase() {
      |vin| == 1 && vin[0].IsNull()
    }
  }

  /** A coin record: the outputs of one transaction that are not spent yet, with metadata. */
  datatype Coins = Coins(fCoinBase: bool, vout: seq<TxOut>, nHeight: nat, nVersion: int) {
    predicate IsAvailable(n: nat) {
      n < |vout| && !vout[n].IsNull()
    }

    predicate IsPruned() {
      forall i :: 0 <= i < |vout| ==> vout[i].IsNull()
    }

    /** No spent output at the end, and every spent output is the canonical null output. */
    ghost predicate Clean() {
      && (vout != [] ==> !vout[|vout| - 1].IsNull())
      && forall i :: 0 <= i < |vout| && vout[i].IsNull() ==> vout[i] == NULL_OUT
    }
  }

  const EMPTY_COINS := Coins(false, [], 0, 0)

  /** The equality of coin records: all pruned records are equal. */
  predicate SameCoins(a: Coins, b: Coins) {
    (a.IsPruned() && b.IsPruned()) || a == b
  }

  /** What one input's undo record holds; the metadata only when the last output was spent. */
  datatype TxInUndo = TxInUndo(txout: TxOut, fCoinBase: bool, nHeight: nat, nVersion: int) {
    /** A null output has only one representation. */
    ghost predicate Canonical() {
      txout.IsNull() ==> txout == NULL_OUT
    }
  }

  type TxUndo = seq<TxInUndo>

  // ---------- what storing keeps ----------

  /** A version as it comes back from disk: of a negative one only the lowest seven bits. */
  function StoredVersion(v: int): (r: int)
    ensures 0 <= r && (v >= 0 ==> r == v)
  {
    if v >= 0 then v else v % 128
  }

  function StoredCoins(c: Coins): Coins {
    c.(nVersion := StoredVersion(c.nVersion))
  }

  /** An undo record as it comes back from disk, where the version goes with a nonzero height only. */
  function StoredUndo(u: TxInUndo): TxInUndo {
    u.(nVersion := if u.nHeight > 0 then StoredVersion(u.nVersion) else 0)
  }

  function StoredTxUndo(us: TxUndo): (r: TxUndo)
    ensures |r| == |us| && forall i :: 0 <= i < |us| ==> r[i] == StoredUndo(us[i])
  {
    seq(|us|, i requires 0 <= i < |us| => StoredUndo(us[i]))
  }

  function StoredBlockUndo(us: seq<TxUndo>): (r: seq<TxUndo>)
    ensures |r| == |us| && forall i :: 0 <= i < |us| ==> r[i] == StoredTxUndo(us[i])
  {
    seq(|us|, i requires 0 <= i < |us| => StoredTxUndo(us[i]))
  }

  // ---------- operations on one record ----------

  /** Drops the spent outputs at the end. */
  function Trim(v: seq<TxOut>): (r: seq<TxOut>)
    ensures |r| <= |v| && r == v[..|r|]
    ensures r != [] ==> !r[|r| - 1].IsNull()
    ensures forall i :: |r| <= i < |v| ==> v[i].IsNull()
  {
    if v != [] && v[|v| - 1].IsNull() then Trim(v[..|v| - 1]) else v
  }

  /** The cleanup loop computes Trim. */
  method Cleanup(v: seq<TxOut>) returns (r: seq<TxOut>)
    ensures r == Trim(v)
  {
    r := v;
    while |r| > 0 && r[|r| - 1].IsNull()
      invariant Trim(r) == Trim(v)
    {
      r := r[..|r| - 1];
    }
  }

  function NullUnspendable(v: seq<TxOut>): (r: seq<TxOut>)
    ensures |r| == |v|
    ensures forall i :: 0 <= i < |v| ==> r[i] == if v[i].IsUnspendable() then NULL_OUT else v[i]
  {
    seq(|v|, i requires 0 <= i < |v| => if v[i].IsUnspendable() then NULL_OUT else v[i])
  }

  function ClearUnspendable(c: Coins): Coins {
    c.(vout := Trim(NullUnspendable(c.vout)))
  }

  function FromTx(tx: Tx, h: nat): Coins {
    ClearUnspendable(Coins(tx.IsCoinBase(), tx.vout, h, tx.nVersion))
  }

  function Spend(c: Coins, n: nat): Coins
    requires c.IsAvailable(n)
  {
    c.(vout := Trim(c.vout[n := NULL_OUT]))
  }

  /** The undo record of spending output n, given the record before the spend. */
  function UndoOf(c: Coins, n: nat): TxInUndo
    requires c.IsAvailable(n)
  {
    if Spend(c, n).vout == [] then TxInUndo(c.vout[n], c.fCoinBase, c.nHeight, c.nVersion)
    else TxInUndo(c.vout[n], false, 0, 0)
  }

  /** Grows v with null outputs until it has more than n, then stores o at n. */
  function PlaceAt(v: seq<TxOut>, n: nat, o: TxOut): (r: seq<TxOut>)
    ensures n < |r| && r[n] == o
  {
    var w := if |v| < n + 1 then v + seq(n + 1 - |v|, _ => NULL_OUT) else v;
    w[n := o]
  }

  /** Puts a spent output back; the flag says that nothing was inconsistent. */
  function Restore(c: Coins, n: nat, undo: TxInUndo): (Coins, bool) {
    var meta := undo.nHeight != 0;
    var c1 := if meta then Coins(undo.fCoinBase, [], undo.nHeight, undo.nVersion) else c;
    var ok := (meta <==> c.IsPruned()) && !c1.IsAvailable(n);
    (c1.(vout := Trim(PlaceAt(c1.vout, n, undo.txout))), ok)
  }

  /** Trimming loses nothing that placing the output back does not bring back. */
  lemma PlaceBack(c: Coins, n: nat)
    requires c.Clean() && c.IsAvailable(n)
    ensures PlaceAt(Spend(c, n).vout, n, c.vout[n]) == c.vout
    ensures Trim(c.vout) == c.vout
  {
    var v := c.vout;
    var spent := v[n := NULL_OUT];
    var s := Trim(spent);
    if |s| < |v| {
      assert spent[|v| - 1].IsNull();
      assert |v| == n + 1;
      forall i | 0 <= i < |v|
        ensures PlaceAt(s, n, v[n])[i] == v[i]
      {
        if |s| <= i < n { assert spent[i].IsNull(); }
      }
    }
  }

  lemma SpendClean(c: Coins, n: nat)
    requires c.Clean() && c.IsAvailable(n)
    ensures Spend(c, n).Clean()
    ensures Spend(c, n).IsPruned() <==> Spend(c, n).vout == []
    ensures !Spend(c, n).IsAvailable(n)
  {
    hide Trim;
    var spent := c.vout[n := NULL_OUT];
    var s := Trim(spent);
    assert forall i :: 0 <= i < |s| ==> s[i] == spent[i];
    assert forall i :: 0 <= i < |spent| && spent[i].IsNull() ==> spent[i] == NULL_OUT;
  }

  /** Undo from disk restores a record, unless the spend used it up and it had height zero.  The version is
      the stored one if the record was used up, and otherwise that of what was left of it. */
  lemma RestoreUndoesSpend(c: Coins, n: nat, left: Coins)
    requires c.Clean() && c.IsAvailable(n)
    requires left.vout == Spend(c, n).vout
    requires left.vout != [] ==> left == Spend(c, n).(nVersion := left.nVersion)
    ensures
      var (r, ok) := Restore(left, n, StoredUndo(UndoOf(c, n)));
      && (ok <==> (left.vout != [] || c.nHeight != 0))
      && (ok ==> r == c.(nVersion := if left.vout != [] then left.nVersion else StoredVersion(c.nVersion)))
  {
    hide Trim, PlaceAt, Coins.Clean;
    PlaceBack(c, n);
    SpendClean(c, n);
    assert Spend(c, n) == c.(vout := Spend(c, n).vout);
    assert left.vout == [] ==> PlaceAt([], n, c.vout[n]) == c.vout;
  }

  // ---------- the set ----------

  type UtxoSet = map<Txid, Coins>

  ghost predicate WellFormed(m: UtxoSet) {
    forall t :: t in m ==> m[t].Clean() && m[t].vout != []
  }

  function Get(m: UtxoSet, t: Txid): Coins {
    if t in m then m[t] else EMPTY_COINS
  }

  function Put(m: UtxoSet, t: Txid, c: Coins): UtxoSet {
    if c.IsPruned() then m - {t} else m[t := c]
  }

  predicate Available(m: UtxoSet, o: OutPoint) {
    Get(m, o.hash).IsAvailable(o.n)
  }

  predicate HaveInputs(m: UtxoSet, tx: Tx) {
    tx.IsCoinBase() || forall i :: 0 <= i < |tx.vin| ==> Available(m, tx.vin[i])
  }

  /** The set after spending one available output. */
  function AfterSpend(m: UtxoSet, o: OutPoint): UtxoSet
    requires Available(m, o)
  {
    Put(m, o.hash, Spend(Get(m, o.hash), o.n))
  }

  /** Spends the inputs in order; None where the code would stop at its assertion. */
  function SpendInputs(m: UtxoSet, vin: seq<OutPoint>): Option<(UtxoSet, TxUndo)>
    decreases |vin|
  {
    if vin == [] then Some((m, []))
    else if !Available(m, vin[0]) then None
    else
      match SpendInputs(AfterSpend(m, vin[0]), vin[1..])
      case None => None
      case Some((m', us)) => Some((m', [UndoOf(Get(m, vin[0].hash), vin[0].n)] + us))
  }

  /** UpdateCoins: spends the inputs unless the transaction is a coinbase, then adds the outputs. */
  function ApplyTx(m: UtxoSet, tx: Tx, h: nat): Option<(UtxoSet, TxUndo)> {
    match SpendInputs(m, if tx.IsCoinBase() then [] else tx.vin)
    case None => None
    case Some((m', us)) => Some((Put(m', tx.id, FromTx(tx, h)), us))
  }

  /** The transaction loop of ConnectBlock; the undo list has one entry per transaction. */
  function ApplyTxs(m: UtxoSet, txs: seq<Tx>, h: nat): Option<(UtxoSet, seq<TxUndo>)>
    decreases |txs|
  {
    if txs == [] then Some((m, []))
    else if !HaveInputs(m, txs[0]) then None
    else
      match ApplyTx(m, txs[0], h)
      case None => None
      case Some((m1, u)) =>
        match ApplyTxs(m1, txs[1..], h)
        case None => None
        case Some((m', us)) => Some((m', [u] + us))
  }

  function RestoreInput(m: UtxoSet, o: OutPoint, undo: TxInUndo): (UtxoSet, bool) {
    var (c, ok) := Restore(Get(m, o.hash), o.n, undo);
    (Put(m, o.hash, c), ok)
  }

  /** Restores the inputs of one transaction, last one first. */
  function RestoreInputs(m: UtxoSet, vin: seq<OutPoint>, us: TxUndo): (UtxoSet, bool)
    requires |vin| == |us|
  {
    if vin == [] then (m, true)
    else
      var (m1, ok1) := RestoreInputs(m, vin[1..], us[1..]);
      var (m0, ok0) := RestoreInput(m1, vin[0], us[0]);
      (m0, ok1 && ok0)
  }

  /** Removes the outputs of tx, and says whether they were exactly those of the block. */
  function RemoveOutputs(m: UtxoSet, tx: Tx, h: nat): (UtxoSet, bool) {
    var outs := ClearUnspendable(Get(m, tx.id));
    var outsBlock := FromTx(tx, h);
    var fixed := if outsBlock.nVersion < 0 then outs.(nVersion := outsBlock.nVersion) else outs;
    (m - {tx.id}, SameCoins(fixed, outsBlock))
  }

  /** Undoes one transaction: removes its outputs, then restores its inputs unless it is the
      block's first. */
  function UndoTx(m: UtxoSet, tx: Tx, u: TxUndo, h: nat, first: bool): (UtxoSet, bool)
    requires !first ==> |u| == |tx.vin|
  {
    var (m1, ok1) := RemoveOutputs(m, tx, h);
    var (m2, ok2) := if first then (m1, true) else RestoreInputs(m1, tx.vin, u);
    (m2, ok1 && ok2)
  }

  /** The undo loop of DisconnectBlock, last transaction first; `first` tells whether txs[0] is
      the block's first transaction, whose inputs are not restored. */
  function UndoTxs(m: UtxoSet, txs: seq<Tx>, us: seq<TxUndo>, h: nat, first: bool): (UtxoSet, bool)
    requires |txs| == |us|
    requires forall i :: (if first then 1 else 0) <= i < |txs| ==> |us[i]| == |txs[i].vin|
  {
    if txs == [] then (m, true)
    else
      var (m1, ok1) := UndoTxs(m, txs[1..], us[1..], h, false);
      var (m0, ok0) := UndoTx(m1, txs[0], us[0], h, first);
      (m0, ok1 && ok0)
  }

  // ---------- what CheckBlock guarantees ----------

  predicate NoDuplicates<T(==)>(s: seq<T>) {
    forall i, j :: 0 <= i < j < |s| ==> s[i] != s[j]
  }

  predicate CheckTransaction(tx: Tx) {
    && tx.vin != []
    && tx.vout != []
    && (forall i :: 0 <= i < |tx.vout| ==> tx.vout[i].nValue >= 0)
    && NoDuplicates(tx.vin)
  }

  predicate CheckTxs(txs: seq<Tx>) {
    && txs != []
    && txs[0].IsCoinBase()
    && (forall i :: 1 <= i < |txs| ==> !txs[i].IsCoinBase())
    && (forall i :: 0 <= i < |txs| ==> CheckTransaction(txs[i]))
  }

  /** The ids are hashes of the transactions: equal ids, equal transactions. */
  predicate IdsIdentify(txs: seq<Tx>) {
    forall i, j :: 0 <= i < |txs| && 0 <= j < |txs| && txs[i].id == txs[j].id ==> txs[i] == txs[j]
  }

  /** The BIP 30 test: no transaction of the block is in the set already. */
  predicate NoOverwrite(m: UtxoSet, txs: seq<Tx>) {
    forall i :: 0 <= i < |txs| ==> txs[i].id !in m
  }

  ghost predicate DistinctIds(txs: seq<Tx>) {
    forall i, j :: 0 <= i < j < |txs| ==> txs[i].id != txs[j].id
  }

  // ---------- spending ----------

  /** The records that were created at height zero. */
  ghost function AtZero(m: UtxoSet): set<Txid> {
    set t | t in m && m[t].nHeight == 0
  }

  /** Spending takes away one output and nothing else. */
  lemma SpendTakesOne(m: UtxoSet, o: OutPoint)
    requires WellFormed(m) && Available(m, o)
    ensures WellFormed(AfterSpend(m, o)) && AfterSpend(m, o).Keys <= m.Keys
    ensures forall q: OutPoint :: Available(AfterSpend(m, o), q) == (q != o && Available(m, q))
  {
    hide Trim;
    var c := Get(m, o.hash);
    var s := Spend(c, o.n);
    SpendClean(c, o.n);
    var spent := c.vout[o.n := NULL_OUT];
    forall q: OutPoint
      ensures Available(AfterSpend(m, o), q) == (q != o && Available(m, q))
    {
      if q.hash == o.hash {
        assert s.IsAvailable(q.n) == (q.n < |spent| && !spent[q.n].IsNull());
        assert s.IsPruned() ==> !s.IsAvailable(q.n);
        assert q == OutPoint(o.hash, q.n);
      }
    }
  }

  /** No version is one that would be lost on disk. */
  ghost predicate VersionsKnown(m: UtxoSet) {
    forall t :: t in m ==> m[t].nVersion >= 0
  }

  /** w is m, but some records may have been to disk and back. */
  ghost predicate Like(m: UtxoSet, w: UtxoSet) {
    && (forall t :: t in m <==> t in w)
    && (forall t :: t in m ==> w[t] == m[t] || w[t] == StoredCoins(m[t]))
  }

  /** r is m, with the versions of w where w has the record, and the stored ones elsewhere. */
  ghost predicate Undone(m: UtxoSet, w: UtxoSet, r: UtxoSet) {
    && (forall t :: t in m <==> t in r)
    && (forall t :: t in m ==>
          r[t] == m[t].(nVersion := if t in w then w[t].nVersion else StoredVersion(m[t].nVersion)))
  }

  /** `undone`, an undo from w of the change from m to a set like w, is reported clean exactly when the change
      kept every record of height zero, and a clean undo is exact up to versions. */
  ghost predicate Inverts(m: UtxoSet, m': UtxoSet, w: UtxoSet, undone: (UtxoSet, bool)) {
    && AtZero(m') <= AtZero(m)
    && (undone.1 <==> AtZero(m') == AtZero(m))
    && (undone.1 ==> Undone(m, w, undone.0))
  }

  /** Every record of m' is in `added`, or was in m with the same height and version. */
  ghost predicate KeepsOrigin(m: UtxoSet, m': UtxoSet, added: set<Txid>) {
    forall t :: t in m' && t !in added ==> t in m && m'[t].nHeight == m[t].nHeight && m'[t].nVersion == m[t].nVersion
  }

  /** An undo gives back what was there, up to storing. */
  lemma UndoneLike(m: UtxoSet, m': UtxoSet, added: set<Txid>, w: UtxoSet, r: UtxoSet)
    requires KeepsOrigin(m, m', added) && added !! m.Keys && Like(m', w) && Undone(m, w, r)
    ensures Like(m, r)
  {
  }

  /** Undoing two changes in turn. */
  lemma UndoneTwice(
      m: UtxoSet, m1: UtxoSet, m': UtxoSet, added: set<Txid>, added': set<Txid>, w: UtxoSet, w1: UtxoSet, r: UtxoSet)
    requires KeepsOrigin(m, m1, added) && KeepsOrigin(m1, m', added') && added !! m.Keys && added' !! m.Keys
    requires Like(m', w) && Undone(m1, w, w1) && Undone(m, w1, r)
    ensures Undone(m, w, r)
  {
    forall t | t in m
      ensures r[t] == m[t].(nVersion := if t in w then w[t].nVersion else StoredVersion(m[t].nVersion))
    {
      assert t in w ==> t in m' && t in m1;
      assert t in m1 <==> t in w1;
    }
  }

  lemma RestoreInputUndoes(m: UtxoSet, o: OutPoint, w: UtxoSet)
    requires WellFormed(m) && Available(m, o) && Like(AfterSpend(m, o), w)
    ensures
      var m1 := AfterSpend(m, o);
      && KeepsOrigin(m, m1, {})
      && Inverts(m, m1, w, RestoreInput(w, o, StoredUndo(UndoOf(Get(m, o.hash), o.n))))
  {
    hide Trim, Restore, UndoOf, Spend, AtZero;
    SpendOrigin(m, o);
    var c := Get(m, o.hash);
    SpendClean(c, o.n);
    RestoreUndoesSpend(c, o.n, Get(w, o.hash));
    var (r, ok) := Restore(Get(w, o.hash), o.n, StoredUndo(UndoOf(c, o.n)));
    assert ok ==> !r.IsPruned() by { assert c.IsAvailable(o.n); }
  }

  /** What a spend leaves of the records and their metadata. */
  lemma SpendOrigin(m: UtxoSet, o: OutPoint)
    requires WellFormed(m) && Available(m, o)
    ensures
      var m1, c := AfterSpend(m, o), Get(m, o.hash);
      && KeepsOrigin(m, m1, {})
      && AtZero(m1) <= AtZero(m)
      && (AtZero(m1) == AtZero(m) <==> Spend(c, o.n).vout != [] || c.nHeight != 0)
  {
    hide Trim;
    var c := Get(m, o.hash);
    var m1 := AfterSpend(m, o);
    SpendClean(c, o.n);
    if Spend(c, o.n).vout == [] {
      assert AtZero(m1) == AtZero(m) - {o.hash};
      assert o.hash in AtZero(m) <==> c.nHeight == 0;
    } else {
      assert AtZero(m1) == AtZero(m);
    }
  }

  /** Restoring the inputs of a transaction inverts spending them, exactly when no record of
      height zero was used up. */
  lemma {:induction false} RestoreInputsUndoes(m: UtxoSet, vin: seq<OutPoint>, w: UtxoSet)
    requires WellFormed(m) && SpendInputs(m, vin).Some? && Like(SpendInputs(m, vin).value.0, w)
    ensures
      var (m', us) := SpendInputs(m, vin).value;
      && |us| == |vin|
      && WellFormed(m') && KeepsOrigin(m, m', {})
      && Inverts(m, m', w, RestoreInputs(w, vin, StoredTxUndo(us)))
    decreases |vin|
  {
    hide AtZero, WellFormed, Available, AfterSpend, RestoreInput, UndoOf, Like, Undone, StoredUndo;
    if vin == [] {
      UndoneSelf(m, w);
    } else {
      var m1 := AfterSpend(m, vin[0]);
      SpendTakesOne(m, vin[0]);
      RestoreInputsUndoes(m1, vin[1..], w);
      var (m', us1) := SpendInputs(m1, vin[1..]).value;
      var us := SpendInputs(m, vin).value.1;
      assert us[1..] == us1;
      assert StoredTxUndo(us)[1..] == StoredTxUndo(us1);
      var (w1, ok1) := RestoreInputs(w, vin[1..], StoredTxUndo(us1));
      if ok1 {
        UndoneLike(m1, m', {}, w, w1);
        RestoreInputUndoes(m, vin[0], w1);
        var (r, ok) := RestoreInput(w1, vin[0], StoredUndo(us[0]));
        if ok { UndoneTwice(m, m1, m', {}, {}, w, w1, r); }
      } else {
        LikeSelf(m1);
        RestoreInputUndoes(m, vin[0], m1);
      }
    }
  }

  lemma LikeSelf(m: UtxoSet)
    ensures Like(m, m)
  {
  }

  /** Nothing changed, nothing undone. */
  lemma UndoneSelf(m: UtxoSet, w: UtxoSet)
    requires Like(m, w)
    ensures Undone(m, w, w)
  {
  }

  /** Distinct available inputs can all be spent: the assertion in UpdateCoins does not fire. */
  lemma {:induction false} DistinctInputsSpend(m: UtxoSet, vin: seq<OutPoint>)
    requires WellFormed(m) && NoDuplicates(vin)
    requires forall i :: 0 <= i < |vin| ==> Available(m, vin[i])
    ensures SpendInputs(m, vin).Some?
    decreases |vin|
  {
    if vin != [] {
      SpendTakesOne(m, vin[0]);
      var m1 := AfterSpend(m, vin[0]);
      forall i | 0 <= i < |vin[1..]|
        ensures Available(m1, vin[1..][i])
      {
        assert vin[1..][i] == vin[i + 1];
      }
      DistinctInputsSpend(m1, vin[1..]);
    }
  }
}
