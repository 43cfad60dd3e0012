/** The coin views as the node holds them: the database and the caches stacked on it, mutated in
    place.  Every method says what happens to the plain map that the top of the stack shows. */
module CoinsViews {
  import opened Wrappers
  import opened Utxo
  import opened CoinsCache

  /** The loop of BatchWrite over the child's entries, which it consumes in any order. */
  method BatchWrite(ours: CoinsMap, theirs: CoinsMap) returns (merged: CoinsMap)
    requires forall t :: t in theirs && theirs[t].isDirty && t !in ours && !theirs[t].coins.IsPruned() ==>
      theirs[t].isFresh
    ensures Merged(ours, theirs, merged)
  {
    merged := ours;
    var rest := theirs;
    while rest != map[]
      invariant rest.Keys <= theirs.Keys
      invariant forall t :: t in rest ==> rest[t] == theirs[t]
      invariant forall t :: t in rest ==> Lookup(merged, t) == Lookup(ours, t)
      invariant forall t :: t !in rest ==>
                  Lookup(merged, t) == if t in theirs then MergeOne(Lookup(ours, t), theirs[t]) else Lookup(ours, t)
      decreases |rest|
    {
      var t :| t in rest;
      ghost var before := merged;
      var e := rest[t];
      if e.isDirty {
        if t !in merged {
          if !e.coins.IsPruned() {
            assert Lookup(ours, t) == Lookup(merged, t) == None;
            assert e.isFresh;
            merged := merged[t := CacheEntry(e.coins, true, true)];
          }
        } else if merged[t].isFresh && e.coins.IsPruned() {
          merged := merged - {t};
        } else {
          merged := merged[t := merged[t].(coins := e.coins, isDirty := true)];
        }
      }
      assert Lookup(merged, t) == MergeOne(Lookup(before, t), e);
      assert forall s :: s != t ==> Lookup(merged, s) == Lookup(before, s);
      assert Lookup(before, t) == Lookup(ours, t);
      rest := rest - {t};
    }
  }

  /** The same loop writing into the database. */
  method BatchStore(db: UtxoSet, theirs: CoinsMap) returns (db': UtxoSet)
    ensures Stored(db, theirs, db')
  {
    db' := db;
    var rest := theirs;
    while rest != map[]
      invariant rest.Keys <= theirs.Keys
      invariant forall t :: t in rest ==> rest[t] == theirs[t]
      invariant forall t :: t in rest ==> Lookup(db', t) == Lookup(db, t)
      invariant forall t :: t !in rest ==>
                  Lookup(db', t) == if t in theirs then Lookup(StoreOne(db, t, theirs[t]), t) else Lookup(db, t)
      decreases |rest|
    {
      var t :| t in rest;
      ghost var before := db';
      db' := StoreOne(db', t, rest[t]);
      assert Lookup(before, t) == Lookup(db, t);
      assert Lookup(db', t) == Lookup(StoreOne(db, t, theirs[t]), t);
      assert forall s :: s != t ==> Lookup(db', s) == Lookup(before, s);
      rest := rest - {t};
    }
  }

  class Views {
    var db: UtxoSet
    var dbBest: Hash
    var layers: seq<Layer>
    var modifier: Option<Txid>

    ghost predicate Valid()
      reads this
    {
      StackOk(db, layers, modifier)
    }

    /** The unspent outputs that the top cache shows. */
    ghost function Top(): UtxoSet
      reads this
    {
      View(db, layers)
    }

    ghost function BestBlock(): Hash
      reads this
    {
      Best(dbBest, layers)
    }

    constructor (db0: UtxoSet, best0: Hash)
      requires WellFormed(db0)
      ensures Valid() && modifier == None && layers == [] && db == db0 && dbBest == best0
    {
      db, dbBest, layers, modifier := db0, best0, [], None;
    }

    /** A new cache on top of the stack. */
    method PushCache()
      requires Valid() && modifier == None
      modifies this`layers
      ensures Valid()
      ensures |layers| == |old(layers)| + 1 && layers[..|layers| - 1] == old(layers)
      ensures layers[|layers| - 1] == Layer(map[], NULL_HASH)
      ensures Top() == old(Top()) && BestBlock() == old(BestBlock())
    {
      ghost var before := layers;
      layers := layers + [Layer(map[], NULL_HASH)];
      assert layers[..|layers| - 1] == before;
      SameReadings(Overlay(View(db, before), map[]), View(db, before));
    }

    /** The top cache is destroyed; what it held is forgotten. */
    method DropCache()
      requires Valid() && modifier == None && layers != []
      modifies this`layers
      ensures Valid() && layers == old(layers)[..|old(layers)| - 1]
    {
      layers := layers[..|layers| - 1];
    }

    method FetchCoins(t: Txid) returns (r: Option<Coins>)
      requires Valid() && modifier == None
      modifies this`layers
      ensures Valid() && Top() == old(Top()) && BestBlock() == old(BestBlock())
      ensures SameBase(db, dbBest, old(layers), layers)
      ensures r.None? ==> t !in Top()
      ensures r.Some? ==> r.value.Clean() && Lookup(Top(), t) == (if r.value.IsPruned() then None else r)
    {
      hide Fetch, View, StackOk, SameBase, SameStack, Best, Coins.Clean, Coins.IsPruned;
      FetchReadsView(db, layers, t);
      SameStackBase(db, dbBest, layers, Fetch(db, layers, t).0);
      var fetched := Fetch(db, layers, t);
      layers, r := fetched.0, fetched.1;
    }

    /** Tests for an empty output list only; trimming makes that the same as "not pruned". */
    method HaveCoins(t: Txid) returns (b: bool)
      requires Valid() && modifier == None
      modifies this`layers
      ensures Valid() && Top() == old(Top()) && BestBlock() == old(BestBlock())
      ensures SameBase(db, dbBest, old(layers), layers)
      ensures b <==> t in Top()
    {
      var r := FetchCoins(t);
      b := r.Some? && r.value.vout != [];
    }

    method HaveInputs(tx: Tx) returns (b: bool)
      requires Valid() && modifier == None
      modifies this`layers
      ensures Valid() && Top() == old(Top()) && BestBlock() == old(BestBlock())
      ensures SameBase(db, dbBest, old(layers), layers)
      ensures b == Utxo.HaveInputs(Top(), tx)
    {
      hide StackOk, View;
      b := true;
      if !tx.IsCoinBase() {
        var i := 0;
        while i < |tx.vin|
          invariant 0 <= i <= |tx.vin|
          invariant Valid() && modifier == None && Top() == old(Top()) && BestBlock() == old(BestBlock())
          invariant SameBase(db, dbBest, old(layers), layers)
          invariant forall j :: 0 <= j < i ==> Available(Top(), tx.vin[j])
        {
          var coins := FetchCoins(tx.vin[i].hash);
          if coins.None? || !coins.value.IsAvailable(tx.vin[i].n) {
            assert !Available(Top(), tx.vin[i]);
            return false;
          }
          i := i + 1;
        }
      }
    }

    /** Hands out a record for modification. */
    method ModifyCoins(t: Txid) returns (c: Coins)
      requires Valid() && modifier == None && layers != []
      modifies this`layers, this`modifier
      ensures Valid() && modifier == Some(t) && layers != []
      ensures Top() == old(Top()) && BestBlock() == old(BestBlock())
      ensures SameBase(db, dbBest, old(layers), layers)
      ensures c.Clean()
      ensures Lookup(Top(), t) == (if c.IsPruned() then None else Some(c))
    {
      hide Acquire, View, StackOk, SameBase, SameStack, Best, Coins.Clean, Coins.IsPruned;
      AcquireReadsView(db, layers, t);
      SameStackBase(db, dbBest, layers, Acquire(db, layers, t));
      SameBaseSize(db, dbBest, layers, Acquire(db, layers, t));
      layers := Acquire(db, layers, t);
      modifier := Some(t);
      c := layers[|layers| - 1].cacheCoins[t].coins;
    }

    /** Stores c in the record handed out, and ends the modification. */
    method WriteCoins(c: Coins)
      requires Valid() && modifier.Some? && layers != []
      requires c.(vout := Trim(c.vout)).Clean()
      modifies this`layers, this`modifier
      ensures Valid() && modifier == None && layers != []
      ensures Top() == Put(old(Top()), old(modifier).value, c.(vout := Trim(c.vout)))
      ensures BestBlock() == old(BestBlock())
      ensures SameBase(db, dbBest, old(layers), layers)
    {
      var n := |layers| - 1;
      var t, cache := modifier.value, layers[n].cacheCoins;
      ghost var before, base := layers, layers[..n];
      var written := cache[t := cache[t].(coins := c)];
      layers := layers[n := layers[n].(cacheCoins := Released(written, t))];
      modifier := None;
      assert layers[..n] == base;
      forall k | 0 <= k <= n
        ensures layers[..k] == before[..k]
      {
      }
      ghost var below := View(db, base);
      ReleaseWrites(below, TopKeys(base), written, t);
      var trimmed := c.(vout := Trim(c.vout));
      hide Released, CacheOk, StackOk;
      forall s
        ensures Lookup(View(db, layers), s) == Lookup(Put(View(db, before), t, trimmed), s)
      {
        assert Lookup(View(db, layers), s) == Seen(below, layers[n].cacheCoins, s);
        assert Lookup(View(db, before), s) == Seen(below, cache, s);
        assert s != t ==> Seen(below, written, s) == Seen(below, cache, s);
      }
      SameReadings(View(db, layers), Put(View(db, before), t, trimmed));
    }

    method GetBestBlock() returns (h: Hash)
      requires Valid() && modifier == None
      modifies this`layers
      ensures Valid() && Top() == old(Top()) && BestBlock() == old(BestBlock()) == h
      ensures SameBase(db, dbBest, old(layers), layers)
      ensures layers != [] ==> layers[|layers| - 1].hashBlock == h
    {
      ghost var before := layers;
      FetchBestKeeps(dbBest, layers);
      h := Best(dbBest, layers);
      layers := FetchBest(dbBest, layers);
      hide FetchBest, StackOk, View, Best;
      assert layers[..|layers|] == layers && before[..|before|] == before;
      forall k | 0 <= k <= |before|
        ensures View(db, layers[..k]) == View(db, before[..k])
      {
        CachesDecideView(db, before[..k], layers[..k], None);
      }
      CachesDecideView(db, before, layers, None);
    }

    method SetBestBlock(h: Hash)
      requires Valid() && modifier == None && layers != []
      modifies this`layers
      ensures Valid() && layers != [] && Top() == old(Top())
      ensures BestBlock() == if h != NULL_HASH then h else Best(dbBest, old(layers)[..|old(layers)| - 1])
      ensures layers[|layers| - 1].hashBlock == h
      ensures SameBase(db, dbBest, old(layers), layers)
    {
      var n := |layers| - 1;
      ghost var before := layers;
      layers := layers[n := layers[n].(hashBlock := h)];
      CachesDecideView(db, before, layers, None);
      assert forall k :: 0 <= k <= n ==> layers[..k] == before[..k];
    }

    /** Pushes the top cache into the view below and empties it: the view below becomes what the
        top showed, the top still shows the same, and nothing further down changes.  Into the database, records
        go in their stored form. */
    method Flush()
      requires Valid() && modifier == None && layers != []
      modifies this`layers, this`db, this`dbBest
      ensures Valid() && |layers| == |old(layers)|
      ensures View(db, layers[..|layers| - 1]) == Top()
      ensures if |layers| >= 2 then Top() == old(Top()) else db == Top() && Like(old(Top()), Top())
      ensures VersionsKnown(old(db)) ==> VersionsKnown(db)
      ensures layers[|layers| - 1] == Layer(map[], old(layers)[|layers| - 1].hashBlock)
      ensures |layers| >= 2 ==> layers[|layers| - 2].hashBlock == old(layers)[|layers| - 1].hashBlock
      ensures |layers| >= 2 ==>
        db == old(db) && dbBest == old(dbBest) && layers[..|layers| - 2] == old(layers)[..|layers| - 2]
      ensures old(layers)[|layers| - 1].hashBlock != NULL_HASH || |layers| == 1 ==>
                Best(dbBest, layers[..|layers| - 1]) == BestBlock() == old(BestBlock())
    {
      hide View, StackOk, Best, Stored, Merged, CacheOk, WellFormed, Like, VersionsKnown;
      var n := |layers| - 1;
      var top := layers[n];
      if n == 0 {
        var db' := BatchStore(db, top.cacheCoins);
        FlushedToDatabase(db, dbBest, layers, db');
        if VersionsKnown(db) { StoredVersions(db, top.cacheCoins, db'); }
        db := db';
        if top.hashBlock != NULL_HASH { dbBest := top.hashBlock; }
        layers := [Layer(map[], top.hashBlock)];
      } else {
        AssertionHolds(db, layers);
        var merged := BatchWrite(layers[n - 1].cacheCoins, top.cacheCoins);
        FlushedToParent(db, dbBest, layers, merged);
        layers := layers[n - 1 := Layer(merged, top.hashBlock)][n := Layer(map[], top.hashBlock)];
      }
    }

    /** A flush of the lowest cache that the database refuses: the entries are gone, and nothing is written. */
    method LoseCache()
      requires Valid() && modifier == None && |layers| == 1
      modifies this`layers
      ensures Valid() && |layers| == 1 && Top() == db && BestBlock() == old(BestBlock())
    {
      hide View, StackOk, Best, WellFormed;
      ghost var top := layers[0];
      assert layers == [] + [top];
      StackParts(db, [], top);
      EmptyTop(db, [], top.hashBlock);
      NoCaches(db, dbBest);
      BestTop(dbBest, [], top);
      BestTop(dbBest, [], Layer(map[], top.hashBlock));
      layers := [Layer(map[], layers[0].hashBlock)];
      assert layers == [] + [Layer(map[], top.hashBlock)];
    }
  }
}
