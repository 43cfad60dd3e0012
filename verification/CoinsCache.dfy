/** A stack of write-back caches over the coin database.  Layer k reads through layer k - 1, and the
    lowest layer through the database; each entry carries the DIRTY and FRESH flags.  The theorems
    say that the stack reads like one plain map, whatever is fetched, modified or flushed. */
module CoinsCache {
  import opened Wrappers
  import opened Utxo

  /** A block hash; zero is the null hash. */
  type Hash = nat

  datatype CacheEntry = CacheEntry(coins: Coins, isDirty: bool, isFresh: bool)

  type CoinsMap = map<Txid, CacheEntry>

  datatype Layer = Layer(cacheCoins: CoinsMap, hashBlock: Hash)

  // ---------- what a stack means ----------

  function Lookup<V>(m: map<Txid, V>, t: Txid): Option<V> {
    if t in m then Some(m[t]) else None
  }

  /** What a reader of the cache sees for t, with pruned and absent identified. */
  ghost function Seen(below: UtxoSet, cache: CoinsMap, t: Txid): Option<Coins> {
    if t in cache then (if cache[t].coins.IsPruned() then None else Some(cache[t].coins)) else Lookup(below, t)
  }

  ghost function Overlay(below: UtxoSet, cache: CoinsMap): (r: UtxoSet)
    ensures forall t :: Lookup(r, t) == Seen(below, cache, t)
  {
    map t | t in below.Keys + cache.Keys && Seen(below, cache, t).Some? :: Seen(below, cache, t).value
  }

  ghost function View(db: UtxoSet, layers: seq<Layer>): UtxoSet {
    if layers == [] then db
    else Overlay(View(db, layers[..|layers| - 1]), layers[|layers| - 1].cacheCoins)
  }

  /** Two sets with the same readings are the same set. */
  lemma SameReadings(a: UtxoSet, b: UtxoSet)
    requires forall t :: Lookup(a, t) == Lookup(b, t)
    ensures a == b
  {
    forall t
      ensures t in a <==> t in b
      ensures t in a ==> a[t] == b[t]
    {
      assert Lookup(a, t) == Lookup(b, t);
    }
  }

  function Best(dbBest: Hash, layers: seq<Layer>): Hash {
    if layers == [] then dbBest
    else
      var top := layers[|layers| - 1];
      if top.hashBlock != NULL_HASH then top.hashBlock else Best(dbBest, layers[..|layers| - 1])
  }

  /** The keys of the top cache, or None when the database itself is on top. */
  function TopKeys(layers: seq<Layer>): Option<set<Txid>> {
    if layers == [] then None else Some(layers[|layers| - 1].cacheCoins.Keys)
  }

  /** What the flags of one entry promise about the parent view: FRESH, that the parent has nothing
      there; not DIRTY, that the parent has the same; not FRESH over a cache, that the parent cache
      holds an entry too. */
  ghost predicate EntryOk(below: UtxoSet, parent: Option<set<Txid>>, t: Txid, e: CacheEntry) {
    && (e.isFresh ==> t !in below)
    && (!e.isDirty ==> if t in below then e.coins == below[t] else e.coins.IsPruned())
    && (!e.isFresh ==> parent.None? || t in parent.value)
  }

  /** The invariant of one cache; `loose` names the entry under modification, if any. */
  ghost predicate CacheOk(below: UtxoSet, parent: Option<set<Txid>>, cache: CoinsMap, loose: Option<Txid>) {
    && (forall t :: t in cache ==> EntryOk(below, parent, t, cache[t]))
    && (forall t :: t in cache && loose != Some(t) ==> cache[t].coins.Clean())
    && (loose.Some? ==> loose.value in cache && cache[loose.value].isDirty)
  }

  ghost predicate StackOk(db: UtxoSet, layers: seq<Layer>, loose: Option<Txid>) {
    if layers == [] then WellFormed(db) && loose.None?
    else
      var base := layers[..|layers| - 1];
      && StackOk(db, base, None)
      && CacheOk(View(db, base), TopKeys(base), layers[|layers| - 1].cacheCoins, loose)
  }

  lemma {:induction false} ViewWellFormed(db: UtxoSet, layers: seq<Layer>)
    requires StackOk(db, layers, None)
    ensures WellFormed(View(db, layers))
    decreases |layers|
  {
    if layers != [] {
      var base := layers[..|layers| - 1];
      ViewWellFormed(db, base);
      var cache := layers[|layers| - 1].cacheCoins;
      forall t | t in View(db, layers)
        ensures View(db, layers)[t].Clean() && View(db, layers)[t].vout != []
      {
        assert Lookup(View(db, layers), t) == Seen(View(db, base), cache, t);
        if t !in cache { assert Lookup(View(db, base), t) == Some(View(db, layers)[t]); }
      }
    }
  }

  // ---------- reading ----------

  /** The cache after its base answered r for t. */
  function Filled(cache: CoinsMap, t: Txid, r: Option<Coins>): CoinsMap {
    match r
    case None => cache
    case Some(c) => cache[t := CacheEntry(c, false, c.IsPruned())]
  }

  /** FetchCoins: the cached entry, or else what the base has, copied into the cache. */
  function Fetch(db: UtxoSet, layers: seq<Layer>, t: Txid): (seq<Layer>, Option<Coins>)
    decreases |layers|
  {
    if layers == [] then (layers, Lookup(db, t))
    else
      var base, top := layers[..|layers| - 1], layers[|layers| - 1];
      if t in top.cacheCoins then (layers, Some(top.cacheCoins[t].coins))
      else
        var (base', r) := Fetch(db, base, t);
        (base' + [top.(cacheCoins := Filled(top.cacheCoins, t, r))], r)
  }

  /** Only the caching differs: same views and best blocks at every depth, no entry lost. */
  ghost predicate SameStack(db: UtxoSet, before: seq<Layer>, after: seq<Layer>) {
    && |after| == |before|
    && (forall k :: 0 <= k <= |before| ==> View(db, after[..k]) == View(db, before[..k]))
    && (forall k :: 0 <= k < |before| ==> after[k].hashBlock == before[k].hashBlock)
    && (before != [] ==> before[|before| - 1].cacheCoins.Keys <= after[|after| - 1].cacheCoins.Keys)
  }

  lemma SameStackExtends(db: UtxoSet, base: seq<Layer>, base': seq<Layer>, top: Layer, top': Layer)
    requires SameStack(db, base, base')
    requires top'.hashBlock == top.hashBlock && top.cacheCoins.Keys <= top'.cacheCoins.Keys
    requires Overlay(View(db, base), top'.cacheCoins) == Overlay(View(db, base), top.cacheCoins)
    ensures SameStack(db, base + [top], base' + [top'])
  {
    hide Overlay;
    var before, after := base + [top], base' + [top'];
    forall k | 0 <= k <= |before|
      ensures View(db, after[..k]) == View(db, before[..k])
    {
      if k < |before| {
        assert after[..k] == base'[..k] && before[..k] == base[..k];
      } else {
        assert after[..k] == after && before[..k] == before;
        assert after[..|base|] == base' && before[..|base|] == base;
        assert base'[..|base|] == base' && base[..|base|] == base;
      }
    }
  }

  /** Puts a top cache back on a base in which only the caching differs. */
  lemma Layered(db: UtxoSet, layers: seq<Layer>, base': seq<Layer>, cache': CoinsMap, loose: Option<Txid>)
    requires layers != []
    requires
      var base, cache := layers[..|layers| - 1], layers[|layers| - 1].cacheCoins;
      && SameStack(db, base, base') && StackOk(db, base', None)
      && CacheOk(View(db, base), TopKeys(base'), cache', loose)
      && cache.Keys <= cache'.Keys
      && Overlay(View(db, base), cache') == Overlay(View(db, base), cache)
    ensures
      var ls := base' + [layers[|layers| - 1].(cacheCoins := cache')];
      StackOk(db, ls, loose) && SameStack(db, layers, ls)
  {
    hide CacheOk, Overlay;
    var base, top := layers[..|layers| - 1], layers[|layers| - 1];
    var top' := top.(cacheCoins := cache');
    assert layers == base + [top];
    SameStackExtends(db, base, base', top, top');
    assert (base' + [top'])[..|base|] == base';
    assert base'[..|base'|] == base' && base[..|base|] == base;
  }

  /** Fetching through any number of caches changes no view, and returns what the view has; a
      pruned record stands for none. */
  lemma {:induction false} FetchReadsView(db: UtxoSet, layers: seq<Layer>, t: Txid)
    requires StackOk(db, layers, None)
    ensures
      var (ls, r) := Fetch(db, layers, t);
      && StackOk(db, ls, None) && SameStack(db, layers, ls)
      && (r.None? ==> t !in View(db, layers))
      && (r.Some? ==>
            && r.value.Clean()
            && Lookup(View(db, layers), t) == (if r.value.IsPruned() then None else r)
            && (layers != [] ==> t in ls[|ls| - 1].cacheCoins))
    decreases |layers|
  {
    hide Overlay, SameStack, View, StackOk, Fetch, CacheOk, Filled;
    if layers == [] {
      FetchFromDatabase(db, t);
    } else {
      var base, top := layers[..|layers| - 1], layers[|layers| - 1];
      assert layers == base + [top];
      StackParts(db, base, top);
      FetchStep(db, base, top, t);
      var below := View(db, base);
      if t in top.cacheCoins {
        CachedEntry(below, TopKeys(base), top.cacheCoins, t);
        SameStackReflexive(db, layers);
      } else {
        assert Lookup(View(db, layers), t) == Seen(below, top.cacheCoins, t);
        FetchReadsView(db, base, t);
        var (base', r) := Fetch(db, base, t);
        SameStackKeys(db, base, base');
        FetchedEntry(below, base, base', top.cacheCoins, t, r);
        Layered(db, layers, base', Filled(top.cacheCoins, t, r), None);
      }
    }
  }

  lemma FetchFromDatabase(db: UtxoSet, t: Txid)
    requires StackOk(db, [], None)
    ensures StackOk(db, [], None) && Fetch(db, [], t) == ([], Lookup(db, t)) && SameStack(db, [], []) &&
      View(db, []) == db
    ensures t in db ==> db[t].Clean() && !db[t].IsPruned()
  {
  }

  lemma FetchStep(db: UtxoSet, base: seq<Layer>, top: Layer, t: Txid)
    ensures
      var layers := base + [top];
      Fetch(db, layers, t) ==
        if t in top.cacheCoins then (layers, Some(top.cacheCoins[t].coins))
        else
          var (base', r) := Fetch(db, base, t);
          (base' + [top.(cacheCoins := Filled(top.cacheCoins, t, r))], r)
  {
    assert (base + [top])[..|base|] == base;
  }

  lemma CachedEntry(below: UtxoSet, parent: Option<set<Txid>>, cache: CoinsMap, t: Txid)
    requires CacheOk(below, parent, cache, None) && t in cache
    ensures cache[t].coins.Clean()
    ensures Lookup(Overlay(below, cache), t) == if cache[t].coins.IsPruned() then None else Some(cache[t].coins)
  {
    hide Overlay;
    assert Lookup(Overlay(below, cache), t) == Seen(below, cache, t);
  }

  lemma SameStackReflexive(db: UtxoSet, layers: seq<Layer>)
    ensures SameStack(db, layers, layers)
  {
  }

  lemma SameStackKeys(db: UtxoSet, base: seq<Layer>, base': seq<Layer>)
    requires SameStack(db, base, base')
    ensures |base'| == |base|
    ensures base != [] ==> base[|base| - 1].cacheCoins.Keys <= base'[|base'| - 1].cacheCoins.Keys
    ensures View(db, base') == View(db, base)
  {
    assert base'[..|base'|] == base' && base[..|base|] == base;
  }

  lemma FetchedEntry(below: UtxoSet, base: seq<Layer>, base': seq<Layer>, cache: CoinsMap, t: Txid, r: Option<Coins>)
    requires CacheOk(below, TopKeys(base), cache, None) && t !in cache
    requires |base'| == |base|
    requires base != [] ==> base[|base| - 1].cacheCoins.Keys <= base'[|base'| - 1].cacheCoins.Keys
    requires r.None? ==> t !in below
    requires r.Some? ==> r.value.Clean() && Lookup(below, t) == (if r.value.IsPruned() then None else r)
    requires r.Some? && base != [] ==> t in base'[|base'| - 1].cacheCoins
    ensures
      var cache' := Filled(cache, t, r);
      && cache.Keys <= cache'.Keys && (r.Some? ==> t in cache')
      && CacheOk(below, TopKeys(base'), cache', None)
      && Overlay(below, cache') == Overlay(below, cache)
  {
    var cache' := Filled(cache, t, r);
    forall s
      ensures Lookup(Overlay(below, cache'), s) == Lookup(Overlay(below, cache), s)
    {
      assert Seen(below, cache', s) == Seen(below, cache, s);
    }
    SameReadings(Overlay(below, cache'), Overlay(below, cache));
  }

  // ---------- modifying ----------

  /** The entry ModifyCoins hands out: the cached one, or one made from what the base has; DIRTY. */
  function AcquiredFrom(db: UtxoSet, base: seq<Layer>, cache: CoinsMap, t: Txid): CacheEntry {
    if t in cache then cache[t].(isDirty := true)
    else
      match Fetch(db, base, t).1
      case None => CacheEntry(EMPTY_COINS, true, true)
      case Some(c) => CacheEntry(c, true, c.IsPruned())
  }

  function AcquireBase(db: UtxoSet, base: seq<Layer>, cache: CoinsMap, t: Txid): seq<Layer> {
    if t in cache then base else Fetch(db, base, t).0
  }

  /** ModifyCoins. */
  function Acquire(db: UtxoSet, layers: seq<Layer>, t: Txid): seq<Layer>
    requires layers != []
  {
    var base, top := layers[..|layers| - 1], layers[|layers| - 1];
    AcquireBase(db, base, top.cacheCoins, t) +
    [top.(cacheCoins := top.cacheCoins[t := AcquiredFrom(db, base, top.cacheCoins, t)])]
  }

  /** The modifier's destructor: cleans the record up, and drops a FRESH one that is pruned. */
  function Released(cache: CoinsMap, t: Txid): CoinsMap
    requires t in cache
  {
    var e := cache[t];
    var c := e.coins.(vout := Trim(e.coins.vout));
    if e.isFresh && c.IsPruned() then cache - {t} else cache[t := e.(coins := c)]
  }

  /** Acquiring a record changes no view and hands out what the view has. */
  lemma AcquireReadsView(db: UtxoSet, layers: seq<Layer>, t: Txid)
    requires layers != [] && StackOk(db, layers, None)
    ensures
      var ls := Acquire(db, layers, t);
      && StackOk(db, ls, Some(t)) && SameStack(db, layers, ls)
      && t in ls[|ls| - 1].cacheCoins
      && var c := ls[|ls| - 1].cacheCoins[t].coins;
      && c.Clean()
      && Lookup(View(db, layers), t) == (if c.IsPruned() then None else Some(c))
  {
    var base, cache := layers[..|layers| - 1], layers[|layers| - 1].cacheCoins;
    AcquiredEntry(db, base, cache, t);
    assert Lookup(View(db, layers), t) == Seen(View(db, base), cache, t);
    hide Overlay, SameStack, CacheOk, AcquireBase, AcquiredFrom;
    Layered(db, layers, AcquireBase(db, base, cache, t), cache[t := AcquiredFrom(db, base, cache, t)], Some(t));
  }

  lemma AcquiredEntry(db: UtxoSet, base: seq<Layer>, cache: CoinsMap, t: Txid)
    requires StackOk(db, base, None) && CacheOk(View(db, base), TopKeys(base), cache, None)
    ensures
      var below, base', e := View(db, base), AcquireBase(db, base, cache, t), AcquiredFrom(db, base, cache, t);
      var cache' := cache[t := e];
      && SameStack(db, base, base') && StackOk(db, base', None)
      && CacheOk(below, TopKeys(base'), cache', Some(t))
      && Overlay(below, cache') == Overlay(below, cache)
      && e.coins.Clean()
      && Seen(below, cache, t) == (if e.coins.IsPruned() then None else Some(e.coins))
  {
    hide Overlay, SameStack, StackOk;
    var below, base', e := View(db, base), AcquireBase(db, base, cache, t), AcquiredFrom(db, base, cache, t);
    if t in cache {
      SameStackReflexive(db, base);
    } else {
      FetchReadsView(db, base, t);
    }
    SameStackKeys(db, base, base');
    var cache' := cache[t := e];
    forall s
      ensures Lookup(Overlay(below, cache'), s) == Lookup(Overlay(below, cache), s)
    {
      assert Seen(below, cache', s) == Seen(below, cache, s);
    }
    SameReadings(Overlay(below, cache'), Overlay(below, cache));
  }

  /** Writing a record and releasing it puts exactly the trimmed record into the view. */
  lemma ReleaseWrites(below: UtxoSet, parent: Option<set<Txid>>, cache: CoinsMap, t: Txid)
    requires CacheOk(below, parent, cache, Some(t))
    requires cache[t].coins.(vout := Trim(cache[t].coins.vout)).Clean()
    ensures CacheOk(below, parent, Released(cache, t), None)
    ensures forall s :: s != t ==> Seen(below, Released(cache, t), s) == Seen(below, cache, s)
    ensures var c := cache[t].coins.(vout := Trim(cache[t].coins.vout));
            Seen(below, Released(cache, t), t) == if c.IsPruned() then None else Some(c)
  {
  }

  // ---------- flushing ----------

  /** BatchWrite of one entry into a parent cache. */
  function MergeOne(ours: Option<CacheEntry>, theirs: CacheEntry): Option<CacheEntry> {
    if !theirs.isDirty then ours
    else if ours.None? then
      if theirs.coins.IsPruned() then None else Some(CacheEntry(theirs.coins, true, true))
    else if ours.value.isFresh && theirs.coins.IsPruned() then None
    else Some(CacheEntry(theirs.coins, true, ours.value.isFresh))
  }

  ghost predicate Merged(ours: CoinsMap, theirs: CoinsMap, merged: CoinsMap) {
    forall t :: Lookup(merged, t) == if t in theirs then MergeOne(Lookup(ours, t), theirs[t]) else Lookup(ours, t)
  }

  lemma MergedEntry(below: UtxoSet, gp: Option<set<Txid>>, ours: CoinsMap, theirs: CoinsMap, merged: CoinsMap, t: Txid)
    requires CacheOk(below, gp, ours, None)
    requires CacheOk(Overlay(below, ours), Some(ours.Keys), theirs, None)
    requires Merged(ours, theirs, merged)
    ensures Seen(below, merged, t) == Seen(Overlay(below, ours), theirs, t)
    ensures t in merged ==> EntryOk(below, gp, t, merged[t]) && merged[t].coins.Clean()
  {
    hide Overlay;
    var mid := Overlay(below, ours);
    assert Lookup(mid, t) == Seen(below, ours, t);
    assert Lookup(merged, t) == if t in theirs then MergeOne(Lookup(ours, t), theirs[t]) else Lookup(ours, t);
    if t in theirs { assert EntryOk(mid, Some(ours.Keys), t, theirs[t]) && theirs[t].coins.Clean(); }
    if t in ours { assert EntryOk(below, gp, t, ours[t]) && ours[t].coins.Clean(); }
    hide CacheOk, Merged, Coins.Clean, Coins.IsPruned;
  }

  /** The parent view after a flush is the child view before it, and the parent's flags are right. */
  lemma FlushMovesView(below: UtxoSet, gp: Option<set<Txid>>, ours: CoinsMap, theirs: CoinsMap, merged: CoinsMap)
    requires CacheOk(below, gp, ours, None)
    requires CacheOk(Overlay(below, ours), Some(ours.Keys), theirs, None)
    requires Merged(ours, theirs, merged)
    ensures CacheOk(below, gp, merged, None)
    ensures Overlay(below, merged) == Overlay(Overlay(below, ours), theirs)
  {
    var mid := Overlay(below, ours);
    hide Overlay, EntryOk;
    forall t
      ensures Seen(below, merged, t) == Seen(mid, theirs, t)
      ensures t in merged ==> EntryOk(below, gp, t, merged[t]) && merged[t].coins.Clean()
    {
      MergedEntry(below, gp, ours, theirs, merged, t);
    }
    SameReadings(Overlay(below, merged), Overlay(mid, theirs));
  }

  /** The assertion in BatchWrite: a dirty unpruned entry the parent cache lacks is FRESH. */
  lemma BatchWriteAssertion(below: UtxoSet, ours: CoinsMap, theirs: CoinsMap, t: Txid)
    requires CacheOk(below, Some(ours.Keys), theirs, None)
    requires t in theirs && theirs[t].isDirty && t !in ours && !theirs[t].coins.IsPruned()
    ensures theirs[t].isFresh
  {
  }

  /** BatchWrite of one entry into the database, which keeps the record in its stored form. */
  function StoreOne(db: UtxoSet, t: Txid, e: CacheEntry): UtxoSet {
    if !e.isDirty then db else Put(db, t, StoredCoins(e.coins))
  }

  ghost predicate Stored(db: UtxoSet, theirs: CoinsMap, db': UtxoSet) {
    forall t :: Lookup(db', t) == if t in theirs then Lookup(StoreOne(db, t, theirs[t]), t) else Lookup(db, t)
  }

  /** After a flush the database has what the cache showed, with the dirty records in their stored form. */
  lemma FlushStoresView(db: UtxoSet, theirs: CoinsMap, db': UtxoSet)
    requires WellFormed(db) && CacheOk(db, None, theirs, None)
    requires Stored(db, theirs, db')
    ensures WellFormed(db') && Like(Overlay(db, theirs), db')
    ensures forall t :: t in db' ==>
      if t in theirs && theirs[t].isDirty then db'[t] == StoredCoins(theirs[t].coins)
      else t in Overlay(db, theirs) && db'[t] == Overlay(db, theirs)[t]
  {
    hide Overlay;
    var seen := Overlay(db, theirs);
    forall t
      ensures t in seen <==> t in db'
      ensures t in db' ==>
        && db'[t].Clean() && db'[t].vout != []
        && if t in theirs && theirs[t].isDirty
           then db'[t] == StoredCoins(seen[t]) && seen[t] == theirs[t].coins
           else db'[t] == seen[t]
    {
      assert Lookup(seen, t) == Seen(db, theirs, t);
      StoredEntry(db, theirs, db', t);
    }
  }

  /** What is in the database has a version that it can hold. */
  lemma StoredVersions(db: UtxoSet, theirs: CoinsMap, db': UtxoSet)
    requires Stored(db, theirs, db') && VersionsKnown(db)
    ensures VersionsKnown(db')
  {
    forall t | t in db'
      ensures db'[t].nVersion >= 0
    {
      assert Lookup(db', t) == if t in theirs then Lookup(StoreOne(db, t, theirs[t]), t) else Lookup(db, t);
    }
  }

  lemma StoredEntry(db: UtxoSet, theirs: CoinsMap, db': UtxoSet, t: Txid)
    requires WellFormed(db) && CacheOk(db, None, theirs, None) && Stored(db, theirs, db')
    ensures t in db' <==> Seen(db, theirs, t).Some?
    ensures t in db' ==> db'[t].Clean() && db'[t].vout != []
    ensures t in db' && t in theirs && theirs[t].isDirty ==>
      Seen(db, theirs, t) == Some(theirs[t].coins) && db'[t] == StoredCoins(theirs[t].coins)
    ensures t in db' && !(t in theirs && theirs[t].isDirty) ==> Seen(db, theirs, t) == Some(db'[t])
  {
    assert Lookup(db', t) == if t in theirs then Lookup(StoreOne(db, t, theirs[t]), t) else Lookup(db, t);
    if t in theirs {
      assert EntryOk(db, None, t, theirs[t]) && theirs[t].coins.Clean();
    }
  }

  // ---------- best blocks ----------

  /** Below the top, every view and best block is the same in both stacks. */
  ghost predicate SameBase(db: UtxoSet, dbBest: Hash, before: seq<Layer>, after: seq<Layer>) {
    && |after| == |before|
    && (forall k :: 0 <= k < |before| ==> View(db, after[..k]) == View(db, before[..k]))
    && (forall k :: 0 <= k < |before| ==> Best(dbBest, after[..k]) == Best(dbBest, before[..k]))
  }

  lemma {:induction false} BestOfHashes(dbBest: Hash, before: seq<Layer>, after: seq<Layer>, k: nat)
    requires |after| == |before| && k <= |before|
    requires forall i :: 0 <= i < k ==> after[i].hashBlock == before[i].hashBlock
    ensures Best(dbBest, after[..k]) == Best(dbBest, before[..k])
    decreases k
  {
    if k > 0 {
      BestOfHashes(dbBest, before, after, k - 1);
      assert after[..k][..k - 1] == after[..k - 1] && before[..k][..k - 1] == before[..k - 1];
    }
  }

  lemma SameStackBase(db: UtxoSet, dbBest: Hash, before: seq<Layer>, after: seq<Layer>)
    requires SameStack(db, before, after)
    ensures SameBase(db, dbBest, before, after)
    ensures View(db, after) == View(db, before) && Best(dbBest, after) == Best(dbBest, before)
  {
    SameStackKeys(db, before, after);
    hide View;
    forall k | 0 <= k <= |before|
      ensures Best(dbBest, after[..k]) == Best(dbBest, before[..k])
    {
      BestOfHashes(dbBest, before, after, k);
    }
    assert after[..|after|] == after && before[..|before|] == before;
  }

  /** GetBestBlock: a null hash is filled in from the base, at every depth that is asked. */
  function FetchBest(dbBest: Hash, layers: seq<Layer>): seq<Layer>
    decreases |layers|
  {
    if layers == [] || layers[|layers| - 1].hashBlock != NULL_HASH then layers
    else
      var base, top := layers[..|layers| - 1], layers[|layers| - 1];
      FetchBest(dbBest, base) + [top.(hashBlock := Best(dbBest, base))]
  }

  lemma {:induction false} FetchBestKeeps(dbBest: Hash, layers: seq<Layer>)
    ensures
      var ls := FetchBest(dbBest, layers);
      && |ls| == |layers|
      && (forall i :: 0 <= i < |ls| ==> ls[i].cacheCoins == layers[i].cacheCoins)
      && (forall k :: 0 <= k <= |ls| ==> Best(dbBest, ls[..k]) == Best(dbBest, layers[..k]))
      && (layers != [] ==> ls[|ls| - 1].hashBlock == Best(dbBest, layers))
    decreases |layers|
  {
    if layers != [] && layers[|layers| - 1].hashBlock == NULL_HASH {
      var n := |layers| - 1;
      var base := layers[..n];
      FetchBestKeeps(dbBest, base);
      var ls := FetchBest(dbBest, layers);
      var base' := FetchBest(dbBest, base);
      assert ls[..n] == base' && base'[..n] == base' && base[..n] == base;
      forall k | 0 <= k <= |ls|
        ensures Best(dbBest, ls[..k]) == Best(dbBest, layers[..k])
      {
        if k <= n {
          assert ls[..k] == base'[..k] && layers[..k] == base[..k];
        } else {
          assert ls[..k] == ls && layers[..k] == layers;
          assert Best(dbBest, base') == Best(dbBest, base);
        }
      }
    }
  }

  lemma {:induction false} CachesDecideView(db: UtxoSet, before: seq<Layer>, after: seq<Layer>, loose: Option<Txid>)
    requires |after| == |before|
    requires forall i :: 0 <= i < |after| ==> after[i].cacheCoins == before[i].cacheCoins
    ensures View(db, after) == View(db, before)
    ensures TopKeys(after) == TopKeys(before)
    ensures StackOk(db, before, loose) ==> StackOk(db, after, loose)
    decreases |before|
  {
    hide Overlay, CacheOk;
    if before != [] {
      CachesDecideView(db, before[..|before| - 1], after[..|after| - 1], None);
    }
  }

  /** Flushing a child into a cache hands down the child's best block if and only if the child knew
      one, or the parent's own one was no news: otherwise the parent forgets its best block. */
  lemma FlushBestBlock(dbBest: Hash, layers: seq<Layer>, cache: CoinsMap)
    requires |layers| >= 2
    ensures
      var n := |layers|;
      var child, parent, rest := layers[n - 1], layers[n - 2], layers[..n - 2];
      var flushed := rest + [Layer(cache, child.hashBlock)];
      Best(dbBest, flushed) == Best(dbBest, layers) <==>
      (child.hashBlock != NULL_HASH || parent.hashBlock == NULL_HASH || parent.hashBlock == Best(dbBest, rest))
  {
    var n := |layers|;
    var child, rest := layers[n - 1], layers[..n - 2];
    var flushed := rest + [Layer(cache, child.hashBlock)];
    assert flushed[..n - 2] == rest;
    assert layers[..n - 1][..n - 2] == rest;
  }

  // ---------- flushing the top of the stack ----------

  lemma SameBaseSelf(db: UtxoSet, dbBest: Hash, layers: seq<Layer>)
    ensures SameBase(db, dbBest, layers, layers)
  {
  }

  lemma SameBaseTrans(db: UtxoSet, dbBest: Hash, a: seq<Layer>, b: seq<Layer>, c: seq<Layer>)
    requires SameBase(db, dbBest, a, b) && SameBase(db, dbBest, b, c)
    ensures SameBase(db, dbBest, a, c) && |c| == |b| == |a|
  {
    hide View, Best;
  }

  lemma SameBaseSize(db: UtxoSet, dbBest: Hash, before: seq<Layer>, after: seq<Layer>)
    requires SameBase(db, dbBest, before, after)
    ensures |after| == |before|
  {
  }

  lemma AssertionHolds(db: UtxoSet, layers: seq<Layer>)
    requires |layers| >= 2 && StackOk(db, layers, None)
    ensures
      var n := |layers|;
      var ours, theirs := layers[n - 2].cacheCoins, layers[n - 1].cacheCoins;
      forall t :: t in theirs && theirs[t].isDirty && t !in ours && !theirs[t].coins.IsPruned() ==> theirs[t].isFresh
  {
    var n := |layers|;
    var base := layers[..n - 1];
    var below, ours, theirs := View(db, base), layers[n - 2].cacheCoins, layers[n - 1].cacheCoins;
    assert base[|base| - 1].cacheCoins == ours;
    assert CacheOk(below, Some(ours.Keys), theirs, None);
    hide View, StackOk, CacheOk;
    forall t | t in theirs && theirs[t].isDirty && t !in ours && !theirs[t].coins.IsPruned()
      ensures theirs[t].isFresh
    {
      BatchWriteAssertion(below, ours, theirs, t);
    }
  }

  /** An empty cache on top shows what is below. */
  lemma EmptyTop(db: UtxoSet, base: seq<Layer>, hash: Hash)
    requires StackOk(db, base, None)
    ensures
      var ls := base + [Layer(map[], hash)];
      ls[..|base|] == base && View(db, ls) == View(db, base) && StackOk(db, ls, None)
  {
    var ls := base + [Layer(map[], hash)];
    assert ls[..|base|] == base;
    SameReadings(Overlay(View(db, base), map[]), View(db, base));
  }

  lemma BestTop(dbBest: Hash, base: seq<Layer>, top: Layer)
    ensures Best(dbBest, base + [top]) == if top.hashBlock != NULL_HASH then top.hashBlock else Best(dbBest, base)
  {
    assert (base + [top])[..|base|] == base;
  }

  lemma FlushedToDatabase(db: UtxoSet, dbBest: Hash, layers: seq<Layer>, db': UtxoSet)
    requires |layers| == 1 && StackOk(db, layers, None) && Stored(db, layers[0].cacheCoins, db')
    ensures
      var hash := layers[0].hashBlock;
      var ls := [Layer(map[], hash)];
      var dbBest' := if hash != NULL_HASH then hash else dbBest;
      StackOk(db', ls, None) && ls[..0] == [] && View(db', []) == View(db', ls) == db' && Like(View(db, layers), db') &&
      Best(dbBest', []) == Best(dbBest', ls) == Best(dbBest, layers)
  {
    hide Overlay, CacheOk, Stored, View, StackOk, Best, WellFormed, Like;
    var top := layers[0];
    var hash := top.hashBlock;
    assert layers == [] + [top];
    StackParts(db, [], top);
    NoCaches(db, dbBest);
    FlushStoresView(db, top.cacheCoins, db');
    NoCaches(db', if hash != NULL_HASH then hash else dbBest);
    EmptyTop(db', [], hash);
    assert [] + [Layer(map[], hash)] == [Layer(map[], hash)];
    BestTop(dbBest, [], top);
    BestTop(if hash != NULL_HASH then hash else dbBest, [], Layer(map[], hash));
  }

  lemma NoCaches(db: UtxoSet, dbBest: Hash)
    ensures View(db, []) == db && TopKeys([]) == None && Best(dbBest, []) == dbBest
    ensures StackOk(db, [], None) <==> WellFormed(db)
  {
  }

  lemma FlushedToParent(db: UtxoSet, dbBest: Hash, layers: seq<Layer>, merged: CoinsMap)
    requires |layers| >= 2 && StackOk(db, layers, None)
    requires Merged(layers[|layers| - 2].cacheCoins, layers[|layers| - 1].cacheCoins, merged)
    ensures
      var n := |layers| - 1;
      var hash := layers[n].hashBlock;
      var ls := layers[n - 1 := Layer(merged, hash)][n := Layer(map[], hash)];
      StackOk(db, ls, None) && View(db, ls[..n]) == View(db, layers) && View(db, ls) == View(db, layers) &&
      ls[..n - 1] == layers[..n - 1] &&
      (hash != NULL_HASH ==> Best(dbBest, ls[..n]) == Best(dbBest, ls) == Best(dbBest, layers))
  {
    hide Overlay, CacheOk, Merged, View, StackOk, Best;
    var n := |layers| - 1;
    var hash, rest := layers[n].hashBlock, layers[..n - 1];
    var parent, child := layers[n - 1], layers[n];
    var ls := layers[n - 1 := Layer(merged, hash)][n := Layer(map[], hash)];
    var base, base' := rest + [parent], rest + [Layer(merged, hash)];
    assert layers == base + [child];
    StackParts(db, base, child);
    StackParts(db, rest, parent);
    FlushMovesView(View(db, rest), TopKeys(rest), parent.cacheCoins, child.cacheCoins, merged);
    StackParts(db, rest, Layer(merged, hash));
    EmptyTop(db, base', hash);
    BestTop(dbBest, rest, Layer(merged, hash));
    BestTop(dbBest, base', Layer(map[], hash));
    BestTop(dbBest, base, child);
    assert ls == base' + [Layer(map[], hash)];
    assert ls[..n] == base';
    assert ls[..n - 1] == rest;
  }

  lemma StackParts(db: UtxoSet, base: seq<Layer>, top: Layer)
    ensures
      var ls := base + [top];
      View(db, ls) == Overlay(View(db, base), top.cacheCoins) && TopKeys(ls) == Some(top.cacheCoins.Keys) &&
      (StackOk(db, ls, None) <==>
        StackOk(db, base, None) && CacheOk(View(db, base), TopKeys(base), top.cacheCoins, None))
  {
    hide Overlay, CacheOk;
    assert (base + [top])[..|base|] == base;
  }
}
