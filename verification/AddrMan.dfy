/** The stochastic address manager.  Its six tables repeat each other's information; every operation
    keeps them consistent, whatever the hash functions, the clock and the random numbers say.
    Bucket numbers, times and random choices are parameters. */
module AddrMan {
  import opened Wrappers
  import opened AddrTables
  import LimbMath

  const DAY := 24 * 60 * 60
  const HORIZON_DAYS := 30
  const RETRIES := 3
  const MAX_FAILURES := 10
  const MIN_FAIL_DAYS := 7
  const TRIED_ENTRIES_INSPECT_ON_EVICT := 4
  const GETADDR_MAX_PCT := 23
  const GETADDR_MAX := 2500

  /** Whether an entry is bad enough to be deleted. */
  predicate IsTerrible(info: Info, nNow: int) {
    if info.nLastTry != 0 && info.nLastTry >= nNow - 60 then false
    else if info.nTime > nNow + 10 * 60 then true
    else if info.nTime == 0 || nNow - info.nTime > HORIZON_DAYS * DAY then true
    else if info.nLastSuccess == 0 && info.nAttempts >= RETRIES then true
    else nNow - info.nLastSuccess > MIN_FAIL_DAYS * DAY && info.nAttempts >= MAX_FAILURES
  }

  /** In seconds: nothing tried in the last minute is terrible; otherwise what claims to be from more than ten minutes
      ahead, was not seen for thirty days, failed three times without a success, or ten times since a success more
      than a week ago. */
  lemma TerribleIff(info: Info, nNow: int)
    ensures IsTerrible(info, nNow) <==>
      && (info.nLastTry == 0 || info.nLastTry < nNow - 60)
      && (|| info.nTime > nNow + 600
          || info.nTime == 0
          || info.nTime < nNow - 2_592_000
          || (info.nAttempts >= 3 && info.nLastSuccess == 0)
          || (info.nAttempts >= 10 && info.nLastSuccess < nNow - 604_800))
  {
  }

  /** The entries that may be given away. */
  ghost function Givable(m: InfoMap, nNow: int): set<int> {
    set id | id in m && !IsTerrible(m[id], nNow)
  }

  class Manager {
    var nIdCount: int
    var mapInfo: InfoMap
    var mapAddr: map<NetAddr, int>
    var vRandom: seq<int>
    var nTried: int
    var vvTried: seq<seq<int>>
    var nNew: int
    var vvNew: seq<set<int>>

    ghost function T(): Tables
      reads this
    {
      Tables(nIdCount, mapInfo, mapAddr, vRandom, nTried, vvTried, nNew, vvNew)
    }

    ghost predicate Valid()
      reads this
    {
      Consistent(T(), NOBODY)
    }

    constructor ()
      ensures Valid() && mapInfo == map[]
    {
      nIdCount, mapInfo, mapAddr, vRandom, nTried, nNew := 0, map[], map[], [], 0, 0;
      vvTried := seq(TRIED_BUCKET_COUNT, _ => []);
      vvNew := seq(NEW_BUCKET_COUNT, _ => {});
      new;
      NothingTried(vvTried);
      assert NewIds(mapInfo) == {} && TriedIds(mapInfo) == {};
    }

    method Find(addr: NetAddr) returns (id: Option<int>)
      requires Valid()
      ensures id.None? <==> addr !in mapAddr
      ensures id.Some? ==> id.value == mapAddr[addr]
      ensures id.Some? ==> id.value in mapInfo && mapInfo[id.value].service.addr == addr
    {
      id := if addr in mapAddr && mapAddr[addr] in mapInfo then Some(mapAddr[addr]) else None;
    }

    /** Swaps two places of the random order. */
    method SwapRandom(p: int, q: int, ghost pending: int)
      requires Consistent(T(), pending) && 0 <= p < |vRandom| && 0 <= q < |vRandom|
      modifies this`mapInfo, this`vRandom
      ensures Consistent(T(), pending)
      ensures mapInfo.Keys == old(mapInfo).Keys
      ensures forall id :: id in mapInfo ==> mapInfo[id] == old(mapInfo)[id].(nRandomPos := mapInfo[id].nRandomPos)
      ensures |vRandom| == |old(vRandom)| && vRandom[p] == old(vRandom)[q] && vRandom[q] == old(vRandom)[p]
      ensures forall i :: 0 <= i < |vRandom| && i != p && i != q ==> vRandom[i] == old(vRandom)[i]
    {
      if p == q {
        return;
      }
      SwapConsistent(T(), p, q, pending);
      hide Consistent;
      var a, b := vRandom[p], vRandom[q];
      assert a in mapInfo && b in mapInfo;
      mapInfo := mapInfo[a := mapInfo[a].(nRandomPos := q)][b := mapInfo[b].(nRandomPos := p)];
      vRandom := vRandom[p := b][q := a];
    }

    /** Takes id out of "new" bucket b, and forgets it if that was its last one. */
    method Unref(b: nat, id: int, ghost pending: int)
      requires Consistent(T(), pending) && id != pending && b < |vvNew| && id in vvNew[b]
      modifies this`mapInfo, this`vRandom, this`mapAddr, this`nNew, this`vvNew
      ensures Consistent(T(), pending)
      ensures vvNew == old(vvNew)[b := old(vvNew)[b] - {id}]
      ensures old(mapInfo)[id].nRefCount > 1 ==> mapInfo.Keys == old(mapInfo).Keys
      ensures old(mapInfo)[id].nRefCount == 1 ==> mapInfo.Keys == old(mapInfo).Keys - {id}
      ensures !old(mapInfo)[id].fInTried
      ensures forall x :: x in mapInfo && x != id ==>
        mapInfo[x] == old(mapInfo)[x].(nRandomPos := mapInfo[x].nRandomPos)
      ensures id in mapInfo ==> mapInfo[id] == old(mapInfo)[id].(nRefCount := old(mapInfo)[id].nRefCount - 1)
      ensures TimesFrom(old(mapInfo), mapInfo)
    {
      hide Consistent, Holders;
      NewIsKnown(T(), b, id, pending);
      if mapInfo[id].nRefCount == 1 {
        SwapRandom(mapInfo[id].nRandomPos, |vRandom| - 1, pending);
        NewIsKnown(T(), b, id, pending);
        assert vRandom[|vRandom| - 1] == id;
        assert mapInfo[id].nRefCount == 1;
        DropLast(T(), b, id, pending);
        vRandom := vRandom[..|vRandom| - 1];
        mapAddr := mapAddr - {mapInfo[id].service.addr};
        mapInfo := mapInfo - {id};
        nNew := nNew - 1;
      } else {
        DropRef(T(), b, id, pending);
        mapInfo := mapInfo[id := mapInfo[id].(nRefCount := mapInfo[id].nRefCount - 1)];
      }
      vvNew := vvNew[b := vvNew[b] - {id}];
    }

    /** Who leaves a full "new" bucket: the first terrible entry or, if there is none, of the four entries at the
        picked places the one seen longest ago. */
    static ghost predicate IsVictim(m: InfoMap, bucket: set<int>, nNow: int, picks: seq<nat>, victim: int) {
      && victim in bucket && bucket <= m.Keys
      && if IsTerrible(m[victim], nNow) then forall id :: id in bucket && id < victim ==> !IsTerrible(m[id], nNow)
         else
           && (forall id :: id in bucket ==> !IsTerrible(m[id], nNow))
           && exists listed :: AtPick(m, bucket, listed, picks, victim)
    }

    static ghost predicate AtPick(m: InfoMap, bucket: set<int>, listed: seq<int>, picks: seq<nat>, victim: int) {
      && IsListing(listed, bucket) && |picks| == 4
      && (forall k :: 0 <= k < 4 ==> picks[k] < |listed| && listed[picks[k]] in m)
      && victim in m && (exists k :: 0 <= k < 4 && victim == listed[picks[k]])
      && (forall k :: 0 <= k < 4 ==> m[victim].nTime <= m[listed[picks[k]]].nTime)
    }

    /** The whole change when id gets into "new" bucket u: if that is full, a victim leaves it, and leaves the tables
        if it was in no other bucket. */
    static ghost predicate Settled(
        t: Tables, t': Tables, id: int, u: nat, nNow: int, picks: seq<nat>, victim: Option<int>)
    {
      && u < |t.vvNew|
      && match victim
         case None => |t.vvNew[u]| < NEW_BUCKET_SIZE && t' == t.(vvNew := t.vvNew[u := t.vvNew[u] + {id}])
         case Some(v) =>
           && |t.vvNew[u]| >= NEW_BUCKET_SIZE && v in t.mapInfo && IsVictim(t.mapInfo, t.vvNew[u], nNow, picks, v)
           && t'.vvNew == t.vvNew[u := t.vvNew[u] - {v} + {id}]
           && t'.vvTried == t.vvTried && t'.nTried == t.nTried && t'.nIdCount == t.nIdCount
           && t'.mapInfo.Keys == (if t.mapInfo[v].nRefCount > 1 then t.mapInfo.Keys else t.mapInfo.Keys - {v})
           && forall x :: x in t'.mapInfo ==>
                t'.mapInfo[x] == t.mapInfo[x].(nRandomPos := t'.mapInfo[x].nRandomPos,
                                               nRefCount := t.mapInfo[x].nRefCount - if x == v then 1 else 0)
    }

    /** Makes room in "new" bucket b: a terrible entry goes first; otherwise, of four entries picked
        at random, the one seen longest ago. */
    method ShrinkNew(b: nat, nNow: int, picks: seq<nat>, ghost pending: int)
      returns (code: int, ghost victim: int, ghost listed: seq<int>)
      requires Consistent(T(), pending) && b < |vvNew| && pending !in vvNew[b] && vvNew[b] != {}
      requires |picks| == 4 && forall k :: 0 <= k < 4 ==> picks[k] < |vvNew[b]|
      modifies this`mapInfo, this`vRandom, this`mapAddr, this`nNew, this`vvNew
      ensures Consistent(T(), pending)
      ensures victim in old(vvNew)[b] && vvNew == old(vvNew)[b := old(vvNew)[b] - {victim}]
      ensures old(vvNew)[b] <= old(mapInfo).Keys && !old(mapInfo)[victim].fInTried
      ensures mapInfo.Keys == if old(mapInfo)[victim].nRefCount > 1 then old(mapInfo).Keys
        else old(mapInfo).Keys - {victim}
      ensures forall x :: x in mapInfo && x != victim ==>
        mapInfo[x] == old(mapInfo)[x].(nRandomPos := mapInfo[x].nRandomPos)
      ensures victim in mapInfo ==>
        mapInfo[victim] == old(mapInfo)[victim].(nRefCount := old(mapInfo)[victim].nRefCount - 1)
      ensures TimesFrom(old(mapInfo), mapInfo)
      ensures IsListing(listed, old(vvNew)[b])
      ensures code != 0 ==> exists k :: 0 <= k < 4 && victim == listed[picks[k]]
      ensures code != 0 ==>
        forall k :: 0 <= k < 4 ==> old(mapInfo)[victim].nTime <= old(mapInfo)[listed[picks[k]]].nTime
      ensures code == 0 ==> IsTerrible(old(mapInfo)[victim], nNow) &&
                            forall id :: id in old(vvNew)[b] && id < victim ==> !IsTerrible(old(mapInfo)[id], nNow)
      ensures code != 0 ==> forall id :: id in old(vvNew)[b] ==> !IsTerrible(old(mapInfo)[id], nNow)
      ensures IsVictim(old(mapInfo), old(vvNew)[b], nNow, picks, victim)
    {
      hide Consistent, Holders, IsTerrible, TimesFrom;
      BucketIsKnown(T(), b, pending);
      var order := Elements(vvNew[b], nIdCount);
      listed := order;
      for i := 0 to |order|
        invariant mapInfo == old(mapInfo) && T() == old(T()) && listed == order
        invariant forall j :: 0 <= j < i ==> !IsTerrible(mapInfo[order[j]], nNow)
      {
        assert order[i] in vvNew[b];
        assert forall id :: id in vvNew[b] && id < order[i] ==> id in order[..i];
        if IsTerrible(mapInfo[order[i]], nNow) {
          victim := order[i];
          NewIsKnown(T(), b, order[i], pending);
          Unref(b, order[i], pending);
          return 0, victim, listed;
        }
      }
      var oldest := Oldest(order, picks);
      assert order[oldest] in vvNew[b];
      victim := order[oldest];
      ghost var k :| 0 <= k < 4 && picks[k] == oldest;
      assert victim == listed[picks[k]];
      assert AtPick(mapInfo, vvNew[b], listed, picks, victim);
      NewIsKnown(T(), b, order[oldest], pending);
      Unref(b, order[oldest], pending);
      return 1, victim, listed;
    }

    /** The entry seen longest ago among the picked positions. */
    method Oldest(order: seq<int>, picks: seq<nat>) returns (pos: nat)
      requires |picks| == 4 && forall k :: 0 <= k < 4 ==> picks[k] < |order|
      requires forall i :: 0 <= i < |order| ==> order[i] in mapInfo
      ensures pos in picks && pos < |order|
      ensures forall k :: 0 <= k < 4 ==> mapInfo[order[pos]].nTime <= mapInfo[order[picks[k]]].nTime
    {
      var found := false;
      pos := picks[0];
      for i := 0 to |order|
        invariant !found ==> pos == picks[0] && forall k :: 0 <= k < 4 ==> picks[k] >= i
        invariant found ==> pos in picks && pos < i &&
                            forall k :: 0 <= k < 4 && picks[k] < i ==>
                              mapInfo[order[pos]].nTime <= mapInfo[order[picks[k]]].nTime
      {
        if i == picks[0] || i == picks[1] || i == picks[2] || i == picks[3] {
          if !found || mapInfo[order[i]].nTime < mapInfo[order[pos]].nTime {
            pos := i;
          }
          found := true;
        }
      }
      assert picks[0] < |order|;
    }

    /** Shuffles the first few entries of a bucket and picks one to evict. */
    method SelectTried(k: nat, picks: seq<nat>) returns (pos: nat)
      requires k < |vvTried| && vvTried[k] != []
      requires forall j :: 0 <= j < |vvTried[k]| ==> vvTried[k][j] in mapInfo && vvTried[k][j] >= 0
      requires |picks| >= TRIED_ENTRIES_INSPECT_ON_EVICT
      modifies this`vvTried
      ensures |vvTried| == |old(vvTried)| && vvTried == old(vvTried)[k := vvTried[k]]
      ensures multiset(vvTried[k]) == multiset(old(vvTried)[k]) && pos < |vvTried[k]|
      ensures exists i :: IsDrawn(mapInfo, vvTried[k], picks, pos, i)
    {
      hide OldestDrawn, DrawnAt;
      var vTried := vvTried[k];
      ghost var bucket := vTried;
      var nOldest := -1;
      pos := 0;
      ghost var at := -1;
      var i := 0;
      while i < TRIED_ENTRIES_INSPECT_ON_EVICT && i < |vTried|
        invariant 0 <= i <= TRIED_ENTRIES_INSPECT_ON_EVICT && i <= |vTried| == |bucket|
        invariant multiset(vTried) == multiset(bucket) && vvTried == old(vvTried)
        invariant forall j :: 0 <= j < |vTried| ==> vTried[j] in mapInfo && vTried[j] >= 0
        invariant pos < |vTried| && (at == -1 <==> i == 0) && -1 <= at < i
        invariant at != -1 ==> OldestDrawn(mapInfo, vTried, picks, i, at, pos) && nOldest == vTried[at]
        invariant at == -1 ==> nOldest == -1
      {
        var nPos := DrawnAt(picks, |vTried|, i);
        var nTemp := vTried[nPos];
        ghost var before, was := vTried, pos;
        Swapped(vTried, i, nPos);
        vTried := vTried[nPos := vTried[i]][i := nTemp];
        assert nTemp in mapInfo;
        if nOldest == -1 || mapInfo[nTemp].nLastSuccess < mapInfo[nOldest].nLastSuccess {
          nOldest := nTemp;
          pos := nPos;
          if at == -1 {
            FirstDrawn(mapInfo, vTried, picks);
          } else {
            NewOldest(mapInfo, before, vTried, picks, i, at, was);
          }
          at := i;
        } else {
          StillOldest(mapInfo, before, vTried, picks, i, at, pos);
        }
        i := i + 1;
      }
      vvTried := vvTried[k := vTried];
      assert IsDrawn(mapInfo, vvTried[k], picks, pos, at);
    }

    /** The place, from i on, that the next random number draws. */
    static function DrawnAt(picks: seq<nat>, size: nat, i: int): (p: nat)
      requires 0 <= i < |picks| && i < size
      ensures i <= p < size
    {
      picks[i] % (size - i) + i
    }

    static lemma Swapped(v: seq<int>, i: int, p: int)
      requires 0 <= i <= p < |v|
      ensures
        var w := v[p := v[i]][i := v[p]];
        && multiset(w) == multiset(v) && w[i] == v[p]
        && (forall j :: 0 <= j < i ==> w[j] == v[j])
        && (forall j :: 0 <= j < |w| ==> w[j] == v[j] || w[j] == v[i] || w[j] == v[p])
    {
    }

    /** Of the first n entries, which were drawn in this order, the one at place i is the first with the earliest
        last success; pos is where it was found. */
    static ghost predicate OldestDrawn(m: InfoMap, v: seq<int>, picks: seq<nat>, n: int, i: int, pos: nat)
    {
      && 0 <= i < n <= |v| && n <= |picks| && pos == DrawnAt(picks, |v|, i)
      && (forall j :: 0 <= j < n ==> v[j] in m)
      && (forall j :: 0 <= j < n ==> m[v[i]].nLastSuccess <= m[v[j]].nLastSuccess)
      && (forall j :: 0 <= j < i ==> m[v[i]].nLastSuccess < m[v[j]].nLastSuccess)
    }

    /** The same for all that are inspected: four, or the whole bucket. */
    static ghost predicate IsDrawn(m: InfoMap, v: seq<int>, picks: seq<nat>, pos: nat, i: int)
    {
      OldestDrawn(m, v, picks, if |v| < 4 then |v| else 4, i, pos)
    }

    /** A full bucket after an eviction: shuffled by the draws, and with id in the place of the drawn entry o. */
    static ghost predicate Evicted(m: InfoMap, bucket: seq<int>, picks: seq<nat>, o: int, id: int, after: seq<int>) {
      exists shuffled: seq<int>, pos: nat, i ::
        && IsDrawn(m, shuffled, picks, pos, i) && multiset(shuffled) == multiset(bucket)
        && pos < |shuffled| && shuffled[pos] == o && after == shuffled[pos := id]
    }

    /** The whole change when id moves from the "new" buckets, one of which is nOrigin, to "tried" bucket k. */
    static ghost predicate Moved(
        t: Tables, t': Tables, id: int, nOrigin: nat, k: nat, u: nat, picks: seq<nat>, evicted: Option<int>)
    {
      && id in t.mapInfo && nOrigin < |t.vvNew| == |t'.vvNew| && u < |t.vvNew| && k < |t.vvTried| == |t'.vvTried|
      && t'.vvTried == t.vvTried[k := t'.vvTried[k]]
      && var info := t.mapInfo[id].(fInTried := true, nRefCount := 0);
      match evicted
      case None =>
        && |t.vvTried[k]| < TRIED_BUCKET_SIZE && t'.vvTried[k] == t.vvTried[k] + [id]
        && t'.mapInfo == t.mapInfo[id := info]
        && (forall b :: 0 <= b < |t.vvNew| ==> t'.vvNew[b] == t.vvNew[b] - {id})
      case Some(o) =>
        && |t.vvTried[k]| >= TRIED_BUCKET_SIZE && o in t.mapInfo && t.mapInfo[o].fInTried
        && Evicted(t.mapInfo, t.vvTried[k], picks, o, id, t'.vvTried[k])
        && t'.mapInfo == t.mapInfo[o := t.mapInfo[o].(fInTried := false, nRefCount := 1)][id := info]
        && var c := if |t.vvNew[u] - {id}| < NEW_BUCKET_SIZE then u else nOrigin;
        forall b :: 0 <= b < |t.vvNew| ==> t'.vvNew[b] == (t.vvNew[b] - {id}) + (if b == c then {o} else {})
    }

    static lemma FirstDrawn(m: InfoMap, v: seq<int>, picks: seq<nat>)
      requires v != [] && picks != [] && v[0] in m
      ensures OldestDrawn(m, v, picks, 1, 0, DrawnAt(picks, |v|, 0))
    {
    }

    /** Later draws leave the first entries where they are; the next one is no earlier. */
    static lemma StillOldest(m: InfoMap, before: seq<int>, after: seq<int>, picks: seq<nat>, n: int, i: int, pos: nat)
      requires OldestDrawn(m, before, picks, n, i, pos) && |after| == |before| && n < |after| && n < |picks|
      requires forall j :: 0 <= j < n ==> after[j] == before[j]
      requires after[n] in m && 0 <= i < |before| && before[i] in m
      requires m[after[n]].nLastSuccess >= m[before[i]].nLastSuccess
      ensures 0 <= i < n && OldestDrawn(m, after, picks, n + 1, i, pos)
    {
    }

    /** ... or it is earlier than all. */
    static lemma NewOldest(m: InfoMap, before: seq<int>, after: seq<int>, picks: seq<nat>, n: int, i: int, pos: nat)
      requires OldestDrawn(m, before, picks, n, i, pos) && |after| == |before| && n < |after| && n < |picks|
      requires forall j :: 0 <= j < n ==> after[j] == before[j]
      requires after[n] in m && 0 <= i < |before| && before[i] in m
      requires m[after[n]].nLastSuccess < m[before[i]].nLastSuccess
      ensures OldestDrawn(m, after, picks, n + 1, n, DrawnAt(picks, |after|, n))
    {
    }

    /** Moves id from the "new" buckets, one of which is nOrigin, to "tried" bucket k.  If that is
        full, an entry of it goes back to "new" bucket u, or to nOrigin if u is full; all other entries stay
        as they are. */
    method MakeTried(id: int, nOrigin: nat, k: nat, u: nat, picks: seq<nat>) returns (ghost evicted: Option<int>)
      requires Valid() && nOrigin < NEW_BUCKET_COUNT && k < TRIED_BUCKET_COUNT && u < NEW_BUCKET_COUNT
      requires |vvNew| == NEW_BUCKET_COUNT && id in vvNew[nOrigin] && id in mapInfo
      requires |picks| >= TRIED_ENTRIES_INSPECT_ON_EVICT
      modifies this`mapInfo, this`vvNew, this`vvTried, this`nNew, this`nTried
      ensures Valid() && !old(mapInfo)[id].fInTried
      ensures |old(vvTried)| == TRIED_BUCKET_COUNT && (evicted.None? <==> |old(vvTried)[k]| < TRIED_BUCKET_SIZE)
      ensures k < |vvTried| && id in vvTried[k]
      ensures Moved(old(T()), T(), id, nOrigin, k, u, picks, evicted)
    {
      hide Consistent, Holders;
      ghost var t := T();
      NewIsKnown(t, nOrigin, id, NOBODY);
      TableSizes(t);
      var erased := EraseFromNew(id);
      nNew := nNew - 1;
      var info := mapInfo[id].(nRefCount := mapInfo[id].nRefCount - erased, fInTried := true);
      assert info.nRefCount == 0;
      if |vvTried[k]| < TRIED_BUCKET_SIZE {
        AppendTried(t, vvNew, id, k, info);
        vvTried := vvTried[k := vvTried[k] + [id]];
        nTried := nTried + 1;
        mapInfo := mapInfo[id := info];
        evicted := None;
      } else {
        var o := Evict(t, id, info, nOrigin, k, u, picks);
        evicted := Some(o);
      }
    }

    /** The second half of MakeTried, for a full bucket; t is the state before id was erased. */
    method Evict(ghost t: Tables, id: int, info: Info, nOrigin: nat, k: nat, u: nat, picks: seq<nat>)
      returns (ghost evicted: int)
      requires Consistent(t, NOBODY) && nOrigin < |vvNew| && k < |vvTried| && vvTried[k] != [] && u < |vvNew|
      requires T() == t.(vvNew := vvNew, nNew := t.nNew - 1) && |vvNew| == |t.vvNew|
      requires forall b :: 0 <= b < |vvNew| ==> vvNew[b] == t.vvNew[b] - {id}
      requires id in t.vvNew[nOrigin] && id in mapInfo && !mapInfo[id].fInTried
      requires info == mapInfo[id].(nRefCount := 0, fInTried := true)
      requires |picks| >= TRIED_ENTRIES_INSPECT_ON_EVICT
      modifies this`mapInfo, this`vvNew, this`vvTried, this`nNew, this`nTried
      ensures Valid() && k < |vvTried| && id in vvTried[k] && |vvNew| == |t.vvNew|
      ensures evicted in t.vvTried[k] && evicted in t.mapInfo && t.mapInfo[evicted].fInTried
      ensures mapInfo == t.mapInfo[evicted := t.mapInfo[evicted].(fInTried := false, nRefCount := 1)][id := info]
      ensures vvTried == t.vvTried[k := vvTried[k]] && Evicted(t.mapInfo, t.vvTried[k], picks, evicted, id, vvTried[k])
      ensures
        var c := if |t.vvNew[u] - {id}| < NEW_BUCKET_SIZE then u else nOrigin;
        vvNew == old(vvNew)[c := old(vvNew)[c] + {evicted}]
    {
      hide Consistent, Holders, IsDrawn;
      TableSizes(t);
      WithoutHolders(t.vvNew, vvNew, id);
      assert |vvNew[nOrigin]| < NEW_BUCKET_SIZE;
      TriedAreKnown(t, k);
      var nPos := SelectTried(k, picks);
      ghost var shuffled := vvTried[k];
      ShuffleKeeps(t, k, shuffled);
      ghost var t1 := t.(vvTried := vvTried);
      OneTriedPlace(t1, k, nPos);
      var o := vvTried[k][nPos];
      evicted := o;
      assert o in multiset(vvTried[k]);
      var infoOld := mapInfo[o].(fInTried := false, nRefCount := 1);
      var c := if |vvNew[u]| < NEW_BUCKET_SIZE then u else nOrigin;
      assert |vvNew[c]| < NEW_BUCKET_SIZE;
      ReplaceTried(t1, vvNew, id, k, nPos, c, info, infoOld);
      mapInfo := mapInfo[o := infoOld][id := info];
      vvNew := vvNew[c := vvNew[c] + {o}];
      nNew := nNew + 1;
      vvTried := vvTried[k := vvTried[k][nPos := id]];
      assert vvTried[k] == shuffled[nPos := id] && vvTried[k][nPos] == id;
    }

    /** Erases id from all "new" buckets, and counts them. */
    method EraseFromNew(id: int) returns (erased: int)
      modifies this`vvNew
      ensures |vvNew| == |old(vvNew)|
      ensures forall b :: 0 <= b < |vvNew| ==> vvNew[b] == old(vvNew)[b] - {id}
      ensures erased == |Holders(old(vvNew), id)|
    {
      erased := 0;
      ghost var done: set<int> := {};
      for b := 0 to |vvNew|
        invariant |vvNew| == |old(vvNew)|
        invariant forall c :: 0 <= c < |vvNew| ==> vvNew[c] == if c < b then old(vvNew)[c] - {id} else old(vvNew)[c]
        invariant done == set c | 0 <= c < b && id in old(vvNew)[c]
        invariant erased == |done|
      {
        if id in vvNew[b] {
          vvNew := vvNew[b := vvNew[b] - {id}];
          done := done + {b};
          erased := erased + 1;
        }
      }
      assert done == Holders(old(vvNew), id);
    }

    /** Whether the address is known with this very port. */
    predicate Knows(addr: Service)
      reads this
    {
      addr.addr in mapAddr && mapAddr[addr.addr] in mapInfo && mapInfo[mapAddr[addr.addr]].service == addr
    }

    /** A successful connection: updates the entry and moves it to the "tried" table.  The tables stay consistent
        at any time; times stay in order if and only if the time is positive, or nothing is done. */
    method Good(addr: Service, nTime: int, nRnd: nat, k: nat, u: nat, picks: seq<nat>)
      returns (ghost nOrigin: nat, ghost evicted: Option<int>)
      requires Valid() && k < TRIED_BUCKET_COUNT && u < NEW_BUCKET_COUNT
      requires |picks| >= TRIED_ENTRIES_INSPECT_ON_EVICT
      modifies this`mapInfo, this`vvNew, this`vvTried, this`nNew, this`nTried
      ensures Valid() && mapInfo.Keys == old(mapInfo).Keys
      ensures
        if old(Knows(addr)) then
          var id := mapAddr[addr.addr];
          var was := old(mapInfo)[id];
          var good := old(T()).(mapInfo := old(mapInfo)[id :=
            was.(nLastSuccess := nTime, nLastTry := nTime, nTime := nTime, nAttempts := 0)]);
          if was.fInTried then T() == good
          else FirstHolder(old(vvNew), id, nRnd, nOrigin) && Moved(good, T(), id, nOrigin, k, u, picks, evicted)
        else T() == old(T())
      ensures TimesOk(old(mapInfo)) ==> (TimesOk(mapInfo) <==> nTime > 0 || !old(Knows(addr)))
    {
      hide Consistent, Holders, Evicted, FirstHolder, TimesOk;
      AddrKnown(T());
      nOrigin, evicted := 0, None;
      var found := Find(addr.addr);
      if found.None? || mapInfo[found.value].service != addr {
        return;
      }
      var id := found.value;
      var info := mapInfo[id].(nLastSuccess := nTime, nLastTry := nTime, nTime := nTime, nAttempts := 0);
      TouchKeeps(T(), id, info, NOBODY);
      assert mapAddr[addr.addr] == id;
      mapInfo := mapInfo[id := info];
      if info.fInTried {
        GoodTimes(old(mapInfo), mapInfo, id, nTime);
        return;
      }
      TableSizes(T());
      var nUBucket := BucketOf(id, nRnd);
      nOrigin := nUBucket;
      evicted := MakeTried(id, nUBucket, k, u, picks);
      GoodTimes(old(mapInfo), mapInfo, id, nTime);
      AddrKnown(T());
    }

    /** Finds a "new" bucket that holds an entry, from a random place on; there always is one. */
    method BucketOf(id: int, nRnd: nat) returns (nUBucket: int)
      requires Valid() && id in mapInfo && !mapInfo[id].fInTried
      ensures 0 <= nUBucket < |vvNew| && id in vvNew[nUBucket] && FirstHolder(vvNew, id, nRnd, nUBucket)
    {
      hide Consistent, Holders;
      HasBucket(T(), id);
      TableSizes(T());
      nUBucket := -1;
      var n := 0;
      while n < |vvNew|
        invariant 0 <= n <= |vvNew| && nUBucket == -1
        invariant forall j :: 0 <= j < n ==> id !in vvNew[Visited(j, nRnd, |vvNew|)]
      {
        var nB := Visited(n, nRnd, |vvNew|);
        if id in vvNew[nB] {
          nUBucket := nB;
          break;
        }
        n := n + 1;
      }
      if nUBucket == -1 {
        NoneMissed(vvNew, id, nRnd);
        assert false;
      }
    }

    /** The tables with a new entry, not yet in a bucket. */
    static function Created(t: Tables, addr: Service, source: NetAddr, nTime: int): Tables {
      var id := t.nIdCount;
      t.(nIdCount := id + 1, mapAddr := t.mapAddr[addr.addr := id], vRandom := t.vRandom + [id], nNew := t.nNew + 1,
         mapInfo := t.mapInfo[id := Info(addr, source, nTime, 0, 0, 0, 1, false, |t.vRandom|)])
    }

    /** A new entry, with the reference that its first bucket will take. */
    method Create(addr: Service, source: NetAddr, nTime: int) returns (id: int)
      requires Valid() && addr.addr !in mapAddr
      modifies this
      ensures Consistent(T(), id) && id == old(nIdCount) != NOBODY
      ensures mapInfo.Keys == old(mapInfo).Keys + {id} && id !in old(mapInfo)
      ensures mapAddr == old(mapAddr)[addr.addr := id] && vvNew == old(vvNew)
      ensures forall x :: x in old(mapInfo) ==> mapInfo[x] == old(mapInfo)[x]
      ensures mapInfo[id] == Info(addr, source, nTime, 0, 0, 0, 1, false, |old(vRandom)|)
      ensures T() == Created(old(T()), addr, source, nTime)
      ensures forall b :: 0 <= b < |vvNew| ==> id !in vvNew[b]
    {
      FreshId(T());
      var info := Info(addr, source, nTime, 0, 0, 0, 1, false, |vRandom|);
      CreateKeeps(T(), info);
      hide Consistent;
      id := nIdCount;
      nIdCount := nIdCount + 1;
      mapInfo := mapInfo[id := info];
      mapAddr := mapAddr[addr.addr := id];
      vRandom := vRandom + [id];
      nNew := nNew + 1;
    }

    /** Whether an entry, with its time updated, may get into one more "new" bucket: there is news, it is not tried,
        it is not in four buckets yet, and the dice agree. */
    static predicate MayGrow(info: Info, addrTime: int, lucky: bool) {
      && addrTime != 0 && (info.nTime == 0 || addrTime > info.nTime)
      && !info.fInTried && info.nRefCount != NEW_BUCKETS_PER_ADDRESS && (info.nRefCount == 0 || lucky)
    }

    /** A known address is seen again: updates its time, and decides whether it may get into one
        more bucket. */
    method Refresh(id: int, addrTime: int, nTimePenalty: int, nNow: int, lucky: bool) returns (go: bool)
      requires Valid() && id in mapInfo
      modifies this`mapInfo
      ensures Valid()
      ensures mapInfo == old(mapInfo)[id :=
        old(mapInfo)[id].(nTime := SeenTime(old(mapInfo)[id].nTime, addrTime, nTimePenalty, nNow))]
      ensures go <==> MayGrow(mapInfo[id], addrTime, lucky)
      ensures go ==> !mapInfo[id].fInTried && 1 <= mapInfo[id].nRefCount < NEW_BUCKETS_PER_ADDRESS
    {
      var info := mapInfo[id].(nTime := SeenTime(mapInfo[id].nTime, addrTime, nTimePenalty, nNow));
      AddrKnown(T());
      if !info.fInTried { RefBounds(T(), id); }
      TouchKeeps(T(), id, info, NOBODY);
      hide Consistent;
      mapInfo := mapInfo[id := info];
      if addrTime == 0 || (info.nTime != 0 && addrTime <= info.nTime) {
        return false;
      }
      if info.fInTried || info.nRefCount == NEW_BUCKETS_PER_ADDRESS {
        return false;
      }
      return info.nRefCount == 0 || lucky;
    }

    /** Puts the pending id into "new" bucket u, making room first if needed. */
    method Settle(id: int, u: nat, nNow: int, picks: seq<nat>) returns (ghost victim: Option<int>)
      requires Consistent(T(), id) && id != NOBODY && u < |vvNew| && id !in vvNew[u]
      requires |picks| == 4 && (|vvNew[u]| == NEW_BUCKET_SIZE ==> forall i :: 0 <= i < 4 ==> picks[i] < NEW_BUCKET_SIZE)
      modifies this
      ensures Valid()
      ensures mapInfo.Keys <= old(mapInfo).Keys && id in mapInfo && u < |vvNew| && id in vvNew[u]
      ensures mapInfo[id] == old(mapInfo)[id].(nRandomPos := mapInfo[id].nRandomPos)
      ensures forall x :: x in old(mapInfo) && old(mapInfo)[x].fInTried ==> x in mapInfo && mapInfo[x].fInTried
      ensures TimesFrom(old(mapInfo), mapInfo)
      ensures Settled(old(T()), T(), id, u, nNow, picks, victim)
    {
      hide Consistent, Holders, TimesFrom, IsTerrible, IsListing, IsVictim;
      SizeBound(T(), u, id);
      TimesSame(mapInfo);
      victim := None;
      if |vvNew[u]| == NEW_BUCKET_SIZE {
        var code, v, listed := ShrinkNew(u, nNow, picks, id);
        victim := Some(v);
      }
      InsertKeeps(T(), u, id);
      vvNew := vvNew[u := vvNew[u] + {id}];
    }

    /** An address learnt from a peer; true if it was not known before. */
    method Add(addr: Service, source: NetAddr, addrTime: int, nTimePenalty: int, routable: bool,
               nNow: int, lucky: bool, u: nat, picks: seq<nat>) returns (fNew: bool, ghost victim: Option<int>)
      requires Valid() && u < NEW_BUCKET_COUNT
      requires |picks| == 4 && |vvNew| == NEW_BUCKET_COUNT
      requires |vvNew[u]| == NEW_BUCKET_SIZE ==> forall i :: 0 <= i < 4 ==> picks[i] < NEW_BUCKET_SIZE
      modifies this
      ensures Valid()
      ensures fNew <==> routable && addr.addr !in old(mapAddr)
      ensures fNew ==>
        && addr.addr in mapAddr && !mapInfo[mapAddr[addr.addr]].fInTried
        && mapInfo[mapAddr[addr.addr]].nRefCount == 1 && mapInfo[mapAddr[addr.addr]].service == addr
        && mapInfo[mapAddr[addr.addr]].nTime == if addrTime - nTimePenalty > 0 then addrTime - nTimePenalty else 0
      ensures fNew ==> u < |vvNew| && mapAddr[addr.addr] in vvNew[u]
      ensures !fNew ==> mapInfo.Keys <= old(mapInfo).Keys
      ensures forall id :: id in old(mapInfo) && old(mapInfo)[id].fInTried ==> id in mapInfo && mapInfo[id].fInTried
      ensures addr.addr in old(mapAddr) ==>
        var id := old(mapAddr)[addr.addr];
        && id in old(mapInfo) && id in mapInfo && u < |vvNew|
        && var info := old(mapInfo)[id];
        var seen := if routable then info.(nTime := SeenTime(info.nTime, addrTime, nTimePenalty, nNow)) else info;
        var grows := routable && MayGrow(seen, addrTime, lucky) && id !in old(vvNew)[u];
        && mapInfo[id] ==
             seen.(nRefCount := seen.nRefCount + (if grows then 1 else 0), nRandomPos := mapInfo[id].nRandomPos)
        && (id in vvNew[u] <==> id in old(vvNew)[u] || grows)
      ensures TimesOk(old(mapInfo)) ==> TimesOk(mapInfo)
      ensures
        if !routable then T() == old(T())
        else if fNew then
          var nTime := if addrTime - nTimePenalty > 0 then addrTime - nTimePenalty else 0;
          Settled(Created(old(T()), addr, source, nTime), T(), old(nIdCount), u, nNow, picks, victim)
        else
          addr.addr in old(mapAddr) && old(mapAddr)[addr.addr] in old(mapInfo) &&
          SeenAgain(old(T()), T(), old(mapAddr)[addr.addr], addrTime, nTimePenalty, nNow, lucky, u, picks, victim)
    {
      hide Consistent, Holders, TimesOk, MayGrow, SeenTime, Settled, Created, SeenAgain;
      AddrKnown(T());
      victim := None;
      if !routable {
        return false, None;
      }
      var found := Find(addr.addr);
      fNew := found.None?;
      if found.Some? {
        victim := AddKnown(found.value, addrTime, nTimePenalty, nNow, lucky, u, picks);
      } else {
        var nTime := if addrTime - nTimePenalty > 0 then addrTime - nTimePenalty else 0;
        victim := AddNew(addr, source, nTime, nNow, u, picks);
      }
    }

    /** An address that is known: its time is updated, and it may get into the bucket. */
    method AddKnown(id: int, addrTime: int, nTimePenalty: int, nNow: int, lucky: bool, u: nat, picks: seq<nat>)
      returns (ghost victim: Option<int>)
      requires Valid() && id in mapInfo && u < NEW_BUCKET_COUNT == |vvNew| && |picks| == 4
      requires |vvNew[u]| == NEW_BUCKET_SIZE ==> forall i :: 0 <= i < 4 ==> picks[i] < NEW_BUCKET_SIZE
      modifies this
      ensures Valid() && mapInfo.Keys <= old(mapInfo).Keys && id in mapInfo && u < |vvNew|
      ensures forall x :: x in old(mapInfo) && old(mapInfo)[x].fInTried ==> x in mapInfo && mapInfo[x].fInTried
      ensures
        var info := old(mapInfo)[id];
        var seen := info.(nTime := SeenTime(info.nTime, addrTime, nTimePenalty, nNow));
        var grows := MayGrow(seen, addrTime, lucky) && id !in old(vvNew)[u];
        && mapInfo[id] ==
             seen.(nRefCount := seen.nRefCount + (if grows then 1 else 0), nRandomPos := mapInfo[id].nRandomPos)
        && (id in vvNew[u] <==> id in old(vvNew)[u] || grows)
      ensures TimesOk(old(mapInfo)) ==> TimesOk(mapInfo)
      ensures SeenAgain(old(T()), T(), id, addrTime, nTimePenalty, nNow, lucky, u, picks, victim)
    {
      hide Consistent, Holders, TimesOk, MayGrow, SeenTime, Settled;
      victim := None;
      var go := Refresh(id, addrTime, nTimePenalty, nNow, lucky);
      TimesStay(old(mapInfo), mapInfo);
      if !go || id in vvNew[u] {
        return;
      }
      TakeRef(T(), id);
      AddrKnown(T());
      mapInfo := mapInfo[id := mapInfo[id].(nRefCount := mapInfo[id].nRefCount + 1)];
      TimesStay(old(mapInfo), mapInfo);
      ghost var m := mapInfo;
      ghost var seen := old(mapInfo)[id].(nTime := SeenTime(old(mapInfo)[id].nTime, addrTime, nTimePenalty, nNow));
      assert mapInfo == old(mapInfo)[id := seen.(nRefCount := seen.nRefCount + 1)];
      victim := Settle(id, u, nNow, picks);
      TimesStay(m, mapInfo);
    }

    /** The whole change when a known address is seen again: its time, and maybe one more bucket. */
    static ghost predicate SeenAgain(
        t: Tables, t': Tables, id: int, addrTime: int, nTimePenalty: int, nNow: int, lucky: bool, u: nat,
        picks: seq<nat>, victim: Option<int>)
      requires id in t.mapInfo
    {
      var info := t.mapInfo[id];
      var seen := info.(nTime := SeenTime(info.nTime, addrTime, nTimePenalty, nNow));
      && u < |t.vvNew|
      && if MayGrow(seen, addrTime, lucky) && id !in t.vvNew[u] then
           var more := seen.(nRefCount := seen.nRefCount + 1);
           Settled(t.(mapInfo := t.mapInfo[id := more]), t', id, u, nNow, picks, victim)
         else t' == t.(mapInfo := t.mapInfo[id := seen])
    }

    /** An address that is not known: a new entry, in the bucket. */
    method AddNew(addr: Service, source: NetAddr, nTime: int, nNow: int, u: nat, picks: seq<nat>)
      returns (ghost victim: Option<int>)
      requires Valid() && addr.addr !in mapAddr && u < NEW_BUCKET_COUNT == |vvNew| && |picks| == 4
      requires |vvNew[u]| == NEW_BUCKET_SIZE ==> forall i :: 0 <= i < 4 ==> picks[i] < NEW_BUCKET_SIZE
      modifies this
      ensures Valid() && addr.addr in mapAddr && mapAddr[addr.addr] in mapInfo && u < |vvNew|
      ensures mapAddr[addr.addr] in vvNew[u]
      ensures
        var info := mapInfo[mapAddr[addr.addr]];
        !info.fInTried && info.nRefCount == 1 && info.service == addr && info.nTime == nTime
      ensures forall x :: x in old(mapInfo) && old(mapInfo)[x].fInTried ==> x in mapInfo && mapInfo[x].fInTried
      ensures TimesOk(old(mapInfo)) ==> TimesOk(mapInfo)
      ensures Settled(Created(old(T()), addr, source, nTime), T(), old(nIdCount), u, nNow, picks, victim)
    {
      hide Consistent, Holders, Settled, Created;
      var id := Create(addr, source, nTime);
      ghost var m := mapInfo;
      assert TimesOk(old(mapInfo)) ==> TimesOk(m) by {
        forall x | TimesOk(old(mapInfo)) && x in m ensures TimeOk(m[x]) {
          if x in old(mapInfo) { assert TimeOk(old(mapInfo)[x]); }
        }
      }
      victim := Settle(id, u, nNow, picks);
      TimesStay(m, mapInfo);
      AddrKnown(T());
    }

    /** A connection attempt. */
    method Attempt(addr: Service, nTime: int)
      requires Valid()
      modifies this`mapInfo
      ensures Valid()
      ensures TimesOk(old(mapInfo)) ==> (TimesOk(mapInfo) <==> nTime >= 0 || !old(Knows(addr)))
      ensures
        if old(Knows(addr)) then
          var id := mapAddr[addr.addr];
          var info := old(mapInfo)[id];
          mapInfo == old(mapInfo)[id := info.(nLastTry := nTime, nAttempts := info.nAttempts + 1)]
        else mapInfo == old(mapInfo)
    {
      AddrKnown(T());
      var found := Find(addr.addr);
      if found.None? || mapInfo[found.value].service != addr {
        return;
      }
      var id := found.value;
      hide Consistent;
      var info := mapInfo[id].(nLastTry := nTime, nAttempts := mapInfo[id].nAttempts + 1);
      TouchKeeps(T(), id, info, NOBODY);
      mapInfo := mapInfo[id := info];
    }

    /** A running connection refreshes the time, at most every twenty minutes. */
    method Connected(addr: Service, nTime: int)
      requires Valid()
      modifies this`mapInfo
      ensures Valid() && TimesFrom(old(mapInfo), mapInfo)
      ensures
        if old(Knows(addr)) &&
           nTime - old(mapInfo)[mapAddr[addr.addr]].nTime > 20 * 60
        then mapInfo == old(mapInfo)[mapAddr[addr.addr] := old(mapInfo)[mapAddr[addr.addr]].(nTime := nTime)]
        else mapInfo == old(mapInfo)
    {
      AddrKnown(T());
      var found := Find(addr.addr);
      if found.None? || mapInfo[found.value].service != addr {
        return;
      }
      var id := found.value;
      hide Consistent;
      if nTime - mapInfo[id].nTime > 20 * 60 {
        TouchKeeps(T(), id, mapInfo[id].(nTime := nTime), NOBODY);
        mapInfo := mapInfo[id := mapInfo[id].(nTime := nTime)];
      }
    }

    /** A random selection of different entries that are not terrible; the random order is shuffled on the way. */
    method GetAddr(nNow: int, rnd: nat -> nat) returns (vAddr: seq<Info>, ghost ids: seq<int>)
      requires Valid()
      modifies this`mapInfo, this`vRandom
      ensures Valid() && mapInfo.Keys == old(mapInfo).Keys && TimesFrom(old(mapInfo), mapInfo)
      ensures |vRandom| == |old(vRandom)|
      ensures
        var limit := if 23 * |vRandom| / 100 < 2500 then 23 * |vRandom| / 100 else 2500;
        var givable := |Givable(old(mapInfo), nNow)|;
        |vAddr| == if givable < limit then givable else limit
      ensures forall i :: 0 <= i < |vAddr| ==> !IsTerrible(vAddr[i], nNow)
      ensures |ids| == |vAddr| && forall i :: 0 <= i < |ids| ==>
        ids[i] in old(mapInfo) && vAddr[i] == old(mapInfo)[ids[i]].(nRandomPos := vAddr[i].nRandomPos)
      ensures forall i, j :: 0 <= i < j < |ids| ==> ids[i] != ids[j]
    {
      hide Consistent, IsTerrible, Taken, Givable, TimesFrom;
      TimesSame(mapInfo);
      var nNodes := GETADDR_MAX_PCT * |vRandom| / 100;
      if nNodes > GETADDR_MAX {
        nNodes := GETADDR_MAX;
      }
      vAddr, ids := [], [];
      ghost var size, positions: seq<nat> := |vRandom|, [];
      var n := 0;
      NoneTaken(mapInfo, vRandom, nNow);
      while n < |vRandom| && |vAddr| < nNodes
        invariant 0 <= n <= |vRandom| == size && |vAddr| <= nNodes
        invariant Valid() && mapInfo.Keys == old(mapInfo).Keys && TimesFrom(old(mapInfo), mapInfo)
        invariant forall id :: id in mapInfo ==> mapInfo[id] == old(mapInfo)[id].(nRandomPos := mapInfo[id].nRandomPos)
        invariant forall i :: 0 <= i < |vAddr| ==> !IsTerrible(vAddr[i], nNow)
        invariant Taken(mapInfo, vRandom, vAddr, ids, positions, n, nNow)
      {
        var nRndPos := rnd(n) % (|vRandom| - n) + n;
        ghost var before, order := mapInfo, vRandom;
        SwapRandom(n, nRndPos, NOBODY);
        TimesSwapped(old(mapInfo), mapInfo);
        TakenSwapped(before, order, mapInfo, vRandom, vAddr, ids, positions, n, nNow);
        RandomKnows(T(), n, NOBODY);
        TakeNext(mapInfo, vRandom, vAddr, ids, positions, n, nNow);
        var ai := mapInfo[vRandom[n]];
        if !IsTerrible(ai, nNow) {
          vAddr := vAddr + [ai];
          ids, positions := ids + [vRandom[n]], positions + [n];
        }
        n := n + 1;
      }
      RandomDistinct(T());
      TakenDistinct(mapInfo, vRandom, vAddr, ids, positions, n, nNow);
      SameGivable(old(mapInfo), mapInfo, nNow);
      RandomComplete(T());
      TakenCount(mapInfo, vRandom, vAddr, ids, positions, n, nNow);
    }

    /** Any sequence of operations, with any times, bucket numbers and random choices: the tables stay consistent,
        and times stay in order if the operations bring positive times. */
    method Run(ops: seq<Operation>)
      requires Valid()
      modifies this
      ensures Valid()
      ensures TimesOk(old(mapInfo)) && (forall i :: 0 <= i < |ops| ==> ops[i].InTime()) ==> TimesOk(mapInfo)
    {
      hide Consistent, TimesOk;
      for i := 0 to |ops|
        invariant Valid()
        invariant TimesOk(old(mapInfo)) && (forall j :: 0 <= j < i ==> ops[j].InTime()) ==> TimesOk(mapInfo)
      {
        TableSizes(T());
        match ops[i] {
          case AddOp(addr, source, addrTime, nTimePenalty, routable, nNow, lucky, u, picks) =>
            if u < NEW_BUCKET_COUNT && |picks| == 4 && forall j :: 0 <= j < 4 ==> picks[j] < NEW_BUCKET_SIZE {
              var fNew, victim := Add(addr, source, addrTime, nTimePenalty, routable, nNow, lucky, u, picks);
            }
          case GoodOp(addr, nTime, nRnd, k, u, picks) =>
            if k < TRIED_BUCKET_COUNT && u < NEW_BUCKET_COUNT && |picks| >= TRIED_ENTRIES_INSPECT_ON_EVICT {
              var nOrigin, evicted := Good(addr, nTime, nRnd, k, u, picks);
            }
          case AttemptOp(addr, nTime) => Attempt(addr, nTime);
          case ConnectedOp(addr, nTime) =>
            ghost var m := mapInfo;
            Connected(addr, nTime);
            TimesStay(m, mapInfo);
          case GetAddrOp(nNow, rnd) =>
            ghost var m := mapInfo;
            var vAddr, ids := GetAddr(nNow, rnd);
            TimesStay(m, mapInfo);
        }
      }
    }
  }

  datatype Operation =
    | AddOp(addr: Service, source: NetAddr, addrTime: int, nTimePenalty: int, routable: bool, nNow: int, lucky: bool,
            u: nat, picks: seq<nat>)
    | GoodOp(addr: Service, nTime: int, nRnd: nat, k: nat, u: nat, picks: seq<nat>)
    | AttemptOp(addr: Service, nTime: int)
    | ConnectedOp(addr: Service, nTime: int)
    | GetAddrOp(nNow: int, rnd: nat -> nat)
  {
    predicate InTime() {
      match this
      case GoodOp(_, nTime, _, _, _, _) => nTime > 0
      case AttemptOp(_, nTime) => nTime >= 0
      case _ => true
    }
  }

  /** The elements of a set of ids, in ascending order. */
  method Elements(s: set<int>, bound: int) returns (q: seq<int>)
    requires forall x :: x in s ==> 0 <= x < bound
    ensures IsListing(q, s)
  {
    hide IsListing;
    q := [];
    ghost var seen: set<int> := {};
    NothingListed();
    var i := 0;
    while i < bound
      invariant 0 <= i && seen <= s && IsListing(q, seen)
      invariant forall x :: x in seen ==> x < i
      invariant forall x :: x in s && x < i ==> x in seen
    {
      if i in s {
        ListNext(q, seen, i);
        q := q + [i];
        seen := seen + {i};
      }
      i := i + 1;
    }
    assert seen == s;
  }

  lemma NothingListed()
    ensures IsListing([], {})
  {
  }

  lemma ListNext(q: seq<int>, s: set<int>, i: int)
    requires IsListing(q, s) && forall x :: x in s ==> x < i
    ensures IsListing(q + [i], s + {i})
  {
    assert i !in s;
    forall x | x in s + {i}
      ensures x in q + [i]
    {
      if x == i { assert (q + [i])[|q|] == i; }
    }
  }

  lemma BucketIsKnown(t: Tables, b: nat, pending: int)
    requires Consistent(t, pending) && b < |t.vvNew|
    ensures t.vvNew[b] <= t.mapInfo.Keys
    ensures forall id :: id in t.vvNew[b] ==> 0 <= id < t.nIdCount
  {
  }

  lemma TableSizes(t: Tables)
    requires Consistent(t, NOBODY)
    ensures |t.vvNew| == NEW_BUCKET_COUNT && |t.vvTried| == TRIED_BUCKET_COUNT
    ensures forall b :: 0 <= b < |t.vvNew| ==> |t.vvNew[b]| <= NEW_BUCKET_SIZE
  {
  }

  lemma {:induction false} NothingTried(vv: seq<seq<int>>)
    requires forall b :: 0 <= b < |vv| ==> vv[b] == []
    ensures AllTried(vv) == multiset{}
    decreases |vv|
  {
    if vv != [] {
      NothingTried(vv[1..]);
    }
  }

  /** An id in a "new" bucket is known, not tried, and has a place in the random order. */
  lemma NewIsKnown(t: Tables, b: nat, id: int, pending: int)
    requires Consistent(t, pending) && b < |t.vvNew| && id in t.vvNew[b]
    ensures id in t.mapInfo && id >= 0 && !t.mapInfo[id].fInTried
    ensures 1 <= t.mapInfo[id].nRefCount <= NEW_BUCKETS_PER_ADDRESS
    ensures 0 <= t.mapInfo[id].nRandomPos < |t.vRandom| && t.vRandom[t.mapInfo[id].nRandomPos] == id
    ensures id != pending ==> t.mapInfo[id].nRefCount == |Holders(t.vvNew, id)|
    ensures forall i :: 0 <= i < |t.vRandom| ==> t.vRandom[i] in t.mapInfo && t.mapInfo[t.vRandom[i]].nRandomPos == i
  {
    assert b in Holders(t.vvNew, id);
    assert |Holders(t.vvNew, id)| >= 1;
  }

  /** What is known of when an address was seen, after hearing of it again. */
  function SeenTime(nTime: int, addrTime: int, nTimePenalty: int, nNow: int): int {
    var interval := if nNow - addrTime < DAY then 60 * 60 else DAY;
    if addrTime != 0 && (nTime == 0 || nTime < addrTime - interval - nTimePenalty) then
      if addrTime - nTimePenalty > 0 then addrTime - nTimePenalty else 0
    else nTime
  }

  /** In seconds: the time is replaced if it is unknown or older than the news, less the penalty, by more than an hour
      for an address that is online, and a day otherwise. */
  lemma SeenTimeIs(nTime: int, addrTime: int, nTimePenalty: int, nNow: int)
    ensures
      var news := addrTime - nTimePenalty;
      var t := SeenTime(nTime, addrTime, nTimePenalty, nNow);
      if addrTime != 0 && (nTime == 0 || news - nTime > if nNow < addrTime + 86_400 then 3_600 else 86_400)
      then t >= 0 && t >= news && (t == 0 || t == news)
      else t == nTime
  {
  }

  lemma TimesSame(m: InfoMap)
    ensures TimesFrom(m, m)
  {
  }

  lemma TimesSwapped(m: InfoMap, m': InfoMap)
    requires m'.Keys == m.Keys && forall id :: id in m' ==> m'[id] == m[id].(nRandomPos := m'[id].nRandomPos)
    ensures TimesFrom(m, m')
  {
  }

  lemma TimesStay(m: InfoMap, m': InfoMap)
    requires TimesFrom(m, m')
    ensures TimesOk(m) ==> TimesOk(m')
  {
    forall x | TimesOk(m) && x in m' ensures TimeOk(m'[x]) { assert TimeOk(m[x]); }
  }

  /** An entry becomes tried at some time, and the others at most stop being tried. */
  lemma GoodTimes(m: InfoMap, m': InfoMap, id: int, nTime: int)
    requires m'.Keys == m.Keys && id in m && m'[id].fInTried && m'[id].nLastSuccess == m'[id].nLastTry == nTime
    requires forall x :: x in m && x != id ==>
      && m'[x].nLastTry == m[x].nLastTry && m'[x].nLastSuccess == m[x].nLastSuccess &&
        (m'[x].fInTried ==> m[x].fInTried)
    ensures TimesOk(m) ==> (TimesOk(m') <==> nTime > 0)
  {
    if TimesOk(m) && nTime > 0 {
      forall x | x in m' ensures TimeOk(m'[x]) { assert TimeOk(m[x]); }
    }
    if TimesOk(m') { assert TimeOk(m'[id]); }
  }

  lemma TriedAreKnown(t: Tables, k: nat)
    requires Consistent(t, NOBODY) && k < |t.vvTried|
    ensures forall j :: 0 <= j < |t.vvTried[k]| ==> t.vvTried[k][j] in t.mapInfo && t.vvTried[k][j] >= 0
  {
    hide Consistent;
    KnownIds(t);
    forall j | 0 <= j < |t.vvTried[k]| ensures t.vvTried[k][j] in t.mapInfo { OneTriedPlace(t, k, j); }
  }

  lemma KnownIds(t: Tables)
    requires Consistent(t, NOBODY)
    ensures forall id :: id in t.mapInfo ==> id >= 0
  {
  }

  /** The elements of a set in ascending order. */
  ghost predicate IsListing(q: seq<int>, s: set<int>) {
    && |q| == |s|
    && (forall i :: 0 <= i < |q| ==> q[i] in s)
    && (forall x :: x in s ==> x in q)
    && (forall i, j :: 0 <= i < j < |q| ==> q[i] < q[j])
  }

  lemma RandomKnows(t: Tables, p: int, pending: int)
    requires Consistent(t, pending) && 0 <= p < |t.vRandom|
    ensures t.vRandom[p] in t.mapInfo
  {
  }

  /** The entries taken so far, and their places among the first n: all of these that are not terrible. */
  ghost predicate Taken(
      m: InfoMap, vRandom: seq<int>, vAddr: seq<Info>, ids: seq<int>, positions: seq<nat>, n: nat, nNow: int)
  {
    |ids| == |positions| == |vAddr| && n <= |vRandom| &&
    (forall i :: 0 <= i < |ids| ==> positions[i] < n && vRandom[positions[i]] == ids[i]) &&
    (forall i :: 0 <= i < |ids| ==> ids[i] in m && vAddr[i] == m[ids[i]].(nRandomPos := vAddr[i].nRandomPos)) &&
    (forall i, j :: 0 <= i < j < |ids| ==> positions[i] < positions[j]) &&
    (forall p :: 0 <= p < n && vRandom[p] in m && !IsTerrible(m[vRandom[p]], nNow) ==> vRandom[p] in ids)
  }

  lemma NoneTaken(m: InfoMap, vRandom: seq<int>, nNow: int)
    ensures Taken(m, vRandom, [], [], [], 0, nNow)
  {
  }

  lemma TakenSwapped(
      m: InfoMap, order: seq<int>, m': InfoMap, order': seq<int>, vAddr: seq<Info>, ids: seq<int>,
      positions: seq<nat>, n: nat, nNow: int)
    requires Taken(m, order, vAddr, ids, positions, n, nNow) && |order'| == |order| && m'.Keys == m.Keys
    requires forall i :: 0 <= i < n ==> order'[i] == order[i]
    requires forall id :: id in m' ==> m'[id] == m[id].(nRandomPos := m'[id].nRandomPos)
    ensures Taken(m', order', vAddr, ids, positions, n, nNow)
  {
  }

  lemma TakeNext(
      m: InfoMap, vRandom: seq<int>, vAddr: seq<Info>, ids: seq<int>, positions: seq<nat>, n: nat, nNow: int)
    requires Taken(m, vRandom, vAddr, ids, positions, n, nNow) && n < |vRandom| && vRandom[n] in m
    ensures IsTerrible(m[vRandom[n]], nNow) ==> Taken(m, vRandom, vAddr, ids, positions, n + 1, nNow)
    ensures Taken(m, vRandom, vAddr + [m[vRandom[n]]], ids + [vRandom[n]], positions + [n], n + 1, nNow)
  {
    hide IsTerrible;
    var ids' := ids + [vRandom[n]];
    assert ids'[|ids|] == vRandom[n];
    assert forall x :: x in ids ==> x in ids';
  }

  lemma TakenDistinct(
      m: InfoMap, vRandom: seq<int>, vAddr: seq<Info>, ids: seq<int>, positions: seq<nat>, n: nat, nNow: int)
    requires Taken(m, vRandom, vAddr, ids, positions, n, nNow)
    requires forall i, j :: 0 <= i < j < |vRandom| ==> vRandom[i] != vRandom[j]
    ensures |ids| == |vAddr|
    ensures forall i :: 0 <= i < |ids| ==> ids[i] in m && vAddr[i] == m[ids[i]].(nRandomPos := vAddr[i].nRandomPos)
    ensures forall i, j :: 0 <= i < j < |ids| ==> ids[i] != ids[j]
  {
  }

  /** The random order lists every entry. */
  lemma RandomComplete(t: Tables)
    requires Consistent(t, NOBODY)
    ensures forall id :: id in t.mapInfo ==> id in t.vRandom
  {
  }

  lemma SameGivable(m: InfoMap, m': InfoMap, nNow: int)
    requires m'.Keys == m.Keys && forall id :: id in m' ==> m'[id] == m[id].(nRandomPos := m'[id].nRandomPos)
    ensures Givable(m', nNow) == Givable(m, nNow)
  {
    assert forall id :: id in m ==> IsTerrible(m'[id], nNow) == IsTerrible(m[id], nNow);
  }

  /** No more are taken than can be given, and all of them once the whole order has been seen. */
  lemma TakenCount(
      m: InfoMap, vRandom: seq<int>, vAddr: seq<Info>, ids: seq<int>, positions: seq<nat>, n: nat, nNow: int)
    requires Taken(m, vRandom, vAddr, ids, positions, n, nNow)
    requires forall i, j :: 0 <= i < j < |ids| ==> ids[i] != ids[j]
    requires forall i :: 0 <= i < |vAddr| ==> !IsTerrible(vAddr[i], nNow)
    requires forall id :: id in m ==> id in vRandom
    ensures |vAddr| <= |Givable(m, nNow)|
    ensures n == |vRandom| ==> |vAddr| == |Givable(m, nNow)|
  {
    var listed := Listed(ids);
    ListedSize(ids);
    forall id | id in listed
      ensures id in Givable(m, nNow)
    {
      var i :| 0 <= i < |ids| && ids[i] == id;
      assert IsTerrible(m[id], nNow) == IsTerrible(vAddr[i], nNow);
    }
    Subset(listed, Givable(m, nNow));
    if n == |vRandom| {
      forall id | id in Givable(m, nNow)
        ensures id in listed
      {
        var p :| 0 <= p < |vRandom| && vRandom[p] == id;
        assert vRandom[p] in ids;
      }
      assert listed == Givable(m, nNow);
    }
  }

  ghost function Listed(ids: seq<int>): set<int> {
    set x | x in ids
  }

  /** A list without repetitions has the size of its set. */
  lemma {:induction false} ListedSize(ids: seq<int>)
    requires forall i, j :: 0 <= i < j < |ids| ==> ids[i] != ids[j]
    ensures |Listed(ids)| == |ids|
    decreases |ids|
  {
    if ids != [] {
      var n := |ids| - 1;
      ListedSize(ids[..n]);
      assert ids == ids[..n] + [ids[n]];
      assert Listed(ids) == Listed(ids[..n]) + {ids[n]};
    }
  }

  lemma Subset(a: set<int>, b: set<int>)
    requires a <= b
    ensures |a| <= |b|
  {
    assert b == a + (b - a);
  }

  lemma RandomDistinct(t: Tables)
    requires Consistent(t, NOBODY)
    ensures forall i, j :: 0 <= i < j < |t.vRandom| ==> t.vRandom[i] != t.vRandom[j]
  {
  }

  lemma FreshId(t: Tables)
    requires Consistent(t, NOBODY)
    ensures t.nIdCount >= 0 && t.nIdCount !in t.mapInfo
    ensures forall b :: 0 <= b < |t.vvNew| ==> t.nIdCount !in t.vvNew[b]
  {
  }

  lemma RefBounds(t: Tables, id: int)
    requires Consistent(t, NOBODY) && id in t.mapInfo && !t.mapInfo[id].fInTried
    ensures 1 <= t.mapInfo[id].nRefCount <= NEW_BUCKETS_PER_ADDRESS
  {
  }

  lemma SizeBound(t: Tables, b: nat, pending: int)
    requires Consistent(t, pending) && b < |t.vvNew|
    ensures |t.vvNew[b]| <= NEW_BUCKET_SIZE
    ensures pending != NOBODY ==> pending in t.mapInfo
  {
  }

  lemma AddrKnown(t: Tables)
    requires Consistent(t, NOBODY)
    ensures forall a :: a in t.mapAddr ==> t.mapAddr[a] in t.mapInfo && t.mapInfo[t.mapAddr[a]].service.addr == a
    ensures forall id :: id in t.mapInfo ==>
      t.mapInfo[id].service.addr in t.mapAddr && t.mapAddr[t.mapInfo[id].service.addr] == id
    ensures forall id :: id in t.mapInfo ==> id >= 0
  {
  }

  /** An entry that is not tried is in some "new" bucket. */
  lemma HasBucket(t: Tables, id: int)
    requires Consistent(t, NOBODY) && id in t.mapInfo && !t.mapInfo[id].fInTried
    ensures exists b :: 0 <= b < |t.vvNew| && id in t.vvNew[b]
  {
    assert Holders(t.vvNew, id) != {};
    var b :| b in Holders(t.vvNew, id);
  }

  /** The n-th bucket of the search. */
  function Visited(n: nat, nRnd: nat, count: nat): nat
    requires count > 0
  {
    (n + nRnd) % count
  }

  /** The first bucket with the id from place nRnd on, around the end. */
  ghost predicate FirstHolder(vvNew: seq<set<int>>, id: int, nRnd: nat, b: nat) {
    && b < |vvNew| && id in vvNew[b]
    && exists n: nat ::
         && b == Visited(n, nRnd, |vvNew|) && n < |vvNew|
         && forall j :: 0 <= j < n ==> id !in vvNew[Visited(j, nRnd, |vvNew|)]
  }

  /** The search that starts at a random bucket and wraps around visits every bucket. */
  lemma NoneMissed(vvNew: seq<set<int>>, id: int, nRnd: nat)
    requires |vvNew| > 0
    requires forall j :: 0 <= j < |vvNew| ==> id !in vvNew[Visited(j, nRnd, |vvNew|)]
    ensures forall b :: 0 <= b < |vvNew| ==> id !in vvNew[b]
  {
    var n := |vvNew|;
    forall b | 0 <= b < n
      ensures id !in vvNew[b]
    {
      var r := nRnd % n;
      var j := if b >= r then b - r else b + n - r;
      WrapAround(n, nRnd, b, j);
      assert id !in vvNew[Visited(j, nRnd, n)];
    }
  }

  lemma WrapAround(n: nat, nRnd: nat, b: nat, j: int)
    requires n > 0 && b < n && j == if b >= nRnd % n then b - nRnd % n else b + n - nRnd % n
    ensures 0 <= j < n && (j + nRnd) % n == b
  {
    var q, r := nRnd / n, nRnd % n;
    assert nRnd == q * n + r;
    var k := if b >= r then q else q + 1;
    assert j + nRnd == k * n + b;
    LimbMath.DivModUnique(j + nRnd, n, k, b);
  }
}
