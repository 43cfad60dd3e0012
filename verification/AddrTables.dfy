/** The tables of the address manager as values, the consistency conditions between them, and the
    small changes that every operation is made of. */
module AddrTables {

  type NetAddr = nat

  datatype Service = Service(addr: NetAddr, port: nat)

  /** What is known about one address. */
  datatype Info = Info(
    service: Service, source: NetAddr, nTime: int, nLastSuccess: int, nLastTry: int, nAttempts: int,
    nRefCount: int, fInTried: bool, nRandomPos: int)

  const TRIED_BUCKET_COUNT := 64
  const TRIED_BUCKET_SIZE := 64
  const NEW_BUCKET_COUNT := 256
  const NEW_BUCKET_SIZE := 64
  const NEW_BUCKETS_PER_ADDRESS := 4

  type InfoMap = map<int, Info>

  /** No id is waiting to be put into a bucket. */
  const NOBODY := -1

  // ---------- the conditions ----------

  /** vRandom and nRandomPos are inverse to each other. */
  ghost predicate RandomOk(m: InfoMap, vRandom: seq<int>) {
    && (forall id :: id in m ==> 0 <= m[id].nRandomPos < |vRandom| && vRandom[m[id].nRandomPos] == id)
    && (forall i :: 0 <= i < |vRandom| ==> vRandom[i] in m && m[vRandom[i]].nRandomPos == i)
  }

  /** mapAddr is the inverse of mapInfo. */
  ghost predicate AddrOk(m: InfoMap, mapAddr: map<NetAddr, int>) {
    && (forall id :: id in m ==> m[id].service.addr in mapAddr && mapAddr[m[id].service.addr] == id)
    && (forall a :: a in mapAddr ==> mapAddr[a] in m && m[mapAddr[a]].service.addr == a)
  }

  /** The "new" buckets that hold an id. */
  ghost function Holders(vvNew: seq<set<int>>, id: int): set<int> {
    set b | 0 <= b < |vvNew| && id in vvNew[b]
  }

  /** The reference count is the number of "new" buckets that hold the id, plus one for the id that
      is about to be put into a bucket. */
  ghost predicate RefsOk(m: InfoMap, vvNew: seq<set<int>>, pending: int) {
    && (forall id :: id in m ==> m[id].nRefCount == |Holders(vvNew, id)| + (if id == pending then 1 else 0))
    && (forall id :: id in m ==> if m[id].fInTried then m[id].nRefCount == 0
                                 else 1 <= m[id].nRefCount <= NEW_BUCKETS_PER_ADDRESS)
  }

  /** Buckets have the right number and size, and hold known ids only. */
  ghost predicate BucketsOk(m: InfoMap, vvNew: seq<set<int>>, vvTried: seq<seq<int>>) {
    && |vvNew| == NEW_BUCKET_COUNT && |vvTried| == TRIED_BUCKET_COUNT
    && (forall b :: 0 <= b < |vvNew| ==> |vvNew[b]| <= NEW_BUCKET_SIZE && vvNew[b] <= m.Keys)
    && (forall b :: 0 <= b < |vvTried| ==> |vvTried[b]| <= TRIED_BUCKET_SIZE)
  }

  /** All entries of the "tried" buckets together. */
  ghost function AllTried(vvTried: seq<seq<int>>): multiset<int> {
    if vvTried == [] then multiset{} else multiset(vvTried[0]) + AllTried(vvTried[1..])
  }

  /** An id is in exactly one "tried" place if it is marked so, and in none otherwise. */
  ghost predicate TriedOk(m: InfoMap, vvTried: seq<seq<int>>) {
    forall id :: AllTried(vvTried)[id] == if id in m && m[id].fInTried then 1 else 0
  }

  ghost function TriedIds(m: InfoMap): set<int> {
    set id | id in m && m[id].fInTried
  }

  ghost function NewIds(m: InfoMap): set<int> {
    set id | id in m && !m[id].fInTried
  }

  ghost predicate CountsOk(m: InfoMap, nNew: int, nTried: int) {
    nNew == |NewIds(m)| && nTried == |TriedIds(m)|
  }

  ghost predicate InfosOk(m: InfoMap, nIdCount: int) {
    nIdCount >= 0 && forall id :: id in m ==> 0 <= id < nIdCount
  }

  /** Times are not negative, and an entry was tried with success if it is marked so. */
  ghost predicate TimesOk(m: InfoMap) {
    forall id :: id in m ==> TimeOk(m[id])
  }

  predicate TimeOk(info: Info) {
    info.nLastTry >= 0 && info.nLastSuccess >= 0 && (info.fInTried ==> info.nLastSuccess != 0)
  }

  /** Whatever is in m' was in m with the same times, and is not newly tried. */
  ghost predicate TimesFrom(m: InfoMap, m': InfoMap) {
    forall id :: id in m' ==>
      && id in m && m'[id].nLastTry == m[id].nLastTry && m'[id].nLastSuccess == m[id].nLastSuccess
      && (m'[id].fInTried ==> m[id].fInTried)
  }

  // ---------- small changes ----------

  /** Two infos differ at most in position and statistics. */
  ghost predicate SameRole(a: Info, b: Info) {
    a.service.addr == b.service.addr && a.nRefCount == b.nRefCount && a.fInTried == b.fInTried
  }

  /** Position and statistics do not matter to the other conditions. */
  lemma RolesDecide(m: InfoMap, m': InfoMap, mapAddr: map<NetAddr, int>, vvNew: seq<set<int>>, vvTried: seq<seq<int>>,
                    nNew: int, nTried: int, pending: int)
    requires m'.Keys == m.Keys && forall id :: id in m ==> SameRole(m[id], m'[id])
    ensures AddrOk(m, mapAddr) ==> AddrOk(m', mapAddr)
    ensures RefsOk(m, vvNew, pending) ==> RefsOk(m', vvNew, pending)
    ensures BucketsOk(m, vvNew, vvTried) ==> BucketsOk(m', vvNew, vvTried)
    ensures TriedOk(m, vvTried) ==> TriedOk(m', vvTried)
    ensures CountsOk(m, nNew, nTried) ==> CountsOk(m', nNew, nTried)
  {
    forall id
      ensures id in NewIds(m') <==> id in NewIds(m)
      ensures id in TriedIds(m') <==> id in TriedIds(m)
    {
      if id in m { assert SameRole(m[id], m'[id]); }
    }
    assert NewIds(m') == NewIds(m);
    assert TriedIds(m') == TriedIds(m);
  }

  /** Swapping two places of vRandom, with the positions updated. */
  lemma SwapKeeps(m: InfoMap, vRandom: seq<int>, p: int, q: int)
    requires RandomOk(m, vRandom) && 0 <= p < |vRandom| && 0 <= q < |vRandom| && p != q
    ensures
      var a, b := vRandom[p], vRandom[q];
      && a in m && b in m && a != b
      && RandomOk(m[a := m[a].(nRandomPos := q)][b := m[b].(nRandomPos := p)], vRandom[p := b][q := a])
  {
  }

  /** Forgetting the id in the last place. */
  lemma PopKeeps(m: InfoMap, vRandom: seq<int>, id: int)
    requires RandomOk(m, vRandom) && id in m && m[id].nRandomPos == |vRandom| - 1
    ensures RandomOk(m - {id}, vRandom[..|vRandom| - 1])
  {
    forall i | i in m - {id}
      ensures m[i].nRandomPos < |vRandom| - 1
    {
      assert vRandom[m[i].nRandomPos] == i;
    }
  }

  lemma AppendKeeps(m: InfoMap, vRandom: seq<int>, id: int, info: Info)
    requires RandomOk(m, vRandom) && id !in m && info.nRandomPos == |vRandom|
    ensures RandomOk(m[id := info], vRandom + [id])
  {
  }

  lemma ForgetAddr(m: InfoMap, mapAddr: map<NetAddr, int>, id: int)
    requires AddrOk(m, mapAddr) && id in m
    ensures AddrOk(m - {id}, mapAddr - {m[id].service.addr})
  {
  }

  lemma LearnAddr(m: InfoMap, mapAddr: map<NetAddr, int>, id: int, info: Info)
    requires AddrOk(m, mapAddr) && id !in m && info.service.addr !in mapAddr
    ensures AddrOk(m[id := info], mapAddr[info.service.addr := id])
  {
  }

  lemma HoldersRemove(vvNew: seq<set<int>>, b: nat, id: int)
    requires b < |vvNew|
    ensures Holders(vvNew[b := vvNew[b] - {id}], id) == Holders(vvNew, id) - {b}
    ensures forall x :: x != id ==> Holders(vvNew[b := vvNew[b] - {id}], x) == Holders(vvNew, x)
  {
  }

  lemma HoldersInsert(vvNew: seq<set<int>>, b: nat, id: int)
    requires b < |vvNew|
    ensures Holders(vvNew[b := vvNew[b] + {id}], id) == Holders(vvNew, id) + {b}
    ensures forall x :: x != id ==> Holders(vvNew[b := vvNew[b] + {id}], x) == Holders(vvNew, x)
  {
  }

  lemma {:induction false} AllTriedUpdate(vv: seq<seq<int>>, b: nat, s: seq<int>)
    requires b < |vv|
    ensures multiset(vv[b]) <= AllTried(vv)
    ensures AllTried(vv[b := s]) == AllTried(vv) - multiset(vv[b]) + multiset(s)
    decreases |vv|
  {
    if b == 0 {
      assert vv[0 := s][1..] == vv[1..];
    } else {
      AllTriedUpdate(vv[1..], b - 1, s);
      assert vv[b := s][1..] == vv[1..][b - 1 := s];
    }
  }

  lemma {:induction false} InSomeBucket(vv: seq<seq<int>>, id: int)
    ensures AllTried(vv)[id] > 0 <==> exists b :: 0 <= b < |vv| && id in vv[b]
    decreases |vv|
  {
    if vv != [] {
      InSomeBucket(vv[1..], id);
      assert id in multiset(vv[0]) <==> id in vv[0];
      if AllTried(vv)[id] > 0 && id !in vv[0] {
        var b :| 0 <= b < |vv[1..]| && id in vv[1..][b];
        assert id in vv[b + 1];
      }
      if b :| 0 < b < |vv| && id in vv[b] {
        assert id in vv[1..][b - 1];
      }
    }
  }

  // ---------- the conditions together ----------

  datatype Tables = Tables(
    nIdCount: int, mapInfo: InfoMap, mapAddr: map<NetAddr, int>, vRandom: seq<int>,
    nTried: int, vvTried: seq<seq<int>>, nNew: int, vvNew: seq<set<int>>)

  ghost predicate Consistent(t: Tables, pending: int) {
    && RandomOk(t.mapInfo, t.vRandom)
    && AddrOk(t.mapInfo, t.mapAddr)
    && RefsOk(t.mapInfo, t.vvNew, pending)
    && BucketsOk(t.mapInfo, t.vvNew, t.vvTried)
    && TriedOk(t.mapInfo, t.vvTried)
    && CountsOk(t.mapInfo, t.nNew, t.nTried)
    && InfosOk(t.mapInfo, t.nIdCount)
    && (pending != NOBODY ==> pending in t.mapInfo && !t.mapInfo[pending].fInTried)
  }

  lemma RandomSize(m: InfoMap, vRandom: seq<int>)
    requires RandomOk(m, vRandom)
    ensures |vRandom| == |m|
    decreases |vRandom|
  {
    if vRandom == [] {
      assert forall id :: id !in m;
      assert m == map[];
    } else {
      var last := vRandom[|vRandom| - 1];
      PopKeeps(m, vRandom, last);
      RandomSize(m - {last}, vRandom[..|vRandom| - 1]);
      assert (m - {last}).Keys == m.Keys - {last};
    }
  }

  // ---------- learning an address ----------

  /** A new entry, counted and with its first reference taken, is pending. */
  lemma CreateKeeps(t: Tables, info: Info)
    requires Consistent(t, NOBODY) && info.service.addr !in t.mapAddr
    requires info.nRefCount == 1 && !info.fInTried && info.nRandomPos == |t.vRandom|
    ensures
      var id := t.nIdCount;
      Consistent(t.(nIdCount := id + 1, mapInfo := t.mapInfo[id := info], mapAddr := t.mapAddr[info.service.addr := id],
                    vRandom := t.vRandom + [id], nNew := t.nNew + 1), id)
  {
    var id, m := t.nIdCount, t.mapInfo;
    var m' := m[id := info];
    assert id !in m;
    hide RandomOk, AddrOk, Holders, RefsOk, TriedOk, AllTried;
    CreateRefs(t, info);
    CreateTried(m, t.vvTried, id, info);
    AppendKeeps(m, t.vRandom, id, info);
    LearnAddr(m, t.mapAddr, id, info);
    CountsLearn(m, id, info);
    hide NewIds, TriedIds;
  }

  lemma CountsLearn(m: InfoMap, id: int, info: Info)
    requires id !in m && !info.fInTried
    ensures |NewIds(m[id := info])| == |NewIds(m)| + 1 && TriedIds(m[id := info]) == TriedIds(m)
  {
    assert NewIds(m[id := info]) == NewIds(m) + {id};
    assert TriedIds(m[id := info]) == TriedIds(m);
  }

  lemma CreateTried(m: InfoMap, vv: seq<seq<int>>, id: int, info: Info)
    requires TriedOk(m, vv) && id !in m && !info.fInTried
    ensures TriedOk(m[id := info], vv)
  {
    hide AllTried;
  }

  lemma CreateRefs(t: Tables, info: Info)
    requires Consistent(t, NOBODY) && info.nRefCount == 1 && !info.fInTried
    ensures RefsOk(t.mapInfo[t.nIdCount := info], t.vvNew, t.nIdCount)
  {
    var id := t.nIdCount;
    assert id !in t.mapInfo;
    hide RandomOk, AddrOk, TriedOk, CountsOk, InfosOk;
    assert forall b :: 0 <= b < |t.vvNew| ==> id !in t.vvNew[b];
    assert Holders(t.vvNew, id) == {};
    hide Holders;
  }

  /** Taking one more reference makes the id pending. */
  lemma TakeRef(t: Tables, id: int)
    requires Consistent(t, NOBODY) && id in t.mapInfo && !t.mapInfo[id].fInTried
    requires t.mapInfo[id].nRefCount < NEW_BUCKETS_PER_ADDRESS
    ensures Consistent(t.(mapInfo := t.mapInfo[id := t.mapInfo[id].(nRefCount := t.mapInfo[id].nRefCount + 1)]), id)
  {
    var m := t.mapInfo;
    var m' := m[id := m[id].(nRefCount := m[id].nRefCount + 1)];
    assert NewIds(m') == NewIds(m);
    assert TriedIds(m') == TriedIds(m);
    assert forall x :: x in m' <==> x in m;
  }

  /** Putting the pending id into a bucket settles it. */
  lemma InsertKeeps(t: Tables, b: nat, id: int)
    requires Consistent(t, id) && id != NOBODY && b < |t.vvNew| && id !in t.vvNew[b] && |t.vvNew[b]| < NEW_BUCKET_SIZE
    ensures Consistent(t.(vvNew := t.vvNew[b := t.vvNew[b] + {id}]), NOBODY)
  {
    HoldersInsert(t.vvNew, b, id);
    assert b !in Holders(t.vvNew, id);
  }

  // ---------- dropping a reference ----------

  /** Dropping a reference that is not the last one. */
  lemma DropRef(t: Tables, b: nat, id: int, pending: int)
    requires Consistent(t, pending) && id != pending && b < |t.vvNew| && id in t.vvNew[b]
    requires t.mapInfo[id].nRefCount > 1
    ensures Consistent(t.(mapInfo := t.mapInfo[id := t.mapInfo[id].(nRefCount := t.mapInfo[id].nRefCount - 1)],
                          vvNew := t.vvNew[b := t.vvNew[b] - {id}]), pending)
  {
    var m := t.mapInfo;
    var info := m[id].(nRefCount := m[id].nRefCount - 1);
    NonNegative(m, id, t.nIdCount);
    assert !m[id].fInTried;
    hide RandomOk, AddrOk, RefsOk, BucketsOk, TriedOk, InfosOk, NewIds, TriedIds, AllTried, Holders;
    KeepPlace(m, id, info, t.vRandom, t.mapAddr);
    InfoChange(m, id, info, t.nIdCount);
    SameFlags(m, id, info, t.vvTried, t.nNew, t.nTried);
    RefsDrop(m, t.vvNew, b, id, info, pending);
    BucketsDrop(m, m[id := info], t.vvNew, t.vvTried, b, id);
  }

  /** The reference count does not matter to the "tried" table and the counters. */
  lemma SameFlags(m: InfoMap, id: int, info: Info, vvTried: seq<seq<int>>, nNew: int, nTried: int)
    requires id in m && info.fInTried == m[id].fInTried
    ensures TriedOk(m, vvTried) ==> TriedOk(m[id := info], vvTried)
    ensures CountsOk(m, nNew, nTried) ==> CountsOk(m[id := info], nNew, nTried)
  {
    hide AllTried;
    assert NewIds(m[id := info]) == NewIds(m);
    assert TriedIds(m[id := info]) == TriedIds(m);
  }

  lemma RefsDrop(m: InfoMap, vvNew: seq<set<int>>, b: nat, id: int, info: Info, pending: int)
    requires RefsOk(m, vvNew, pending) && id in m && id != pending && b < |vvNew| && id in vvNew[b]
    requires m[id].nRefCount > 1 && info == m[id].(nRefCount := m[id].nRefCount - 1)
    ensures RefsOk(m[id := info], vvNew[b := vvNew[b] - {id}], pending)
  {
    HoldersRemove(vvNew, b, id);
    assert b in Holders(vvNew, id);
    hide Holders;
  }

  lemma BucketsDrop(m: InfoMap, m': InfoMap, vvNew: seq<set<int>>, vvTried: seq<seq<int>>, b: nat, id: int)
    requires BucketsOk(m, vvNew, vvTried) && m'.Keys == m.Keys && b < |vvNew|
    ensures BucketsOk(m', vvNew[b := vvNew[b] - {id}], vvTried)
  {
    if id !in vvNew[b] { assert vvNew[b] - {id} == vvNew[b]; }
  }

  /** Dropping the last reference, with the entry already in the last place of vRandom. */
  lemma DropLast(t: Tables, b: nat, id: int, pending: int)
    requires Consistent(t, pending) && id != pending && b < |t.vvNew| && id in t.vvNew[b]
    requires t.mapInfo[id].nRefCount == 1 && t.mapInfo[id].nRandomPos == |t.vRandom| - 1
    ensures !t.mapInfo[id].fInTried
    ensures Consistent(t.(mapInfo := t.mapInfo - {id}, mapAddr := t.mapAddr - {t.mapInfo[id].service.addr},
                          vRandom := t.vRandom[..|t.vRandom| - 1], nNew := t.nNew - 1,
                          vvNew := t.vvNew[b := t.vvNew[b] - {id}]), pending)
  {
    var m := t.mapInfo;
    assert RefsOk(m, t.vvNew, pending) && id in m;
    LastHolder(m, t.vvNew, b, id, pending);
    hide RandomOk, AddrOk, RefsOk, BucketsOk, TriedOk, NewIds, TriedIds, AllTried, Holders;
    PopKeeps(m, t.vRandom, id);
    ForgetAddr(m, t.mapAddr, id);
    BucketsForget(m, t.vvNew, t.vvTried, b, id);
    CountsForget(m, id, t.vvTried);
  }

  /** The last bucket of an id. */
  lemma LastHolder(m: InfoMap, vvNew: seq<set<int>>, b: nat, id: int, pending: int)
    requires RefsOk(m, vvNew, pending) && id in m && id != pending && b < |vvNew| && id in vvNew[b] &&
      m[id].nRefCount == 1
    ensures !m[id].fInTried
    ensures Holders(vvNew, id) == {b}
    ensures RefsOk(m - {id}, vvNew[b := vvNew[b] - {id}], pending)
  {
    HoldersRemove(vvNew, b, id);
    assert b in Holders(vvNew, id);
    assert |Holders(vvNew, id) - {b}| == 0;
    hide Holders;
  }

  lemma BucketsForget(m: InfoMap, vvNew: seq<set<int>>, vvTried: seq<seq<int>>, b: nat, id: int)
    requires BucketsOk(m, vvNew, vvTried) && b < |vvNew| && Holders(vvNew, id) == {b}
    ensures BucketsOk(m - {id}, vvNew[b := vvNew[b] - {id}], vvTried)
  {
    forall c | 0 <= c < |vvNew| && c != b
      ensures id !in vvNew[c]
    {
      assert c !in Holders(vvNew, id);
    }
    assert b in Holders(vvNew, id);
  }

  lemma CountsForget(m: InfoMap, id: int, vvTried: seq<seq<int>>)
    requires id in m && !m[id].fInTried
    ensures |NewIds(m - {id})| == |NewIds(m)| - 1 && TriedIds(m - {id}) == TriedIds(m)
    ensures TriedOk(m, vvTried) ==> TriedOk(m - {id}, vvTried)
  {
    hide AllTried;
    assert id in NewIds(m);
    assert NewIds(m - {id}) == NewIds(m) - {id};
    assert TriedIds(m - {id}) == TriedIds(m);
  }

  // ---------- moving to "tried" ----------

  /** The effect on the "tried" table of appending id to bucket k. */
  lemma TriedAppend(m: InfoMap, vv: seq<seq<int>>, id: int, k: nat, info: Info)
    requires TriedOk(m, vv) && k < |vv| && id in m && !m[id].fInTried && info.fInTried
    ensures TriedOk(m[id := info], vv[k := vv[k] + [id]])
  {
    var vv' := vv[k := vv[k] + [id]];
    AllTriedUpdate(vv, k, vv[k] + [id]);
    hide AllTried;
    forall x
      ensures AllTried(vv')[x] == AllTried(vv)[x] + (if x == id then 1 else 0)
    {
    }
  }

  /** The effect of putting id in the place of o. */
  lemma TriedReplace(m: InfoMap, vv: seq<seq<int>>, id: int, k: nat, pos: nat, info: Info, infoOld: Info)
    requires TriedOk(m, vv) && k < |vv| && pos < |vv[k]| && id in m && !m[id].fInTried && info.fInTried
    requires vv[k][pos] in m && m[vv[k][pos]].fInTried && !infoOld.fInTried
    ensures TriedOk(m[vv[k][pos] := infoOld][id := info], vv[k := vv[k][pos := id]])
  {
    hide AllTried;
    var o := vv[k][pos];
    var vv' := vv[k := vv[k][pos := id]];
    assert multiset(vv[k][pos := id]) == multiset(vv[k]) - multiset{o} + multiset{id};
    assert multiset(vv[k])[o] >= 1 by { assert o in vv[k]; }
    AllTriedUpdate(vv, k, vv[k][pos := id]);
    forall x
      ensures AllTried(vv')[x] == AllTried(vv)[x] + (if x == id then 1 else 0) - (if x == o then 1 else 0)
    {
    }
  }

  /** Marking an id as tried, without references. */
  lemma CountTried(m: InfoMap, id: int, info: Info)
    requires id in m && !m[id].fInTried && info.fInTried
    ensures NewIds(m[id := info]) == NewIds(m) - {id}
    ensures TriedIds(m[id := info]) == TriedIds(m) + {id}
    ensures |NewIds(m[id := info])| == |NewIds(m)| - 1 && |TriedIds(m[id := info])| == |TriedIds(m)| + 1
  {
    assert id in NewIds(m) && id !in TriedIds(m);
  }

  /** Marking an id as new again. */
  lemma CountNew(m: InfoMap, id: int, info: Info)
    requires id in m && m[id].fInTried && !info.fInTried
    ensures |NewIds(m[id := info])| == |NewIds(m)| + 1 && |TriedIds(m[id := info])| == |TriedIds(m)| - 1
  {
    assert id in TriedIds(m) && id !in NewIds(m);
    assert NewIds(m[id := info]) == NewIds(m) + {id};
    assert TriedIds(m[id := info]) == TriedIds(m) - {id};
  }

  /** An entry that keeps its address and place can change freely otherwise. */
  lemma KeepPlace(m: InfoMap, id: int, info: Info, vRandom: seq<int>, mapAddr: map<NetAddr, int>)
    requires id in m && info.service.addr == m[id].service.addr && info.nRandomPos == m[id].nRandomPos
    ensures m[id := info].Keys == m.Keys
    ensures RandomOk(m, vRandom) ==> RandomOk(m[id := info], vRandom)
    ensures AddrOk(m, mapAddr) ==> AddrOk(m[id := info], mapAddr)
  {
  }

  lemma RefsToTried(m: InfoMap, vvNew: seq<set<int>>, vvNew': seq<set<int>>, id: int, info: Info)
    requires RefsOk(m, vvNew, NOBODY) && id in m && info.fInTried && info.nRefCount == 0
    requires |vvNew'| == |vvNew| && forall b :: 0 <= b < |vvNew'| ==> vvNew'[b] == vvNew[b] - {id}
    requires id != NOBODY
    ensures RefsOk(m[id := info], vvNew', NOBODY)
  {
    WithoutHolders(vvNew, vvNew', id);
    hide Holders;
  }

  /** An id without "new" buckets gets its first one. */
  lemma RefsToNew(m: InfoMap, vvNew: seq<set<int>>, c: nat, id: int, info: Info)
    requires RefsOk(m, vvNew, NOBODY) && id in m && Holders(vvNew, id) == {} && id != NOBODY
    requires !info.fInTried && info.nRefCount == 1 && c < |vvNew|
    ensures RefsOk(m[id := info], vvNew[c := vvNew[c] + {id}], NOBODY)
  {
    HoldersInsert(vvNew, c, id);
    hide Holders;
  }

  lemma BucketsAppend(
      m: InfoMap, m': InfoMap, vvNew: seq<set<int>>, vvNew': seq<set<int>>, vv: seq<seq<int>>, id: int, k: nat)
    requires BucketsOk(m, vvNew, vv) && m'.Keys == m.Keys
    requires |vvNew'| == |vvNew| && forall b :: 0 <= b < |vvNew'| ==> vvNew'[b] == vvNew[b] - {id}
    requires k < |vv| && |vv[k]| < TRIED_BUCKET_SIZE
    ensures BucketsOk(m', vvNew', vv[k := vv[k] + [id]])
  {
    WithoutHolders(vvNew, vvNew', id);
    hide Holders;
  }

  lemma BucketsReplace(m: InfoMap, m': InfoMap, vvNew: seq<set<int>>, vvNew': seq<set<int>>, vv: seq<seq<int>>,
                       id: int, k: nat, pos: nat, c: nat)
    requires BucketsOk(m, vvNew, vv) && m'.Keys == m.Keys
    requires |vvNew'| == |vvNew| && forall b :: 0 <= b < |vvNew'| ==> vvNew'[b] == vvNew[b] - {id}
    requires k < |vv| && pos < |vv[k]| && vv[k][pos] in m && c < |vvNew'| && |vvNew'[c]| < NEW_BUCKET_SIZE
    ensures BucketsOk(m', vvNew'[c := vvNew'[c] + {vv[k][pos]}], vv[k := vv[k][pos := id]])
  {
    WithoutHolders(vvNew, vvNew', id);
    hide Holders;
  }

  lemma NonNegative(m: InfoMap, id: int, nIdCount: int)
    requires InfosOk(m, nIdCount) && id in m
    ensures 0 <= id < nIdCount
  {
  }

  lemma InfoChange(m: InfoMap, id: int, info: Info, nIdCount: int)
    requires InfosOk(m, nIdCount) && id in m
    ensures InfosOk(m[id := info], nIdCount)
    ensures id != NOBODY
  {
  }

  /** Without its "new" buckets, an id can take a free place in a "tried" bucket. */
  lemma AppendTried(t: Tables, vvNew': seq<set<int>>, id: int, k: nat, info: Info)
    requires Consistent(t, NOBODY) && id in t.mapInfo && !t.mapInfo[id].fInTried
    requires |vvNew'| == |t.vvNew| && forall b :: 0 <= b < |vvNew'| ==> vvNew'[b] == t.vvNew[b] - {id}
    requires k < |t.vvTried| && |t.vvTried[k]| < TRIED_BUCKET_SIZE
    requires info == t.mapInfo[id].(nRefCount := 0, fInTried := true)
    ensures Consistent(t.(mapInfo := t.mapInfo[id := info], vvNew := vvNew', nNew := t.nNew - 1, nTried := t.nTried + 1,
                          vvTried := t.vvTried[k := t.vvTried[k] + [id]]), NOBODY)
  {
    NonNegative(t.mapInfo, id, t.nIdCount);
    hide TriedOk, RefsOk, RandomOk, AddrOk, BucketsOk, InfosOk, NewIds, TriedIds, Holders, AllTried;
    InfoChange(t.mapInfo, id, info, t.nIdCount);
    TriedAppend(t.mapInfo, t.vvTried, id, k, info);
    CountTried(t.mapInfo, id, info);
    KeepPlace(t.mapInfo, id, info, t.vRandom, t.mapAddr);
    RefsToTried(t.mapInfo, t.vvNew, vvNew', id, info);
    BucketsAppend(t.mapInfo, t.mapInfo[id := info], t.vvNew, vvNew', t.vvTried, id, k);
  }

  lemma WithoutHolders(vvNew: seq<set<int>>, vvNew': seq<set<int>>, id: int)
    requires |vvNew'| == |vvNew| && forall b :: 0 <= b < |vvNew'| ==> vvNew'[b] == vvNew[b] - {id}
    ensures Holders(vvNew', id) == {}
    ensures forall x :: x != id ==> Holders(vvNew', x) == Holders(vvNew, x)
    ensures forall b :: 0 <= b < |vvNew| ==> |vvNew'[b]| == |vvNew[b]| - (if id in vvNew[b] then 1 else 0)
  {
    forall b | 0 <= b < |vvNew|
      ensures |vvNew'[b]| == |vvNew[b]| - (if id in vvNew[b] then 1 else 0)
    {
      if id !in vvNew[b] { assert vvNew'[b] == vvNew[b]; }
    }
  }

  /** Or it takes the place of another id, which goes back to "new" bucket c. */
  lemma ReplaceTried(t: Tables, vvNew': seq<set<int>>, id: int, k: nat, pos: nat, c: nat, info: Info, infoOld: Info)
    requires Consistent(t, NOBODY) && id in t.mapInfo && !t.mapInfo[id].fInTried
    requires |vvNew'| == |t.vvNew| && forall b :: 0 <= b < |vvNew'| ==> vvNew'[b] == t.vvNew[b] - {id}
    requires k < |t.vvTried| && pos < |t.vvTried[k]| && c < |vvNew'| && |vvNew'[c]| < NEW_BUCKET_SIZE
    requires t.vvTried[k][pos] in t.mapInfo
    requires info == t.mapInfo[id].(nRefCount := 0, fInTried := true)
    requires infoOld == t.mapInfo[t.vvTried[k][pos]].(nRefCount := 1, fInTried := false)
    ensures
      var o := t.vvTried[k][pos];
      Consistent(t.(mapInfo := t.mapInfo[o := infoOld][id := info], vvNew := vvNew'[c := vvNew'[c] + {o}],
                    vvTried := t.vvTried[k := t.vvTried[k][pos := id]]), NOBODY)
  {
    var m, o := t.mapInfo, t.vvTried[k][pos];
    hide TriedOk, RefsOk, RandomOk, AddrOk, BucketsOk, InfosOk, NewIds, TriedIds, Holders, AllTried;
    OneTriedPlace(t, k, pos);
    NonNegative(m, id, t.nIdCount);
    NonNegative(m, o, t.nIdCount);
    WithoutHolders(t.vvNew, vvNew', id);
    var m1 := m[id := info];
    var m' := m1[o := infoOld];
    assert m[o := infoOld][id := info] == m';
    TriedReplace(m, t.vvTried, id, k, pos, info, infoOld);
    CountTried(m, id, info);
    CountNew(m1, o, infoOld);
    KeepPlace(m, id, info, t.vRandom, t.mapAddr);
    KeepPlace(m1, o, infoOld, t.vRandom, t.mapAddr);
    InfoChange(m, id, info, t.nIdCount);
    InfoChange(m1, o, infoOld, t.nIdCount);
    RefsToTried(m, t.vvNew, vvNew', id, info);
    RefsToNew(m1, vvNew', c, o, infoOld);
    BucketsReplace(m, m', t.vvNew, vvNew', t.vvTried, id, k, pos, c);
  }

  /** Whatever sits in a "tried" bucket is a known id marked as tried. */
  lemma OneTriedPlace(t: Tables, k: nat, pos: nat)
    requires Consistent(t, NOBODY) && k < |t.vvTried| && pos < |t.vvTried[k]|
    ensures t.vvTried[k][pos] in t.mapInfo && t.mapInfo[t.vvTried[k][pos]].fInTried
    ensures t.mapInfo[t.vvTried[k][pos]].nRefCount == 0
    ensures Holders(t.vvNew, t.vvTried[k][pos]) == {}
  {
    var o := t.vvTried[k][pos];
    assert o in t.vvTried[k];
    InSomeBucket(t.vvTried, o);
  }

  // ---------- statistics and positions ----------

  lemma SwapConsistent(t: Tables, p: int, q: int, pending: int)
    requires Consistent(t, pending) && 0 <= p < |t.vRandom| && 0 <= q < |t.vRandom| && p != q
    ensures
      var a, b := t.vRandom[p], t.vRandom[q];
      && a in t.mapInfo && b in t.mapInfo && a != b
      && Consistent(t.(mapInfo := t.mapInfo[a := t.mapInfo[a].(nRandomPos := q)][b := t.mapInfo[b].(nRandomPos := p)],
                       vRandom := t.vRandom[p := b][q := a]), pending)
  {
    SwapKeeps(t.mapInfo, t.vRandom, p, q);
    var m, a, b := t.mapInfo, t.vRandom[p], t.vRandom[q];
    hide RandomOk, AddrOk, RefsOk, BucketsOk, TriedOk, CountsOk;
    var m' := m[a := m[a].(nRandomPos := q)][b := m[b].(nRandomPos := p)];
    RolesDecide(m, m', t.mapAddr, t.vvNew, t.vvTried, t.nNew, t.nTried, pending);
  }

  /** New statistics for one entry. */
  lemma TouchKeeps(t: Tables, id: int, info: Info, pending: int)
    requires Consistent(t, pending) && id in t.mapInfo
    requires SameRole(t.mapInfo[id], info) && info.nRandomPos == t.mapInfo[id].nRandomPos
    ensures Consistent(t.(mapInfo := t.mapInfo[id := info]), pending)
  {
    var m := t.mapInfo;
    KeepPlace(m, id, info, t.vRandom, t.mapAddr);
    InfoChange(m, id, info, t.nIdCount);
    hide RandomOk, AddrOk, RefsOk, BucketsOk, TriedOk, CountsOk, InfosOk;
    RolesDecide(m, m[id := info], t.mapAddr, t.vvNew, t.vvTried, t.nNew, t.nTried, pending);
  }

  /** Reordering a "tried" bucket. */
  lemma ShuffleKeeps(t: Tables, k: nat, s: seq<int>)
    requires Consistent(t, NOBODY) && k < |t.vvTried| && multiset(s) == multiset(t.vvTried[k])
    ensures |s| == |t.vvTried[k]|
    ensures Consistent(t.(vvTried := t.vvTried[k := s]), NOBODY)
  {
    hide RandomOk, AddrOk, RefsOk, CountsOk, InfosOk, AllTried;
    assert |s| == |multiset(s)| && |t.vvTried[k]| == |multiset(t.vvTried[k])|;
    AllTriedUpdate(t.vvTried, k, s);
    assert forall x :: AllTried(t.vvTried[k := s])[x] == AllTried(t.vvTried)[x];
  }
}
